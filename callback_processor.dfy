/**
 * `SimpleRestGwtProcessor`: lowers an interface annotated `@SimpleRestGwt`,
 * whose methods already take their callbacks, into a client that implements
 * the interface. Each method keeps its signature and passes its last
 * parameter, the callback, to `execute`; a method without parameters aborts
 * the interface.
 */
module CallbackProcessor {
  import opened Wrappers
  import opened JavaValues
  import opened QueryString
  import opened Descriptors

  /** The message of the `RuntimeException` for a method without parameters. */
  function NoCallbackMessage(methodName: string): string {
    "Must be a callback parameter at minimum in method <" + methodName + ">"
  }

  /** The leading calls: verb and path; this processor emits no produces or consumes. */
  function Head(m: MethodDecl): seq<Call> {
    [MethodCall(EmittedVerb(ResolveVerb(m.annotations))),
     PathCall(ResolvePath(m.path, m.params))]
  }

  /** The body parameter: the first parameter that is not annotated, the last one (the callback) excluded. */
  function DataParameter(params: seq<Parameter>): (r: Option<nat>)
    requires |params| > 0
    ensures r.Some? ==> r.value < |params| - 1
  {
    FirstUnbound(params[..|params| - 1])
  }

  /**
   * The builder chain of a method's body: verb, path, the query, header and
   * form calls, the data call if there is a body parameter, and
   * `execute(<last parameter>)`; a method without parameters throws.
   */
  function Chain(m: MethodDecl): Result<seq<Call>, Exception> {
    if |m.params| == 0 then Failure(Runtime(NoCallbackMessage(m.name)))
    else Success(Assemble(Head(m), m.params, DataParameter(m.params), ExecuteCall([m.params[|m.params| - 1].name])))
  }

  /** The generated method: a throwing override when it is incompatible, the overriding method with the chain as body otherwise. */
  function LowerMethod(m: MethodDecl): Result<GeneratedMethod, Exception> {
    match IncompatibleAnnotation(m.annotations)
    case Some(a) =>
      var sig := Overriding(m);
      Success(Throwing(sig.(annotations := sig.annotations + [a.typeName]), m.name))
    case None =>
      match Chain(m)
      case Failure(e) => Failure(e)
      case Success(c) => Success(Delegating(Overriding(m), c))
  }

  /** `processRestService`: the generated client, implementing the interface, or the exception that aborts it. */
  function LowerService(s: ServiceDecl): Result<ClientClass, Exception> {
    ServiceOf(s, LowerMethod, Some(QualifiedName(s)))
  }

  // ---------------------------------------------------------------------------
  // Properties of one generated method
  // ---------------------------------------------------------------------------

  /** A compatible method fails exactly when it has no parameters, with the message naming it. */
  lemma CallbackRequired(m: MethodDecl)
    ensures Chain(m).Failure? <==> |m.params| == 0
    ensures Chain(m).Failure? ==> Chain(m).error == Runtime(NoCallbackMessage(m.name))
    ensures IncompatibleAnnotation(m.annotations).None? ==> (LowerMethod(m).Failure? <==> |m.params| == 0)
  {
  }

  /**
   * The chain starts with the verb and the path, has no produces or consumes
   * call, comes grouped by kind in the fixed order, and ends with the only
   * `execute`, which passes the last parameter and nothing else.
   */
  lemma ChainShape(m: MethodDecl)
    requires |m.params| > 0
    ensures Chain(m).Success?
    ensures var c := Chain(m).value;
      && |c| >= 3 && Ordered(c)
      && c[0] == MethodCall(EmittedVerb(ResolveVerb(m.annotations)))
      && c[1] == PathCall(ResolvePath(m.path, m.params))
      && c[|c| - 1] == ExecuteCall([m.params[|m.params| - 1].name])
      && (forall i :: 0 <= i < |c| - 1 ==> !c[i].ExecuteCall?)
      && forall i :: 0 <= i < |c| ==> !c[i].ProducesCall? && !c[i].ConsumesCall?
  {
    var head := Head(m);
    var data := DataParameter(m.params);
    var last := ExecuteCall([m.params[|m.params| - 1].name]);
    assert Ordered(head) && RanksAtMost(head, 3);
    AssembleShape(head, m.params, data, last);
    AssembleAfterHead(head, m.params, data, last);
    var c := Chain(m).value;
    assert c[0] == c[..2][0] && c[1] == c[..2][1];
  }

  /**
   * The body parameter: when the `j`-th parameter is the first one without a
   * JAX-RS parameter annotation and it is not the last, the chain holds
   * exactly one data call, for it, just before `execute`.
   */
  lemma DataIsFirstUnboundBeforeLast(m: MethodDecl, j: nat)
    requires j < |m.params| - 1 && !IsParam(m.params[j])
    requires forall k :: 0 <= k < j ==> IsParam(m.params[k])
    ensures Chain(m).Success?
    ensures var c := Chain(m).value;
      && |c| >= 2 && c[|c| - 2] == DataCall(m.params[j].name)
      && forall i :: 0 <= i < |c| && i != |c| - 2 ==> !c[i].DataCall?
  {
    DataParameterIs(m.params, j);
    AssembleData(Head(m), m.params, Some(j), ExecuteCall([m.params[|m.params| - 1].name]));
  }

  /** The body parameter is the first parameter, the last excepted, without a JAX-RS parameter annotation. */
  lemma DataParameterIs(params: seq<Parameter>, j: nat)
    requires j < |params| - 1 && !IsParam(params[j])
    requires forall k :: 0 <= k < j ==> IsParam(params[k])
    ensures DataParameter(params) == Some(j)
  {
    var init := params[..|params| - 1];
    assert init[j] == params[j];
    assert forall k :: 0 <= k < j ==> init[k] == params[k];
    FirstUnboundIs(init, j);
  }

  /**
   * When every parameter but the last is annotated, the chain has no data
   * call, whether or not the last parameter is annotated.
   */
  lemma NoDataBesidesCallback(m: MethodDecl)
    requires |m.params| > 0
    requires forall k :: 0 <= k < |m.params| - 1 ==> IsParam(m.params[k])
    ensures Chain(m).Success?
    ensures forall i :: 0 <= i < |Chain(m).value| ==> !Chain(m).value[i].DataCall?
  {
    var init := m.params[..|m.params| - 1];
    assert forall k :: 0 <= k < |init| ==> init[k] == m.params[k];
    AssembleData(Head(m), m.params, None, ExecuteCall([m.params[|m.params| - 1].name]));
  }

  /**
   * The query, header and form calls: a call for one of these roles with a
   * key and a name is in the chain exactly when some parameter carries the
   * role with that value and has that name.
   */
  lemma BindingsOfParams(m: MethodDecl, role: Role, key: string, name: string)
    requires |m.params| > 0 && EmittedRole(role)
    ensures Chain(m).Success?
    ensures BindingCall(role, key, name) in Chain(m).value
        <==> exists p :: p in m.params && role in p.bindings && p.bindings[role] == key && p.name == name
  {
    AssembleBindings(Head(m), m.params, DataParameter(m.params), ExecuteCall([m.params[|m.params| - 1].name]), role, key, name);
  }

  /**
   * What becomes of one method: an incompatible method gets the overriding
   * signature with its marker annotation and a body that throws with its name;
   * otherwise it keeps the overriding signature, with the chain as its body.
   */
  lemma LowerMethodCases(m: MethodDecl)
    ensures var r := LowerMethod(m);
      && ((r.Success? && r.value.Throwing?) <==> exists i :: 0 <= i < |m.annotations| && IsIncompatible(m.annotations[i]))
      && (r.Success? && r.value.Throwing? ==>
            && r.value.message == m.name
            && |r.value.sig.annotations| == 2 && r.value.sig.annotations[0] == OVERRIDE
            && EndsWith(r.value.sig.annotations[1], INCOMPATIBLE_SUFFIX)
            && r.value.sig.(annotations := [OVERRIDE]) == Overriding(m))
      && (r.Success? && r.value.Delegating? ==>
            && r.value.sig == Overriding(m) && Chain(m) == Success(r.value.chain))
  {
  }

  /**
   * A method `@POST @Path("a/b") void name(Body body, Done callback, ErrorCallback errorCallback)`
   * without parameter annotations: the body is the first parameter and only
   * the last one reaches `execute`.
   */
  lemma UnannotatedPostShape(m: MethodDecl, post: Annotation, a: string, b: string)
    requires m.annotations == [post] && post.httpMethod == Some("POST")
    requires a != "" && b != "" && '/' !in a && '/' !in b && a[0] != '{' && b[0] != '{'
    requires m.path == Some(a + "/" + b) && |m.params| == 3
    requires forall i :: 0 <= i < 3 ==> m.params[i].bindings == map[]
    ensures Chain(m) == Success([MethodCall(Bare("POST")), PathCall([Literal(a), Literal(b)]),
                                 DataCall(m.params[0].name), ExecuteCall([m.params[2].name])])
  {
    var head := Head(m);
    var last := ExecuteCall([m.params[2].name]);
    PostVerb(post);
    RelativeTwoSegments(a, b);
    var path := ResolvePath(m.path, m.params);
    assert ResolveSegment(a, m.params) == Literal(a) && ResolveSegment(b, m.params) == Literal(b);
    assert |path| == 2 && path[0] == Literal(a) && path[1] == Literal(b);
    assert path == [Literal(a), Literal(b)];
    assert head == [MethodCall(Bare("POST")), PathCall([Literal(a), Literal(b)])];
    FirstIsData(m.params);
    assert Chain(m) == Success(Assemble(head, m.params, Some(0), last));
    AssembleUnbound(head, m.params, last);
    assert head + [DataCall(m.params[0].name)] + [last]
        == [MethodCall(Bare("POST")), PathCall([Literal(a), Literal(b)]), DataCall(m.params[0].name), last];
  }

  /**
   * The example `@POST @Path("todo/store") void storeTodo(ToDoDTO todo,
   * SingleStringCallback callback, ErrorCallback errorCallback)`: the body is
   * `todo` and only `errorCallback` reaches `execute`.
   */
  lemma StoreTodoExample(m: MethodDecl, post: Annotation, todo: Parameter, callback: Parameter, errorCallback: Parameter)
    requires m.annotations == [post] && post.httpMethod == Some("POST")
    requires m.path == Some("todo/store") && m.params == [todo, callback, errorCallback]
    requires todo.bindings == map[] && callback.bindings == map[] && errorCallback.bindings == map[]
    ensures Chain(m) == Success([MethodCall(Bare("POST")), PathCall([Literal("todo"), Literal("store")]),
                                 DataCall(todo.name), ExecuteCall([errorCallback.name])])
  {
    assert "todo" + "/" + "store" == "todo/store";
    UnannotatedPostShape(m, post, "todo", "store");
  }

  lemma PostVerb(post: Annotation)
    requires post.httpMethod == Some("POST")
    ensures EmittedVerb(ResolveVerb([post])) == Bare("POST")
  {
    assert ResolveVerb([post]) == "POST";
  }

  /** With no annotated parameter, the chain is the leading calls, the data call for the first parameter and `execute`. */
  lemma AssembleUnbound(head: seq<Call>, params: seq<Parameter>, last: Call)
    requires |params| > 0
    requires forall i :: 0 <= i < |params| ==> params[i].bindings == map[]
    ensures Assemble(head, params, Some(0), last) == head + [DataCall(params[0].name)] + [last]
  {
    Unbound(params);
  }

  /** A first parameter without annotations, followed by the callback and more, is the body. */
  lemma FirstIsData(params: seq<Parameter>)
    requires |params| >= 2 && params[0].bindings == map[]
    ensures DataParameter(params) == Some(0)
  {
    assert !IsParam(params[..|params| - 1][0]);
  }


  lemma {:induction false} Unbound(params: seq<Parameter>)
    requires forall i :: 0 <= i < |params| ==> params[i].bindings == map[]
    ensures BoundTo(params, QueryParam) == [] && BoundTo(params, HeaderParam) == [] && BoundTo(params, FormParam) == []
  {
    if params != [] {
      Unbound(params[1..]);
    }
  }

  lemma RelativeTwoSegments(a: string, b: string)
    requires a != "" && b != "" && '/' !in a && '/' !in b
    ensures PathSegments(Some(a + "/" + b)) == [a, b]
  {
    var segs := [a, b];
    assert Join(segs, '/') == a + "/" + b by {
      assert Join(segs, '/') == segs[0] + "/" + Join(segs[1..], '/');
    }
    SegmentsRoundTrip(segs);
  }

  // ---------------------------------------------------------------------------
  // Properties of one interface and of a round
  // ---------------------------------------------------------------------------

  /**
   * An interface yields a client exactly when it has a `@Path` and none of
   * its lowered methods throws; the client is named after the interface with
   * the `SimpleRest` suffix, implements it, and holds one generated method per
   * lowered method, in order.
   */
  lemma ServiceSuccess(s: ServiceDecl)
    ensures var methods := Lowered(s.members);
      LowerService(s).Success?
      <==> s.path.Some? && forall i :: 0 <= i < |methods| ==> LowerMethod(methods[i]).Success?
    ensures var methods := Lowered(s.members);
      LowerService(s).Success? ==>
        var c := LowerService(s).value;
        && c.packageName == s.packageName && c.simpleName == s.simpleName + "SimpleRest"
        && c.superinterface == Some(QualifiedName(s)) && c.servicePath == s.path.value
        && |c.methods| == |methods|
        && forall i :: 0 <= i < |methods| ==> c.methods[i] == LowerMethod(methods[i]).value
  {
    ServiceOfSuccess(s, LowerMethod, Some(QualifiedName(s)));
  }

  /** A client imports exactly the standard verbs that its compatible methods use. */
  lemma ServiceImports(s: ServiceDecl, v: string)
    requires LowerService(s).Success?
    ensures v in LowerService(s).value.staticImports
        <==> v in HTTP_METHODS && exists i :: 0 <= i < |Lowered(s.members)| && EmitsVerb(Lowered(s.members)[i], v)
  {
    ClientImports(s);
    VerbImportsMembers(Lowered(s.members), v);
  }

  lemma ClientImports(s: ServiceDecl)
    requires LowerService(s).Success?
    ensures LowerService(s).value.staticImports == VerbImports(Lowered(s.members))
  {
    ServiceOfSuccess(s, LowerMethod, Some(QualifiedName(s)));
  }

  /**
   * A compatible method without parameters, preceded only by methods that
   * lower, aborts its interface with the `RuntimeException` naming it.
   */
  lemma ZeroParametersAbort(s: ServiceDecl, i: nat)
    requires s.path.Some? && i < |Lowered(s.members)|
    requires IncompatibleAnnotation(Lowered(s.members)[i].annotations).None? && |Lowered(s.members)[i].params| == 0
    requires forall j :: 0 <= j < i ==> LowerMethod(Lowered(s.members)[j]).Success?
    ensures LowerService(s) == Failure(Runtime(NoCallbackMessage(Lowered(s.members)[i].name)))
  {
    var methods := Lowered(s.members);
    assert LowerMethod(methods[i]) == Failure(Runtime(NoCallbackMessage(methods[i].name)));
    LowerAllFirstFailure(methods, LowerMethod, i);
  }

  /**
   * Such an interface becomes one ERROR diagnostic naming it and the
   * exception, and yields no file; the interfaces around it are processed as
   * if it were absent.
   */
  lemma ZeroParametersReported(a: seq<ServiceDecl>, s: ServiceDecl, b: seq<ServiceDecl>, i: nat)
    requires s.isInterface && s.path.Some? && i < |Lowered(s.members)|
    requires IncompatibleAnnotation(Lowered(s.members)[i].annotations).None? && |Lowered(s.members)[i].params| == 0
    requires forall j :: 0 <= j < i ==> LowerMethod(Lowered(s.members)[j]).Success?
    ensures Outcomes(a + [s] + b, LowerService).0 == Outcomes(a + b, LowerService).0
    ensures Outcomes(a + [s] + b, LowerService).1
         == Outcomes(a, LowerService).1
            + [UncaughtException(QualifiedName(s), Runtime(NoCallbackMessage(Lowered(s.members)[i].name)))]
            + Outcomes(b, LowerService).1
  {
    ZeroParametersAbort(s, i);
    FailureIsIsolated(a, s, b, LowerService);
  }

  // ---------------------------------------------------------------------------
  // The imperative lowering
  // ---------------------------------------------------------------------------

  /**
   * The `CodeBlock.Builder` calls for one method, in the source's order: the
   * verb's import is recorded before the check for the last parameter, which
   * throws when there is none.
   */
  method EmitChain(m: MethodDecl, methodImports: set<string>) returns (r: Result<seq<Call>, Exception>, imports: set<string>)
    ensures r == Chain(m)
    ensures imports == methodImports + ImportOf(ResolveVerb(m.annotations))
  {
    var emitted;
    emitted, imports := MethodImport(methodImports, ResolveVerb(m.annotations));
    var chain := [MethodCall(emitted)];
    chain := chain + [PathCall(ResolvePath(m.path, m.params))];
    assert chain == Head(m);
    chain := AppendBindingCalls(chain, m.params, QueryParam);
    chain := AppendBindingCalls(chain, m.params, HeaderParam);
    chain := AppendBindingCalls(chain, m.params, FormParam);
    if |m.params| == 0 {
      return Failure(Runtime(NoCallbackMessage(m.name))), imports;
    }
    var lastParam := m.params[|m.params| - 1];
    ghost var bound := chain;
    var data := DataParameter(m.params);
    if data.Some? {
      chain := chain + [DataCall(m.params[data.value].name)];
    }
    assert chain == bound + DataCalls(m.params, data);
    chain := chain + [ExecuteCall([lastParam.name])];
    r := Success(chain);
  }

  /** The body of the loop over the methods, for one method. */
  method LowerOne(m: MethodDecl, methodImports: set<string>)
    returns (r: Result<GeneratedMethod, Exception>, imports: set<string>)
    ensures r == LowerMethod(m)
    ensures r.Success? ==> imports == methodImports + OwnImport(m)
  {
    var incompatible := IncompatibleAnnotation(m.annotations);
    if incompatible.Some? {
      var sig := Overriding(m);
      return Success(Throwing(sig.(annotations := sig.annotations + [incompatible.value.typeName]), m.name)), methodImports;
    }
    var chain;
    chain, imports := EmitChain(m, methodImports);
    if chain.Failure? {
      return Failure(chain.error), imports;
    }
    r := Success(Delegating(Overriding(m), chain.value));
  }

  /**
   * `processRestService(restService)`: reads the interface path, then lowers
   * the methods one by one, collecting the generated methods and the static
   * imports; the first exception ends it.
   */
  method ProcessRestService(s: ServiceDecl) returns (r: Result<ClientClass, Exception>)
    ensures r == LowerService(s)
  {
    if s.path.None? {
      return Failure(NullPointer(None));
    }
    var methods := Lowered(s.members);
    var methodImports: set<string> := {};
    var generated: seq<GeneratedMethod> := [];
    for i := 0 to |methods|
      invariant LowerAll(methods[..i], LowerMethod) == Success(generated)
      invariant methodImports == VerbImports(methods[..i])
    {
      LowerAllStep(methods, i, LowerMethod, generated);
      VerbImportsStep(methods, i);
      var g;
      g, methodImports := LowerOne(methods[i], methodImports);
      if g.Failure? {
        return Failure(g.error);
      }
      generated := generated + [g.value];
    }
    assert methods[..|methods|] == methods;
    r := Success(ClientClass(s.packageName, s.simpleName + "SimpleRest", Some(QualifiedName(s)), s.path.value, generated, methodImports));
  }

  /** `process(...)`: every interface of the round, each on its own. */
  method Process(elements: seq<ServiceDecl>) returns (files: seq<ClientClass>, diagnostics: seq<Diagnostic>)
    ensures (files, diagnostics) == Outcomes(elements, LowerService)
  {
    files, diagnostics := [], [];
    for i := 0 to |elements|
      invariant (files, diagnostics) == Outcomes(elements[..i], LowerService)
    {
      TakeSnoc(elements, i);
      var s := elements[i];
      if s.isInterface {
        var r := ProcessRestService(s);
        if r.Success? {
          files := files + [r.value];
        } else {
          diagnostics := diagnostics + [UncaughtException(QualifiedName(s), r.error)];
        }
      }
    }
    assert elements[..|elements|] == elements;
  }
}
