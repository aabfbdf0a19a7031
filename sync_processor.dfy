/**
 * `SimpleRestGwtSyncProcessor`: lowers an interface annotated
 * `@SimpleRestGwtSync`, whose methods return their result, into a client whose
 * methods return void and take an `onDone` callback derived from the return
 * type and an `onError` callback instead.
 */
module SyncProcessor {
  import opened Wrappers
  import opened JavaValues
  import opened Descriptors

  const ON_DONE: string := "onDone"
  const ON_ERROR: string := "onError"

  /**
   * The type of the `onDone` parameter for a return type: void gives
   * `CompletableCallback`, `String` gives `SingleStringCallback`, a
   * `Collection` or `List` gives `MultipleCallback` of its first type argument,
   * and every other declared type `SingleCallback` of itself. A return type
   * that is not declared (a primitive, an array, a type variable) fails the
   * cast to `DeclaredType`; a raw `Collection` or `List` has no first type
   * argument to take.
   */
  function OnDoneType(t: TypeRef): (r: Result<TypeRef, Exception>)
    ensures t == VoidType <==> r == Success(DeclaredType(COMPLETABLE_CALLBACK, []))
    ensures t == DeclaredType(STRING, []) <==> r == Success(DeclaredType(SINGLE_STRING_CALLBACK, []))
    ensures r.Failure? <==> (!t.DeclaredType? && t != VoidType) || (t.DeclaredType? && t.qualifiedName in {COLLECTION, LIST} && t.args == [])
    ensures r.Failure? && t.DeclaredType? ==> r.error.IndexOutOfBounds?
    ensures r.Failure? && !t.DeclaredType? ==> r.error.ClassCast?
    ensures t.DeclaredType? && t.qualifiedName in {COLLECTION, LIST} && t.args != []
            ==> r == Success(DeclaredType(MULTIPLE_CALLBACK, [t.args[0]]))
    ensures t.DeclaredType? && t != DeclaredType(STRING, []) && t.qualifiedName !in {COLLECTION, LIST}
            ==> r == Success(DeclaredType(SINGLE_CALLBACK, [t]))
  {
    match t
    case VoidType => Success(DeclaredType(COMPLETABLE_CALLBACK, []))
    case DeclaredType(name, args) =>
      if t == DeclaredType(STRING, []) then Success(DeclaredType(SINGLE_STRING_CALLBACK, []))
      else if name == COLLECTION || name == LIST then
        if args == [] then Failure(IndexOutOfBounds("")) else Success(DeclaredType(MULTIPLE_CALLBACK, [args[0]]))
      else Success(DeclaredType(SINGLE_CALLBACK, [t]))
    case _ => Failure(ClassCast(""))
  }

  /**
   * The generated signature: the original name, modifiers without ABSTRACT
   * and DEFAULT, type variables and parameters, a void return type, and the
   * two callbacks appended last.
   */
  function SyncSignature(m: MethodDecl, onDone: TypeRef): Signature {
    Signature(m.name, [], Concrete(m.modifiers), m.typeVars, VoidType,
              Specs(m.params) + [ParamSpec(ON_DONE, onDone), ParamSpec(ON_ERROR, DeclaredType(ERROR_CALLBACK, []))],
              m.varargs)
  }

  /**
   * The builder chain of a method's body: verb, path, produces, consumes,
   * the query, header and form calls, the data call for the first unbound
   * parameter if there is one, and `execute(onDone, onError)`.
   */
  function Chain(m: MethodDecl, s: ServiceDecl): seq<Call> {
    Assemble(Head(m, s), m.params, FirstUnbound(m.params), ExecuteCall([ON_DONE, ON_ERROR]))
  }

  /** The leading calls: verb, path, produces, consumes. */
  function Head(m: MethodDecl, s: ServiceDecl): seq<Call> {
    [MethodCall(EmittedVerb(ResolveVerb(m.annotations))),
     PathCall(ResolvePath(m.path, m.params)),
     ProducesCall(Effective(m.produces, s.produces)),
     ConsumesCall(Effective(m.consumes, s.consumes))]
  }

  /**
   * javapoet's `MethodSpec.Builder.build()` refuses a varargs method whose
   * last parameter is not an array, and the generated signature always ends
   * with `onError`.
   */
  function VarargsMessage(name: string): string {
    "last parameter of varargs method " + name + " must be an array"
  }

  /**
   * The generated method for one method: a throwing override when it is
   * incompatible; otherwise the return type is mapped first, then the
   * signature is built, which fails for a varargs method; else the delegating
   * method.
   */
  function LowerMethod(m: MethodDecl, s: ServiceDecl): Result<GeneratedMethod, Exception> {
    match IncompatibleAnnotation(m.annotations)
    case Some(a) =>
      var sig := Overriding(m);
      Success(Throwing(sig.(annotations := sig.annotations + [a.typeName]), m.name))
    case None =>
      match OnDoneType(m.returnType)
      case Failure(e) => Failure(e)
      case Success(t) =>
        if m.varargs then Failure(IllegalArgument(VarargsMessage(m.name)))
        else Success(Delegating(SyncSignature(m, t), Chain(m, s)))
  }

  /** `LowerMethod` for the methods of one interface. */
  function MethodLowering(s: ServiceDecl): MethodDecl -> Result<GeneratedMethod, Exception> {
    m => LowerMethod(m, s)
  }

  /** `processRestService`: the generated client, or the exception that aborts the interface. */
  function LowerService(s: ServiceDecl): Result<ClientClass, Exception> {
    ServiceOf(s, MethodLowering(s), None)
  }

  // ---------------------------------------------------------------------------
  // Properties of one generated method
  // ---------------------------------------------------------------------------

  /**
   * The chain starts with the verb and the path, in that order, then the
   * effective produces and consumes; its calls come grouped by kind in the
   * fixed order, and it ends with the only `execute`, which passes `onDone`
   * and `onError`.
   */
  lemma ChainShape(m: MethodDecl, s: ServiceDecl)
    ensures var c := Chain(m, s);
      && |c| >= 5 && Ordered(c)
      && c[0] == MethodCall(EmittedVerb(ResolveVerb(m.annotations)))
      && c[1] == PathCall(ResolvePath(m.path, m.params))
      && c[2] == ProducesCall(Effective(m.produces, s.produces))
      && c[3] == ConsumesCall(Effective(m.consumes, s.consumes))
      && c[|c| - 1] == ExecuteCall([ON_DONE, ON_ERROR])
      && forall i :: 0 <= i < |c| - 1 ==> !c[i].ExecuteCall?
  {
    var head := Head(m, s);
    assert Ordered(head) && RanksAtMost(head, 3);
    AssembleShape(head, m.params, FirstUnbound(m.params), ExecuteCall([ON_DONE, ON_ERROR]));
    var c := Chain(m, s);
    assert c[0] == c[..4][0] && c[1] == c[..4][1] && c[2] == c[..4][2] && c[3] == c[..4][3];
  }

  /**
   * The body parameter: when the `j`-th parameter is the first one without a
   * JAX-RS parameter annotation, the chain holds exactly one data call, for
   * it, just before `execute`.
   */
  lemma DataIsFirstUnbound(m: MethodDecl, s: ServiceDecl, j: nat)
    requires j < |m.params| && !IsParam(m.params[j])
    requires forall k :: 0 <= k < j ==> IsParam(m.params[k])
    ensures var c := Chain(m, s);
      && |c| >= 2 && c[|c| - 2] == DataCall(m.params[j].name)
      && forall i :: 0 <= i < |c| && i != |c| - 2 ==> !c[i].DataCall?
  {
    FirstUnboundIs(m.params, j);
    AssembleData(Head(m, s), m.params, Some(j), ExecuteCall([ON_DONE, ON_ERROR]));
  }

  /** When every parameter is annotated, the chain has no data call. */
  lemma NoDataWhenAllBound(m: MethodDecl, s: ServiceDecl)
    requires forall k :: 0 <= k < |m.params| ==> IsParam(m.params[k])
    ensures forall i :: 0 <= i < |Chain(m, s)| ==> !Chain(m, s)[i].DataCall?
  {
    AssembleData(Head(m, s), m.params, None, ExecuteCall([ON_DONE, ON_ERROR]));
  }

  /**
   * The query, header and form calls: a call for one of these roles with a
   * key and a name is in the chain exactly when some parameter carries the
   * role with that value and has that name.
   */
  lemma BindingsOfParams(m: MethodDecl, s: ServiceDecl, role: Role, key: string, name: string)
    requires EmittedRole(role)
    ensures BindingCall(role, key, name) in Chain(m, s)
        <==> exists p :: p in m.params && role in p.bindings && p.bindings[role] == key && p.name == name
  {
    AssembleBindings(Head(m, s), m.params, FirstUnbound(m.params), ExecuteCall([ON_DONE, ON_ERROR]), role, key, name);
  }

  /**
   * The generated signature returns void, keeps the original parameters in
   * order and appends exactly `onDone`, of the mapped callback type, and
   * `onError`; ABSTRACT and DEFAULT are gone, every other modifier stays.
   */
  lemma SignatureShape(m: MethodDecl, onDone: TypeRef)
    ensures var sig := SyncSignature(m, onDone);
      && sig.name == m.name && sig.returnType == VoidType
      && |sig.params| == |m.params| + 2
      && (forall i :: 0 <= i < |m.params| ==> sig.params[i] == ParamSpec(m.params[i].name, m.params[i].typ))
      && sig.params[|m.params|] == ParamSpec(ON_DONE, onDone)
      && sig.params[|m.params| + 1] == ParamSpec(ON_ERROR, DeclaredType(ERROR_CALLBACK, []))
      && (forall x :: x in sig.modifiers <==> x in m.modifiers && x != Abstract && x != Default)
      && sig.typeVars == m.typeVars && sig.varargs == m.varargs
  {
  }

  /**
   * What becomes of one method: an incompatible method gets the overriding
   * signature with its marker annotation and a body that throws with its name;
   * otherwise it fails exactly when its return type cannot be mapped or it
   * is a varargs method, the mapping's exception taking precedence, and else
   * delegates to the chain with the mapped `onDone` type.
   */
  lemma LowerMethodCases(m: MethodDecl, s: ServiceDecl)
    ensures var r := LowerMethod(m, s);
      && ((r.Success? && r.value.Throwing?) <==> exists i :: 0 <= i < |m.annotations| && IsIncompatible(m.annotations[i]))
      && (r.Success? && r.value.Throwing? ==>
            && r.value.message == m.name
            && |r.value.sig.annotations| == 2 && r.value.sig.annotations[0] == OVERRIDE
            && EndsWith(r.value.sig.annotations[1], INCOMPATIBLE_SUFFIX)
            && r.value.sig.(annotations := [OVERRIDE]) == Overriding(m))
      && (r.Failure? <==> IncompatibleAnnotation(m.annotations).None? && (OnDoneType(m.returnType).Failure? || m.varargs))
      && (r.Failure? && OnDoneType(m.returnType).Failure? ==> r.error == OnDoneType(m.returnType).error)
      && (r.Failure? && OnDoneType(m.returnType).Success? ==> r.error == IllegalArgument(VarargsMessage(m.name)))
      && (r.Success? && r.value.Delegating? ==>
            && !m.varargs
            && r.value.chain == Chain(m, s)
            && r.value.sig == SyncSignature(m, OnDoneType(m.returnType).value))
  {
  }

  /**
   * The return types of the example service `ToDoServiceClientSync`:
   * `List<ToDoDTO>` and `Collection<ToDoDTO>` map to
   * `MultipleCallback<ToDoDTO>`, `ToDoDTO` to `SingleCallback<ToDoDTO>` and
   * void to `CompletableCallback`.
   */
  lemma ExampleCallbacks(dto: string)
    requires dto != STRING && dto != COLLECTION && dto != LIST
    ensures OnDoneType(DeclaredType(LIST, [DeclaredType(dto, [])]))
         == Success(DeclaredType(MULTIPLE_CALLBACK, [DeclaredType(dto, [])]))
    ensures OnDoneType(DeclaredType(COLLECTION, [DeclaredType(dto, [])]))
         == Success(DeclaredType(MULTIPLE_CALLBACK, [DeclaredType(dto, [])]))
    ensures OnDoneType(DeclaredType(dto, [])) == Success(DeclaredType(SINGLE_CALLBACK, [DeclaredType(dto, [])]))
    ensures OnDoneType(VoidType) == Success(DeclaredType(COMPLETABLE_CALLBACK, []))
  {
  }

  // ---------------------------------------------------------------------------
  // Properties of one interface
  // ---------------------------------------------------------------------------

  /**
   * An interface yields a client exactly when it has a `@Path` and none of
   * its lowered methods throws; the client is named after the interface with
   * the `SimpleRest` suffix and holds one generated method per lowered
   * method, in order.
   */
  lemma ServiceSuccess(s: ServiceDecl)
    ensures var methods := Lowered(s.members);
      LowerService(s).Success?
      <==> s.path.Some? && forall i :: 0 <= i < |methods| ==> LowerMethod(methods[i], s).Success?
    ensures var methods := Lowered(s.members);
      LowerService(s).Success? ==>
        var c := LowerService(s).value;
        && c.packageName == s.packageName && c.simpleName == s.simpleName + "SimpleRest"
        && c.superinterface.None? && c.servicePath == s.path.value
        && |c.methods| == |methods|
        && forall i :: 0 <= i < |methods| ==> c.methods[i] == LowerMethod(methods[i], s).value
  {
    ServiceOfSuccess(s, MethodLowering(s), None);
  }

  /** A client imports exactly the standard verbs that its compatible methods use. */
  lemma ServiceImports(s: ServiceDecl, v: string)
    requires LowerService(s).Success?
    ensures v in LowerService(s).value.staticImports
        <==> v in HTTP_METHODS && exists i :: 0 <= i < |Lowered(s.members)| && EmitsVerb(Lowered(s.members)[i], v)
  {
    ClientImports(s);
    VerbImportsMembers(Lowered(s.members), v);
  }

  lemma ClientImports(s: ServiceDecl)
    requires LowerService(s).Success?
    ensures LowerService(s).value.staticImports == VerbImports(Lowered(s.members))
  {
    ServiceOfSuccess(s, MethodLowering(s), None);
  }

  /**
   * An interface that fails throws the exception of its first method that
   * throws, or a `NullPointerException` when it has no `@Path`.
   */
  lemma ServiceFailure(s: ServiceDecl)
    requires LowerService(s).Failure?
    ensures s.path.None? ==> LowerService(s).error == NullPointer(None)
    ensures s.path.Some? ==>
              exists i :: (0 <= i < |Lowered(s.members)|
                && LowerMethod(Lowered(s.members)[i], s) == Failure(LowerService(s).error)
                && forall j :: 0 <= j < i ==> LowerMethod(Lowered(s.members)[j], s).Success?)
  {
    var i := ServiceOfFailure(s, MethodLowering(s), None);
  }

  // ---------------------------------------------------------------------------
  // The imperative lowering
  // ---------------------------------------------------------------------------

  /** The `CodeBlock.Builder` calls for one method, in the source's order, recording the verb's import. */
  method EmitChain(m: MethodDecl, s: ServiceDecl, methodImports: set<string>) returns (chain: seq<Call>, imports: set<string>)
    ensures chain == Chain(m, s)
    ensures imports == methodImports + ImportOf(ResolveVerb(m.annotations))
  {
    var emitted;
    emitted, imports := MethodImport(methodImports, ResolveVerb(m.annotations));
    chain := [MethodCall(emitted)];
    chain := chain + [PathCall(ResolvePath(m.path, m.params))];
    chain := chain + [ProducesCall(Effective(m.produces, s.produces))];
    chain := chain + [ConsumesCall(Effective(m.consumes, s.consumes))];
    assert chain == Head(m, s);
    chain := AppendBindingCalls(chain, m.params, QueryParam);
    chain := AppendBindingCalls(chain, m.params, HeaderParam);
    chain := AppendBindingCalls(chain, m.params, FormParam);
    ghost var bound := chain;
    var data := FirstUnbound(m.params);
    if data.Some? {
      chain := chain + [DataCall(m.params[data.value].name)];
    }
    assert chain == bound + DataCalls(m.params, data);
    chain := chain + [ExecuteCall([ON_DONE, ON_ERROR])];
  }

  /**
   * The body of the loop over the methods for one method: a throwing
   * override for an incompatible method; otherwise the chain, with the verb's
   * import recorded, and the signature, which fails for a return type the
   * mapping rejects and, once built, for a varargs method.
   */
  method LowerOne(m: MethodDecl, s: ServiceDecl, methodImports: set<string>)
    returns (r: Result<GeneratedMethod, Exception>, imports: set<string>)
    ensures r == LowerMethod(m, s)
    ensures imports == methodImports + OwnImport(m)
  {
    var incompatible := IncompatibleAnnotation(m.annotations);
    if incompatible.Some? {
      var sig := Overriding(m);
      return Success(Throwing(sig.(annotations := sig.annotations + [incompatible.value.typeName]), m.name)), methodImports;
    }
    var chain;
    chain, imports := EmitChain(m, s, methodImports);
    var onDone := OnDoneType(m.returnType);
    if onDone.Failure? {
      return Failure(onDone.error), imports;
    }
    if m.varargs {
      return Failure(IllegalArgument(VarargsMessage(m.name))), imports;
    }
    r := Success(Delegating(SyncSignature(m, onDone.value), chain));
  }

  /**
   * `processRestService(restService)`: reads the interface path, then lowers
   * the methods one by one, collecting the generated methods and the static
   * imports; the first exception ends it.
   */
  method ProcessRestService(s: ServiceDecl) returns (r: Result<ClientClass, Exception>)
    ensures r == LowerService(s)
  {
    if s.path.None? {
      return Failure(NullPointer(None));
    }
    var methods := Lowered(s.members);
    var methodImports: set<string> := {};
    var generated: seq<GeneratedMethod> := [];
    for i := 0 to |methods|
      invariant LowerAll(methods[..i], MethodLowering(s)) == Success(generated)
      invariant methodImports == VerbImports(methods[..i])
    {
      LowerAllStep(methods, i, MethodLowering(s), generated);
      VerbImportsStep(methods, i);
      var g;
      g, methodImports := LowerOne(methods[i], s, methodImports);
      if g.Failure? {
        return Failure(g.error);
      }
      generated := generated + [g.value];
    }
    assert methods[..|methods|] == methods;
    r := Success(ClientClass(s.packageName, s.simpleName + "SimpleRest", None, s.path.value, generated, methodImports));
  }

  /** `process(...)`: every interface of the round, each on its own. */
  method Process(elements: seq<ServiceDecl>) returns (files: seq<ClientClass>, diagnostics: seq<Diagnostic>)
    ensures (files, diagnostics) == Outcomes(elements, LowerService)
  {
    files, diagnostics := [], [];
    for i := 0 to |elements|
      invariant (files, diagnostics) == Outcomes(elements[..i], LowerService)
    {
      TakeSnoc(elements, i);
      var s := elements[i];
      if s.isInterface {
        var r := ProcessRestService(s);
        if r.Success? {
          files := files + [r.value];
        } else {
          diagnostics := diagnostics + [UncaughtException(QualifiedName(s), r.error)];
        }
      }
    }
    assert elements[..|elements|] == elements;
  }
}
