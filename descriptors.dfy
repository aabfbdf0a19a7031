/**
 * What the two annotation processors read and what they generate, and the
 * classification rules they share: the HTTP verb of a method, the resolution
 * of its `@Path` template against its `@PathParam` parameters, the bound and
 * unbound parameters, the `GwtIncompatible` marker and the static import of a
 * standard verb.
 *
 * A service interface and its methods are plain values here (the processors
 * read them through `javax.lang.model`); a generated client is the list of
 * generated methods, each with its signature and the chain of builder calls
 * its body makes.
 */
module Descriptors {
  import opened Wrappers
  import opened JavaValues
  import opened QueryString

  const GET: string := "GET"
  /** `HTTP_METHODS`: the verbs that have a constant in `javax.ws.rs.HttpMethod`. */
  const HTTP_METHODS: set<string> := {"GET", "POST", "PUT", "DELETE", "HEAD", "OPTIONS"}

  const STRING: string := "java.lang.String"
  const COLLECTION: string := "java.util.Collection"
  const LIST: string := "java.util.List"
  const COMPLETABLE_CALLBACK: string := "us.ascendtech.gwt.simplerest.client.CompletableCallback"
  const SINGLE_STRING_CALLBACK: string := "us.ascendtech.gwt.simplerest.client.SingleStringCallback"
  const SINGLE_CALLBACK: string := "us.ascendtech.gwt.simplerest.client.SingleCallback"
  const MULTIPLE_CALLBACK: string := "us.ascendtech.gwt.simplerest.client.MultipleCallback"
  const ERROR_CALLBACK: string := "us.ascendtech.gwt.simplerest.client.ErrorCallback"
  const OVERRIDE: string := "java.lang.Override"
  const INCOMPATIBLE_SUFFIX: string := "GwtIncompatible"

  // ---------------------------------------------------------------------------
  // What the processors read
  // ---------------------------------------------------------------------------

  /** The JAX-RS parameter annotations that make a parameter a bound one. */
  datatype Role = CookieParam | FormParam | HeaderParam | MatrixParam | PathParam | QueryParam

  datatype TypeRef =
    | VoidType
    | PrimitiveType(keyword: string)
    | ArrayType(component: TypeRef)
    | TypeVariable(name: string)
    | DeclaredType(qualifiedName: string, args: seq<TypeRef>)

  /** A method parameter: its name, its type and the value of each JAX-RS parameter annotation it carries. */
  datatype Parameter = Parameter(name: string, typ: TypeRef, bindings: map<Role, string>)

  /**
   * An annotation on a method: the name of its type and, when that type is
   * itself annotated with `@HttpMethod` (as `@GET` or `@POST` are), that value.
   */
  datatype Annotation = Annotation(typeName: string, httpMethod: Option<string>)

  datatype Modifier = Public | Protected | Private | Abstract | Default | Static | Final | Synchronized | Native | Strictfp

  /** A method of a service interface; `None` stands for an absent annotation. */
  datatype MethodDecl = MethodDecl(
    name: string,
    annotations: seq<Annotation>,
    path: Option<string>,
    produces: Option<seq<string>>,
    consumes: Option<seq<string>>,
    params: seq<Parameter>,
    returnType: TypeRef,
    modifiers: seq<Modifier>,
    typeVars: seq<string>,
    varargs: bool)

  /** An enclosed element of the interface: a method, or anything else (a constant, a nested type). */
  datatype Member = MethodMember(decl: MethodDecl) | OtherMember(name: string)

  /** An element carrying the processor's trigger annotation. */
  datatype ServiceDecl = ServiceDecl(
    packageName: string,
    simpleName: string,
    isInterface: bool,
    path: Option<string>,
    produces: Option<seq<string>>,
    consumes: Option<seq<string>>,
    members: seq<Member>)

  // ---------------------------------------------------------------------------
  // What the processors generate
  // ---------------------------------------------------------------------------

  /** The argument of `.method(...)`: a statically imported constant, or a string literal. */
  datatype VerbArg = Bare(constant: string) | Quoted(verb: string)

  /** One argument of `.path(...)`: a string literal, a parameter name, or the comment marker of an unmatched placeholder. */
  datatype PathArg = Literal(segment: string) | ParamRef(name: string) | Unmatched(placeholder: string)

  /** One call of the generated builder chain. String-valued arguments are kept unquoted. */
  datatype Call =
    | MethodCall(verb: VerbArg)
    | PathCall(segments: seq<PathArg>)
    | ProducesCall(types: seq<string>)
    | ConsumesCall(types: seq<string>)
    | ParamCall(key: string, arg: string)
    | HeaderCall(key: string, arg: string)
    | FormCall(key: string, arg: string)
    | DataCall(arg: string)
    | ExecuteCall(callbacks: seq<string>)

  datatype ParamSpec = ParamSpec(name: string, typ: TypeRef)

  datatype Signature = Signature(
    name: string,
    annotations: seq<string>,
    modifiers: seq<Modifier>,
    typeVars: seq<string>,
    returnType: TypeRef,
    params: seq<ParamSpec>,
    varargs: bool)

  /** A generated method: one that delegates to the builder chain, or one that throws `UnsupportedOperationException(message)`. */
  datatype GeneratedMethod =
    | Delegating(sig: Signature, chain: seq<Call>)
    | Throwing(sig: Signature, message: string)

  /**
   * The generated client `<simpleName>SimpleRest`, a subclass of
   * `SimpleRestClient` whose constructor passes `servicePath` on, with the
   * static imports of `HttpMethod` constants it uses.
   */
  datatype ClientClass = ClientClass(
    packageName: string,
    simpleName: string,
    superinterface: Option<string>,
    servicePath: string,
    methods: seq<GeneratedMethod>,
    staticImports: set<string>)

  /** The ERROR diagnostic for an interface whose processing threw. */
  datatype Diagnostic = UncaughtException(service: string, exception: Exception)

  function QualifiedName(s: ServiceDecl): string {
    if s.packageName == "" then s.simpleName else s.packageName + "." + s.simpleName
  }

  // ---------------------------------------------------------------------------
  // First match in a stream
  // ---------------------------------------------------------------------------

  /** `stream().filter(p).findFirst()` as an index: the first element satisfying `p`, if any. */
  function FirstIndex<T>(s: seq<T>, p: T -> bool): (r: Option<nat>)
    ensures r.Some? ==> r.value < |s| && p(s[r.value]) && forall j :: 0 <= j < r.value ==> !p(s[j])
    ensures r.None? <==> forall j :: 0 <= j < |s| ==> !p(s[j])
  {
    if s == [] then None
    else if p(s[0]) then Some(0)
    else
      match FirstIndex(s[1..], p)
      case None => None
      case Some(i) => Some(i + 1)
  }

  // ---------------------------------------------------------------------------
  // The verb
  // ---------------------------------------------------------------------------

  /** The value of the first annotation whose type carries `@HttpMethod`, or GET. */
  function ResolveVerb(annotations: seq<Annotation>): (verb: string)
    ensures (forall i :: 0 <= i < |annotations| ==> annotations[i].httpMethod.None?) ==> verb == GET
    ensures forall i :: 0 <= i < |annotations| && annotations[i].httpMethod.Some?
                        && (forall j :: 0 <= j < i ==> annotations[j].httpMethod.None?)
                        ==> verb == annotations[i].httpMethod.value
  {
    match FirstIndex(annotations, (a: Annotation) => a.httpMethod.Some?)
    case None => GET
    case Some(i) => annotations[i].httpMethod.value
  }

  /** What `methodImport` emits for a verb: the bare constant for a standard verb, a string literal otherwise. */
  function EmittedVerb(verb: string): (a: VerbArg)
    ensures a.Bare? <==> verb in HTTP_METHODS
    ensures a == Bare(verb) || a == Quoted(verb)
  {
    if verb in HTTP_METHODS then Bare(verb) else Quoted(verb)
  }

  /** The static import that `methodImport` records for a verb. */
  function ImportOf(verb: string): (r: set<string>)
    ensures r <= HTTP_METHODS
    ensures verb in r <==> verb in HTTP_METHODS
  {
    if verb in HTTP_METHODS then {verb} else {}
  }

  /**
   * `methodImport(methodImports, verb)`: a standard verb is added to the import
   * set and emitted bare, any other verb is emitted quoted and the set is left
   * as it is.
   */
  method MethodImport(methodImports: set<string>, verb: string) returns (emitted: VerbArg, imports: set<string>)
    ensures emitted == EmittedVerb(verb)
    ensures verb in HTTP_METHODS ==> imports == methodImports + {verb}
    ensures verb !in HTTP_METHODS ==> imports == methodImports
  {
    if verb in HTTP_METHODS {
      imports := methodImports + {verb};
      emitted := Bare(verb);
    } else {
      imports := methodImports;
      emitted := Quoted(verb);
    }
  }

  // ---------------------------------------------------------------------------
  // Parameters
  // ---------------------------------------------------------------------------

  /** `isParam`: the parameter carries one of the six JAX-RS parameter annotations. */
  predicate IsParam(p: Parameter) {
    CookieParam in p.bindings || FormParam in p.bindings || HeaderParam in p.bindings
    || MatrixParam in p.bindings || PathParam in p.bindings || QueryParam in p.bindings
  }

  /**
   * `Role` lists exactly the annotations `isParam` tests, so a parameter that
   * fails `isParam` carries none of them. (Other annotations, such as
   * `@BeanParam` or `@Context`, are not roles: a parameter with only those is
   * unbound here as in the source.)
   */
  lemma UnboundHasNoRole(p: Parameter, r: Role)
    requires !IsParam(p)
    ensures r !in p.bindings
  {
    match r
    case CookieParam =>
    case FormParam =>
    case HeaderParam =>
    case MatrixParam =>
    case PathParam =>
    case QueryParam =>
  }

  /**
   * The parameter that becomes the body has no binding at all, so the chain
   * never sends it both with `data` and as a query, header or form parameter.
   */
  lemma BodyIsUnbound(params: seq<Parameter>, role: Role)
    requires FirstUnbound(params).Some?
    ensures var p := params[FirstUnbound(params).value];
      p.bindings == map[] && p !in BoundTo(params, role)
  {
    var p := params[FirstUnbound(params).value];
    forall r: Role
      ensures r !in p.bindings
    {
      UnboundHasNoRole(p, r);
    }
    assert p.bindings.Keys == {};
  }

  /** The index of the first unbound parameter: the candidate for the body. */
  function FirstUnbound(params: seq<Parameter>): (r: Option<nat>)
    ensures r.Some? ==> r.value < |params| && !IsParam(params[r.value])
                        && forall j :: 0 <= j < r.value ==> IsParam(params[j])
    ensures r.None? <==> forall j :: 0 <= j < |params| ==> IsParam(params[j])
  {
    FirstIndex(params, (p: Parameter) => !IsParam(p))
  }

  lemma FirstUnboundIs(params: seq<Parameter>, j: nat)
    requires j < |params| && !IsParam(params[j])
    requires forall k :: 0 <= k < j ==> IsParam(params[k])
    ensures FirstUnbound(params) == Some(j)
  {
  }

  /** The `.data(name)` call for the parameter at index `r`, if there is one. */
  function DataCalls(params: seq<Parameter>, r: Option<nat>): seq<Call>
    requires r.Some? ==> r.value < |params|
  {
    match r
    case None => []
    case Some(i) => [DataCall(params[i].name)]
  }

  /** The roles that turn into builder calls, and the call each one makes. */
  predicate EmittedRole(role: Role) {
    role == QueryParam || role == HeaderParam || role == FormParam
  }

  function BindingCall(role: Role, key: string, name: string): Call
    requires EmittedRole(role)
  {
    match role
    case QueryParam => ParamCall(key, name)
    case HeaderParam => HeaderCall(key, name)
    case FormParam => FormCall(key, name)
  }

  /** The parameters that carry `role`, in declaration order. */
  function BoundTo(params: seq<Parameter>, role: Role): (r: seq<Parameter>)
    ensures forall i :: 0 <= i < |r| ==> role in r[i].bindings
  {
    if params == [] then []
    else (if role in params[0].bindings then [params[0]] else []) + BoundTo(params[1..], role)
  }

  lemma {:induction false} BoundToSnoc(params: seq<Parameter>, p: Parameter, role: Role)
    ensures BoundTo(params + [p], role) == BoundTo(params, role) + (if role in p.bindings then [p] else [])
  {
    if params != [] {
      var q := params + [p];
      var own := if role in params[0].bindings then [params[0]] else [];
      BoundToSnoc(params[1..], p, role);
      assert q[0] == params[0] && q[1..] == params[1..] + [p];
      assert BoundTo(q, role) == own + BoundTo(params[1..] + [p], role);
      assert BoundTo(params, role) == own + BoundTo(params[1..], role);
    }
  }

  /** One call for each parameter bound to `role`, with the annotation value as key and the parameter as argument. */
  function BindingCalls(params: seq<Parameter>, role: Role): (r: seq<Call>)
    requires EmittedRole(role)
  {
    var bound := BoundTo(params, role);
    seq(|bound|, i requires 0 <= i < |bound| => BindingCall(role, bound[i].bindings[role], bound[i].name))
  }

  lemma BindingCallsSnoc(params: seq<Parameter>, p: Parameter, role: Role)
    requires EmittedRole(role)
    ensures BindingCalls(params + [p], role)
         == BindingCalls(params, role) + (if role in p.bindings then [BindingCall(role, p.bindings[role], p.name)] else [])
  {
    BoundToSnoc(params, p, role);
  }

  /** The `forEach` over the parameters that appends one call per parameter bound to `role`, in declaration order. */
  method AppendBindingCalls(chain: seq<Call>, params: seq<Parameter>, role: Role) returns (out: seq<Call>)
    requires EmittedRole(role)
    ensures out == chain + BindingCalls(params, role)
  {
    out := chain;
    for i := 0 to |params|
      invariant out == chain + BindingCalls(params[..i], role)
    {
      BindingCallsSnoc(params[..i], params[i], role);
      TakeSnoc(params, i);
      if role in params[i].bindings {
        out := out + [BindingCall(role, params[i].bindings[role], params[i].name)];
      }
    }
    assert params[..|params|] == params;
  }

  // ---------------------------------------------------------------------------
  // Path templates
  // ---------------------------------------------------------------------------

  /** The non-empty strings of `parts`, in order. */
  function NonEmpty(parts: seq<string>): (r: seq<string>)
    ensures forall i :: 0 <= i < |r| ==> r[i] != ""
    ensures forall i :: 0 <= i < |r| ==> r[i] in parts
  {
    if parts == [] then []
    else (if parts[0] != "" then [parts[0]] else []) + NonEmpty(parts[1..])
  }

  /**
   * `path.split("/")` with the empty strings filtered out. Java's `split`
   * also drops trailing empty strings; the filter drops every empty string, so
   * the result is the same.
   */
  function PathSegments(path: Option<string>): seq<string> {
    NonEmpty(SplitOn(if path.Some? then path.value else "", '/'))
  }

  lemma {:induction false} SplitOnAvoids(t: string, sep: char)
    ensures forall i :: 0 <= i < |SplitOn(t, sep)| ==> sep !in SplitOn(t, sep)[i]
    decreases |t|
  {
    if t != [] {
      SplitOnAvoids(t[1..], sep);
    }
  }

  /** Every segment is non-empty and holds no `/`. */
  lemma SegmentsAreClean(path: Option<string>)
    ensures forall i :: 0 <= i < |PathSegments(path)| ==> PathSegments(path)[i] != "" && '/' !in PathSegments(path)[i]
  {
    var parts := SplitOn(if path.Some? then path.value else "", '/');
    SplitOnAvoids(if path.Some? then path.value else "", '/');
    forall i | 0 <= i < |PathSegments(path)|
      ensures '/' !in PathSegments(path)[i]
    {
      var s := PathSegments(path)[i];
      assert s in parts;
    }
  }

  lemma {:induction false} NonEmptyKeeps(parts: seq<string>)
    requires forall i :: 0 <= i < |parts| ==> parts[i] != ""
    ensures NonEmpty(parts) == parts
  {
    if parts != [] {
      NonEmptyKeeps(parts[1..]);
    }
  }

  /** Joining clean segments with `/` gives a template that splits back into exactly those segments. */
  lemma SegmentsRoundTrip(segs: seq<string>)
    requires forall i :: 0 <= i < |segs| ==> segs[i] != "" && '/' !in segs[i]
    ensures PathSegments(Some(Join(segs, '/'))) == segs
  {
    if segs == [] {
      assert SplitOn("", '/') == [""];
    } else {
      SplitJoin(segs, '/');
      NonEmptyKeeps(segs);
    }
  }

  /** A leading `/` adds no segment, and a method without `@Path` has none. */
  lemma LeadingSlashIgnored(t: string)
    ensures PathSegments(Some("/" + t)) == PathSegments(Some(t))
    ensures PathSegments(None) == []
  {
    SplitNoSep("", '/', t);
    assert "" + ['/'] + t == "/" + t;
    var parts := SplitOn(t, '/');
    assert ([""] + parts)[1..] == parts;
    assert SplitOn("", '/') == [""];
    assert [""][1..] == [];
  }

  predicate StartsWithBrace(segment: string) {
    |segment| > 0 && segment[0] == '{'
  }

  /** The parameter's `@PathParam` value `v` makes `"{" + v + "}"` equal to the segment. */
  predicate BindsPlaceholder(p: Parameter, segment: string) {
    PathParam in p.bindings && "{" + p.bindings[PathParam] + "}" == segment
  }

  /**
   * One template segment as a `.path(...)` argument: a segment not starting
   * with `{` is a literal; otherwise it is the name of the first parameter
   * whose `@PathParam` binds it, or the unmatched marker when none does.
   */
  function ResolveSegment(segment: string, params: seq<Parameter>): (a: PathArg)
    ensures !StartsWithBrace(segment) <==> a == Literal(segment)
    ensures forall i :: 0 <= i < |params| && StartsWithBrace(segment) && BindsPlaceholder(params[i], segment)
                        && (forall j :: 0 <= j < i ==> !BindsPlaceholder(params[j], segment))
                        ==> a == ParamRef(params[i].name)
    ensures a == Unmatched(segment)
        <==> StartsWithBrace(segment) && forall i :: 0 <= i < |params| ==> !BindsPlaceholder(params[i], segment)
  {
    if !StartsWithBrace(segment) then Literal(segment)
    else
      match FirstIndex(params, (p: Parameter) => BindsPlaceholder(p, segment))
      case None => Unmatched(segment)
      case Some(i) => ParamRef(params[i].name)
  }

  /** The arguments of `.path(...)` for a method: one per segment of its `@Path`, in order. */
  function ResolvePath(path: Option<string>, params: seq<Parameter>): (r: seq<PathArg>)
    ensures |r| == |PathSegments(path)|
    ensures forall i :: 0 <= i < |r| ==> r[i] == ResolveSegment(PathSegments(path)[i], params)
  {
    var segs := PathSegments(path);
    seq(|segs|, i requires 0 <= i < |segs| => ResolveSegment(segs[i], params))
  }

  /**
   * The shape of `@Path("/delete/{id}")` with a parameter `@PathParam("id")`:
   * a literal segment and a placeholder lower to `path("delete", <parameter>)`,
   * whatever the parameter itself is called.
   */
  lemma LiteralThenPlaceholder(literal: string, key: string, p: Parameter)
    requires literal != "" && '/' !in literal && literal[0] != '{'
    requires '/' !in key
    requires PathParam in p.bindings && p.bindings[PathParam] == key
    ensures ResolvePath(Some("/" + literal + "/{" + key + "}"), [p]) == [Literal(literal), ParamRef(p.name)]
  {
    var placeholder := "{" + key + "}";
    TwoSegments(literal, placeholder);
    assert "/" + literal + "/{" + key + "}" == "/" + literal + "/" + placeholder;
    assert BindsPlaceholder(p, placeholder);
    assert ResolveSegment(placeholder, [p]) == ParamRef(p.name);
  }

  /** The fixture `@DELETE @Path("/delete/{id}") void deleteToDo(@PathParam("id") Integer id)`. */
  lemma DeletePathExample()
    ensures ResolvePath(Some("/delete/{id}"), [Parameter("id", DeclaredType("java.lang.Integer", []), map[PathParam := "id"])])
         == [Literal("delete"), ParamRef("id")]
  {
    var p := Parameter("id", DeclaredType("java.lang.Integer", []), map[PathParam := "id"]);
    LiteralThenPlaceholder("delete", "id", p);
    assert "/" + "delete" + "/{" + "id" + "}" == "/delete/{id}";
  }

  lemma TwoSegments(a: string, b: string)
    requires a != "" && b != "" && '/' !in a && '/' !in b
    ensures PathSegments(Some("/" + a + "/" + b)) == [a, b]
  {
    var segs := [a, b];
    assert Join(segs, '/') == a + "/" + b by {
      assert Join(segs, '/') == segs[0] + "/" + Join(segs[1..], '/');
    }
    SegmentsRoundTrip(segs);
    LeadingSlashIgnored(a + "/" + b);
    assert "/" + a + "/" + b == "/" + (a + "/" + b);
  }

  // ---------------------------------------------------------------------------
  // GwtIncompatible, produces/consumes, modifiers
  // ---------------------------------------------------------------------------

  predicate EndsWith(s: string, suffix: string) {
    |suffix| <= |s| && s[|s| - |suffix|..] == suffix
  }

  /** `isIncompatible(a)`: the annotation's type name ends with `GwtIncompatible`, whatever its package. */
  predicate IsIncompatible(a: Annotation) {
    EndsWith(a.typeName, INCOMPATIBLE_SUFFIX)
  }

  /** `isIncompatible(method)`: an annotation that marks the method incompatible, taken in declaration order. */
  function IncompatibleAnnotation(annotations: seq<Annotation>): (r: Option<Annotation>)
    ensures r.Some? ==> r.value in annotations && IsIncompatible(r.value)
    ensures r.None? <==> forall i :: 0 <= i < |annotations| ==> !IsIncompatible(annotations[i])
  {
    match FirstIndex(annotations, IsIncompatible)
    case None => None
    case Some(i) => Some(annotations[i])
  }

  /** The method's own `@Produces`/`@Consumes` values, else the interface's, else none. */
  function Effective(own: Option<seq<string>>, inherited: Option<seq<string>>): (r: seq<string>)
    ensures own.Some? ==> r == own.value
    ensures own.None? && inherited.Some? ==> r == inherited.value
    ensures own.None? && inherited.None? ==> r == []
  {
    if own.Some? then own.value else if inherited.Some? then inherited.value else []
  }

  /** The modifiers with ABSTRACT and DEFAULT removed, the others kept in order. */
  function Concrete(modifiers: seq<Modifier>): (r: seq<Modifier>)
    ensures Abstract !in r && Default !in r
    ensures forall m :: m in r <==> m in modifiers && m != Abstract && m != Default
  {
    if modifiers == [] then []
    else (if modifiers[0] in {Abstract, Default} then [] else [modifiers[0]]) + Concrete(modifiers[1..])
  }

  /** `ParameterSpec.get` for each original parameter: its name and type, in order. */
  function Specs(params: seq<Parameter>): (r: seq<ParamSpec>)
    ensures |r| == |params|
    ensures forall i :: 0 <= i < |params| ==> r[i] == ParamSpec(params[i].name, params[i].typ)
  {
    seq(|params|, i requires 0 <= i < |params| => ParamSpec(params[i].name, params[i].typ))
  }

  /**
   * `MethodSpec.overriding(method)`: the same name, type variables, return
   * type, parameters and varargs flag, the modifiers without ABSTRACT and
   * DEFAULT, and an `@Override` annotation.
   */
  function Overriding(m: MethodDecl): Signature {
    Signature(m.name, [OVERRIDE], Concrete(m.modifiers), m.typeVars, m.returnType, Specs(m.params), m.varargs)
  }

  /** The methods a processor lowers: the enclosed methods that are neither static nor default, in order. */
  function Lowered(members: seq<Member>): (r: seq<MethodDecl>)
    ensures forall i :: 0 <= i < |r| ==> Static !in r[i].modifiers && Default !in r[i].modifiers
    ensures forall m :: m in r <==> MethodMember(m) in members && Static !in m.modifiers && Default !in m.modifiers
  {
    if members == [] then []
    else
      (if members[0].MethodMember? && Static !in members[0].decl.modifiers && Default !in members[0].decl.modifiers
       then [members[0].decl] else [])
      + Lowered(members[1..])
  }

  /** The method emits `v` as its verb (it is not replaced by a throwing body). */
  predicate EmitsVerb(m: MethodDecl, v: string) {
    IncompatibleAnnotation(m.annotations).None? && v == ResolveVerb(m.annotations)
  }

  /** The static import one method asks for. */
  function OwnImport(m: MethodDecl): (r: set<string>)
    ensures forall v :: v in r <==> v in HTTP_METHODS && EmitsVerb(m, v)
  {
    if IncompatibleAnnotation(m.annotations).None? then ImportOf(ResolveVerb(m.annotations)) else {}
  }

  /** The static imports the verbs of `methods` ask for. */
  function VerbImports(methods: seq<MethodDecl>): (r: set<string>)
    decreases |methods|
  {
    if methods == [] then {}
    else VerbImports(methods[..|methods| - 1]) + OwnImport(methods[|methods| - 1])
  }

  lemma {:induction false} ImportedBySome(methods: seq<MethodDecl>, v: string) returns (i: nat)
    requires v in VerbImports(methods)
    ensures i < |methods| && v in OwnImport(methods[i])
    decreases |methods|
  {
    var init := methods[..|methods| - 1];
    if v in VerbImports(init) {
      i := ImportedBySome(init, v);
      assert methods[i] == init[i];
    } else {
      i := |methods| - 1;
    }
  }

  lemma {:induction false} ImportedByEach(methods: seq<MethodDecl>, i: nat, v: string)
    requires i < |methods| && v in OwnImport(methods[i])
    ensures v in VerbImports(methods)
    decreases |methods|
  {
    var init := methods[..|methods| - 1];
    if i < |init| {
      assert init[i] == methods[i];
      ImportedByEach(init, i, v);
    }
  }

  /** A verb is imported exactly when it is standard and some method that is not incompatible resolves to it. */
  lemma VerbImportsMembers(methods: seq<MethodDecl>, v: string)
    ensures v in VerbImports(methods) <==> v in HTTP_METHODS && exists i :: 0 <= i < |methods| && EmitsVerb(methods[i], v)
  {
    if v in VerbImports(methods) {
      var i := ImportedBySome(methods, v);
    }
    if v in HTTP_METHODS && exists i :: 0 <= i < |methods| && EmitsVerb(methods[i], v) {
      var i :| 0 <= i < |methods| && EmitsVerb(methods[i], v);
      ImportedByEach(methods, i, v);
    }
  }

  // ---------------------------------------------------------------------------
  // Lowering every method of an interface, and every interface of a round
  // ---------------------------------------------------------------------------

  /** The loop over the methods: each one lowered in order; the first that throws aborts the interface. */
  function LowerAll(ms: seq<MethodDecl>, lower: MethodDecl -> Result<GeneratedMethod, Exception>)
    : (r: Result<seq<GeneratedMethod>, Exception>)
    ensures r.Success? <==> forall i :: 0 <= i < |ms| ==> lower(ms[i]).Success?
    ensures r.Success? ==> |r.value| == |ms| && forall i :: 0 <= i < |ms| ==> r.value[i] == lower(ms[i]).value
    decreases |ms|
  {
    if ms == [] then Success([])
    else
      var init := ms[..|ms| - 1];
      var last := ms[|ms| - 1];
      assert forall i :: 0 <= i < |init| ==> init[i] == ms[i];
      match LowerAll(init, lower)
      case Failure(e) => Failure(e)
      case Success(gs) =>
        match lower(last)
        case Failure(e) => Failure(e)
        case Success(g) => Success(gs + [g])
  }

  /** The exception that aborts an interface is the one of its first method that throws. */
  lemma {:induction false} LowerAllFirstFailure(ms: seq<MethodDecl>, lower: MethodDecl -> Result<GeneratedMethod, Exception>, i: nat)
    requires i < |ms| && lower(ms[i]).Failure?
    requires forall j :: 0 <= j < i ==> lower(ms[j]).Success?
    ensures LowerAll(ms, lower) == Failure(lower(ms[i]).error)
    decreases |ms|
  {
    var init := ms[..|ms| - 1];
    if i < |init| {
      assert init[i] == ms[i];
      assert forall j :: 0 <= j < i ==> init[j] == ms[j];
      LowerAllFirstFailure(init, lower, i);
    } else {
      assert forall j :: 0 <= j < |init| ==> init[j] == ms[j];
    }
  }

  /**
   * One iteration of the loop over the methods: a method that lowers extends
   * the generated methods; one that throws ends the whole loop with its
   * exception.
   */
  lemma LowerAllStep(ms: seq<MethodDecl>, i: nat, lower: MethodDecl -> Result<GeneratedMethod, Exception>, gs: seq<GeneratedMethod>)
    requires i < |ms| && LowerAll(ms[..i], lower) == Success(gs)
    ensures lower(ms[i]).Success? ==> LowerAll(ms[..i + 1], lower) == Success(gs + [lower(ms[i]).value])
    ensures lower(ms[i]).Failure? ==> LowerAll(ms, lower) == Failure(lower(ms[i]).error)
  {
    TakeSnoc(ms, i);
    if lower(ms[i]).Failure? {
      assert LowerAll(ms[..i + 1], lower) == Failure(lower(ms[i]).error);
      LowerAllPrefix(ms, i + 1, lower);
    }
  }

  /** The same iteration adds the method's own import to the imports. */
  lemma VerbImportsStep(ms: seq<MethodDecl>, i: nat)
    requires i < |ms|
    ensures VerbImports(ms[..i + 1]) == VerbImports(ms[..i]) + OwnImport(ms[i])
  {
    TakeSnoc(ms, i);
  }

  /** Once a prefix of the methods throws, the rest is never lowered. */
  lemma {:induction false} LowerAllPrefix(ms: seq<MethodDecl>, k: nat, lower: MethodDecl -> Result<GeneratedMethod, Exception>)
    requires k <= |ms| && LowerAll(ms[..k], lower).Failure?
    ensures LowerAll(ms, lower) == LowerAll(ms[..k], lower)
    decreases |ms| - k
  {
    if k < |ms| {
      var init := ms[..|ms| - 1];
      assert init[..k] == ms[..k];
      LowerAllPrefix(init, k, lower);
    } else {
      assert ms[..k] == ms;
    }
  }

  /**
   * `processRestService` around its loop: an interface without `@Path` throws
   * a `NullPointerException`; otherwise the methods are lowered in order and
   * the client is `<Name>SimpleRest` in the interface's package, with the
   * generated methods and the static imports their verbs ask for.
   */
  function ServiceOf(s: ServiceDecl, lower: MethodDecl -> Result<GeneratedMethod, Exception>, superinterface: Option<string>)
    : Result<ClientClass, Exception>
  {
    if s.path.None? then Failure(NullPointer(None))
    else
      var methods := Lowered(s.members);
      match LowerAll(methods, lower)
      case Failure(e) => Failure(e)
      case Success(gs) =>
        Success(ClientClass(s.packageName, s.simpleName + "SimpleRest", superinterface, s.path.value, gs, VerbImports(methods)))
  }

  /**
   * An interface yields a client exactly when it has a `@Path` and every
   * lowered method lowers; the client holds one generated method per lowered
   * method, in order, and the verb imports of those methods.
   */
  lemma ServiceOfSuccess(s: ServiceDecl, lower: MethodDecl -> Result<GeneratedMethod, Exception>, superinterface: Option<string>)
    ensures var methods := Lowered(s.members);
      ServiceOf(s, lower, superinterface).Success?
      <==> s.path.Some? && forall i :: 0 <= i < |methods| ==> lower(methods[i]).Success?
    ensures var methods := Lowered(s.members);
      ServiceOf(s, lower, superinterface).Success? ==>
        var c := ServiceOf(s, lower, superinterface).value;
        && c.packageName == s.packageName && c.simpleName == s.simpleName + "SimpleRest"
        && c.superinterface == superinterface && c.servicePath == s.path.value
        && |c.methods| == |methods|
        && (forall i :: 0 <= i < |methods| ==> c.methods[i] == lower(methods[i]).value)
        && c.staticImports == VerbImports(methods)
  {
  }

  /** An interface that fails throws the exception of its first method that throws, or an NPE without `@Path`. */
  lemma ServiceOfFailure(s: ServiceDecl, lower: MethodDecl -> Result<GeneratedMethod, Exception>, superinterface: Option<string>)
    returns (i: nat)
    requires ServiceOf(s, lower, superinterface).Failure?
    ensures s.path.None? ==> ServiceOf(s, lower, superinterface).error == NullPointer(None)
    ensures s.path.Some? ==>
      && i < |Lowered(s.members)|
      && lower(Lowered(s.members)[i]) == Failure(ServiceOf(s, lower, superinterface).error)
      && forall j :: 0 <= j < i ==> lower(Lowered(s.members)[j]).Success?
  {
    i := 0;
    if s.path.Some? {
      var methods := Lowered(s.members);
      match FirstIndex(methods, (x: MethodDecl) => lower(x).Failure?)
      case None =>
        assert false;
      case Some(k) =>
        LowerAllFirstFailure(methods, lower, k);
        i := k;
    }
  }

  /**
   * `process`: each element that is an interface is lowered on its own; one
   * that throws becomes an ERROR diagnostic naming it and the exception, and
   * yields no file. Elements that are not interfaces are skipped.
   */
  function Outcomes(services: seq<ServiceDecl>, lower: ServiceDecl -> Result<ClientClass, Exception>)
    : (seq<ClientClass>, seq<Diagnostic>)
    decreases |services|
  {
    if services == [] then ([], [])
    else
      var previous := Outcomes(services[..|services| - 1], lower);
      var s := services[|services| - 1];
      if !s.isInterface then previous
      else
        match lower(s)
        case Success(c) => (previous.0 + [c], previous.1)
        case Failure(e) => (previous.0, previous.1 + [UncaughtException(QualifiedName(s), e)])
  }

  /** The outcome of a round is the outcomes of its parts, side by side: no interface affects another. */
  lemma {:induction false} OutcomesSplit(a: seq<ServiceDecl>, b: seq<ServiceDecl>, lower: ServiceDecl -> Result<ClientClass, Exception>)
    ensures Outcomes(a + b, lower).0 == Outcomes(a, lower).0 + Outcomes(b, lower).0
    ensures Outcomes(a + b, lower).1 == Outcomes(a, lower).1 + Outcomes(b, lower).1
    decreases |b|
  {
    if b == [] {
      assert a + b == a;
    } else {
      var init := b[..|b| - 1];
      OutcomesSplit(a, init, lower);
      assert (a + b)[..|a + b| - 1] == a + init;
      assert (a + b)[|a + b| - 1] == b[|b| - 1];
    }
  }

  /**
   * An interface whose processing throws adds one diagnostic and no file,
   * and the interfaces before and after it are processed as if it were absent.
   */
  lemma FailureIsIsolated(a: seq<ServiceDecl>, s: ServiceDecl, b: seq<ServiceDecl>, lower: ServiceDecl -> Result<ClientClass, Exception>)
    requires s.isInterface && lower(s).Failure?
    ensures Outcomes(a + [s] + b, lower).0 == Outcomes(a + b, lower).0
    ensures Outcomes(a + [s] + b, lower).1
         == Outcomes(a, lower).1 + [UncaughtException(QualifiedName(s), lower(s).error)] + Outcomes(b, lower).1
  {
    OutcomesSplit(a + [s], b, lower);
    OutcomesSplit(a, [s], lower);
    OutcomesSplit(a, b, lower);
    assert [s][..0] == [];
  }

  // ---------------------------------------------------------------------------
  // Call order
  // ---------------------------------------------------------------------------

  /** The position of each kind of call in a generated chain. */
  function Rank(c: Call): nat {
    match c
    case MethodCall(_) => 0
    case PathCall(_) => 1
    case ProducesCall(_) => 2
    case ConsumesCall(_) => 3
    case ParamCall(_, _) => 4
    case HeaderCall(_, _) => 5
    case FormCall(_, _) => 6
    case DataCall(_) => 7
    case ExecuteCall(_) => 8
  }

  /** The calls appear grouped by kind, the groups in the fixed order of `Rank`. */
  predicate Ordered(chain: seq<Call>) {
    forall i, j :: 0 <= i < j < |chain| ==> Rank(chain[i]) <= Rank(chain[j])
  }

  predicate RanksAtMost(chain: seq<Call>, k: nat) {
    forall i :: 0 <= i < |chain| ==> Rank(chain[i]) <= k
  }

  predicate RanksEqual(chain: seq<Call>, k: nat) {
    forall i :: 0 <= i < |chain| ==> Rank(chain[i]) == k
  }

  /** Appending a group of calls of one kind that comes no earlier keeps a chain ordered. */
  lemma OrderedAppend(chain: seq<Call>, group: seq<Call>, k: nat)
    requires Ordered(chain) && RanksAtMost(chain, k) && RanksEqual(group, k)
    ensures Ordered(chain + group) && RanksAtMost(chain + group, k)
  {
    var c := chain + group;
    forall i, j | 0 <= i < j < |c|
      ensures Rank(c[i]) <= Rank(c[j])
    {
      if j < |chain| {
        assert c[i] == chain[i] && c[j] == chain[j];
      } else if i < |chain| {
        assert c[i] == chain[i] && c[j] == group[j - |chain|];
      } else {
        assert c[i] == group[i - |chain|] && c[j] == group[j - |chain|];
      }
    }
  }

  lemma BindingCallsRank(params: seq<Parameter>, role: Role)
    requires EmittedRole(role)
    ensures RanksEqual(BindingCalls(params, role), match role case QueryParam => 4 case HeaderParam => 5 case _ => 6)
  {
  }

  lemma DataCallsRank(params: seq<Parameter>, r: Option<nat>)
    requires r.Some? ==> r.value < |params|
    ensures RanksEqual(DataCalls(params, r), 7) && |DataCalls(params, r)| <= 1
  {
  }

  /** The shared tail of both chains: the query, header and form calls, then the data call. */
  lemma OrderedTail(head: seq<Call>, params: seq<Parameter>, data: Option<nat>)
    requires data.Some? ==> data.value < |params|
    requires Ordered(head) && RanksAtMost(head, 4)
    ensures var c := head + BindingCalls(params, QueryParam) + BindingCalls(params, HeaderParam)
                     + BindingCalls(params, FormParam) + DataCalls(params, data);
      Ordered(c) && RanksAtMost(c, 7)
  {
    BindingCallsRank(params, QueryParam);
    BindingCallsRank(params, HeaderParam);
    BindingCallsRank(params, FormParam);
    DataCallsRank(params, data);
    var c1 := head + BindingCalls(params, QueryParam);
    OrderedAppend(head, BindingCalls(params, QueryParam), 4);
    var c2 := c1 + BindingCalls(params, HeaderParam);
    OrderedAppend(c1, BindingCalls(params, HeaderParam), 5);
    var c3 := c2 + BindingCalls(params, FormParam);
    OrderedAppend(c2, BindingCalls(params, FormParam), 6);
    OrderedAppend(c3, DataCalls(params, data), 7);
  }

  lemma RanksAtMostConcat(a: seq<Call>, b: seq<Call>, k: nat)
    requires RanksAtMost(a, k) && RanksAtMost(b, k)
    ensures RanksAtMost(a + b, k)
  {
    forall i | 0 <= i < |a + b|
      ensures Rank((a + b)[i]) <= k
    {
      if i >= |a| {
        assert (a + b)[i] == b[i - |a|];
      }
    }
  }

  /** The query, header and form calls all come before the data call in the order of kinds. */
  lemma BindingPrefixRank(head: seq<Call>, params: seq<Parameter>)
    requires RanksAtMost(head, 6)
    ensures RanksAtMost(head + BindingCalls(params, QueryParam) + BindingCalls(params, HeaderParam)
                        + BindingCalls(params, FormParam), 6)
  {
    BindingCallsRank(params, QueryParam);
    BindingCallsRank(params, HeaderParam);
    BindingCallsRank(params, FormParam);
    RanksAtMostConcat(head, BindingCalls(params, QueryParam), 6);
    RanksAtMostConcat(head + BindingCalls(params, QueryParam), BindingCalls(params, HeaderParam), 6);
    RanksAtMostConcat(head + BindingCalls(params, QueryParam) + BindingCalls(params, HeaderParam),
                      BindingCalls(params, FormParam), 6);
  }

  /** A parameter is among those bound to `role` exactly when it is one of the parameters and carries `role`. */
  lemma {:induction false} BoundToMembers(params: seq<Parameter>, role: Role, p: Parameter)
    ensures p in BoundTo(params, role) <==> p in params && role in p.bindings
  {
    if params != [] {
      BoundToMembers(params[1..], role, p);
      assert params == [params[0]] + params[1..];
    }
  }

  /**
   * The calls for `role` are exactly one call per parameter bound to it: a
   * call is among them when some parameter carries `role` with that value as
   * key and has that name.
   */
  lemma BindingCallsMembers(params: seq<Parameter>, role: Role, key: string, name: string)
    requires EmittedRole(role)
    ensures BindingCall(role, key, name) in BindingCalls(params, role)
        <==> exists p :: p in params && role in p.bindings && p.bindings[role] == key && p.name == name
  {
    if BindingCall(role, key, name) in BindingCalls(params, role) {
      var p := BindingCallSource(params, role, key, name);
    }
    if exists p :: p in params && role in p.bindings && p.bindings[role] == key && p.name == name {
      var p :| p in params && role in p.bindings && p.bindings[role] == key && p.name == name;
      BindingCallOf(params, role, p);
    }
  }

  /** Every call for `role` comes from a parameter bound to it. */
  lemma BindingCallSource(params: seq<Parameter>, role: Role, key: string, name: string) returns (p: Parameter)
    requires EmittedRole(role) && BindingCall(role, key, name) in BindingCalls(params, role)
    ensures p in params && role in p.bindings && p.bindings[role] == key && p.name == name
  {
    var bound := BoundTo(params, role);
    var calls := BindingCalls(params, role);
    var i :| 0 <= i < |calls| && calls[i] == BindingCall(role, key, name);
    p := bound[i];
    BoundToMembers(params, role, p);
  }

  /** Every parameter bound to `role` has its call. */
  lemma BindingCallOf(params: seq<Parameter>, role: Role, p: Parameter)
    requires EmittedRole(role) && p in params && role in p.bindings
    ensures BindingCall(role, p.bindings[role], p.name) in BindingCalls(params, role)
  {
    var bound := BoundTo(params, role);
    BoundToMembers(params, role, p);
    var i :| 0 <= i < |bound| && bound[i] == p;
    assert BindingCalls(params, role)[i] == BindingCall(role, p.bindings[role], p.name);
  }

  // ---------------------------------------------------------------------------
  // The chain both processors build
  // ---------------------------------------------------------------------------

  /**
   * A generated chain: the leading calls, then the query, header and form
   * calls in parameter order, the data call for the selected parameter if
   * any, and the final `execute`.
   */
  function Assemble(head: seq<Call>, params: seq<Parameter>, data: Option<nat>, last: Call): seq<Call>
    requires data.Some? ==> data.value < |params|
  {
    head + BindingCalls(params, QueryParam) + BindingCalls(params, HeaderParam)
    + BindingCalls(params, FormParam) + DataCalls(params, data) + [last]
  }

  /**
   * With ordered leading calls that come before the query calls and an
   * `execute` last, the chain starts with the leading calls, is ordered, and
   * its only `execute` is the last call.
   */
  lemma AssembleShape(head: seq<Call>, params: seq<Parameter>, data: Option<nat>, last: Call)
    requires data.Some? ==> data.value < |params|
    requires Ordered(head) && RanksAtMost(head, 3) && last.ExecuteCall?
    ensures var c := Assemble(head, params, data, last);
      && |c| >= |head| + 1 && c[..|head|] == head && c[|c| - 1] == last && Ordered(c)
      && forall i :: 0 <= i < |c| - 1 ==> !c[i].ExecuteCall?
  {
    OrderedTail(head, params, data);
    var body := head + BindingCalls(params, QueryParam) + BindingCalls(params, HeaderParam)
                + BindingCalls(params, FormParam) + DataCalls(params, data);
    OrderedAppend(body, [last], 8);
    assert Assemble(head, params, data, last) == body + [last];
    forall i | 0 <= i < |body|
      ensures Rank(body[i]) <= 7
    {
    }
  }

  /** Every call after the leading ones comes no earlier than the query calls. */
  lemma AssembleAfterHead(head: seq<Call>, params: seq<Parameter>, data: Option<nat>, last: Call)
    requires data.Some? ==> data.value < |params|
    requires last.ExecuteCall?
    ensures var c := Assemble(head, params, data, last);
      forall i :: |head| <= i < |c| ==> Rank(c[i]) >= 4
  {
    var tail := BindingCalls(params, QueryParam) + BindingCalls(params, HeaderParam)
                + BindingCalls(params, FormParam) + DataCalls(params, data) + [last];
    var c := Assemble(head, params, data, last);
    assert c == head + tail;
    TailRanks(params, data, last);
    forall i | |head| <= i < |c|
      ensures Rank(c[i]) >= 4
    {
      assert c[i] == tail[i - |head|];
    }
  }

  /** Everything after the leading calls comes no earlier than the query calls. */
  lemma TailRanks(params: seq<Parameter>, data: Option<nat>, last: Call)
    requires data.Some? ==> data.value < |params|
    requires last.ExecuteCall?
    ensures var t := BindingCalls(params, QueryParam) + BindingCalls(params, HeaderParam)
                     + BindingCalls(params, FormParam) + DataCalls(params, data) + [last];
      forall i :: 0 <= i < |t| ==> Rank(t[i]) >= 4
  {
    BindingCallsRank(params, QueryParam);
    BindingCallsRank(params, HeaderParam);
    BindingCallsRank(params, FormParam);
    var q, h, f, d := BindingCalls(params, QueryParam), BindingCalls(params, HeaderParam),
                      BindingCalls(params, FormParam), DataCalls(params, data);
    var t := q + h + f + d + [last];
    forall i | 0 <= i < |t|
      ensures Rank(t[i]) >= 4
    {
      if i < |q| {
        assert t[i] == q[i];
      } else if i < |q| + |h| {
        assert t[i] == h[i - |q|];
      } else if i < |q| + |h| + |f| {
        assert t[i] == f[i - |q| - |h|];
      } else if i < |q| + |h| + |f| + |d| {
        assert t[i] == d[i - |q| - |h| - |f|];
      }
    }
  }

  /**
   * The only data call is the one for the selected parameter, just before
   * `execute`; there is none when no parameter was selected.
   */
  lemma AssembleData(head: seq<Call>, params: seq<Parameter>, data: Option<nat>, last: Call)
    requires data.Some? ==> data.value < |params|
    requires RanksAtMost(head, 3) && last.ExecuteCall?
    ensures var c := Assemble(head, params, data, last);
      && (data.None? ==> forall i :: 0 <= i < |c| ==> !c[i].DataCall?)
      && (data.Some? ==> |c| >= 2 && c[|c| - 2] == DataCall(params[data.value].name)
                         && forall i :: 0 <= i < |c| && i != |c| - 2 ==> !c[i].DataCall?)
  {
    RanksAtMostWeaken(head, 3, 6);
    BindingPrefixRank(head, params);
    var prefix := head + BindingCalls(params, QueryParam) + BindingCalls(params, HeaderParam)
                  + BindingCalls(params, FormParam);
    var c := Assemble(head, params, data, last);
    assert c == prefix + DataCalls(params, data) + [last];
    forall i | 0 <= i < |prefix|
      ensures !c[i].DataCall?
    {
      assert c[i] == prefix[i];
      assert Rank(prefix[i]) <= 6;
    }
  }

  lemma RanksAtMostWeaken(chain: seq<Call>, k: nat, k': nat)
    requires RanksAtMost(chain, k) && k <= k'
    ensures RanksAtMost(chain, k')
  {
  }

  /** Every query, header or form call of the chain lies in the section of its kind. */
  lemma AssembleSections(head: seq<Call>, params: seq<Parameter>, data: Option<nat>, last: Call, i: nat)
    requires data.Some? ==> data.value < |params|
    requires RanksAtMost(head, 3) && last.ExecuteCall?
    requires i < |Assemble(head, params, data, last)|
    ensures var c := Assemble(head, params, data, last);
      && (c[i].ParamCall? ==> c[i] in BindingCalls(params, QueryParam))
      && (c[i].HeaderCall? ==> c[i] in BindingCalls(params, HeaderParam))
      && (c[i].FormCall? ==> c[i] in BindingCalls(params, FormParam))
  {
    var q := BindingCalls(params, QueryParam);
    var h := BindingCalls(params, HeaderParam);
    var f := BindingCalls(params, FormParam);
    var rest := DataCalls(params, data) + [last];
    BindingCallsRank(params, QueryParam);
    BindingCallsRank(params, HeaderParam);
    BindingCallsRank(params, FormParam);
    var c := Assemble(head, params, data, last);
    assert c == head + q + h + f + rest;
    var n := |head|;
    if i < n {
      assert c[i] == head[i] && Rank(head[i]) <= 3;
    } else if i < n + |q| {
      assert c[i] == q[i - n];
    } else if i < n + |q| + |h| {
      assert c[i] == h[i - n - |q|];
    } else if i < n + |q| + |h| + |f| {
      assert c[i] == f[i - n - |q| - |h|];
    } else {
      assert c[i] == rest[i - n - |q| - |h| - |f|];
    }
  }

  /**
   * A call binding `key` to `name` for a query, header or form role is in the
   * chain exactly when some parameter carries that role with that value as
   * key and has that name.
   */
  lemma AssembleBindings(head: seq<Call>, params: seq<Parameter>, data: Option<nat>, last: Call,
                         role: Role, key: string, name: string)
    requires data.Some? ==> data.value < |params|
    requires RanksAtMost(head, 3) && last.ExecuteCall? && EmittedRole(role)
    ensures BindingCall(role, key, name) in Assemble(head, params, data, last)
        <==> exists p :: p in params && role in p.bindings && p.bindings[role] == key && p.name == name
  {
    BindingCallsMembers(params, role, key, name);
    var c := Assemble(head, params, data, last);
    if BindingCall(role, key, name) in c {
      var i :| 0 <= i < |c| && c[i] == BindingCall(role, key, name);
      AssembleSections(head, params, data, last, i);
      BindingCallsRank(params, QueryParam);
      BindingCallsRank(params, HeaderParam);
      BindingCallsRank(params, FormParam);
    }
  }
}
