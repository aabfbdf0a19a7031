/**
 * `SimpleRequestBuilder`: the single-use, chained builder that the generated
 * clients use to compose one HTTP request.
 *
 * The state is a normalised base URL, the ordered path segments, three ordered
 * parameter lists (query, header, form), the HTTP verb and an optional body
 * object. The configuration calls append to those lists or overwrite a field;
 * `uri()` serialises the state into the request URL; `request()` decides the
 * headers and the body that go to `fetch`; `execute()` routes the response to
 * one callback.
 */
module RequestBuilder {
  import opened Wrappers
  import opened JavaValues
  import opened UriEncoding
  import opened QueryString

  const GET: string := "GET"
  const APPLICATION_JSON: string := "application/json"
  const CONTENT_TYPE: string := "Content-Type"
  const ACCEPT: string := "Accept"
  const SAME_ORIGIN: string := "same-origin"

  // ---------------------------------------------------------------------------
  // Specification functions over the builder's state
  // ---------------------------------------------------------------------------

  predicate EndsWithSlash(s: string) {
    |s| > 0 && s[|s| - 1] == '/'
  }

  /** The constructor's normalisation of the base URL: exactly one trailing `/` is removed, if there is one. */
  function StripTrailingSlash(base: string): (r: string)
    ensures EndsWithSlash(base) <==> base == r + "/"
    ensures !EndsWithSlash(base) <==> base == r
  {
    if EndsWithSlash(base) then base[..|base| - 1] else base
  }

  /** The parameters that `handleLists(key, value, params)` appends to `params`. */
  function Expanded(key: string, value: Value): seq<Param> {
    match value
    case Null => []
    case Scalar(_) => [Param(key, value)]
    case Many(es, _) => seq(|es|, i requires 0 <= i < |es| => Param(key, es[i]))
  }

  /** The number of leading `path(Object...)` arguments that are non-null with a non-empty `toString`. */
  function AcceptedSegments(args: seq<Value>): (n: nat)
    ensures n <= |args|
    ensures forall i :: 0 <= i < n ==> !args[i].Null? && ToString(args[i]) != ""
    ensures n < |args| ==> args[n].Null? || ToString(args[n]) == ""
  {
    if args == [] || args[0].Null? || ToString(args[0]) == "" then 0
    else 1 + AcceptedSegments(args[1..])
  }

  /** The `toString` of each argument, in order. */
  function Segments(args: seq<Value>): (r: seq<string>)
    ensures |r| == |args|
    ensures forall i :: 0 <= i < |args| ==> r[i] == ToString(args[i])
  {
    if args == [] then [] else [ToString(args[0])] + Segments(args[1..])
  }

  /** How `path(Object...)` ends: normally, or with the exception of the first argument it rejects. */
  function PathOutcome(args: seq<Value>): Outcome {
    var n := AcceptedSegments(args);
    if n == |args| then Pass
    else if args[n].Null? then Throw(NullPointer(Some("path required")))
    else Throw(IllegalArgument("non-empty path required"))
  }

  /** `"/" + p` for every path segment `p`, in order. */
  function PathSuffix(paths: seq<string>): string {
    if paths == [] then "" else PathSuffix(paths[..|paths| - 1]) + "/" + paths[|paths| - 1]
  }

  /** What `uri()` returns for a given state. */
  function UriOf(base: string, paths: seq<string>, queryParams: seq<Param>): string {
    base + PathSuffix(paths) + QueryOf(queryParams)
  }

  // ---------------------------------------------------------------------------
  // Headers (RFC 7230, section 3.2: field names are case-insensitive)
  // ---------------------------------------------------------------------------

  /** ASCII lower-casing of one character; every other character is left alone. */
  function LowerAscii(c: char): char {
    if 'A' <= c <= 'Z' then (c as int + 32) as char else c
  }

  /** Header names are equal when they are equal after ASCII lower-casing. */
  predicate SameHeaderName(a: string, b: string) {
    |a| == |b| && forall i :: 0 <= i < |a| ==> LowerAscii(a[i]) == LowerAscii(b[i])
  }

  /** The values that `Headers.get(name)` combines, in order; none means `get` returns null. */
  function HeaderValues(hs: seq<(string, string)>, name: string): seq<string> {
    if hs == [] then []
    else (if SameHeaderName(hs[0].0, name) then [hs[0].1] else []) + HeaderValues(hs[1..], name)
  }

  lemma {:induction false} HeaderValuesAppend(hs: seq<(string, string)>, h: (string, string), name: string)
    ensures HeaderValues(hs + [h], name)
         == HeaderValues(hs, name) + (if SameHeaderName(h.0, name) then [h.1] else [])
  {
    if hs != [] {
      HeaderValuesAppend(hs[1..], h, name);
      assert (hs + [h])[1..] == hs[1..] + [h];
    }
  }

  // ---------------------------------------------------------------------------
  // request(): the headers and body given to fetch
  // ---------------------------------------------------------------------------

  datatype Body =
    | NoBody
    | JsonBody(json: string)                      // JSON.stringify(data)
    | FormBody(fields: seq<(string, string)>)     // a FormData with these entries

  /** The arguments `request()` passes to `fetch(uri(), requestInit)`. */
  datatype FetchRequest = FetchRequest(
    url: string,
    verb: string,
    credentials: string,
    headers: seq<(string, string)>,
    body: Body)

  /** Appends `(name, value)` unless a header of that name (in any case) is already present. */
  function WithDefault(headers: seq<(string, string)>, name: string, value: string): (r: seq<(string, string)>)
    ensures |r| >= |headers| && r[..|headers|] == headers
  {
    if HeaderValues(headers, name) == [] then headers + [(name, value)] else headers
  }

  /** What `get(n)` sees after a default: the old values, and the default only if `name` was absent and `n` names it. */
  lemma WithDefaultValues(headers: seq<(string, string)>, name: string, value: string, n: string)
    ensures HeaderValues(WithDefault(headers, name, value), n)
         == HeaderValues(headers, n) + (if HeaderValues(headers, name) == [] && SameHeaderName(name, n) then [value] else [])
  {
    if HeaderValues(headers, name) == [] {
      HeaderValuesAppend(headers, (name, value), n);
    }
  }

  /** The header and body decision of `request()`; `stringify` stands for `JSON.stringify`. */
  function Negotiate(headerParams: seq<Param>, formParams: seq<Param>, data: Value, stringify: Value -> string)
    : (seq<(string, string)>, Body)
  {
    var headers := Rendered(headerParams);
    if formParams != [] then (headers, FormBody(Rendered(formParams)))
    else if !data.Null? then
      (WithDefault(WithDefault(headers, CONTENT_TYPE, APPLICATION_JSON), ACCEPT, APPLICATION_JSON), JsonBody(stringify(data)))
    else (headers, NoBody)
  }

  /** The header parameters come first, in order, whatever else is added. */
  lemma HeaderParamsFirst(headerParams: seq<Param>, formParams: seq<Param>, data: Value, stringify: Value -> string)
    ensures var hs := Negotiate(headerParams, formParams, data, stringify).0;
      |hs| >= |headerParams| && hs[..|headerParams|] == Rendered(headerParams)
  {
    if formParams == [] && !data.Null? {
      var user := Rendered(headerParams);
      var withType := WithDefault(user, CONTENT_TYPE, APPLICATION_JSON);
      var hs := WithDefault(withType, ACCEPT, APPLICATION_JSON);
      assert hs[..|user|] == hs[..|withType|][..|user|];
    }
  }

  /** With form parameters the body is the form data, whatever `data` holds, and no header is added. */
  lemma FormWins(headerParams: seq<Param>, formParams: seq<Param>, data: Value, stringify: Value -> string)
    requires formParams != []
    ensures Negotiate(headerParams, formParams, data, stringify) == (Rendered(headerParams), FormBody(Rendered(formParams)))
    ensures forall name :: HeaderValues(Negotiate(headerParams, formParams, data, stringify).0, name)
                        == HeaderValues(Rendered(headerParams), name)
  {
  }

  /** Without form parameters or data there is no body and no header is added. */
  lemma NoBodyWithoutData(headerParams: seq<Param>, stringify: Value -> string)
    ensures Negotiate(headerParams, [], Null, stringify) == (Rendered(headerParams), NoBody)
  {
  }

  /**
   * With data and no form parameters the body is the JSON text of the data;
   * Content-Type and Accept default to `application/json` only when no header
   * parameter already sets them (compared case-insensitively); every other
   * header is left as the header parameters set it.
   */
  lemma JsonDefaults(headerParams: seq<Param>, data: Value, stringify: Value -> string)
    requires !data.Null?
    ensures var (hs, body) := Negotiate(headerParams, [], data, stringify);
      var user := Rendered(headerParams);
      && body == JsonBody(stringify(data))
      && HeaderValues(hs, CONTENT_TYPE)
         == (if HeaderValues(user, CONTENT_TYPE) == [] then [APPLICATION_JSON] else HeaderValues(user, CONTENT_TYPE))
      && HeaderValues(hs, ACCEPT)
         == (if HeaderValues(user, ACCEPT) == [] then [APPLICATION_JSON] else HeaderValues(user, ACCEPT))
      && (forall name :: !SameHeaderName(name, CONTENT_TYPE) && !SameHeaderName(name, ACCEPT) ==>
            HeaderValues(hs, name) == HeaderValues(user, name))
  {
    var user := Rendered(headerParams);
    var withType := WithDefault(user, CONTENT_TYPE, APPLICATION_JSON);
    assert !SameHeaderName(CONTENT_TYPE, ACCEPT) && !SameHeaderName(ACCEPT, CONTENT_TYPE);
    assert SameHeaderName(CONTENT_TYPE, CONTENT_TYPE) && SameHeaderName(ACCEPT, ACCEPT);
    WithDefaultValues(user, CONTENT_TYPE, APPLICATION_JSON, CONTENT_TYPE);
    WithDefaultValues(user, CONTENT_TYPE, APPLICATION_JSON, ACCEPT);
    WithDefaultValues(withType, ACCEPT, APPLICATION_JSON, CONTENT_TYPE);
    WithDefaultValues(withType, ACCEPT, APPLICATION_JSON, ACCEPT);
    forall name | !SameHeaderName(name, CONTENT_TYPE) && !SameHeaderName(name, ACCEPT)
      ensures HeaderValues(WithDefault(withType, ACCEPT, APPLICATION_JSON), name) == HeaderValues(user, name)
    {
      WithDefaultValues(user, CONTENT_TYPE, APPLICATION_JSON, name);
      WithDefaultValues(withType, ACCEPT, APPLICATION_JSON, name);
    }
  }

  /** A Content-Type header set under any capitalisation keeps the JSON default out. */
  lemma ExplicitContentTypeExample(stringify: Value -> string)
    ensures Negotiate([Param("content-type", Scalar("text/plain"))], [], Scalar("x"), stringify).0
         == [("content-type", "text/plain"), (ACCEPT, APPLICATION_JSON)]
  {
    var user := Rendered([Param("content-type", Scalar("text/plain"))]);
    assert user == [("content-type", "text/plain")];
    assert HeaderValues(user, CONTENT_TYPE) == ["text/plain"];
    assert HeaderValues(user, ACCEPT) == [];
  }

  // ---------------------------------------------------------------------------
  // execute(): which callback the response reaches
  // ---------------------------------------------------------------------------

  /** The callback interfaces `execute` tests for, in the order it tests them. */
  datatype CallbackKind = SingleStringCallback | SingleCallback | MultipleCallback | CompletableCallback

  /** What `fetch` resolves to: `ok`, `status`, `statusText` and the body text. */
  datatype Response = Response(ok: bool, status: int, statusText: string, text: string)

  /** The one thing `execute` does with a response. */
  datatype Delivery =
    | DeliverText(text: string)                      // SingleStringCallback.onData(text)
    | DeliverSingle(json: string)                    // SingleCallback.onData(parsed JSON of the body)
    | DeliverMultiple(json: string)                  // MultipleCallback.onData(parsed JSON of the body)
    | Done                                           // CompletableCallback.onDone() once the body is read
    | DeliverError(status: int, statusText: string, text: string)   // onError(status, statusText, text)
    | Unsupported(message: string)                   // UnsupportedOperationException

  const UNSUPPORTED_CALLBACK: string :=
    "Last parameter must be a callback of type SingleCallback, MultipleCallback, or CompletableCallback"

  /**
   * The branch `execute(callback)` takes, given the response and the set of
   * callback interfaces the callback object implements. A response that is not
   * ok always reaches `onError`, whatever the callback; an ok response reaches
   * the data method of the first interface in the order SingleString, Single,
   * Multiple, Completable; a callback implementing none of them is refused.
   */
  function Dispatch(response: Response, callback: set<CallbackKind>): (d: Delivery)
    ensures !response.ok <==> d == DeliverError(response.status, response.statusText, response.text)
    ensures d.Unsupported?
       <==> response.ok && SingleStringCallback !in callback && SingleCallback !in callback && MultipleCallback !in callback
            && CompletableCallback !in callback
    ensures d.Unsupported? ==> d.message == UNSUPPORTED_CALLBACK
    ensures d == DeliverText(response.text) <==> response.ok && SingleStringCallback in callback
    ensures d == DeliverSingle(response.text)
       <==> response.ok && SingleStringCallback !in callback && SingleCallback in callback
    ensures d == DeliverMultiple(response.text)
       <==> response.ok && SingleStringCallback !in callback && SingleCallback !in callback && MultipleCallback in callback
    ensures d == Done
       <==> response.ok && SingleStringCallback !in callback && SingleCallback !in callback && MultipleCallback !in callback
            && CompletableCallback in callback
  {
    if !response.ok then DeliverError(response.status, response.statusText, response.text)
    else if SingleStringCallback in callback then DeliverText(response.text)
    else if SingleCallback in callback then DeliverSingle(response.text)
    else if MultipleCallback in callback then DeliverMultiple(response.text)
    else if CompletableCallback in callback then Done
    else Unsupported(UNSUPPORTED_CALLBACK)
  }

  /** Data and error never both happen: a response reaches the error channel exactly when it is not ok. */
  lemma DataXorError(response: Response, callback: set<CallbackKind>)
    requires callback != {}
    ensures var d := Dispatch(response, callback);
      (d.DeliverError? <==> !response.ok) && !d.Unsupported?
  {
    var k :| k in callback;
    match k
    case SingleStringCallback =>
    case SingleCallback =>
    case MultipleCallback =>
    case CompletableCallback =>
  }

  /** The 404 case: the error callback gets the status, the status text and the body; no data branch is taken. */
  lemma NotFoundExample(callback: set<CallbackKind>)
    ensures Dispatch(Response(false, 404, "Not Found", "not found"), callback)
         == DeliverError(404, "Not Found", "not found")
  {
  }

  // ---------------------------------------------------------------------------
  // The builder
  // ---------------------------------------------------------------------------

  class SimpleRequestBuilder {
    const base: string
    var paths: seq<string>
    var queryParams: seq<Param>
    var headerParams: seq<Param>
    var formParams: seq<Param>
    var verb: string
    var data: Value

    /** Every path segment is non-empty: `path` refuses an empty one before it is stored. */
    ghost predicate Valid()
      reads this
    {
      forall i :: 0 <= i < |paths| ==> paths[i] != ""
    }

    /** `new SimpleRequestBuilder(base)`: method GET, no data, every list empty. */
    constructor (baseUrl: string)
      ensures Valid()
      ensures base == StripTrailingSlash(baseUrl)
      ensures paths == [] && queryParams == [] && headerParams == [] && formParams == []
      ensures verb == GET && data == Null
    {
      base := StripTrailingSlash(baseUrl);
      paths, queryParams, headerParams, formParams := [], [], [], [];
      verb := GET;
      data := Null;
    }

    /** `method(m)`: a null verb fails (with the source's message "path required"); otherwise it replaces the verb. */
    method Method(m: Option<string>) returns (r: Outcome)
      modifies this`verb
      ensures m.None? ==> r == Throw(NullPointer(Some("path required"))) && verb == old(verb)
      ensures m.Some? ==> r == Pass && verb == m.value
    {
      if m.None? {
        return Throw(NullPointer(Some("path required")));
      }
      verb := m.value;
      r := Pass;
    }

    /** `path(String)`: null and "" fail and change nothing; anything else is appended as one segment. */
    method Path(segment: Option<string>) returns (r: Outcome)
      requires Valid()
      modifies this`paths
      ensures Valid()
      ensures segment.None? ==> r == Throw(NullPointer(None)) && paths == old(paths)
      ensures segment == Some("") ==> r == Throw(IllegalArgument("non-empty path required")) && paths == old(paths)
      ensures segment.Some? && segment.value != "" ==> r == Pass && paths == old(paths) + [segment.value]
    {
      if segment.None? {
        return Throw(NullPointer(None));
      }
      if segment.value == "" {
        return Throw(IllegalArgument("non-empty path required"));
      }
      paths := paths + [segment.value];
      r := Pass;
    }

    /**
     * `path(Object...)`: appends the `toString` of each argument in order and
     * stops at the first null argument or empty segment, which fails; the
     * segments before it stay appended.
     */
    method PathAll(args: seq<Value>) returns (r: Outcome)
      requires Valid()
      modifies this`paths
      ensures Valid()
      ensures paths == old(paths) + Segments(args[..AcceptedSegments(args)])
      ensures r == PathOutcome(args)
    {
      var n := AcceptedSegments(args);
      var i := 0;
      while i < |args|
        invariant i <= n
        invariant Valid()
        invariant paths == old(paths) + Segments(args[..i])
      {
        if args[i].Null? {
          return Throw(NullPointer(Some("path required")));
        }
        r := Path(Some(JavaValues.ToString(args[i])));
        if r.Throw? {
          return;
        }
        TakeSnoc(args, i);
        i := i + 1;
      }
      assert args[..i] == args;
      r := Pass;
    }

    /** `param(key, value)`: a null key fails; otherwise only the query list changes, as `handleLists` says. */
    method Param(key: Option<string>, value: Value) returns (r: Outcome)
      modifies this`queryParams
      ensures key.None? ==> r == Throw(NullPointer(Some("query param key required"))) && queryParams == old(queryParams)
      ensures key.Some? ==> r == Pass && queryParams == old(queryParams) + Expanded(key.value, value)
    {
      if key.None? {
        return Throw(NullPointer(Some("query param key required")));
      }
      queryParams := HandleLists(key.value, value, queryParams);
      r := Pass;
    }

    /** `header(key, value)`: a null key fails; otherwise only the header list changes, as `handleLists` says. */
    method Header(key: Option<string>, value: Value) returns (r: Outcome)
      modifies this`headerParams
      ensures key.None? ==> r == Throw(NullPointer(Some("header param key required"))) && headerParams == old(headerParams)
      ensures key.Some? ==> r == Pass && headerParams == old(headerParams) + Expanded(key.value, value)
    {
      if key.None? {
        return Throw(NullPointer(Some("header param key required")));
      }
      headerParams := HandleLists(key.value, value, headerParams);
      r := Pass;
    }

    /** `form(key, value)`: a null key fails; otherwise only the form list changes, as `handleLists` says. */
    method Form(key: Option<string>, value: Value) returns (r: Outcome)
      modifies this`formParams
      ensures key.None? ==> r == Throw(NullPointer(Some("form param key required"))) && formParams == old(formParams)
      ensures key.Some? ==> r == Pass && formParams == old(formParams) + Expanded(key.value, value)
    {
      if key.None? {
        return Throw(NullPointer(Some("form param key required")));
      }
      formParams := HandleLists(key.value, value, formParams);
      r := Pass;
    }

    /**
     * `handleLists(key, value, params)`: a null value adds nothing; an iterable
     * adds one parameter per element, in iteration order (null elements
     * included); any other value adds exactly one parameter.
     */
    static method HandleLists(key: string, value: Value, params: seq<Param>) returns (out: seq<Param>)
      ensures out == params + Expanded(key, value)
      ensures value.Null? ==> out == params
      ensures value.Scalar? ==> out == params + [JavaValues.Param(key, value)]
      ensures value.Many? ==> |out| == |params| + |value.elems| && out[..|params|] == params
      ensures value.Many? ==> forall i :: 0 <= i < |value.elems| ==> out[|params| + i] == JavaValues.Param(key, value.elems[i])
    {
      out := params;
      match value {
        case Null =>
        case Scalar(_) =>
          out := out + [JavaValues.Param(key, value)];
        case Many(es, _) =>
          for i := 0 to |es|
            invariant |out| == |params| + i
            invariant out[..|params|] == params
            invariant forall j :: 0 <= j < i ==> out[|params| + j] == JavaValues.Param(key, es[j])
          {
            out := out + [JavaValues.Param(key, es[i])];
          }
          assert out == params + Expanded(key, value);
      }
    }

    /** `data(d)`: replaces the body object (null clears it). */
    method Data(d: Value)
      modifies this`data
      ensures data == d
    {
      data := d;
    }

    /** `uri()`: the base, then `"/" + p` for every segment, then `query()`. */
    method Uri() returns (u: string)
      ensures u == UriOf(base, paths, queryParams)
    {
      var out := base;
      for i := 0 to |paths|
        invariant out == base + PathSuffix(paths[..i])
      {
        TakeSnoc(paths, i);
        out := out + "/" + paths[i];
      }
      assert paths[..|paths|] == paths;
      var q := Query();
      u := out + q;
    }

    /** `query()`: "" when there is no query parameter, otherwise `?` and `encodeParams(queryParams)`. */
    method Query() returns (q: string)
      ensures q == QueryOf(queryParams)
      ensures q == "" <==> queryParams == []
      ensures queryParams != [] ==> q == "?" + EncodedParams(queryParams)
    {
      var encoded := EncodeParams(queryParams);
      q := if encoded == "" then "" else "?" + encoded;
      QueryShape(queryParams);
    }

    /** `encodeParams(params)`: `enc(k)=enc(v)` for every parameter, joined by `&`, in order. */
    static method EncodeParams(params: seq<Param>) returns (out: string)
      ensures out == EncodedParams(params)
      ensures out == "" <==> params == []
      ensures ParseParams(out) == Some(Rendered(params))
    {
      out := "";
      for i := 0 to |params|
        invariant out == EncodedParams(params[..i])
        invariant out == "" <==> i == 0
      {
        var pair := EncodeComponent(params[i].k) + "=" + EncodeComponent(JavaValues.ToString(params[i].v));
        EncodeParamsStep(params, i, out);
        out := out + (if out == "" then "" else "&") + pair;
      }
      assert params[..|params|] == params;
      EncodedParamsRoundTrip(params);
    }

    /** The `forEach` over a parameter list in `request()`: each key with the `toString` of its value, in order. */
    static method RenderParams(ps: seq<Param>) returns (r: seq<(string, string)>)
      ensures r == Rendered(ps)
    {
      r := [];
      for i := 0 to |ps|
        invariant r == Rendered(ps[..i])
      {
        assert Rendered(ps[..i + 1]) == Rendered(ps[..i]) + [(ps[i].k, JavaValues.ToString(ps[i].v))];
        r := r + [(ps[i].k, JavaValues.ToString(ps[i].v))];
      }
      assert ps[..|ps|] == ps;
    }

    /** `toString()`: the verb, a space and the URI. */
    method ToString() returns (s: string)
      ensures s == verb + " " + UriOf(base, paths, queryParams)
    {
      var u := Uri();
      s := verb + " " + u;
    }

    /**
     * `request()`: the `fetch` arguments. Credentials are always same-origin; the
     * header parameters are appended in order; the body and the JSON defaults
     * follow `Negotiate`. As in the source, the data is serialised before the
     * form branch is considered, and the form data then replaces it.
     */
    method Request(stringify: Value -> string) returns (req: FetchRequest)
      ensures req.url == UriOf(base, paths, queryParams)
      ensures req.verb == verb && req.credentials == SAME_ORIGIN
      ensures (req.headers, req.body) == Negotiate(headerParams, formParams, data, stringify)
    {
      var body := NoBody;
      if !data.Null? {
        body := JsonBody(stringify(data));
      }
      var headers := RenderParams(headerParams);
      if formParams != [] {
        var form := RenderParams(formParams);
        body := FormBody(form);
      } else if !data.Null? {
        if HeaderValues(headers, CONTENT_TYPE) == [] {
          headers := headers + [(CONTENT_TYPE, APPLICATION_JSON)];
        }
        if HeaderValues(headers, ACCEPT) == [] {
          headers := headers + [(ACCEPT, APPLICATION_JSON)];
        }
        body := JsonBody(stringify(data));
      }
      assert (headers, body) == Negotiate(headerParams, formParams, data, stringify);
      var url := Uri();
      req := FetchRequest(url, verb, SAME_ORIGIN, headers, body);
    }
  }

  /** One iteration of `encodeParams`: the next pair follows a `&` unless nothing was written yet. */
  lemma EncodeParamsStep(params: seq<Param>, i: nat, out: string)
    requires i < |params|
    requires out == EncodedParams(params[..i]) && (out == "" <==> i == 0)
    ensures var next := out + (if out == "" then "" else "&") + EncodePair(params[i]);
      next == EncodedParams(params[..i + 1]) && next != ""
  {
    var ps, p := params[..i], params[i];
    TakeSnoc(params, i);
    assert ps == [] <==> i == 0;
    EncodedParamsSnoc(ps, p);
    assert |EncodePair(p)| > 0;
  }

  // ---------------------------------------------------------------------------
  // Properties of the serialised URI
  // ---------------------------------------------------------------------------

  lemma {:induction false} PathSuffixJoin(paths: seq<string>)
    requires paths != []
    ensures PathSuffix(paths) == "/" + Join(paths, '/')
  {
    var init := paths[..|paths| - 1];
    if init != [] {
      PathSuffixJoin(init);
    }
    JoinSnoc(init, paths[|paths| - 1], '/');
    assert init + [paths[|paths| - 1]] == paths;
  }

  lemma {:induction false} JoinAvoids(parts: seq<string>, sep: char, c: char)
    requires c != sep
    requires forall i :: 0 <= i < |parts| ==> c !in parts[i]
    ensures c !in Join(parts, sep)
  {
    if |parts| > 1 {
      JoinAvoids(parts[1..], sep, c);
    }
  }

  lemma EncodedParamsNoQuestionMark(ps: seq<Param>)
    ensures '?' !in EncodedParams(ps)
  {
    var pairs := EncodePairs(ps);
    forall i | 0 <= i < |pairs|
      ensures '?' !in pairs[i]
    {
      PairRoundTrip(ps[i]);
    }
    JoinAvoids(pairs, '&', '?');
  }

  /**
   * The URI can be taken apart again: it starts with the base, the text up to
   * the first `?` splits on `/` into an empty field followed by the path
   * segments, and the rest parses back to the query parameters, in order. This
   * needs segments without `/` and `?` (they are inserted unencoded) and a
   * base without `?`.
   */
  lemma UriDecomposes(base: string, paths: seq<string>, queryParams: seq<Param>)
    requires '?' !in base
    requires forall i :: 0 <= i < |paths| ==> '/' !in paths[i] && '?' !in paths[i]
    ensures var u := UriOf(base, paths, queryParams);
      var q := IndexOf(u, '?');
      && |base| <= q
      && u[..|base|] == base
      && SplitOn(u[|base|..q], '/') == [""] + paths
      && ParseQuery(u[q..]) == Some(Rendered(queryParams))
  {
    var suffix := PathSuffix(paths);
    var query := QueryOf(queryParams);
    PathSuffixSplit(paths);
    QueryShape(queryParams);
    QueryRoundTrip(queryParams);
    SplitAtQuery(base, suffix, query);
  }

  /** The path suffix holds no `?` and splits at `/` into an empty field followed by the segments. */
  lemma PathSuffixSplit(paths: seq<string>)
    requires forall i :: 0 <= i < |paths| ==> '/' !in paths[i] && '?' !in paths[i]
    ensures '?' !in PathSuffix(paths)
    ensures SplitOn(PathSuffix(paths), '/') == [""] + paths
  {
    if paths != [] {
      var suffix := PathSuffix(paths);
      PathSuffixJoin(paths);
      JoinAvoids(paths, '/', '?');
      SplitJoin(paths, '/');
      SplitNoSep("", '/', Join(paths, '/'));
      assert suffix == "" + "/" + Join(paths, '/');
    }
  }

  /**
   * On a valid builder whose segments hold no `/` or `?`, the path part of
   * `uri()` splits at `/` into the leading empty field and one non-empty
   * field per segment: because `path` refuses "", no two slashes are
   * adjacent and the path part never ends with `/`.
   */
  lemma ValidPathFields(b: SimpleRequestBuilder)
    requires b.Valid()
    requires forall i :: 0 <= i < |b.paths| ==> '/' !in b.paths[i] && '?' !in b.paths[i]
    ensures var fields := SplitOn(PathSuffix(b.paths), '/');
      && |fields| == |b.paths| + 1 && fields[0] == ""
      && forall i :: 1 <= i < |fields| ==> fields[i] != ""
  {
    PathSuffixSplit(b.paths);
  }

  /** In `base + suffix + query` the first `?` is where the query starts, if anywhere. */
  lemma SplitAtQuery(base: string, suffix: string, query: string)
    requires '?' !in base && '?' !in suffix
    requires query == "" || query[0] == '?'
    ensures var u := base + suffix + query;
      var q := IndexOf(u, '?');
      && q == |base| + |suffix|
      && u[..|base|] == base && u[|base|..q] == suffix && u[q..] == query
  {
    var head := base + suffix;
    var u := head + query;
    assert '?' !in head;
    var q := IndexOf(u, '?');
    if query == "" {
      assert u == head;
    } else {
      assert u[|head|] == '?';
      assert u[..|head|] == head;
    }
    assert u[..|base|] == base;
    assert u[|base|..q] == suffix;
  }

  /** Two segments and no query parameter. */
  lemma UriOfTwoSegments(base: string, a: string, b: string)
    ensures UriOf(base, [a, b], []) == base + "/" + a + "/" + b
  {
    assert [a, b][..1] == [a];
    assert PathSuffix([a]) == PathSuffix([]) + "/" + a;
    QueryShape([]);
  }

  /**
   * A segment is inserted as it is, so a segment that starts with `/` (the
   * service path `/service/todo` that a generated client passes as one
   * segment) doubles the slash after the base.
   */
  lemma UnsplitSegment(base: string, seg: string, rest: string)
    ensures UriOf(base, ["/" + seg, rest], []) == base + "//" + seg + "/" + rest
  {
    UriOfTwoSegments(base, "/" + seg, rest);
  }

  /**
   * A builder for `host + "/"` with segments `a`, `b` and one query parameter
   * `k` = `v`: the trailing slash is gone, each segment follows a `/`, and the
   * one parameter follows the `?` as `enc(k)=enc(v)`.
   */
  lemma UriShape(host: string, a: string, b: string, k: string, v: string)
    ensures UriOf(StripTrailingSlash(host + "/"), [a, b], [Param(k, Scalar(v))])
         == host + "/" + a + "/" + b + "?" + EncodePair(Param(k, Scalar(v)))
  {
    var p := Param(k, Scalar(v));
    assert StripTrailingSlash(host + "/") == host;
    UriOfTwoSegments(host, a, b);
    QueryOfSingle(p);
    assert PathSuffix([a, b]) + QueryOf([]) == "/" + a + "/" + b;
  }

  /** Only one trailing slash is removed. */
  lemma StripOnlyOneSlash()
    ensures StripTrailingSlash("http://api//") == "http://api/"
    ensures StripTrailingSlash("http://api") == "http://api"
  {
  }
}
