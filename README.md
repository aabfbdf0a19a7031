# SimpleRest core, modelled in Dafny

SimpleRest turns an annotated JAX-RS service interface into a generated GWT
client class. At run time, each generated method composes one HTTP request
through a chained, single-use request builder. This project models three
pieces of that system and proves properties about them:

* **The request builder** (`SimpleRequestBuilder`, module `RequestBuilder`,
  file `request_builder.dfy`). A class with the source's fields:
  * the normalised base;
  * the path segments;
  * the query, header and form parameter lists;
  * the verb;
  * the body object.

  The configuration methods update those fields in place. `uri()`, `query()`
  and `encodeParams()` are loops that build strings, proved against
  specification functions. The header and body decision of `request()` is a
  pure function (`Negotiate`), and the callback branch of `execute()` is
  another (`Dispatch`).

  Component encoding is `encodeURIComponent` (ECMA-262, section 19.2.6.5)
  followed by `replaceAll("%20", "+")`. It is modelled byte-exactly through
  UTF-8 (RFC 3629) in module `UriEncoding`. It is proved equal to `FormEncode`:
  `encodeURIComponent` per character, with `+` for a space. Only the space
  convention is that of `application/x-www-form-urlencoded` (WHATWG URL
  Standard, section 5.2); unlike that format's serializer, `!'()~` stay
  unescaped. The encoding is also proved free of spaces, `%20` and query
  delimiters, and lossless: a decoder recovers the input. Module `QueryString` parses a query back into
  its keys and values, in order.

* **The client base class** (`SimpleRestClient`, module `RestClient`). Each
  call seeds a freshly allocated builder with the verb and the service path.

* **The two annotation processors**, which lower an interface to a client
  class:
  * the synchronous-signature variant `SimpleRestGwtSyncProcessor` (module
    `SyncProcessor`);
  * the callback variant `SimpleRestGwtProcessor` (module
    `CallbackProcessor`).

  Their shared classification lives in module `Descriptors`:
  * verb resolution and the static-import set;
  * path splitting and `{placeholder}` resolution;
  * produces/consumes defaulting;
  * `isParam`, `isIncompatible`;
  * the choice of the body parameter.

  An interface, a method and a parameter are datatypes. The generated call
  chain is a sequence of `Call` values. Each processor's per-method loop is
  a method proved equal to a pure lowering function. The properties are
  proved about that function:
  * the order of the chain;
  * which parameter becomes the body;
  * which calls the bindings produce;
  * the callback type chosen from the return type;
  * the generated signature;
  * the import set;
  * the error cases.

  An exception in one interface is reported as a diagnostic, and the other
  interfaces are still generated.

Java exceptions are results: `Outcome` (`Pass` / `Throw(e)`) or
`Result<T, Exception>`. A state change made before the throw is kept, as in
Java. A Java reference that the code can see as `null` is an `Option`, or
the `Null` case of `Value`. `JSON.stringify` is a function parameter of
`Request`.

## Model

| member | source | states |
|---|---|---|
| JavaValues.ToString | simplerest-core/src/main/java/us/ascendtech/gwt/simplerest/client/SimpleRequestBuilder.java:204 | `Objects.toString`: "null" for a null reference, the object's own text otherwise |
| UriEncoding.Utf8Char | simplerest-core/src/main/java/us/ascendtech/gwt/simplerest/client/SimpleRequestBuilder.java:51 | a character encodes to 1-4 bytes; one byte exactly for ASCII, equal to the code point; every byte of a multi-byte sequence is >= 0x80 |
| UriEncoding.Utf8CharDecodes | simplerest-core/src/main/java/us/ascendtech/gwt/simplerest/client/SimpleRequestBuilder.java:51 | the UTF-8 sequence of a character has the length its lead byte announces and decodes back to that character |
| UriEncoding.Utf8DecodeChar | simplerest-core/src/main/java/us/ascendtech/gwt/simplerest/client/SimpleRequestBuilder.java:51 | decoding a character's bytes followed by more bytes yields the character, then the decoding of the rest |
| UriEncoding.Utf8RoundTrip | simplerest-core/src/main/java/us/ascendtech/gwt/simplerest/client/SimpleRequestBuilder.java:51 | decoding the UTF-8 encoding of any string gives the string back |
| UriEncoding.Hex | simplerest-core/src/main/java/us/ascendtech/gwt/simplerest/client/SimpleRequestBuilder.java:51 | the hexadecimal digit that `encodeURIComponent` writes is an unreserved character and never `%` |
| UriEncoding.EncodeComponent | simplerest-core/src/main/java/us/ascendtech/gwt/simplerest/client/SimpleRequestBuilder.java:50-52 | `encodeComponent` is the per-character form encoding, and decoding its output gives the input back |
| UriEncoding.EncodeComponentSafe | simplerest-core/src/main/java/us/ascendtech/gwt/simplerest/client/SimpleRequestBuilder.java:50-52 | the encoded component holds only form-safe characters, no space and no `%20` |
| UriEncoding.EncodeURIComponent | simplerest-core/src/main/java/us/ascendtech/gwt/simplerest/client/SimpleRequestBuilder.java:51 | `encodeURIComponent`: the unreserved characters kept, every other character as the `%XX` triplets of its UTF-8 bytes (a definition; `ReplaceSpaces`, `TripletsSafe` and `EncodeComponent` state its properties) |
| UriEncoding.ReplaceAll | simplerest-core/src/main/java/us/ascendtech/gwt/simplerest/client/SimpleRequestBuilder.java:51 | `replaceAll("%20", "+")`: left-to-right, non-overlapping replacement (a definition; `ReplaceAllStep`, `ReplaceAllTriplets` and `ReplaceSpaces` state its properties) |
| UriEncoding.ReplaceAllStep | simplerest-core/src/main/java/us/ascendtech/gwt/simplerest/client/SimpleRequestBuilder.java:51 | `replaceAll("%20","+")` copies a leading character that is not `%` |
| UriEncoding.HexPairOf | simplerest-core/src/main/java/us/ascendtech/gwt/simplerest/client/SimpleRequestBuilder.java:51 | the two hex digits of a byte spell `20` only for the byte 0x20 |
| UriEncoding.HexValueOfHex | simplerest-core/src/main/java/us/ascendtech/gwt/simplerest/client/SimpleRequestBuilder.java:51 | every emitted hex digit reads back as its value |
| UriEncoding.ReplaceAllTriplet | simplerest-core/src/main/java/us/ascendtech/gwt/simplerest/client/SimpleRequestBuilder.java:51 | the `%XY` triplet of a byte other than 0x20 passes through `replaceAll` unchanged |
| UriEncoding.ReplaceAllTriplets | simplerest-core/src/main/java/us/ascendtech/gwt/simplerest/client/SimpleRequestBuilder.java:51 | triplets of bytes other than 0x20 pass through `replaceAll` unchanged, and the replacement continues after them |
| UriEncoding.ReplaceAllChar | simplerest-core/src/main/java/us/ascendtech/gwt/simplerest/client/SimpleRequestBuilder.java:51 | `replaceAll` turns the `encodeURIComponent` of one character into its form encoding (`+` for a space) |
| UriEncoding.ReplaceSpaces | simplerest-core/src/main/java/us/ascendtech/gwt/simplerest/client/SimpleRequestBuilder.java:51 | `replaceAll("%20","+")` applied to `encodeURIComponent(s)` is exactly the form encoding of `s` |
| UriEncoding.TripletsSafe | simplerest-core/src/main/java/us/ascendtech/gwt/simplerest/client/SimpleRequestBuilder.java:51 | percent triplets contain only form-safe characters |
| UriEncoding.FormEncodeSafe | simplerest-core/src/main/java/us/ascendtech/gwt/simplerest/client/SimpleRequestBuilder.java:51 | the form encoding of any string contains only form-safe characters |
| UriEncoding.NoEncodedSpaceConcat | simplerest-core/src/main/java/us/ascendtech/gwt/simplerest/client/SimpleRequestBuilder.java:51 | two texts without `%20` joined at a boundary with no `%` in the left text's last two places hold no `%20` |
| UriEncoding.TripletsNoEncodedSpace | simplerest-core/src/main/java/us/ascendtech/gwt/simplerest/client/SimpleRequestBuilder.java:51 | triplets of bytes other than 0x20 contain no `%20` and no `%` in their last two places |
| UriEncoding.FormCharNoEncodedSpace | simplerest-core/src/main/java/us/ascendtech/gwt/simplerest/client/SimpleRequestBuilder.java:51 | the form encoding of one character contains no `%20` and no `%` in its last two places |
| UriEncoding.FormEncodeNoEncodedSpace | simplerest-core/src/main/java/us/ascendtech/gwt/simplerest/client/SimpleRequestBuilder.java:51 | the form encoding of any string contains no `%20` |
| UriEncoding.DecodeTriplets | simplerest-core/src/main/java/us/ascendtech/gwt/simplerest/client/SimpleRequestBuilder.java:51 | percent-decoding triplets followed by more text yields their bytes, then the decoding of the rest |
| UriEncoding.DecodeFormChar | simplerest-core/src/main/java/us/ascendtech/gwt/simplerest/client/SimpleRequestBuilder.java:51 | percent-decoding the form encoding of a character yields its UTF-8 bytes (`+` decodes to the space) |
| UriEncoding.PercentDecodeFormEncode | simplerest-core/src/main/java/us/ascendtech/gwt/simplerest/client/SimpleRequestBuilder.java:51 | percent-decoding the form encoding of a string yields its UTF-8 bytes |
| UriEncoding.FormRoundTrip | simplerest-core/src/main/java/us/ascendtech/gwt/simplerest/client/SimpleRequestBuilder.java:51 | decoding the form encoding of any string gives the string back |
| UriEncoding.EncodeComponentInjective | simplerest-core/src/main/java/us/ascendtech/gwt/simplerest/client/SimpleRequestBuilder.java:50-52 | two different strings never encode to the same component |
| UriEncoding.EncodeSpaceExample | simplerest-core/src/main/java/us/ascendtech/gwt/simplerest/client/SimpleRequestBuilder.java:51 | `a b` encodes as `a+b` |
| UriEncoding.EncodeDelimitersExample | simplerest-core/src/main/java/us/ascendtech/gwt/simplerest/client/SimpleRequestBuilder.java:51 | `&=` encodes as `%26%3D`, so the delimiters cannot leak into the query |
| QueryString.EncodePairs | simplerest-core/src/main/java/us/ascendtech/gwt/simplerest/client/SimpleRequestBuilder.java:203-205 | one `enc(k)=enc(v)` pair per parameter, in order |
| QueryString.Join | simplerest-core/src/main/java/us/ascendtech/gwt/simplerest/client/SimpleRequestBuilder.java:204 | the parts separated by single `&`, as the `out.isEmpty() ? "" : "&"` step builds them (a definition; `JoinSnoc`, `JoinEmpty` and `SplitJoin` state its properties) |
| QueryString.JoinSnoc | simplerest-core/src/main/java/us/ascendtech/gwt/simplerest/client/SimpleRequestBuilder.java:204 | appending a part to a join adds the separator only when the join already has a part |
| QueryString.Rendered | simplerest-core/src/main/java/us/ascendtech/gwt/simplerest/client/SimpleRequestBuilder.java:110 | each parameter's key with the `toString` of its value, in order |
| QueryString.EncodedParams | simplerest-core/src/main/java/us/ascendtech/gwt/simplerest/client/SimpleRequestBuilder.java:201-207 | `encodeParams` as a value: the encoded pairs joined by `&` (a definition; `EncodedParamsEmpty`, `EncodedParamsRoundTrip` and `SimpleRequestBuilder.EncodeParams` state its properties) |
| QueryString.QueryOf | simplerest-core/src/main/java/us/ascendtech/gwt/simplerest/client/SimpleRequestBuilder.java:196-199 | `query()` as a value (a definition; `QueryShape` and `QueryRoundTrip` state its properties) |
| QueryString.EncodedParamsSnoc | simplerest-core/src/main/java/us/ascendtech/gwt/simplerest/client/SimpleRequestBuilder.java:203-205 | one more parameter appends its pair, behind `&` unless it is the first |
| QueryString.JoinEmpty | simplerest-core/src/main/java/us/ascendtech/gwt/simplerest/client/SimpleRequestBuilder.java:204 | a join of non-empty parts is empty exactly when there are no parts |
| QueryString.EncodedParamsEmpty | simplerest-core/src/main/java/us/ascendtech/gwt/simplerest/client/SimpleRequestBuilder.java:201-207 | `encodeParams` yields "" exactly when there are no parameters |
| QueryString.QueryShape | simplerest-core/src/main/java/us/ascendtech/gwt/simplerest/client/SimpleRequestBuilder.java:196-199 | `query()` is "" exactly when there is no query parameter, and `?` followed by the encoding otherwise |
| QueryString.SplitOn | simplerest-core/src/main/java/us/ascendtech/gwt/simplerest/client/SimpleRequestBuilder.java:204 | splitting always yields at least one field |
| QueryString.SplitNoSep | simplerest-core/src/main/java/us/ascendtech/gwt/simplerest/client/SimpleRequestBuilder.java:204 | a text without the separator is one field, and a separator after it starts a new field |
| QueryString.SplitJoin | simplerest-core/src/main/java/us/ascendtech/gwt/simplerest/client/SimpleRequestBuilder.java:204 | splitting a join of parts that avoid the separator gives the parts back |
| QueryString.IndexOf | simplerest-core/src/main/java/us/ascendtech/gwt/simplerest/client/SimpleRequestBuilder.java:204 | the index of the first occurrence, or the length when there is none |
| QueryString.NoDelimiters | simplerest-core/src/main/java/us/ascendtech/gwt/simplerest/client/SimpleRequestBuilder.java:204 | an encoded component holds no `=`, `&` or `?` |
| QueryString.SplitAtEquals | simplerest-core/src/main/java/us/ascendtech/gwt/simplerest/client/SimpleRequestBuilder.java:204 | an encoded pair splits at its `=` into the encoded key and the encoded value |
| QueryString.ParseEncodedPair | simplerest-core/src/main/java/us/ascendtech/gwt/simplerest/client/SimpleRequestBuilder.java:204 | an encoded pair parses back to the key and the value |
| QueryString.PairRoundTrip | simplerest-core/src/main/java/us/ascendtech/gwt/simplerest/client/SimpleRequestBuilder.java:204 | the encoding of a parameter parses back to its key and the `toString` of its value |
| QueryString.ParsePairsRoundTrip | simplerest-core/src/main/java/us/ascendtech/gwt/simplerest/client/SimpleRequestBuilder.java:203-205 | the encoded pairs parse back to every key and value, in order |
| QueryString.EncodedParamsRoundTrip | simplerest-core/src/main/java/us/ascendtech/gwt/simplerest/client/SimpleRequestBuilder.java:201-207 | parsing `encodeParams(ps)` recovers every key and value string, in insertion order |
| QueryString.QueryOfSingle | simplerest-core/src/main/java/us/ascendtech/gwt/simplerest/client/SimpleRequestBuilder.java:196-199 | one query parameter gives `?enc(k)=enc(v)` |
| QueryString.QueryRoundTrip | simplerest-core/src/main/java/us/ascendtech/gwt/simplerest/client/SimpleRequestBuilder.java:196-207 | parsing `query()` recovers every query parameter, in insertion order |
| RequestBuilder.StripTrailingSlash | simplerest-core/src/main/java/us/ascendtech/gwt/simplerest/client/SimpleRequestBuilder.java:47 | the stored base plus `/` is the argument when the argument ends in `/`; otherwise it is the argument unchanged |
| RequestBuilder.Expanded | simplerest-core/src/main/java/us/ascendtech/gwt/simplerest/client/SimpleRequestBuilder.java:170-181 | what `handleLists` appends: nothing for null, one parameter per element of an iterable, else one parameter (a definition; `SimpleRequestBuilder.HandleLists`, `Param`, `Header` and `Form` state its use) |
| RequestBuilder.PathOutcome | simplerest-core/src/main/java/us/ascendtech/gwt/simplerest/client/SimpleRequestBuilder.java:139-143 | the outcome of `path(Object...)`: the NPE for the first null argument or the IAE for the first empty text, else success (a definition; `SimpleRequestBuilder.PathAll` states it) |
| RequestBuilder.AcceptedSegments | simplerest-core/src/main/java/us/ascendtech/gwt/simplerest/client/SimpleRequestBuilder.java:139-143 | the arguments before the first null or empty-text argument; every one of them is accepted |
| RequestBuilder.Segments | simplerest-core/src/main/java/us/ascendtech/gwt/simplerest/client/SimpleRequestBuilder.java:141 | the `toString` of each argument, in order |
| RequestBuilder.HeaderValues | simplerest-core/src/main/java/us/ascendtech/gwt/simplerest/client/SimpleRequestBuilder.java:118-121 | `Headers.get`: the values under a name matched case-insensitively, in order (a definition; `HeaderValuesAppend`, `WithDefaultValues` and `JsonDefaults` state its properties) |
| RequestBuilder.HeaderValuesAppend | simplerest-core/src/main/java/us/ascendtech/gwt/simplerest/client/SimpleRequestBuilder.java:110 | appending a header adds its value to what `get` returns exactly when the names match case-insensitively |
| RequestBuilder.WithDefault | simplerest-core/src/main/java/us/ascendtech/gwt/simplerest/client/SimpleRequestBuilder.java:118-123 | adding a default header keeps every earlier header, in place |
| RequestBuilder.WithDefaultValues | simplerest-core/src/main/java/us/ascendtech/gwt/simplerest/client/SimpleRequestBuilder.java:118-123 | after a default, `get(n)` returns the old values, plus the default only when the name was absent and `n` names it |
| RequestBuilder.Negotiate | simplerest-core/src/main/java/us/ascendtech/gwt/simplerest/client/SimpleRequestBuilder.java:105-125 | the headers and body of `request()`: form parameters win, else non-null data is sent as JSON with the two defaults, else no body (a definition; `HeaderParamsFirst`, `FormWins`, `NoBodyWithoutData` and `JsonDefaults` state its properties) |
| RequestBuilder.HeaderParamsFirst | simplerest-core/src/main/java/us/ascendtech/gwt/simplerest/client/SimpleRequestBuilder.java:109-110 | the header parameters come first, in order, whatever is added after them |
| RequestBuilder.FormWins | simplerest-core/src/main/java/us/ascendtech/gwt/simplerest/client/SimpleRequestBuilder.java:112-116 | with form parameters the body is the form data whatever `data` holds, and no header is added |
| RequestBuilder.NoBodyWithoutData | simplerest-core/src/main/java/us/ascendtech/gwt/simplerest/client/SimpleRequestBuilder.java:100-131 | without form parameters and data there is no body and no added header |
| RequestBuilder.JsonDefaults | simplerest-core/src/main/java/us/ascendtech/gwt/simplerest/client/SimpleRequestBuilder.java:117-125 | with data and no form parameters the body is the JSON text; Content-Type and Accept become `application/json` only when absent; other headers stay as set |
| RequestBuilder.ExplicitContentTypeExample | simplerest-core/src/main/java/us/ascendtech/gwt/simplerest/client/SimpleRequestBuilder.java:118-122 | a `content-type` header in lower case keeps the JSON Content-Type out, while Accept is still added |
| RequestBuilder.Dispatch | simplerest-core/src/main/java/us/ascendtech/gwt/simplerest/client/SimpleRequestBuilder.java:55-98 | a response that is not ok reaches `onError(status, statusText, text)`; an ok one reaches the data branch of the first interface implemented, in the order of the `instanceof` checks; a callback of no known type is refused with the source's message; each branch is an if-and-only-if |
| RequestBuilder.DataXorError | simplerest-core/src/main/java/us/ascendtech/gwt/simplerest/client/SimpleRequestBuilder.java:57-94 | for a callback of a known type, the error branch is taken exactly when the response is not ok, and the request is never refused |
| RequestBuilder.NotFoundExample | simplerest-core/src/main/java/us/ascendtech/gwt/simplerest/client/SimpleRequestBuilder.java:89-93 | a 404 reaches the error callback with its status, status text and body |
| RequestBuilder.SimpleRequestBuilder.constructor | simplerest-core/src/main/java/us/ascendtech/gwt/simplerest/client/SimpleRequestBuilder.java:38-48 | the trailing slash is stripped from the base; the verb is GET; there is no data; every list is empty |
| RequestBuilder.SimpleRequestBuilder.Method | simplerest-core/src/main/java/us/ascendtech/gwt/simplerest/client/SimpleRequestBuilder.java:133-137 | a null verb throws NPE("path required") and changes nothing; otherwise it replaces the verb |
| RequestBuilder.SimpleRequestBuilder.Path | simplerest-core/src/main/java/us/ascendtech/gwt/simplerest/client/SimpleRequestBuilder.java:145-150 | null throws NPE and "" throws IllegalArgumentException, both leaving the segments unchanged; anything else is appended at the end; no other field changes |
| RequestBuilder.SimpleRequestBuilder.PathAll | simplerest-core/src/main/java/us/ascendtech/gwt/simplerest/client/SimpleRequestBuilder.java:139-143 | appends the accepted arguments' texts in order; fails on the first null (NPE "path required") or empty argument; the segments before it stay appended |
| RequestBuilder.SimpleRequestBuilder.Param | simplerest-core/src/main/java/us/ascendtech/gwt/simplerest/client/SimpleRequestBuilder.java:152-156 | a null key throws NPE("query param key required"); otherwise only the query list changes, by the expansion of the value |
| RequestBuilder.SimpleRequestBuilder.Header | simplerest-core/src/main/java/us/ascendtech/gwt/simplerest/client/SimpleRequestBuilder.java:158-162 | a null key throws NPE("header param key required"); otherwise only the header list changes, by the expansion of the value |
| RequestBuilder.SimpleRequestBuilder.Form | simplerest-core/src/main/java/us/ascendtech/gwt/simplerest/client/SimpleRequestBuilder.java:164-168 | a null key throws NPE("form param key required"); otherwise only the form list changes, by the expansion of the value |
| RequestBuilder.SimpleRequestBuilder.HandleLists | simplerest-core/src/main/java/us/ascendtech/gwt/simplerest/client/SimpleRequestBuilder.java:170-181 | a null value adds nothing; an iterable adds one `Param(key, e)` per element, in order; any other value adds exactly `Param(key, value)` |
| RequestBuilder.SimpleRequestBuilder.Data | simplerest-core/src/main/java/us/ascendtech/gwt/simplerest/client/SimpleRequestBuilder.java:183-186 | replaces the body object |
| RequestBuilder.SimpleRequestBuilder.Uri | simplerest-core/src/main/java/us/ascendtech/gwt/simplerest/client/SimpleRequestBuilder.java:188-194 | the base, then `/` and each segment in order, then `query()` |
| RequestBuilder.SimpleRequestBuilder.Query | simplerest-core/src/main/java/us/ascendtech/gwt/simplerest/client/SimpleRequestBuilder.java:196-199 | "" exactly when there is no query parameter; otherwise `?` and the encoded parameters |
| RequestBuilder.SimpleRequestBuilder.EncodeParams | simplerest-core/src/main/java/us/ascendtech/gwt/simplerest/client/SimpleRequestBuilder.java:201-207 | the pairs joined by `&` in order; "" exactly when there are none; the result parses back to every key and value |
| RequestBuilder.EncodeParamsStep | simplerest-core/src/main/java/us/ascendtech/gwt/simplerest/client/SimpleRequestBuilder.java:203-205 | one iteration of the loop appends the next pair, behind `&` unless it is the first, and leaves the result non-empty |
| RequestBuilder.SimpleRequestBuilder.RenderParams | simplerest-core/src/main/java/us/ascendtech/gwt/simplerest/client/SimpleRequestBuilder.java:110 | each key with the `toString` of its value, in order |
| RequestBuilder.SimpleRequestBuilder.ToString | simplerest-core/src/main/java/us/ascendtech/gwt/simplerest/client/SimpleRequestBuilder.java:209-212 | the verb, a space and the URI |
| RequestBuilder.SimpleRequestBuilder.Request | simplerest-core/src/main/java/us/ascendtech/gwt/simplerest/client/SimpleRequestBuilder.java:100-131 | fetches `uri()` with the builder's verb and same-origin credentials; headers and body are those `Negotiate` decides |
| RequestBuilder.PathSuffix | simplerest-core/src/main/java/us/ascendtech/gwt/simplerest/client/SimpleRequestBuilder.java:190-192 | the `out += "/" + pathComponent` loop as a value (a definition; `PathSuffixJoin`, `PathSuffixSplit` and `SimpleRequestBuilder.Uri` state its properties) |
| RequestBuilder.PathSuffixJoin | simplerest-core/src/main/java/us/ascendtech/gwt/simplerest/client/SimpleRequestBuilder.java:190-192 | the path part of the URI is `/` followed by the segments joined by `/` |
| RequestBuilder.JoinAvoids | simplerest-core/src/main/java/us/ascendtech/gwt/simplerest/client/SimpleRequestBuilder.java:190-192 | a join does not contain a character that no part contains and that is not the separator |
| RequestBuilder.EncodedParamsNoQuestionMark | simplerest-core/src/main/java/us/ascendtech/gwt/simplerest/client/SimpleRequestBuilder.java:201-207 | the encoded parameters contain no `?` |
| RequestBuilder.UriOf | simplerest-core/src/main/java/us/ascendtech/gwt/simplerest/client/SimpleRequestBuilder.java:188-193 | `uri()` as a value: base, `/` before each segment, then `query()` (a definition; `SimpleRequestBuilder.Uri`, `UriDecomposes` and `UriShape` state its properties) |
| RequestBuilder.UriDecomposes | simplerest-core/src/main/java/us/ascendtech/gwt/simplerest/client/SimpleRequestBuilder.java:188-199 | the URI starts with the base; up to the first `?` it splits on `/` into the segments; the rest parses back to the query parameters, in order |
| RequestBuilder.PathSuffixSplit | simplerest-core/src/main/java/us/ascendtech/gwt/simplerest/client/SimpleRequestBuilder.java:190-192 | the path part holds no `?` and splits at `/` into an empty field followed by the segments |
| RequestBuilder.ValidPathFields | simplerest-core/src/main/java/us/ascendtech/gwt/simplerest/client/SimpleRequestBuilder.java:145-148 | on a builder whose segments `path` accepted (all non-empty) and hold no `/` or `?`, the path part of `uri()` splits into the leading empty field and one non-empty field per segment |
| RequestBuilder.SplitAtQuery | simplerest-core/src/main/java/us/ascendtech/gwt/simplerest/client/SimpleRequestBuilder.java:188-193 | when neither the base nor the path holds a `?` and the query is empty or starts with one, the first `?` is where the query starts |
| RequestBuilder.UriOfTwoSegments | simplerest-core/src/main/java/us/ascendtech/gwt/simplerest/client/SimpleRequestBuilder.java:188-194 | two segments and no query give `base/a/b` |
| RequestBuilder.UnsplitSegment | simplerest-core/src/main/java/us/ascendtech/gwt/simplerest/client/SimpleRequestBuilder.java:190-192 | a segment that starts with `/` is inserted as it is, doubling the slash |
| RequestBuilder.UriShape | simplerest-core/src/main/java/us/ascendtech/gwt/simplerest/client/SimpleRequestBuilder.java:46-48 | a base with a trailing slash, two segments and one query parameter give `host/a/b?enc(k)=enc(v)` |
| RequestBuilder.StripOnlyOneSlash | simplerest-core/src/main/java/us/ascendtech/gwt/simplerest/client/SimpleRequestBuilder.java:47 | only one trailing slash is removed |
| RestClient.SimpleRestClient.constructor | simplerest-core/src/main/java/us/ascendtech/gwt/simplerest/client/SimpleRestClient.java:7-10 | stores the base URL and the service path unchanged |
| RestClient.SimpleRestClient.Method | simplerest-core/src/main/java/us/ascendtech/gwt/simplerest/client/SimpleRestClient.java:12-15 | a null verb fails first; a null or empty service path fails in `path`; on success the builder is new, has the verb, and has exactly one segment, the unsplit service path |
| RestClient.SeededCallExample | simplerest-core/src/main/java/us/ascendtech/gwt/simplerest/client/SimpleRestClient.java:14 | with base `host/` and service path `/service/todo`, a GET to segment `list` prints as `GET host//service/todo/list` |
| RestClient.SeededUri | simplerest-core/src/main/java/us/ascendtech/gwt/simplerest/client/SimpleRestClient.java:14 | the URI for base `host/`, segments `/service/todo` and `list` and no query is `host//service/todo/list` |
| Descriptors.FirstIndex | simplerest-processor/src/main/java/us/ascendtech/gwt/simplerest/processor/SimpleRestGwtSyncProcessor.java:158 | the index of the first element that satisfies the predicate; none exactly when no element does |
| Descriptors.ResolveVerb | simplerest-processor/src/main/java/us/ascendtech/gwt/simplerest/processor/SimpleRestGwtSyncProcessor.java:149-151 | the value of the first `@HttpMethod` annotation; GET when there is none |
| Descriptors.EmittedVerb | simplerest-processor/src/main/java/us/ascendtech/gwt/simplerest/processor/SimpleRestGwtSyncProcessor.java:269-277 | a standard verb is emitted bare, any other verb quoted |
| Descriptors.ImportOf | simplerest-processor/src/main/java/us/ascendtech/gwt/simplerest/processor/SimpleRestGwtSyncProcessor.java:269-277 | a verb is imported exactly when it is one of the standard verbs |
| Descriptors.MethodImport | simplerest-processor/src/main/java/us/ascendtech/gwt/simplerest/processor/SimpleRestGwtSyncProcessor.java:269-277 | returns the emitted verb; adds it to the import set exactly when it is a standard verb |
| Descriptors.IsParam | simplerest-processor/src/main/java/us/ascendtech/gwt/simplerest/processor/SimpleRestGwtSyncProcessor.java:279-282 | `isParam`: the parameter carries one of the six JAX-RS parameter annotations (a definition; `UnboundHasNoRole` and `BodyIsUnbound` state what it implies) |
| Descriptors.UnboundHasNoRole | simplerest-processor/src/main/java/us/ascendtech/gwt/simplerest/processor/SimpleRestGwtSyncProcessor.java:279-282 | a parameter that fails `isParam` carries none of the modelled binding annotations |
| Descriptors.BodyIsUnbound | simplerest-processor/src/main/java/us/ascendtech/gwt/simplerest/processor/SimpleRestGwtSyncProcessor.java:172-182 | the parameter sent with `data` has no binding, so it is never also sent as a query, header or form parameter |
| Descriptors.FirstUnbound | simplerest-processor/src/main/java/us/ascendtech/gwt/simplerest/processor/SimpleRestGwtSyncProcessor.java:182 | the first parameter without a binding annotation; none exactly when every parameter is bound |
| Descriptors.FirstUnboundIs | simplerest-processor/src/main/java/us/ascendtech/gwt/simplerest/processor/SimpleRestGwtSyncProcessor.java:182 | the first unbound parameter is the one before which every parameter is bound |
| Descriptors.BoundTo | simplerest-processor/src/main/java/us/ascendtech/gwt/simplerest/processor/SimpleRestGwtSyncProcessor.java:173-180 | only parameters with the given binding |
| Descriptors.BoundToSnoc | simplerest-processor/src/main/java/us/ascendtech/gwt/simplerest/processor/SimpleRestGwtSyncProcessor.java:173-180 | one more parameter adds itself exactly when it carries the binding |
| Descriptors.BindingCalls | simplerest-processor/src/main/java/us/ascendtech/gwt/simplerest/processor/SimpleRestGwtSyncProcessor.java:173-180 | one `.param`/`.header`/`.form` call per parameter carrying the annotation, in parameter order (a definition; `BindingCallsMembers`, `AppendBindingCalls` and `BindingCallsRank` state its properties) |
| Descriptors.BindingCallsSnoc | simplerest-processor/src/main/java/us/ascendtech/gwt/simplerest/processor/SimpleRestGwtSyncProcessor.java:173-180 | one more parameter adds its call exactly when it carries the binding |
| Descriptors.AppendBindingCalls | simplerest-processor/src/main/java/us/ascendtech/gwt/simplerest/processor/SimpleRestGwtSyncProcessor.java:173-180 | appends the calls of one binding group, in parameter order |
| Descriptors.NonEmpty | simplerest-processor/src/main/java/us/ascendtech/gwt/simplerest/processor/SimpleRestGwtSyncProcessor.java:154 | keeps only the non-empty segments, and only segments of the input |
| Descriptors.SplitOnAvoids | simplerest-processor/src/main/java/us/ascendtech/gwt/simplerest/processor/SimpleRestGwtSyncProcessor.java:154 | no field of a split holds the separator |
| Descriptors.SegmentsAreClean | simplerest-processor/src/main/java/us/ascendtech/gwt/simplerest/processor/SimpleRestGwtSyncProcessor.java:153-154 | every path segment is non-empty and slash-free |
| Descriptors.NonEmptyKeeps | simplerest-processor/src/main/java/us/ascendtech/gwt/simplerest/processor/SimpleRestGwtSyncProcessor.java:154 | filtering segments that are already non-empty changes nothing |
| Descriptors.SegmentsRoundTrip | simplerest-processor/src/main/java/us/ascendtech/gwt/simplerest/processor/SimpleRestGwtSyncProcessor.java:153-154 | splitting a join of clean segments gives them back |
| Descriptors.LeadingSlashIgnored | simplerest-processor/src/main/java/us/ascendtech/gwt/simplerest/processor/SimpleRestGwtSyncProcessor.java:154 | a leading slash does not change the segments; a missing `@Path` gives none |
| Descriptors.PathSegments | simplerest-processor/src/main/java/us/ascendtech/gwt/simplerest/processor/SimpleRestGwtSyncProcessor.java:154 | the `@Path` value, or "", split at `/` with empty fields dropped (a definition; `SegmentsAreClean`, `SegmentsRoundTrip` and `LeadingSlashIgnored` state its properties) |
| Descriptors.ResolveSegment | simplerest-processor/src/main/java/us/ascendtech/gwt/simplerest/processor/SimpleRestGwtSyncProcessor.java:155-160 | a segment not starting with `{` stays a literal; a placeholder names the first parameter whose `@PathParam` matches; with no match it is marked unmatched |
| Descriptors.ResolvePath | simplerest-processor/src/main/java/us/ascendtech/gwt/simplerest/processor/SimpleRestGwtSyncProcessor.java:153-161 | one path argument per segment, in order, each resolved against the parameters |
| Descriptors.LiteralThenPlaceholder | simplerest-processor/src/main/java/us/ascendtech/gwt/simplerest/processor/SimpleRestGwtSyncProcessor.java:153-161 | `/lit/{key}` resolves to a literal and the parameter bound to `key` |
| Descriptors.DeletePathExample | simplerest-processor-test/src/main/java/us/ascendtech/gwt/simplerest/processor/ToDoServiceClientSync.java:25-27 | `/delete/{id}` with `@PathParam("id") id` resolves to `path("delete", id)` |
| Descriptors.TwoSegments | simplerest-processor/src/main/java/us/ascendtech/gwt/simplerest/processor/SimpleRestGwtSyncProcessor.java:154 | `/a/b` splits into `a` and `b` |
| Descriptors.IsIncompatible | simplerest-processor/src/main/java/us/ascendtech/gwt/simplerest/processor/SimpleRestGwtSyncProcessor.java:288-290 | an annotation whose type name ends with `GwtIncompatible` (a definition; `IncompatibleAnnotation` states what the search returns) |
| Descriptors.IncompatibleAnnotation | simplerest-processor/src/main/java/us/ascendtech/gwt/simplerest/processor/SimpleRestGwtSyncProcessor.java:284-290 | an annotation whose type name ends in `GwtIncompatible`, if there is one |
| Descriptors.Effective | simplerest-processor/src/main/java/us/ascendtech/gwt/simplerest/processor/SimpleRestGwtSyncProcessor.java:164-170 | the method's own produces/consumes when present, else the interface's, else none |
| Descriptors.Concrete | simplerest-processor/src/main/java/us/ascendtech/gwt/simplerest/processor/SimpleRestGwtSyncProcessor.java:191-194 | the modifiers without ABSTRACT and DEFAULT |
| Descriptors.Specs | simplerest-processor/src/main/java/us/ascendtech/gwt/simplerest/processor/SimpleRestGwtSyncProcessor.java:202-205 | the original parameters, names and types, in order |
| Descriptors.Overriding | simplerest-processor/src/main/java/us/ascendtech/gwt/simplerest/processor/SimpleRestGwtSyncProcessor.java:141 | javapoet's `MethodSpec.overriding`: `@Override`, the modifiers without ABSTRACT and DEFAULT, type variables, return type, parameters and varargs flag (a definition; both `LowerMethodCases` lemmas state its use) |
| Descriptors.Lowered | simplerest-processor/src/main/java/us/ascendtech/gwt/simplerest/processor/SimpleRestGwtSyncProcessor.java:131-133 | exactly the methods that are neither static nor default |
| Descriptors.OwnImport | simplerest-processor/src/main/java/us/ascendtech/gwt/simplerest/processor/SimpleRestGwtSyncProcessor.java:262-264 | the standard verb a method emits, if any |
| Descriptors.VerbImports | simplerest-processor/src/main/java/us/ascendtech/gwt/simplerest/processor/SimpleRestGwtSyncProcessor.java:262-264 | the `methodImports` set added as static imports: the standard verbs of the compatible methods (a definition; `VerbImportsMembers`, `ImportedBySome` and `ImportedByEach` state its properties) |
| Descriptors.ImportedBySome | simplerest-processor/src/main/java/us/ascendtech/gwt/simplerest/processor/SimpleRestGwtSyncProcessor.java:262-264 | every imported verb is emitted by some method |
| Descriptors.ImportedByEach | simplerest-processor/src/main/java/us/ascendtech/gwt/simplerest/processor/SimpleRestGwtSyncProcessor.java:262-264 | every standard verb a method emits is imported |
| Descriptors.VerbImportsMembers | simplerest-processor/src/main/java/us/ascendtech/gwt/simplerest/processor/SimpleRestGwtSyncProcessor.java:262-264 | a verb is imported exactly when it is standard and some method emits it |
| Descriptors.LowerAll | simplerest-processor/src/main/java/us/ascendtech/gwt/simplerest/processor/SimpleRestGwtSyncProcessor.java:135-258 | success exactly when every method lowers; then one generated method per method, in order |
| Descriptors.LowerAllFirstFailure | simplerest-processor/src/main/java/us/ascendtech/gwt/simplerest/processor/SimpleRestGwtSyncProcessor.java:135-258 | the first method that fails decides the exception |
| Descriptors.LowerAllPrefix | simplerest-processor/src/main/java/us/ascendtech/gwt/simplerest/processor/SimpleRestGwtSyncProcessor.java:135-258 | a failure in a prefix is the failure of the whole |
| Descriptors.LowerAllStep | simplerest-processor/src/main/java/us/ascendtech/gwt/simplerest/processor/SimpleRestGwtSyncProcessor.java:135-259 | one more successful method extends the lowered methods by its own; a failing one is the failure of the whole service |
| Descriptors.VerbImportsStep | simplerest-processor/src/main/java/us/ascendtech/gwt/simplerest/processor/SimpleRestGwtSyncProcessor.java:135-259 | one more method adds its own HTTP-verb import to the static imports |
| Descriptors.ServiceOf | simplerest-processor/src/main/java/us/ascendtech/gwt/simplerest/processor/SimpleRestGwtSyncProcessor.java:112-267 | the shared shape of `processRestService`: NPE without `@Path`, else the lowered methods and the verb imports, or the first method's exception (a definition; `ServiceOfSuccess` and `ServiceOfFailure` state its properties) |
| Descriptors.ServiceOfSuccess | simplerest-processor/src/main/java/us/ascendtech/gwt/simplerest/processor/SimpleRestGwtSyncProcessor.java:112-267 | a client class is produced exactly when there is a path and every method lowers; its package, name, superinterface, path, methods in order and imports |
| Descriptors.ServiceOfFailure | simplerest-processor/src/main/java/us/ascendtech/gwt/simplerest/processor/SimpleRestGwtSyncProcessor.java:112-267 | a missing path fails with NPE; otherwise the failure is that of the first method that fails, and every earlier method lowers |
| Descriptors.Outcomes | simplerest-processor/src/main/java/us/ascendtech/gwt/simplerest/processor/SimpleRestGwtSyncProcessor.java:96-110 | `process`: one file per interface that lowers and one error per interface that throws, in order, non-interfaces skipped (a definition; `OutcomesSplit` and `FailureIsIsolated` state its properties) |
| Descriptors.QualifiedName | simplerest-processor/src/main/java/us/ascendtech/gwt/simplerest/processor/SimpleRestGwtSyncProcessor.java:106 | the element name in the diagnostic, `package.SimpleName` (a definition; `FailureIsIsolated` and `ZeroParametersReported` state its use) |
| Descriptors.OutcomesSplit | simplerest-processor/src/main/java/us/ascendtech/gwt/simplerest/processor/SimpleRestGwtSyncProcessor.java:98-109 | the files and diagnostics of two interface lists are those of each, concatenated |
| Descriptors.FailureIsIsolated | simplerest-processor/src/main/java/us/ascendtech/gwt/simplerest/processor/SimpleRestGwtSyncProcessor.java:98-109 | a failing interface adds only its diagnostic; every other interface is generated as without it |
| Descriptors.OrderedAppend | simplerest-processor/src/main/java/us/ascendtech/gwt/simplerest/processor/SimpleRestGwtSyncProcessor.java:173-184 | appending a group of the current rank keeps the chain ordered |
| Descriptors.BindingCallsRank | simplerest-processor/src/main/java/us/ascendtech/gwt/simplerest/processor/SimpleRestGwtSyncProcessor.java:173-180 | query calls, then header calls, then form calls occupy their own section |
| Descriptors.DataCalls | simplerest-processor/src/main/java/us/ascendtech/gwt/simplerest/processor/SimpleRestGwtSyncProcessor.java:182 | the `.data(name)` call for the selected parameter, if any (a definition; `DataCallsRank` and `AssembleData` state its properties) |
| Descriptors.DataCallsRank | simplerest-processor/src/main/java/us/ascendtech/gwt/simplerest/processor/SimpleRestGwtSyncProcessor.java:182 | at most one `data` call |
| Descriptors.OrderedTail | simplerest-processor/src/main/java/us/ascendtech/gwt/simplerest/processor/SimpleRestGwtSyncProcessor.java:173-182 | the head, bindings and data together are in emission order |
| Descriptors.RanksAtMostConcat | simplerest-processor/src/main/java/us/ascendtech/gwt/simplerest/processor/SimpleRestGwtSyncProcessor.java:173-182 | the rank bound holds for a concatenation |
| Descriptors.BindingPrefixRank | simplerest-processor/src/main/java/us/ascendtech/gwt/simplerest/processor/SimpleRestGwtSyncProcessor.java:173-180 | the head and bindings stay within the binding ranks |
| Descriptors.BoundToMembers | simplerest-processor/src/main/java/us/ascendtech/gwt/simplerest/processor/SimpleRestGwtSyncProcessor.java:173-180 | a parameter is in a binding group exactly when it carries that binding |
| Descriptors.BindingCallsMembers | simplerest-processor/src/main/java/us/ascendtech/gwt/simplerest/processor/SimpleRestGwtSyncProcessor.java:173-180 | a binding call is emitted exactly when some parameter carries that binding key and name |
| Descriptors.BindingCallSource | simplerest-processor/src/main/java/us/ascendtech/gwt/simplerest/processor/SimpleRestGwtSyncProcessor.java:173-180 | every emitted binding call comes from a parameter carrying that binding key and name |
| Descriptors.BindingCallOf | simplerest-processor/src/main/java/us/ascendtech/gwt/simplerest/processor/SimpleRestGwtSyncProcessor.java:173-180 | every parameter bound to the role has its call among the emitted ones |
| Descriptors.Assemble | simplerest-processor/src/main/java/us/ascendtech/gwt/simplerest/processor/SimpleRestGwtSyncProcessor.java:172-184 | the chain both processors build after the head: query, header and form calls in parameter order, the data call, the final `execute` (a definition; `AssembleShape`, `AssembleData` and `AssembleBindings` state its properties) |
| Descriptors.AssembleShape | simplerest-processor/src/main/java/us/ascendtech/gwt/simplerest/processor/SimpleRestGwtSyncProcessor.java:149-184 | the chain starts with its head, ends with `execute`, is ordered, and has no other `execute` |
| Descriptors.AssembleAfterHead | simplerest-processor/src/main/java/us/ascendtech/gwt/simplerest/processor/SimpleRestGwtSyncProcessor.java:173-184 | every call after the head is a binding, data or execute call |
| Descriptors.TailRanks | simplerest-processor/src/main/java/us/ascendtech/gwt/simplerest/processor/SimpleRestGwtSyncProcessor.java:173-184 | every call of the tail ranks after the head |
| Descriptors.AssembleData | simplerest-processor/src/main/java/us/ascendtech/gwt/simplerest/processor/SimpleRestGwtSyncProcessor.java:182-184 | without a data parameter there is no `data` call; with one it is the call just before `execute`, and the only one |
| Descriptors.RanksAtMostWeaken | simplerest-processor/src/main/java/us/ascendtech/gwt/simplerest/processor/SimpleRestGwtSyncProcessor.java:173-184 | a rank bound can be raised |
| Descriptors.AssembleSections | simplerest-processor/src/main/java/us/ascendtech/gwt/simplerest/processor/SimpleRestGwtSyncProcessor.java:173-180 | every param, header or form call in the chain comes from its own binding group |
| Descriptors.AssembleBindings | simplerest-processor/src/main/java/us/ascendtech/gwt/simplerest/processor/SimpleRestGwtSyncProcessor.java:173-180 | a binding call is in the chain exactly when some parameter carries that binding key and name |
| SyncProcessor.OnDoneType | simplerest-processor/src/main/java/us/ascendtech/gwt/simplerest/processor/SimpleRestGwtSyncProcessor.java:186-252 | void gives CompletableCallback; String gives SingleStringCallback; List/Collection with a type argument give MultipleCallback of it; other declared types give SingleCallback of themselves; a raw List/Collection fails with IndexOutOfBounds; a non-declared type fails with ClassCast |
| SyncProcessor.Head | simplerest-processor/src/main/java/us/ascendtech/gwt/simplerest/processor/SimpleRestGwtSyncProcessor.java:148-170 | the leading calls: resolved verb, resolved path, effective produces and consumes (a definition; `ChainShape` states its properties) |
| SyncProcessor.Chain | simplerest-processor/src/main/java/us/ascendtech/gwt/simplerest/processor/SimpleRestGwtSyncProcessor.java:146-184 | the body's builder chain: head, query, header and form calls, the data call for the first unbound parameter, `execute(onDone, onError)` (a definition; `ChainShape`, `DataIsFirstUnbound`, `BindingsOfParams` and `EmitChain` state its properties) |
| SyncProcessor.SyncSignature | simplerest-processor/src/main/java/us/ascendtech/gwt/simplerest/processor/SimpleRestGwtSyncProcessor.java:188-257 | the generated signature: name, modifiers without ABSTRACT and DEFAULT, type variables, void, the parameters then `onDone` and `onError` (a definition; `SignatureShape` states its properties) |
| SyncProcessor.VarargsMessage | simplerest-processor/src/main/java/us/ascendtech/gwt/simplerest/processor/SimpleRestGwtSyncProcessor.java:210 | the message of javapoet's IllegalArgumentException for a varargs method whose last parameter is not an array (a definition; `LowerMethodCases` states when it is thrown) |
| SyncProcessor.LowerMethod | simplerest-processor/src/main/java/us/ascendtech/gwt/simplerest/processor/SimpleRestGwtSyncProcessor.java:136-258 | one iteration of the loop over the methods (a definition; `LowerMethodCases` and `LowerOne` state its properties) |
| SyncProcessor.LowerService | simplerest-processor/src/main/java/us/ascendtech/gwt/simplerest/processor/SimpleRestGwtSyncProcessor.java:112-267 | `processRestService` as a value: the client class or the exception that aborts the interface (a definition; `ServiceSuccess`, `ServiceFailure` and `ProcessRestService` state its properties) |
| SyncProcessor.ChainShape | simplerest-processor/src/main/java/us/ascendtech/gwt/simplerest/processor/SimpleRestGwtSyncProcessor.java:149-184 | method, path, produces, consumes come first, in that order; the chain is ordered and ends with `execute(onDone, onError)`, its only `execute` |
| SyncProcessor.DataIsFirstUnbound | simplerest-processor/src/main/java/us/ascendtech/gwt/simplerest/processor/SimpleRestGwtSyncProcessor.java:182 | the `data` call names the first unbound parameter, sits just before `execute`, and is the only one |
| SyncProcessor.NoDataWhenAllBound | simplerest-processor/src/main/java/us/ascendtech/gwt/simplerest/processor/SimpleRestGwtSyncProcessor.java:182 | when every parameter is bound there is no `data` call |
| SyncProcessor.BindingsOfParams | simplerest-processor/src/main/java/us/ascendtech/gwt/simplerest/processor/SimpleRestGwtSyncProcessor.java:173-180 | a param/header/form call is emitted exactly when a parameter carries that annotation value and name |
| SyncProcessor.SignatureShape | simplerest-processor/src/main/java/us/ascendtech/gwt/simplerest/processor/SimpleRestGwtSyncProcessor.java:191-257 | the generated method keeps the name and the parameters in order, appends exactly `onDone` and `onError`, returns void, and drops ABSTRACT and DEFAULT |
| SyncProcessor.LowerMethodCases | simplerest-processor/src/main/java/us/ascendtech/gwt/simplerest/processor/SimpleRestGwtSyncProcessor.java:135-258 | a `GwtIncompatible` method becomes exactly a throwing override named after the method; otherwise lowering fails exactly when the return type cannot be mapped (with the mapping's exception) or the method is varargs (with javapoet's IllegalArgumentException, since `onError` is last and not an array), and otherwise succeeds, for a non-varargs method, with the chain and the sync signature |
| SyncProcessor.ExampleCallbacks | simplerest-processor-test/src/main/java/us/ascendtech/gwt/simplerest/processor/ToDoServiceClientSync.java:17-31 | List and Collection of a DTO give MultipleCallback of it; a DTO gives SingleCallback; void gives CompletableCallback |
| SyncProcessor.ServiceSuccess | simplerest-processor/src/main/java/us/ascendtech/gwt/simplerest/processor/SimpleRestGwtSyncProcessor.java:112-267 | an interface is generated exactly when it has a `@Path` and every method lowers; the class is `<Name>SimpleRest` in the same package, has no superinterface, and has one method per lowered method, in order |
| SyncProcessor.ServiceImports | simplerest-processor/src/main/java/us/ascendtech/gwt/simplerest/processor/SimpleRestGwtSyncProcessor.java:262-264 | a verb is statically imported exactly when it is standard and some method emits it |
| SyncProcessor.ClientImports | simplerest-processor/src/main/java/us/ascendtech/gwt/simplerest/processor/SimpleRestGwtSyncProcessor.java:262-264 | the static imports are the verb imports of the lowered methods |
| SyncProcessor.ServiceFailure | simplerest-processor/src/main/java/us/ascendtech/gwt/simplerest/processor/SimpleRestGwtSyncProcessor.java:112-267 | a missing `@Path` fails with NPE; otherwise the failure is that of the first method that fails |
| SyncProcessor.EmitChain | simplerest-processor/src/main/java/us/ascendtech/gwt/simplerest/processor/SimpleRestGwtSyncProcessor.java:146-184 | builds the chain step by step to exactly the specified chain, adding the verb's import |
| SyncProcessor.LowerOne | simplerest-processor/src/main/java/us/ascendtech/gwt/simplerest/processor/SimpleRestGwtSyncProcessor.java:135-258 | one loop iteration: the specified lowering of the method, with its own verb import added |
| SyncProcessor.ProcessRestService | simplerest-processor/src/main/java/us/ascendtech/gwt/simplerest/processor/SimpleRestGwtSyncProcessor.java:112-267 | the loop produces exactly the specified client class or exception |
| SyncProcessor.Process | simplerest-processor/src/main/java/us/ascendtech/gwt/simplerest/processor/SimpleRestGwtSyncProcessor.java:95-110 | one file per interface that lowers, in order; one diagnostic per interface that throws |
| CallbackProcessor.DataParameter | simplerest-processor/src/main/java/us/ascendtech/gwt/simplerest/processor/SimpleRestGwtProcessor.java:162-163 | the data parameter is never the last parameter |
| CallbackProcessor.NoCallbackMessage | simplerest-processor/src/main/java/us/ascendtech/gwt/simplerest/processor/SimpleRestGwtProcessor.java:156 | `Must be a callback parameter at minimum in method <name>` (a definition; `CallbackRequired` states when it is thrown) |
| CallbackProcessor.CallbackRequired | simplerest-processor/src/main/java/us/ascendtech/gwt/simplerest/processor/SimpleRestGwtProcessor.java:153-157 | the chain fails exactly for a method with no parameters, with the message "Must be a callback parameter at minimum in method <name>" |
| CallbackProcessor.Head | simplerest-processor/src/main/java/us/ascendtech/gwt/simplerest/processor/SimpleRestGwtProcessor.java:127-140 | the leading calls: resolved verb and resolved path (a definition; `ChainShape` states its properties) |
| CallbackProcessor.Chain | simplerest-processor/src/main/java/us/ascendtech/gwt/simplerest/processor/SimpleRestGwtProcessor.java:125-165 | the body's builder chain, or the RuntimeException for a method without parameters (a definition; `ChainShape`, `CallbackRequired` and `DataIsFirstUnboundBeforeLast` state its properties) |
| CallbackProcessor.LowerMethod | simplerest-processor/src/main/java/us/ascendtech/gwt/simplerest/processor/SimpleRestGwtProcessor.java:115-167 | one iteration of the loop over the methods (a definition; `LowerMethodCases` and `LowerOne` state its properties) |
| CallbackProcessor.LowerService | simplerest-processor/src/main/java/us/ascendtech/gwt/simplerest/processor/SimpleRestGwtProcessor.java:94-176 | `processRestService` as a value (a definition; `ServiceSuccess`, `ZeroParametersAbort` and `ProcessRestService` state its properties) |
| CallbackProcessor.ChainShape | simplerest-processor/src/main/java/us/ascendtech/gwt/simplerest/processor/SimpleRestGwtProcessor.java:128-165 | method and path come first; the chain is ordered; it ends with `execute(last parameter)`, its only `execute`; there is no produces or consumes call |
| CallbackProcessor.DataIsFirstUnboundBeforeLast | simplerest-processor/src/main/java/us/ascendtech/gwt/simplerest/processor/SimpleRestGwtProcessor.java:162-163 | the `data` call names the first unbound parameter before the last one, sits just before `execute`, and is the only one |
| CallbackProcessor.DataParameterIs | simplerest-processor/src/main/java/us/ascendtech/gwt/simplerest/processor/SimpleRestGwtProcessor.java:162-163 | the body parameter is the first parameter before the last without a JAX-RS parameter annotation |
| CallbackProcessor.NoDataBesidesCallback | simplerest-processor/src/main/java/us/ascendtech/gwt/simplerest/processor/SimpleRestGwtProcessor.java:162-163 | when every parameter before the last is bound there is no `data` call |
| CallbackProcessor.BindingsOfParams | simplerest-processor/src/main/java/us/ascendtech/gwt/simplerest/processor/SimpleRestGwtProcessor.java:143-150 | a param/header/form call is emitted exactly when a parameter carries that annotation value and name |
| CallbackProcessor.LowerMethodCases | simplerest-processor/src/main/java/us/ascendtech/gwt/simplerest/processor/SimpleRestGwtProcessor.java:114-167 | a `GwtIncompatible` method becomes exactly a throwing override; otherwise the override delegates to the chain |
| CallbackProcessor.UnannotatedPostShape | simplerest-processor/src/main/java/us/ascendtech/gwt/simplerest/processor/SimpleRestGwtProcessor.java:128-165 | a POST to `a/b` with three unannotated parameters gives method, path, `data(first)`, `execute(last)` |
| CallbackProcessor.StoreTodoExample | simplerest-processor-test/src/main/java/us/ascendtech/gwt/simplerest/processor/ToDoServiceClient.java:14-16 | `storeTodo(todo, callback, errorCallback)` lowers to `method(POST).path("todo","store").data(todo).execute(errorCallback)` |
| CallbackProcessor.PostVerb | simplerest-processor/src/main/java/us/ascendtech/gwt/simplerest/processor/SimpleRestGwtProcessor.java:128-130 | `@POST` is emitted as the bare constant |
| CallbackProcessor.AssembleUnbound | simplerest-processor/src/main/java/us/ascendtech/gwt/simplerest/processor/SimpleRestGwtProcessor.java:143-165 | with unbound parameters the chain is the head, the data call and `execute` |
| CallbackProcessor.FirstIsData | simplerest-processor/src/main/java/us/ascendtech/gwt/simplerest/processor/SimpleRestGwtProcessor.java:162-163 | an unbound first parameter, not the last, is the data parameter |
| CallbackProcessor.Unbound | simplerest-processor/src/main/java/us/ascendtech/gwt/simplerest/processor/SimpleRestGwtProcessor.java:143-150 | unannotated parameters produce no binding calls |
| CallbackProcessor.RelativeTwoSegments | simplerest-processor/src/main/java/us/ascendtech/gwt/simplerest/processor/SimpleRestGwtProcessor.java:133 | `a/b` splits into `a` and `b` |
| CallbackProcessor.ServiceSuccess | simplerest-processor/src/main/java/us/ascendtech/gwt/simplerest/processor/SimpleRestGwtProcessor.java:94-176 | an interface is generated exactly when it has a `@Path` and every method lowers; the class is `<Name>SimpleRest`, implements the interface, and has one method per lowered method, in order |
| CallbackProcessor.ServiceImports | simplerest-processor/src/main/java/us/ascendtech/gwt/simplerest/processor/SimpleRestGwtProcessor.java:172-173 | a verb is statically imported exactly when it is standard and some method emits it |
| CallbackProcessor.ClientImports | simplerest-processor/src/main/java/us/ascendtech/gwt/simplerest/processor/SimpleRestGwtProcessor.java:172-173 | the static imports are the verb imports of the lowered methods |
| CallbackProcessor.ZeroParametersAbort | simplerest-processor/src/main/java/us/ascendtech/gwt/simplerest/processor/SimpleRestGwtProcessor.java:153-157 | the first compatible method without parameters aborts the interface with that method's message |
| CallbackProcessor.ZeroParametersReported | simplerest-processor/src/main/java/us/ascendtech/gwt/simplerest/processor/SimpleRestGwtProcessor.java:81-91 | that abort becomes one diagnostic for the interface; every other interface is still generated |
| CallbackProcessor.EmitChain | simplerest-processor/src/main/java/us/ascendtech/gwt/simplerest/processor/SimpleRestGwtProcessor.java:125-165 | builds the chain step by step to exactly the specified chain or error, adding the verb's import |
| CallbackProcessor.LowerOne | simplerest-processor/src/main/java/us/ascendtech/gwt/simplerest/processor/SimpleRestGwtProcessor.java:114-168 | one loop iteration: the specified lowering, with the method's verb import added on success |
| CallbackProcessor.ProcessRestService | simplerest-processor/src/main/java/us/ascendtech/gwt/simplerest/processor/SimpleRestGwtProcessor.java:94-176 | the loop produces exactly the specified client class or exception |
| CallbackProcessor.Process | simplerest-processor/src/main/java/us/ascendtech/gwt/simplerest/processor/SimpleRestGwtProcessor.java:78-92 | one file per interface that lowers, in order; one diagnostic per interface that throws |

## Left out

- Browser I/O is not modelled: `fetch`, `Promise`, `Response.text()`/`json()`, `FormData`, `Js.cast` and the asynchrony of `execute`. `Request` returns the arguments it would pass to `fetch`. `Dispatch` chooses the branch `execute` takes. `JSON.stringify` is a function parameter.
- `Headers` validation of names and values, and `Headers.append`'s normalisation of the value (leading and trailing HTTP whitespace removed), are not modelled: `Request`'s header list keeps the raw `Objects.toString` text. Header lookup is modelled as ASCII case-insensitive matching (section 3.2 of RFC 7230).
- The `URIError` that `encodeURIComponent` raises on a lone surrogate is not modelled, since a Dafny `char` is always a Unicode scalar value.
- A null base URL, which makes the builder constructor throw, is not modelled: the base is a non-null string.
- Builder-side `produces()`/`consumes()`, a two-argument `execute` and a `-1`/TypeError transport-failure path are not modelled. The sync processor emits `produces`, `consumes` and `execute(onDone, onError)`, but `SimpleRequestBuilder.java` defines none of them. The generated chain is kept as data and is not checked against the builder's API.
- Services are modelled as top-level, non-generic interfaces: `QualifiedName` is `package.SimpleName`, so for a nested interface the diagnostic (`restService.toString()`) and the callback client's superinterface (`TypeName.get(restService.asType())`), which both give `package.Outer.Inner`, and a generic interface's type arguments on the superinterface are not captured.
- javapoet's rendering of the generated source is not modelled: quoting, `$L`/`$S` formatting, escaping, and its own checks other than the varargs one (`overriding` refusing private, final or static methods). `MethodSpec.Builder.build()` refusing a varargs method whose last parameter is not an array is modelled in `SyncProcessor.LowerMethod`. The model keeps `Bare`/`Quoted` verbs, `Literal`/`ParamRef`/`Unmatched` path arguments, and the signature as data; the text the processor writes for them (the quotes around a literal segment and the `/* path param … does not match any argument! */` comment, SimpleRestGwtSyncProcessor.java:155-161) is not spelled out.
- The generated constructor, the `@Inject` annotation, `Filer`/`JavaFile.writeTo`, `Messager` notes and the `debug`/`skipJavaLangImports` options are not modelled.
- The messages of the JVM's `ClassCastException` and `IndexOutOfBoundsException` (a raw return type) are not modelled; those exceptions carry no text here.
- `findAny` over the `GwtIncompatible` annotations is modelled as picking the first such annotation.
- `p != lastParam` is modelled by index: every parameter except the last can be the body.
- The generated signature does not model the throws clause. The sync processor's generated signature carries no annotations.
- The service path is passed to `path` as one segment, so `/service/todo` gives `base//service/todo` (`RestClient.SeededCallExample`, `RequestBuilder.UnsplitSegment`). This is modelled as the code behaves; the model does not judge it a defect.
