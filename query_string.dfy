/**
 * The query string that `SimpleRequestBuilder.uri()` appends: every query
 * parameter as `enc(key)=enc(value)`, joined by `&` in insertion order, behind
 * a `?` that is present only when there is at least one parameter.
 *
 * A parser for that format is the partner: it recovers every key and the
 * `toString` of every value, in order, from the encoded string.
 */
module QueryString {
  import opened Wrappers
  import opened JavaValues
  import opened UriEncoding

  /** `encodeComponent(p.k) + "=" + encodeComponent(Objects.toString(p.v))`. */
  function EncodePair(p: Param): string {
    EncodeComponent(p.k) + "=" + EncodeComponent(ToString(p.v))
  }

  function EncodePairs(ps: seq<Param>): (r: seq<string>)
    ensures |r| == |ps|
    ensures forall i :: 0 <= i < |ps| ==> r[i] == EncodePair(ps[i])
  {
    if ps == [] then [] else [EncodePair(ps[0])] + EncodePairs(ps[1..])
  }

  /** The parts separated by single `sep` characters. */
  function Join(parts: seq<string>, sep: char): string {
    if |parts| == 0 then ""
    else if |parts| == 1 then parts[0]
    else parts[0] + [sep] + Join(parts[1..], sep)
  }

  /** Appending one more part to a non-empty join adds a separator and the part. */
  lemma {:induction false} JoinSnoc(parts: seq<string>, x: string, sep: char)
    ensures Join(parts + [x], sep) == if parts == [] then x else Join(parts, sep) + [sep] + x
  {
    if |parts| > 1 {
      JoinSnoc(parts[1..], x, sep);
      assert (parts + [x])[1..] == parts[1..] + [x];
    } else if |parts| == 1 {
      assert (parts + [x])[1..] == [x];
    }
  }

  /** What `encodeParams(params)` returns: the encoded pairs joined by `&`. */
  function EncodedParams(ps: seq<Param>): string {
    Join(EncodePairs(ps), '&')
  }

  /** What `query()` returns: "" when `encodeParams` yields "", otherwise `?` and the encoding. */
  function QueryOf(ps: seq<Param>): string {
    var q := EncodedParams(ps);
    if q == "" then "" else "?" + q
  }

  /** The key and the `toString` of the value of every parameter, in order. */
  function Rendered(ps: seq<Param>): (r: seq<(string, string)>)
    ensures |r| == |ps|
    ensures forall i :: 0 <= i < |ps| ==> r[i] == (ps[i].k, ToString(ps[i].v))
  {
    if ps == [] then [] else [(ps[0].k, ToString(ps[0].v))] + Rendered(ps[1..])
  }

  /** One more parameter adds its pair, behind a `&` unless it is the first. */
  lemma EncodedParamsSnoc(ps: seq<Param>, p: Param)
    ensures EncodedParams(ps + [p]) == if ps == [] then EncodePair(p) else EncodedParams(ps) + "&" + EncodePair(p)
  {
    assert EncodePairs(ps + [p]) == EncodePairs(ps) + [EncodePair(p)];
    JoinSnoc(EncodePairs(ps), EncodePair(p), '&');
  }

  // ---------------------------------------------------------------------------
  // Emptiness: "" exactly when there is no parameter
  // ---------------------------------------------------------------------------

  lemma {:induction false} JoinEmpty(parts: seq<string>, sep: char)
    requires forall i :: 0 <= i < |parts| ==> parts[i] != ""
    ensures Join(parts, sep) == "" <==> parts == []
  {
    if |parts| > 1 {
      assert |Join(parts, sep)| >= |parts[0]|;
    }
  }

  /** `encodeParams` yields "" exactly when there are no parameters, since every pair holds a `=`. */
  lemma EncodedParamsEmpty(ps: seq<Param>)
    ensures EncodedParams(ps) == "" <==> ps == []
  {
    var pairs := EncodePairs(ps);
    forall i | 0 <= i < |pairs|
      ensures pairs[i] != ""
    {
      assert '=' in pairs[i];
    }
    JoinEmpty(pairs, '&');
  }

  /** `query()` is "" exactly when there are no query parameters, and `?` followed by the encoding otherwise. */
  lemma QueryShape(ps: seq<Param>)
    ensures QueryOf(ps) == "" <==> ps == []
    ensures ps != [] ==> QueryOf(ps) == "?" + EncodedParams(ps)
  {
    EncodedParamsEmpty(ps);
  }

  // ---------------------------------------------------------------------------
  // Parsing the query back
  // ---------------------------------------------------------------------------

  /** The fields of `t` between occurrences of `sep` (always at least one). */
  function SplitOn(t: string, sep: char): (parts: seq<string>)
    ensures |parts| >= 1
    decreases |t|
  {
    if t == [] then [""]
    else
      var rest := SplitOn(t[1..], sep);
      if t[0] == sep then [""] + rest else [[t[0]] + rest[0]] + rest[1..]
  }

  lemma {:induction false} SplitNoSep(a: string, sep: char, b: string)
    requires sep !in a
    ensures SplitOn(a, sep) == [a]
    ensures SplitOn(a + [sep] + b, sep) == [a] + SplitOn(b, sep)
  {
    if a != [] {
      SplitNoSep(a[1..], sep, b);
      assert (a + [sep] + b)[1..] == a[1..] + [sep] + b;
      assert [a[0]] + a[1..] == a;
    } else {
      assert a + [sep] + b == [sep] + b;
      assert ([sep] + b)[1..] == b;
    }
  }

  /** Splitting a join of parts that do not contain the separator gives the parts back. */
  lemma {:induction false} SplitJoin(parts: seq<string>, sep: char)
    requires |parts| >= 1
    requires forall i :: 0 <= i < |parts| ==> sep !in parts[i]
    ensures SplitOn(Join(parts, sep), sep) == parts
  {
    if |parts| == 1 {
      SplitNoSep(parts[0], sep, "");
    } else {
      SplitJoin(parts[1..], sep);
      SplitNoSep(parts[0], sep, Join(parts[1..], sep));
      assert [parts[0]] + parts[1..] == parts;
    }
  }

  /** The index of the first `c` in `t`, or `|t|`. */
  function IndexOf(t: string, c: char): (i: nat)
    ensures i <= |t|
    ensures c !in t[..i]
    ensures i < |t| ==> t[i] == c
    ensures i == |t| <==> c !in t
  {
    if t == [] then 0
    else if t[0] == c then 0
    else
      var j := IndexOf(t[1..], c);
      assert t[..1 + j] == [t[0]] + t[1..][..j];
      1 + j
  }

  /** Parses `key=value` (split at the first `=`) and decodes both sides. */
  function ParsePair(t: string): Option<(string, string)> {
    var i := IndexOf(t, '=');
    if i == |t| then None
    else
      match (DecodeComponent(t[..i]), DecodeComponent(t[i + 1..]))
      case (Some(k), Some(v)) => Some((k, v))
      case _ => None
  }

  function ParsePairs(parts: seq<string>): Option<seq<(string, string)>> {
    if parts == [] then Some([])
    else
      match (ParsePair(parts[0]), ParsePairs(parts[1..]))
      case (Some(p), Some(rest)) => Some([p] + rest)
      case _ => None
  }

  /** Parses what `encodeParams` produces. */
  function ParseParams(q: string): Option<seq<(string, string)>> {
    if q == "" then Some([]) else ParsePairs(SplitOn(q, '&'))
  }

  /** Parses what `query()` produces. */
  function ParseQuery(q: string): Option<seq<(string, string)>> {
    if q == "" then Some([])
    else if q[0] == '?' then ParseParams(q[1..])
    else None
  }

  /** An encoded component holds neither query delimiter. */
  lemma NoDelimiters(e: string)
    requires forall i :: 0 <= i < |e| ==> IsFormSafe(e[i])
    ensures '=' !in e && '&' !in e && '?' !in e
  {
  }

  lemma SplitAtEquals(ek: string, ev: string)
    requires '=' !in ek && '&' !in ek && '&' !in ev
    ensures '&' !in ek + "=" + ev
    ensures IndexOf(ek + "=" + ev, '=') == |ek|
    ensures (ek + "=" + ev)[..|ek|] == ek && (ek + "=" + ev)[|ek| + 1..] == ev
  {
    var t := ek + "=" + ev;
    assert t[..|ek|] == ek;
    assert t[|ek| + 1..] == ev;
    assert t[|ek|] == '=';
    forall j | 0 <= j < |t|
      ensures t[j] != '&'
    {
      if j < |ek| {
        assert t[j] == ek[j];
      } else if j > |ek| {
        assert t[j] == ev[j - |ek| - 1];
      }
    }
  }

  lemma ParseEncodedPair(k: string, v: string)
    ensures '&' !in EncodeComponent(k) + "=" + EncodeComponent(v)
    ensures '?' !in EncodeComponent(k) + "=" + EncodeComponent(v)
    ensures ParsePair(EncodeComponent(k) + "=" + EncodeComponent(v)) == Some((k, v))
  {
    var ek, ev := EncodeComponent(k), EncodeComponent(v);
    EncodeComponentSafe(k);
    EncodeComponentSafe(v);
    NoDelimiters(ek);
    NoDelimiters(ev);
    SplitAtEquals(ek, ev);
    var t := ek + "=" + ev;
    assert DecodeComponent(t[..|ek|]) == Some(k);
    assert DecodeComponent(t[|ek| + 1..]) == Some(v);
  }

  lemma PairRoundTrip(p: Param)
    ensures '&' !in EncodePair(p) && '?' !in EncodePair(p)
    ensures ParsePair(EncodePair(p)) == Some((p.k, ToString(p.v)))
  {
    ParseEncodedPair(p.k, ToString(p.v));
  }

  lemma {:induction false} ParsePairsRoundTrip(ps: seq<Param>)
    ensures ParsePairs(EncodePairs(ps)) == Some(Rendered(ps))
  {
    if ps != [] {
      PairRoundTrip(ps[0]);
      ParsePairsRoundTrip(ps[1..]);
      assert EncodePairs(ps)[1..] == EncodePairs(ps[1..]);
    }
  }

  /** Parsing what `encodeParams` produces gives every key and value string back, in insertion order. */
  lemma EncodedParamsRoundTrip(ps: seq<Param>)
    ensures ParseParams(EncodedParams(ps)) == Some(Rendered(ps))
  {
    EncodedParamsEmpty(ps);
    if ps != [] {
      var pairs := EncodePairs(ps);
      forall i | 0 <= i < |pairs|
        ensures '&' !in pairs[i]
      {
        PairRoundTrip(ps[i]);
      }
      SplitJoin(pairs, '&');
      ParsePairsRoundTrip(ps);
    }
  }

  /** A single query parameter: `?enc(k)=enc(v)`. */
  lemma QueryOfSingle(p: Param)
    ensures QueryOf([p]) == "?" + EncodePair(p)
  {
    assert EncodePairs([p]) == [EncodePair(p)];
    assert '=' in EncodePair(p);
  }

  /** Parsing what `query()` produces gives every query parameter back, in insertion order. */
  lemma QueryRoundTrip(ps: seq<Param>)
    ensures ParseQuery(QueryOf(ps)) == Some(Rendered(ps))
  {
    EncodedParamsRoundTrip(ps);
    EncodedParamsEmpty(ps);
    if ps != [] {
      assert QueryOf(ps)[1..] == EncodedParams(ps);
    }
  }
}
