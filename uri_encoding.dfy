/**
 * `SimpleRequestBuilder.encodeComponent`: ECMAScript `encodeURIComponent`
 * (ECMA-262, section 19.2.6.5 of the 2022 edition) followed by
 * `replaceAll("%20", "+")`, which turns every encoded space into the `+` of
 * the `application/x-www-form-urlencoded` format (WHATWG URL Standard,
 * section 5.2). Only that space convention is shared: `!'()~` stay
 * unescaped, as `encodeURIComponent` leaves them, where that format's
 * serializer escapes them.
 *
 * The module also defines a decoder for that format, the partner against which
 * the encoder is proved lossless.
 */
module UriEncoding {
  import opened Wrappers

  type Byte = b: int | 0 <= b < 256

  /** The characters `encodeURIComponent` leaves alone: letters, digits and `-_.!~*'()`. */
  predicate IsUnreserved(c: char) {
    ('a' <= c <= 'z') || ('A' <= c <= 'Z') || ('0' <= c <= '9') || c in "-_.!~*'()"
  }

  /** The characters that can appear in an encoded component. */
  predicate IsFormSafe(c: char) {
    IsUnreserved(c) || c == '+' || c == '%'
  }

  // ---------------------------------------------------------------------------
  // UTF-8
  // ---------------------------------------------------------------------------

  /** Whether a code point is a Unicode scalar value (what a Dafny `char` holds). */
  predicate IsScalar(cp: int) {
    (0 <= cp < 0xD800) || (0xE000 <= cp < 0x11_0000)
  }

  /** The UTF-8 encoding of one character (RFC 3629, section 3). */
  function Utf8Char(c: char): (bs: seq<Byte>)
    ensures 1 <= |bs| <= 4
    ensures |bs| == 1 <==> c as int < 0x80
    ensures |bs| == 1 ==> bs[0] == c as int
    ensures |bs| > 1 ==> forall i :: 0 <= i < |bs| ==> bs[i] >= 0x80
  {
    var cp := c as int;
    var q1 := cp / 64;
    var q2 := q1 / 64;
    var q3 := q2 / 64;
    if cp < 0x80 then [cp]
    else if cp < 0x800 then [0xC0 + q1, 0x80 + cp % 64]
    else if cp < 0x1_0000 then [0xE0 + q2, 0x80 + q1 % 64, 0x80 + cp % 64]
    else [0xF0 + q3, 0x80 + q2 % 64, 0x80 + q1 % 64, 0x80 + cp % 64]
  }

  /** The UTF-8 encoding of a string. */
  function Utf8(s: string): seq<Byte> {
    if s == [] then [] else Utf8Char(s[0]) + Utf8(s[1..])
  }

  /** How many bytes a UTF-8 sequence that starts with lead byte `b` has; 0 when `b` cannot lead. */
  function LeadLength(b: Byte): nat {
    if b < 0x80 then 1
    else if 0xC0 <= b < 0xE0 then 2
    else if 0xE0 <= b < 0xF0 then 3
    else if 0xF0 <= b < 0xF8 then 4
    else 0
  }

  predicate IsContinuation(b: Byte) {
    0x80 <= b < 0xC0
  }

  /** The code point of one complete UTF-8 sequence, if it denotes a character. */
  function DecodeScalar(bs: seq<Byte>): Option<char>
    requires 1 <= |bs| <= 4 && LeadLength(bs[0]) == |bs|
  {
    if exists i :: 1 <= i < |bs| && !IsContinuation(bs[i]) then None
    else
      var b: seq<int> := bs;
      var cp :=
        if |b| == 1 then b[0]
        else if |b| == 2 then (b[0] - 0xC0) * 64 + (b[1] - 0x80)
        else if |b| == 3 then ((b[0] - 0xE0) * 64 + (b[1] - 0x80)) * 64 + (b[2] - 0x80)
        else (((b[0] - 0xF0) * 64 + (b[1] - 0x80)) * 64 + (b[2] - 0x80)) * 64 + (b[3] - 0x80);
      if IsScalar(cp) then Some(cp as char) else None
  }

  function PrependChar(c: char, o: Option<string>): Option<string> {
    match o
    case None => None
    case Some(s) => Some([c] + s)
  }

  /** Decodes a UTF-8 byte sequence; `None` when it is malformed. */
  function Utf8Decode(bs: seq<Byte>): Option<string>
    decreases |bs|
  {
    if bs == [] then Some([])
    else
      var n := LeadLength(bs[0]);
      if n == 0 || |bs| < n then None
      else
        match DecodeScalar(bs[..n])
        case None => None
        case Some(c) => PrependChar(c, Utf8Decode(bs[n..]))
  }

  lemma Utf8CharDecodes(c: char)
    ensures LeadLength(Utf8Char(c)[0]) == |Utf8Char(c)|
    ensures DecodeScalar(Utf8Char(c)) == Some(c)
  {
    var cp := c as int;
    var q1 := cp / 64;
    var q2 := q1 / 64;
    var q3 := q2 / 64;
    assert cp == q1 * 64 + cp % 64;
    assert q1 == q2 * 64 + q1 % 64;
    assert q2 == q3 * 64 + q2 % 64;
  }

  lemma {:induction false} Utf8DecodeChar(c: char, rest: seq<Byte>)
    ensures Utf8Decode(Utf8Char(c) + rest) == PrependChar(c, Utf8Decode(rest))
  {
    var bs := Utf8Char(c) + rest;
    Utf8CharDecodes(c);
    var n := |Utf8Char(c)|;
    assert bs[..n] == Utf8Char(c);
    assert bs[n..] == rest;
  }

  /** Decoding the UTF-8 encoding of a string gives the string back. */
  lemma {:induction false} Utf8RoundTrip(s: string)
    ensures Utf8Decode(Utf8(s)) == Some(s)
  {
    if s != [] {
      Utf8RoundTrip(s[1..]);
      Utf8DecodeChar(s[0], Utf8(s[1..]));
      assert [s[0]] + s[1..] == s;
    }
  }

  // ---------------------------------------------------------------------------
  // encodeURIComponent
  // ---------------------------------------------------------------------------

  /** The upper-case hexadecimal digit for `n`, as `encodeURIComponent` writes it. */
  function Hex(n: int): (c: char)
    requires 0 <= n < 16
    ensures IsUnreserved(c) && c != '%'
  {
    if n < 10 then ('0' as int + n) as char else ('A' as int + n - 10) as char
  }

  /** `%XY` for one byte. */
  function Triplet(b: Byte): string {
    ['%', Hex(b / 16), Hex(b % 16)]
  }

  /** `%XY` for every byte, in order. */
  function PercentTriplets(bs: seq<Byte>): string {
    if bs == [] then [] else Triplet(bs[0]) + PercentTriplets(bs[1..])
  }

  /** `encodeURIComponent` of one character. */
  function EncodeURIChar(c: char): string {
    if IsUnreserved(c) then [c] else PercentTriplets(Utf8Char(c))
  }

  /** ECMAScript `encodeURIComponent`, character by character. */
  function EncodeURIComponent(s: string): string {
    if s == [] then [] else EncodeURIChar(s[0]) + EncodeURIComponent(s[1..])
  }

  /** Java's `String.replaceAll` for a pattern with no regular-expression metacharacters:
      the matches are found left to right and do not overlap. */
  function ReplaceAll(t: string, pat: string, rep: string): string
    requires |pat| > 0
    decreases |t|
  {
    if |t| < |pat| then t
    else if t[..|pat|] == pat then rep + ReplaceAll(t[|pat|..], pat, rep)
    else [t[0]] + ReplaceAll(t[1..], pat, rep)
  }

  /** The encoding of one character in the form-style encoding: `+` for a space,
      `encodeURIComponent` of every other character. */
  function FormChar(c: char): string {
    if c == ' ' then "+" else EncodeURIChar(c)
  }

  function FormEncode(s: string): string {
    if s == [] then [] else FormChar(s[0]) + FormEncode(s[1..])
  }

  /** No `%20` occurs anywhere in `t`. */
  predicate NoEncodedSpace(t: string) {
    forall i :: 0 <= i < |t| - 2 ==> !(t[i] == '%' && t[i + 1] == '2' && t[i + 2] == '0')
  }

  /**
   * `encodeComponent`: `encodeURIComponent(str).replaceAll("%20", "+")`. The
   * result is the character-by-character form encoding (a space becomes `+`,
   * every other character is encoded as `encodeURIComponent` does), and
   * decoding it gives the input back (`EncodeComponentSafe` adds what it
   * cannot contain).
   */
  function EncodeComponent(s: string): (r: string)
    ensures r == FormEncode(s)
    ensures DecodeComponent(r) == Some(s)
  {
    ReplaceSpaces(s);
    FormRoundTrip(s);
    ReplaceAll(EncodeURIComponent(s), "%20", "+")
  }

  /** An encoded component holds only characters that `IsFormSafe` allows, no space and no `%20`. */
  lemma EncodeComponentSafe(s: string)
    ensures forall i :: 0 <= i < |EncodeComponent(s)| ==> IsFormSafe(EncodeComponent(s)[i]) && EncodeComponent(s)[i] != ' '
    ensures NoEncodedSpace(EncodeComponent(s))
  {
    var r := EncodeComponent(s);
    FormEncodeSafe(s);
    FormEncodeNoEncodedSpace(s);
    assert r == FormEncode(s);
  }

  // ---------------------------------------------------------------------------
  // replaceAll("%20", "+") acts on encoded spaces only
  // ---------------------------------------------------------------------------

  lemma ReplaceAllStep(t: string)
    requires |t| > 0 && t[0] != '%'
    ensures ReplaceAll(t, "%20", "+") == [t[0]] + ReplaceAll(t[1..], "%20", "+")
  {
  }

  /** The hexadecimal digits of a byte spell `20` only for the byte 0x20. */
  lemma HexPairOf(b: Byte)
    ensures (Hex(b / 16) == '2' && Hex(b % 16) == '0') ==> b == 0x20
  {
  }

  lemma HexValueOfHex(n: int)
    requires 0 <= n < 16
    ensures HexValue(Hex(n)) == Some(n)
  {
  }

  /** One percent triplet of a byte other than 0x20 passes through `replaceAll` untouched. */
  lemma ReplaceAllTriplet(b: Byte, tail: string)
    requires b != 0x20
    ensures ReplaceAll(Triplet(b) + tail, "%20", "+") == Triplet(b) + ReplaceAll(tail, "%20", "+")
  {
    var h1, h2 := Hex(b / 16), Hex(b % 16);
    HexPairOf(b);
    var t := ['%', h1, h2] + tail;
    assert t[..3] == ['%', h1, h2];
    assert t[1..] == [h1, h2] + tail;
    ReplaceAllStep([h1, h2] + tail);
    assert ([h1, h2] + tail)[1..] == [h2] + tail;
    ReplaceAllStep([h2] + tail);
    assert ([h2] + tail)[1..] == tail;
  }

  lemma TripletsCons(bs: seq<Byte>, rest: string)
    requires bs != []
    ensures PercentTriplets(bs) + rest == Triplet(bs[0]) + (PercentTriplets(bs[1..]) + rest)
  {
  }

  /** Percent triplets of bytes other than 0x20 pass through `replaceAll` untouched. */
  lemma {:induction false} ReplaceAllTriplets(bs: seq<Byte>, rest: string)
    requires forall i :: 0 <= i < |bs| ==> bs[i] != 0x20
    ensures ReplaceAll(PercentTriplets(bs) + rest, "%20", "+") == PercentTriplets(bs) + ReplaceAll(rest, "%20", "+")
  {
    if bs != [] {
      var r := ReplaceAll(rest, "%20", "+");
      TripletsCons(bs, rest);
      ReplaceAllTriplet(bs[0], PercentTriplets(bs[1..]) + rest);
      ReplaceAllTriplets(bs[1..], rest);
      TripletsCons(bs, r);
    } else {
      assert PercentTriplets(bs) + rest == rest;
    }
  }

  lemma ReplaceAllChar(c: char, rest: string)
    ensures ReplaceAll(EncodeURIChar(c) + rest, "%20", "+") == FormChar(c) + ReplaceAll(rest, "%20", "+")
  {
    if c == ' ' {
      var t := EncodeURIChar(c) + rest;
      assert EncodeURIChar(c) == "%20";
      assert t[..3] == "%20";
      assert t[3..] == rest;
    } else if IsUnreserved(c) {
      ReplaceAllStep([c] + rest);
      assert ([c] + rest)[1..] == rest;
    } else {
      var bs := Utf8Char(c);
      ReplaceAllTriplets(bs, rest);
    }
  }

  /** Applying `replaceAll("%20", "+")` to `encodeURIComponent(s)` rewrites exactly the encoded spaces. */
  lemma {:induction false} ReplaceSpaces(s: string)
    ensures ReplaceAll(EncodeURIComponent(s), "%20", "+") == FormEncode(s)
  {
    if s != [] {
      ReplaceAllChar(s[0], EncodeURIComponent(s[1..]));
      ReplaceSpaces(s[1..]);
    }
  }

  // ---------------------------------------------------------------------------
  // Character-level facts about the encoding
  // ---------------------------------------------------------------------------

  lemma {:induction false} TripletsSafe(bs: seq<Byte>)
    ensures forall i :: 0 <= i < |PercentTriplets(bs)| ==> IsFormSafe(PercentTriplets(bs)[i])
  {
    if bs != [] {
      TripletsSafe(bs[1..]);
    }
  }

  lemma {:induction false} FormEncodeSafe(s: string)
    ensures forall i :: 0 <= i < |FormEncode(s)| ==> IsFormSafe(FormEncode(s)[i])
  {
    if s != [] {
      FormEncodeSafe(s[1..]);
      if s[0] != ' ' && !IsUnreserved(s[0]) {
        TripletsSafe(Utf8Char(s[0]));
      }
    }
  }

  /** A `%20` cannot straddle a boundary after which the left part has no `%` in its last two places. */
  lemma NoEncodedSpaceConcat(a: string, b: string)
    requires NoEncodedSpace(a) && NoEncodedSpace(b)
    requires forall j :: 0 <= j < |a| && |a| - 2 <= j ==> a[j] != '%'
    ensures NoEncodedSpace(a + b)
  {
    var t := a + b;
    forall i | 0 <= i < |t| - 2
      ensures !(t[i] == '%' && t[i + 1] == '2' && t[i + 2] == '0')
    {
      if i >= |a| {
        assert t[i] == b[i - |a|] && t[i + 1] == b[i - |a| + 1] && t[i + 2] == b[i - |a| + 2];
      } else if i < |a| - 2 {
        assert t[i] == a[i] && t[i + 1] == a[i + 1] && t[i + 2] == a[i + 2];
      } else {
        assert t[i] == a[i];
      }
    }
  }

  lemma {:induction false} TripletsNoEncodedSpace(bs: seq<Byte>)
    requires forall i :: 0 <= i < |bs| ==> bs[i] != 0x20
    ensures NoEncodedSpace(PercentTriplets(bs))
    ensures forall j :: 0 <= j < |PercentTriplets(bs)| && |PercentTriplets(bs)| - 2 <= j ==> PercentTriplets(bs)[j] != '%'
  {
    if bs != [] {
      var first: string := ['%', Hex(bs[0] / 16), Hex(bs[0] % 16)];
      var rest := PercentTriplets(bs[1..]);
      TripletsNoEncodedSpace(bs[1..]);
      HexPairOf(bs[0]);
      assert NoEncodedSpace(first);
      NoEncodedSpaceConcat(first, rest);
      var t := PercentTriplets(bs);
      assert t == first + rest;
      forall j | 0 <= j < |t| && |t| - 2 <= j
        ensures t[j] != '%'
      {
        if j >= 3 {
          assert t[j] == rest[j - 3];
        }
      }
    }
  }

  lemma FormCharNoEncodedSpace(c: char)
    ensures NoEncodedSpace(FormChar(c))
    ensures forall j :: 0 <= j < |FormChar(c)| && |FormChar(c)| - 2 <= j ==> FormChar(c)[j] != '%'
  {
    if c == ' ' {
      assert FormChar(c) == "+";
    } else if IsUnreserved(c) {
      assert FormChar(c) == [c];
    } else {
      var bs := Utf8Char(c);
      assert forall i :: 0 <= i < |bs| ==> bs[i] != 0x20;
      TripletsNoEncodedSpace(bs);
      assert FormChar(c) == PercentTriplets(bs);
    }
  }

  lemma {:induction false} FormEncodeNoEncodedSpace(s: string)
    ensures NoEncodedSpace(FormEncode(s))
  {
    if s != [] {
      FormEncodeNoEncodedSpace(s[1..]);
      FormCharNoEncodedSpace(s[0]);
      NoEncodedSpaceConcat(FormChar(s[0]), FormEncode(s[1..]));
    }
  }

  // ---------------------------------------------------------------------------
  // Decoding (percent-decoding with `+` read as a space)
  // ---------------------------------------------------------------------------

  /** The value of a hexadecimal digit, either case. */
  function HexValue(c: char): Option<int> {
    if '0' <= c <= '9' then Some(c as int - '0' as int)
    else if 'A' <= c <= 'F' then Some(c as int - 'A' as int + 10)
    else if 'a' <= c <= 'f' then Some(c as int - 'a' as int + 10)
    else None
  }

  function PrependBytes(p: seq<Byte>, o: Option<seq<Byte>>): Option<seq<Byte>> {
    match o
    case None => None
    case Some(bs) => Some(p + bs)
  }

  /** Turns an encoded component back into bytes: `+` is a space, `%XY` a byte, an ASCII character itself. */
  function PercentDecode(t: string): Option<seq<Byte>>
    decreases |t|
  {
    if t == [] then Some([])
    else if t[0] == '+' then PrependBytes([0x20], PercentDecode(t[1..]))
    else if t[0] == '%' then
      if |t| < 3 then None
      else
        match (HexValue(t[1]), HexValue(t[2]))
        case (Some(h), Some(l)) => PrependBytes([16 * h + l], PercentDecode(t[3..]))
        case _ => None
    else if t[0] as int < 0x80 then PrependBytes([t[0] as int], PercentDecode(t[1..]))
    else None
  }

  /** Decodes one encoded component back to the string it encodes. */
  function DecodeComponent(t: string): Option<string> {
    match PercentDecode(t)
    case None => None
    case Some(bs) => Utf8Decode(bs)
  }

  lemma PrependBytesTwice(p: seq<Byte>, q: seq<Byte>, o: Option<seq<Byte>>)
    ensures PrependBytes(p, PrependBytes(q, o)) == PrependBytes(p + q, o)
    ensures PrependBytes([], o) == o
  {
    match o
    case None =>
    case Some(d) =>
      assert p + (q + d) == (p + q) + d;
      assert [] + d == d;
  }

  /** Percent-decoding one triplet yields its byte. */
  lemma DecodeTriplet(b: Byte, tail: string)
    ensures PercentDecode(Triplet(b) + tail) == PrependBytes([b], PercentDecode(tail))
  {
    var t := Triplet(b) + tail;
    assert t[0] == '%' && t[1] == Hex(b / 16) && t[2] == Hex(b % 16) && t[3..] == tail;
    HexValueOfHex(b / 16);
    HexValueOfHex(b % 16);
    assert 16 * (b / 16) + b % 16 == b;
  }

  lemma {:induction false} DecodeTriplets(bs: seq<Byte>, rest: string)
    ensures PercentDecode(PercentTriplets(bs) + rest) == PrependBytes(bs, PercentDecode(rest))
  {
    if bs != [] {
      TripletsCons(bs, rest);
      DecodeTriplet(bs[0], PercentTriplets(bs[1..]) + rest);
      DecodeTriplets(bs[1..], rest);
      PrependBytesTwice([bs[0]], bs[1..], PercentDecode(rest));
      assert [bs[0]] + bs[1..] == bs;
    } else {
      assert PercentTriplets(bs) + rest == rest;
      PrependBytesTwice([], [], PercentDecode(rest));
    }
  }

  lemma DecodeFormChar(c: char, rest: string)
    ensures PercentDecode(FormChar(c) + rest) == PrependBytes(Utf8Char(c), PercentDecode(rest))
  {
    var t := FormChar(c) + rest;
    if c == ' ' || IsUnreserved(c) {
      assert t[1..] == rest;
    } else {
      DecodeTriplets(Utf8Char(c), rest);
    }
  }

  lemma {:induction false} PercentDecodeFormEncode(s: string)
    ensures PercentDecode(FormEncode(s)) == Some(Utf8(s))
  {
    if s != [] {
      DecodeFormChar(s[0], FormEncode(s[1..]));
      PercentDecodeFormEncode(s[1..]);
    }
  }

  /** Decoding the form encoding of a string gives the string back. */
  lemma FormRoundTrip(s: string)
    ensures DecodeComponent(FormEncode(s)) == Some(s)
  {
    PercentDecodeFormEncode(s);
    Utf8RoundTrip(s);
  }

  /** Two different strings never encode to the same component. */
  lemma EncodeComponentInjective(a: string, b: string)
    ensures EncodeComponent(a) == EncodeComponent(b) ==> a == b
  {
    var ea, eb := EncodeComponent(a), EncodeComponent(b);
    assert DecodeComponent(ea) == Some(a) && DecodeComponent(eb) == Some(b);
  }

  /** A space is encoded as `+`. */
  lemma EncodeSpaceExample()
    ensures EncodeComponent("a b") == "a+b"
  {
    assert FormEncode("a b") == "a" + FormEncode(" b");
    assert FormEncode(" b") == "+" + FormEncode("b");
  }

  /** The query-string delimiters `&` and `=` are percent-encoded. */
  lemma EncodeDelimitersExample()
    ensures EncodeComponent("&=") == "%26%3D"
  {
    assert Utf8Char('&') == [0x26];
    assert FormChar('&') == "%26";
    assert Utf8Char('=') == [0x3D];
    assert FormChar('=') == "%3D";
    assert FormEncode("&=") == "%26" + FormEncode("=");
    assert FormEncode("=") == "%3D" + FormEncode("");
  }
}
