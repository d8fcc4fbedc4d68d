/**
  `encodeURIComponent` as ECMA-262 defines it: every code unit outside the
  unreserved set is turned into the UTF-8 octets of its code point (a
  surrogate pair counts as one code point), each written "%XX" in upper-case
  hexadecimal as in section 2.1 of RFC 3986; a lone surrogate throws a
  URIError.

  Beside it, a reference decoder (percent-decoding, then UTF-8 decoding as
  in section 3 of RFC 3629, then UTF-16) and a splitter for the query part
  of a request path, which together state what the lookup's receiver
  recovers from the encoded reference.
 */
module UriComponent {
  import opened JsRuntime

  /** ALPHA, DIGIT and - _ . ! ~ * ' ( ) : the characters encodeURIComponent leaves as they are. */
  predicate IsUnreservedChar(c: char)
  {
    || ('A' <= c <= 'Z') || ('a' <= c <= 'z') || ('0' <= c <= '9')
    || c == '-' || c == '_' || c == '.' || c == '!' || c == '~' || c == '*' || c == '\'' || c == '(' || c == ')'
  }

  predicate IsUnreservedUnit(u: CodeUnit)
  {
    u < 128 && IsUnreservedChar(u as int as char)
  }

  predicate IsHighSurrogate(u: CodeUnit) { 0xD800 <= u <= 0xDBFF }

  predicate IsLowSurrogate(u: CodeUnit) { 0xDC00 <= u <= 0xDFFF }

  /** Every high surrogate is followed by a low one and every low one preceded by a high one. */
  predicate WellFormedUtf16(s: seq<CodeUnit>)
  {
    && (forall i :: 0 <= i < |s| && IsHighSurrogate(s[i]) ==> i + 1 < |s| && IsLowSurrogate(s[i + 1]))
    && (forall i :: 0 <= i < |s| && IsLowSurrogate(s[i]) ==> 0 < i && IsHighSurrogate(s[i - 1]))
  }

  /** A Unicode scalar value: a code point that is not a surrogate. */
  predicate IsScalar(cp: int)
  {
    0 <= cp <= 0x10_FFFF && !(0xD800 <= cp <= 0xDFFF)
  }

  /** The code point a surrogate pair stands for. */
  function CombinePair(high: CodeUnit, low: CodeUnit): (cp: int)
    requires IsHighSurrogate(high) && IsLowSurrogate(low)
    ensures 0x1_0000 <= cp <= 0x10_FFFF
  {
    0x1_0000 + (high as int - 0xD800) * 0x400 + (low as int - 0xDC00)
  }

  /** The UTF-8 octets of a code point (section 3 of RFC 3629). */
  function Utf8(cp: int): (bs: seq<Byte>)
    requires 0 <= cp <= 0x10_FFFF
    ensures 1 <= |bs| <= 4
  {
    if cp < 0x80 then
      [cp as Byte]
    else if cp < 0x800 then
      [(0xC0 + cp / 0x40) as Byte, (0x80 + cp % 0x40) as Byte]
    else if cp < 0x1_0000 then
      [(0xE0 + cp / 0x1000) as Byte, (0x80 + cp / 0x40 % 0x40) as Byte, (0x80 + cp % 0x40) as Byte]
    else
      [(0xF0 + cp / 0x4_0000) as Byte, (0x80 + cp / 0x1000 % 0x40) as Byte,
       (0x80 + cp / 0x40 % 0x40) as Byte, (0x80 + cp % 0x40) as Byte]
  }

  function HexDigit(d: int): char
    requires 0 <= d < 16
  {
    "0123456789ABCDEF"[d]
  }

  /** Each octet as "%XX", upper-case hexadecimal. */
  function PercentEncode(bs: seq<Byte>): (t: string)
    ensures |t| == 3 * |bs|
  {
    if bs == [] then []
    else ['%', HexDigit(bs[0] as int / 16), HexDigit(bs[0] as int % 16)] + PercentEncode(bs[1..])
  }

  const UriError := ErrorValue("URI malformed")

  function PrependText(p: string, c: Completion<string>): Completion<string>
  {
    match c
    case Normal(t) => Normal(p + t)
    case Threw(f) => Threw(f)
  }

  /** encodeURIComponent, walking the code units from the left. */
  function EncodeURIComponent(s: seq<CodeUnit>): (r: Completion<string>)
    decreases |s|
  {
    if s == [] then Normal("")
    else if IsUnreservedUnit(s[0]) then
      PrependText([s[0] as int as char], EncodeURIComponent(s[1..]))
    else if IsLowSurrogate(s[0]) || (IsHighSurrogate(s[0]) && (|s| == 1 || !IsLowSurrogate(s[1]))) then
      Threw(UriError)
    else if IsHighSurrogate(s[0]) then
      PrependText(PercentEncode(Utf8(CombinePair(s[0], s[1]))), EncodeURIComponent(s[2..]))
    else
      PrependText(PercentEncode(Utf8(s[0] as int)), EncodeURIComponent(s[1..]))
  }

  // ---------------------------------------------------------------------
  // What the encoding produces
  // ---------------------------------------------------------------------

  /** The only characters an encoded component can contain. */
  predicate IsEncodedChar(c: char)
  {
    IsUnreservedChar(c) || c == '%'
  }

  lemma {:induction false} PercentEncodeChars(bs: seq<Byte>)
    ensures forall i :: 0 <= i < |PercentEncode(bs)| ==> IsEncodedChar(PercentEncode(bs)[i])
  {
    if bs != [] {
      PercentEncodeChars(bs[1..]);
      var head := ['%', HexDigit(bs[0] as int / 16), HexDigit(bs[0] as int % 16)];
      assert forall i :: 0 <= i < 3 ==> IsEncodedChar(head[i]);
      assert PercentEncode(bs) == head + PercentEncode(bs[1..]);
    }
  }

  /**
    An encoded component is made of unreserved characters and '%' only, so
    it holds no '&', '=', '#', '?', '+' or space: it cannot end the query
    value, add a parameter or start a fragment.
   */
  lemma {:induction false} EncodedChars(s: seq<CodeUnit>)
    ensures EncodeURIComponent(s).Normal? ==>
              forall i :: 0 <= i < |EncodeURIComponent(s).value| ==> IsEncodedChar(EncodeURIComponent(s).value[i])
    decreases |s|
  {
    if s == [] {
    } else if IsUnreservedUnit(s[0]) {
      EncodedChars(s[1..]);
    } else if IsLowSurrogate(s[0]) || (IsHighSurrogate(s[0]) && (|s| == 1 || !IsLowSurrogate(s[1]))) {
    } else if IsHighSurrogate(s[0]) {
      EncodedChars(s[2..]);
      PercentEncodeChars(Utf8(CombinePair(s[0], s[1])));
    } else {
      EncodedChars(s[1..]);
      PercentEncodeChars(Utf8(s[0] as int));
    }
  }

  lemma {:induction false} WellFormedTail(s: seq<CodeUnit>, k: nat)
    requires 1 <= k <= 2 && k <= |s|
    requires !IsLowSurrogate(s[0])
    requires k == 1 ==> !IsHighSurrogate(s[0])
    requires k == 2 ==> IsHighSurrogate(s[0]) && IsLowSurrogate(s[1])
    ensures WellFormedUtf16(s) <==> WellFormedUtf16(s[k..])
  {
    var t := s[k..];
    if WellFormedUtf16(s) {
      forall i | 0 <= i < |t| && IsLowSurrogate(t[i]) ensures 0 < i && IsHighSurrogate(t[i - 1]) {
        assert s[i + k] == t[i];
      }
      forall i | 0 <= i < |t| && IsHighSurrogate(t[i]) ensures i + 1 < |t| && IsLowSurrogate(t[i + 1]) {
        assert s[i + k] == t[i];
      }
    }
    if WellFormedUtf16(t) {
      forall i | 0 <= i < |s| && IsLowSurrogate(s[i]) ensures 0 < i && IsHighSurrogate(s[i - 1]) {
        if i >= k {
          assert t[i - k] == s[i];
          if i > k {
            assert t[i - k - 1] == s[i - 1];
          }
        }
      }
      forall i | 0 <= i < |s| && IsHighSurrogate(s[i]) ensures i + 1 < |s| && IsLowSurrogate(s[i + 1]) {
        if i >= k {
          assert t[i - k] == s[i];
        }
      }
    }
  }

  /** encodeURIComponent throws, with a URIError, exactly when the string has a lone surrogate. */
  lemma {:induction false} EncodeThrowsIffIllFormed(s: seq<CodeUnit>)
    ensures EncodeURIComponent(s).Threw? <==> !WellFormedUtf16(s)
    ensures EncodeURIComponent(s).Threw? ==> EncodeURIComponent(s).fault == UriError
    decreases |s|
  {
    if s == [] {
    } else if IsUnreservedUnit(s[0]) {
      EncodeThrowsIffIllFormed(s[1..]);
      WellFormedTail(s, 1);
    } else if IsLowSurrogate(s[0]) {
      assert !WellFormedUtf16(s);
    } else if IsHighSurrogate(s[0]) && (|s| == 1 || !IsLowSurrogate(s[1])) {
      assert !WellFormedUtf16(s);
    } else if IsHighSurrogate(s[0]) {
      EncodeThrowsIffIllFormed(s[2..]);
      WellFormedTail(s, 2);
    } else {
      EncodeThrowsIffIllFormed(s[1..]);
      WellFormedTail(s, 1);
    }
  }

  // ---------------------------------------------------------------------
  // The reference decoder
  // ---------------------------------------------------------------------

  predicate IsHexDigit(c: char)
  {
    ('0' <= c <= '9') || ('A' <= c <= 'F') || ('a' <= c <= 'f')
  }

  function HexValue(c: char): (d: int)
    requires IsHexDigit(c)
    ensures 0 <= d < 16
  {
    if '0' <= c <= '9' then c as int - '0' as int
    else if 'A' <= c <= 'F' then c as int - 'A' as int + 10
    else c as int - 'a' as int + 10
  }

  /** Percent-decoding to octets: "%XX" is one octet, any other ASCII character stands for itself. */
  function PercentDecode(t: string): Option<seq<Byte>>
    decreases |t|
  {
    if t == [] then Some([])
    else if t[0] == '%' then
      if |t| >= 3 && IsHexDigit(t[1]) && IsHexDigit(t[2])
      then PrependTo([(16 * HexValue(t[1]) + HexValue(t[2])) as Byte], PercentDecode(t[3..]))
      else None
    else if t[0] < 128 as char then
      PrependTo([t[0] as int as Byte], PercentDecode(t[1..]))
    else None
  }

  /** The length of the UTF-8 sequence a lead octet starts, 0 for an octet that cannot lead. */
  function Utf8Length(lead: Byte): nat
  {
    if lead < 0x80 then 1
    else if 0xC2 <= lead <= 0xDF then 2
    else if 0xE0 <= lead <= 0xEF then 3
    else if 0xF0 <= lead <= 0xF4 then 4
    else 0
  }

  predicate IsContinuation(b: Byte) { 0x80 <= b <= 0xBF }

  /** The smallest code point an n-octet sequence may carry (anything less is overlong). */
  function MinCodePoint(n: nat): int
  {
    if n <= 1 then 0 else if n == 2 then 0x80 else if n == 3 then 0x800 else 0x1_0000
  }

  /** The scalar value of one UTF-8 sequence; None when it is malformed, overlong, a surrogate or too large. */
  function Utf8Scalar(bs: seq<Byte>): (r: Option<int>)
    requires 1 <= |bs| && |bs| == Utf8Length(bs[0])
    ensures r.Some? ==> IsScalar(r.value)
  {
    var n := |bs|;
    if n == 1 then Some(bs[0] as int)
    else if !(forall i :: 1 <= i < n ==> IsContinuation(bs[i])) then None
    else
      var cp :=
        if n == 2 then (bs[0] as int - 0xC0) * 0x40 + (bs[1] as int - 0x80)
        else if n == 3 then (bs[0] as int - 0xE0) * 0x1000 + (bs[1] as int - 0x80) * 0x40 + (bs[2] as int - 0x80)
        else (bs[0] as int - 0xF0) * 0x4_0000 + (bs[1] as int - 0x80) * 0x1000
             + (bs[2] as int - 0x80) * 0x40 + (bs[3] as int - 0x80);
      if IsScalar(cp) && cp >= MinCodePoint(n) then Some(cp) else None
  }

  /** The UTF-16 code units of a scalar value. */
  function Utf16Units(cp: int): (u: seq<CodeUnit>)
    requires IsScalar(cp)
    ensures 1 <= |u| <= 2
  {
    if cp < 0x1_0000 then [cp as CodeUnit]
    else [(0xD800 + (cp - 0x1_0000) / 0x400) as CodeUnit, (0xDC00 + (cp - 0x1_0000) % 0x400) as CodeUnit]
  }

  /** UTF-8 octets to UTF-16 code units; None on any malformed sequence. */
  function Utf8ToUtf16(bs: seq<Byte>): Option<seq<CodeUnit>>
    decreases |bs|
  {
    if bs == [] then Some([])
    else
      var n := Utf8Length(bs[0]);
      if n == 0 || |bs| < n then None
      else
        match Utf8Scalar(bs[..n])
        case None => None
        case Some(cp) => PrependTo(Utf16Units(cp), Utf8ToUtf16(bs[n..]))
  }

  /**
    How a receiver recovers the string from an encoded query value:
    percent-decode to octets, then decode those as UTF-8.
   */
  function DecodeComponent(t: string): Option<seq<CodeUnit>>
  {
    match PercentDecode(t)
    case None => None
    case Some(bs) => Utf8ToUtf16(bs)
  }

  // ---------------------------------------------------------------------
  // The round trip
  // ---------------------------------------------------------------------

  lemma HexDigitValue(d: int)
    requires 0 <= d < 16
    ensures IsHexDigit(HexDigit(d)) && HexValue(HexDigit(d)) == d
  {
  }

  /** One "%XX" decodes back to its octet. */
  lemma PercentDecodeOctet(b: Byte, rest: string)
    ensures PercentDecode(PercentEncode([b]) + rest) == PrependTo([b], PercentDecode(rest))
  {
    var hi, lo := b as int / 16, b as int % 16;
    HexDigitValue(hi);
    HexDigitValue(lo);
    var t := PercentEncode([b]) + rest;
    assert PercentEncode([b]) == ['%', HexDigit(hi), HexDigit(lo)];
    assert t[0] == '%' && t[1] == HexDigit(hi) && t[2] == HexDigit(lo);
    assert t[3..] == rest;
    assert (16 * hi + lo) as Byte == b;
  }

  lemma PrependTwice<T>(a: seq<T>, b: seq<T>, o: Option<seq<T>>)
    ensures PrependTo(a, PrependTo(b, o)) == PrependTo(a + b, o)
  {
    match o
    case None =>
    case Some(x) => assert a + (b + x) == (a + b) + x;
  }

  lemma {:induction false} PercentDecodeEncoded(bs: seq<Byte>, rest: string)
    ensures PercentDecode(PercentEncode(bs) + rest) == PrependTo(bs, PercentDecode(rest))
  {
    if bs != [] {
      assert PercentEncode(bs) + rest == PercentEncode([bs[0]]) + (PercentEncode(bs[1..]) + rest);
      PercentDecodeOctet(bs[0], PercentEncode(bs[1..]) + rest);
      PercentDecodeEncoded(bs[1..], rest);
      PrependTwice([bs[0]], bs[1..], PercentDecode(rest));
      assert [bs[0]] + bs[1..] == bs;
    } else {
      assert PercentEncode(bs) + rest == rest;
      match PercentDecode(rest)
      case None =>
      case Some(x) => assert bs + x == x;
    }
  }

  lemma Utf8DecodesTwo(cp: int)
    requires 0x80 <= cp < 0x800
    ensures Utf8Length(Utf8(cp)[0]) == 2
    ensures Utf8Scalar(Utf8(cp)) == Some(cp)
  {
    var hi, lo := cp / 0x40, cp % 0x40;
    assert 2 <= hi < 0x20;
    assert cp == hi * 0x40 + lo;
  }

  lemma Utf8DecodesThree(cp: int)
    requires 0x800 <= cp < 0x1_0000 && !(0xD800 <= cp <= 0xDFFF)
    ensures Utf8Length(Utf8(cp)[0]) == 3
    ensures Utf8Scalar(Utf8(cp)) == Some(cp)
  {
    var a, b, c := cp / 0x1000, cp / 0x40 % 0x40, cp % 0x40;
    assert cp / 0x40 == a * 0x40 + b;
    assert cp == a * 0x1000 + b * 0x40 + c;
  }

  lemma Utf8DecodesFour(cp: int)
    requires 0x1_0000 <= cp <= 0x10_FFFF
    ensures Utf8Length(Utf8(cp)[0]) == 4
    ensures Utf8Scalar(Utf8(cp)) == Some(cp)
  {
    var a, b, c, d := cp / 0x4_0000, cp / 0x1000 % 0x40, cp / 0x40 % 0x40, cp % 0x40;
    assert 0 <= a <= 4;
    assert cp / 0x1000 == a * 0x40 + b;
    assert cp / 0x40 == cp / 0x1000 * 0x40 + c;
    assert cp == a * 0x4_0000 + b * 0x1000 + c * 0x40 + d;
  }

  /** The UTF-8 octets of a scalar value decode back to it. */
  lemma Utf8Decodes(cp: int)
    requires IsScalar(cp)
    ensures Utf8Length(Utf8(cp)[0]) == |Utf8(cp)|
    ensures Utf8Scalar(Utf8(cp)) == Some(cp)
  {
    if cp < 0x80 {
    } else if cp < 0x800 {
      Utf8DecodesTwo(cp);
    } else if cp < 0x1_0000 {
      Utf8DecodesThree(cp);
    } else {
      Utf8DecodesFour(cp);
    }
  }

  lemma Utf8ToUtf16Step(cp: int, rest: seq<Byte>)
    requires IsScalar(cp)
    ensures Utf8ToUtf16(Utf8(cp) + rest) == PrependTo(Utf16Units(cp), Utf8ToUtf16(rest))
  {
    Utf8Decodes(cp);
    var bs := Utf8(cp) + rest;
    var n := |Utf8(cp)|;
    assert bs[..n] == Utf8(cp);
    assert bs[n..] == rest;
  }

  lemma PairUnits(high: CodeUnit, low: CodeUnit)
    requires IsHighSurrogate(high) && IsLowSurrogate(low)
    ensures IsScalar(CombinePair(high, low))
    ensures Utf16Units(CombinePair(high, low)) == [high, low]
  {
  }

  /** One step of the round trip: a code point's encoded piece decodes to its code units. */
  lemma {:induction false} DecodePiece(cp: int, piece: string, units: seq<CodeUnit>, rest: string)
    requires IsScalar(cp) && Utf16Units(cp) == units
    requires piece == PercentEncode(Utf8(cp)) || (cp < 0x80 && piece == [cp as char] && piece[0] != '%')
    ensures DecodeComponent(piece + rest) == PrependTo(units, DecodeComponent(rest))
  {
    if piece == PercentEncode(Utf8(cp)) {
      PercentDecodeEncoded(Utf8(cp), rest);
    } else {
      assert (piece + rest)[1..] == rest;
      assert [cp as Byte] == Utf8(cp);
    }
    match PercentDecode(rest)
    case None =>
    case Some(bs) => Utf8ToUtf16Step(cp, bs);
  }

  /** Decoding what encodeURIComponent produced gives back the original code units. */
  lemma {:induction false} EncodeDecodeRoundTrip(s: seq<CodeUnit>)
    ensures EncodeURIComponent(s).Normal? ==> DecodeComponent(EncodeURIComponent(s).value) == Some(s)
    decreases |s|
  {
    var r := EncodeURIComponent(s);
    if s == [] || r.Threw? {
    } else if IsUnreservedUnit(s[0]) {
      EncodeDecodeRoundTrip(s[1..]);
      var rest := EncodeURIComponent(s[1..]).value;
      DecodePiece(s[0] as int, [s[0] as int as char], [s[0]], rest);
      assert [s[0]] + s[1..] == s;
    } else if IsHighSurrogate(s[0]) {
      EncodeDecodeRoundTrip(s[2..]);
      var rest := EncodeURIComponent(s[2..]).value;
      var cp := CombinePair(s[0], s[1]);
      PairUnits(s[0], s[1]);
      DecodePiece(cp, PercentEncode(Utf8(cp)), [s[0], s[1]], rest);
      assert [s[0], s[1]] + s[2..] == s;
    } else {
      EncodeDecodeRoundTrip(s[1..]);
      var rest := EncodeURIComponent(s[1..]).value;
      DecodePiece(s[0] as int, PercentEncode(Utf8(s[0] as int)), [s[0]], rest);
      assert [s[0]] + s[1..] == s;
    }
  }

  // ---------------------------------------------------------------------
  // Reading the query of a request path
  // ---------------------------------------------------------------------

  /** The characters before the first `c`; all of `s` when it holds none. */
  function Before(s: string, c: char): string
  {
    if s == [] then [] else if s[0] == c then [] else [s[0]] + Before(s[1..], c)
  }

  /** The characters after the first `c`; None when `s` holds none. */
  function After(s: string, c: char): (r: Option<string>)
    ensures r.Some? ==> |r.value| < |s|
  {
    if s == [] then None else if s[0] == c then Some(s[1..]) else After(s[1..], c)
  }

  /** The pieces of `s` between the occurrences of `c`. */
  function Split(s: string, c: char): seq<string>
    decreases |s|
  {
    match After(s, c)
    case None => [s]
    case Some(rest) => [Before(s, c)] + Split(rest, c)
  }

  /** The query of a request path: what follows the first '?', up to a '#' that starts a fragment. */
  function Query(path: string): Option<string>
  {
    match After(path, '?')
    case None => None
    case Some(q) => Some(Before(q, '#'))
  }

  /** A query parameter: the text before the first '=' and the text after it. */
  function Parameter(piece: string): (string, string)
  {
    (Before(piece, '='), match After(piece, '=') case None => "" case Some(v) => v)
  }

  function Parameters(pieces: seq<string>): seq<(string, string)>
  {
    if pieces == [] then [] else [Parameter(pieces[0])] + Parameters(pieces[1..])
  }

  /** The parameters of a path's query, split at '&' (the form-urlencoded convention). */
  function QueryParameters(path: string): seq<(string, string)>
  {
    match Query(path)
    case None => []
    case Some(q) => Parameters(Split(q, '&'))
  }

  lemma {:induction false} WithoutSeparator(s: string, c: char)
    requires c !in s
    ensures Before(s, c) == s && After(s, c) == None
  {
    if s != [] {
      WithoutSeparator(s[1..], c);
      assert [s[0]] + s[1..] == s;
    }
  }

  lemma {:induction false} AtFirstSeparator(a: string, c: char, b: string)
    requires c !in a
    ensures Before(a + [c] + b, c) == a && After(a + [c] + b, c) == Some(b)
  {
    if a != [] {
      assert (a + [c] + b)[1..] == a[1..] + [c] + b;
      AtFirstSeparator(a[1..], c, b);
      assert [a[0]] + a[1..] == a;
    } else {
      assert (a + [c] + b)[1..] == b;
    }
  }

  /**
    A path whose query is one `name=value` pair, where neither the name nor
    the value holds a separator, has exactly that one parameter.
   */
  lemma SingleParameter(page: string, name: string, value: string)
    requires '?' !in page
    requires '#' !in name && '&' !in name && '=' !in name
    requires '#' !in value && '&' !in value
    ensures QueryParameters(page + ['?'] + name + ['='] + value) == [(name, value)]
  {
    var q := name + ['='] + value;
    assert page + ['?'] + name + ['='] + value == page + ['?'] + q;
    AtFirstSeparator(page, '?', q);
    assert '#' !in q && '&' !in q by {
      forall i | 0 <= i < |q| ensures q[i] != '#' && q[i] != '&' {
        if i < |name| {
          assert q[i] == name[i];
        } else if i > |name| {
          assert q[i] == value[i - |name| - 1];
        }
      }
    }
    WithoutSeparator(q, '#');
    WithoutSeparator(q, '&');
    AtFirstSeparator(name, '=', value);
    assert Query(page + ['?'] + q) == Some(q);
    assert Split(q, '&') == [q];
    assert Parameter(q) == (name, value);
    assert Parameters([q]) == [Parameter(q)] + Parameters([]);
  }
}
