/**
 How a proxy address carries its payload: base64 (section 4 of RFC 4648), percent-encoding
 (section 2.1 of RFC 3986), and the padding step of `localProxy`.
 */
module Payload {
  import opened Options

  type Octet = x: int | 0 <= x < 256
  type Sextet = x: int | 0 <= x < 64

  // ----- base64 -----

  function CharOf(v: Sextet): char {
    if v < 26 then ('A' as int + v) as char
    else if v < 52 then ('a' as int + v - 26) as char
    else if v < 62 then ('0' as int + v - 52) as char
    else if v == 62 then '+'
    else '/'
  }

  function SextetOf(c: char): Option<Sextet> {
    if 'A' <= c <= 'Z' then Some(c as int - 'A' as int)
    else if 'a' <= c <= 'z' then Some(c as int - 'a' as int + 26)
    else if '0' <= c <= '9' then Some(c as int - '0' as int + 52)
    else if c == '+' then Some(62)
    else if c == '/' then Some(63)
    else None
  }

  // three bytes as four sextets, and back
  function First(a: Octet): Sextet { a / 4 }
  function Second(a: Octet, b: Octet): Sextet { a % 4 * 16 + b / 16 }
  function Third(b: Octet, c: Octet): Sextet { b % 16 * 4 + c / 64 }
  function Fourth(c: Octet): Sextet { c % 64 }

  function Byte0(p: Sextet, q: Sextet): Octet { p * 4 + q / 16 }
  function Byte1(q: Sextet, r: Sextet): Octet { q % 16 * 16 + r / 4 }
  function Byte2(r: Sextet, t: Sextet): Octet { r % 4 * 64 + t }

  lemma SextetsRoundTrip(a: Octet, b: Octet, c: Octet)
    ensures Byte0(First(a), Second(a, b)) == a
    ensures Byte1(Second(a, b), Third(b, c)) == b
    ensures Byte2(Third(b, c), Fourth(c)) == c
  {
  }

  /** One to three bytes as four characters. */
  function EncodeGroup(g: seq<Octet>): (s: string)
    requires 1 <= |g| <= 3
    ensures |s| == 4
  {
    var a, b, c := g[0], if |g| > 1 then g[1] else 0, if |g| > 2 then g[2] else 0;
    [CharOf(First(a)),
     CharOf(Second(a, b)),
     if |g| > 1 then CharOf(Third(b, c)) else '=',
     if |g| > 2 then CharOf(Fourth(c)) else '=']
  }

  function GroupSize(bytes: seq<Octet>): (n: nat)
    ensures n <= |bytes| && n <= 3 && (bytes != [] ==> n > 0)
  {
    if |bytes| < 3 then |bytes| else 3
  }

  /** `base64.b64encode`. */
  function Encode(bytes: seq<Octet>): string
    decreases |bytes|
  {
    if bytes == [] then ""
    else
      var n := GroupSize(bytes);
      EncodeGroup(bytes[..n]) + Encode(bytes[n..])
  }

  lemma EncodeStep(bytes: seq<Octet>)
    requires bytes != []
    ensures var n := GroupSize(bytes);
            Encode(bytes) == EncodeGroup(bytes[..n]) + Encode(bytes[n..])
  {
  }

  /** Whole groups of four characters. */
  lemma {:induction false} EncodeLength(bytes: seq<Octet>)
    ensures |Encode(bytes)| % 4 == 0
    decreases |bytes|
  {
    if bytes != [] {
      var n := GroupSize(bytes);
      EncodeStep(bytes);
      EncodeLength(bytes[n..]);
      FourMore(|Encode(bytes[n..])|);
    }
  }

  lemma FourMore(n: nat)
    requires n % 4 == 0
    ensures (4 + n) % 4 == 0
  {
  }

  /** The bytes of one group of four characters. */
  function DecodeGroup(s: string): Option<seq<Octet>>
    requires |s| == 4
  {
    match (SextetOf(s[0]), SextetOf(s[1]), SextetOf(s[2]), SextetOf(s[3]))
    case (Some(p), Some(q), Some(r), Some(t)) => Some([Byte0(p, q), Byte1(q, r), Byte2(r, t)])
    case (Some(p), Some(q), Some(r), None) => if s[3] == '=' then Some([Byte0(p, q), Byte1(q, r)]) else None
    case (Some(p), Some(q), None, None) => if s[2] == s[3] == '=' then Some([Byte0(p, q)]) else None
    case _ => None
  }

  /** `base64.b64decode` on text of the alphabet; only the last group may be padded. */
  function Decode(s: string): Option<seq<Octet>> {
    if s == "" then Some([])
    else if |s| < 4 then None
    else match (DecodeGroup(s[..4]), Decode(s[4..]))
      case (Some(group), Some(rest)) => if |group| < 3 && rest != [] then None else Some(group + rest)
      case _ => None
  }

  lemma {:induction false} DecodeEncode(bytes: seq<Octet>)
    ensures Decode(Encode(bytes)) == Some(bytes)
    decreases |bytes|
  {
    if bytes != [] {
      var n := GroupSize(bytes);
      var group, rest := EncodeGroup(bytes[..n]), Encode(bytes[n..]);
      GroupRoundTrip(bytes[..n]);
      DecodeEncode(bytes[n..]);
      assert (group + rest)[..4] == group && (group + rest)[4..] == rest;
      assert bytes[..n] + bytes[n..] == bytes;
    }
  }

  datatype Sextets = Sextets(p: Sextet, q: Sextet, r: Sextet, t: Sextet)

  /** The first `n + 1` of four sextets as characters, filled up with padding. */
  function Padded(s: Sextets, n: nat): (text: string)
    ensures |text| == 4
  {
    [CharOf(s.p), CharOf(s.q), if n > 1 then CharOf(s.r) else '=', if n > 2 then CharOf(s.t) else '=']
  }

  lemma GroupRoundTrip(g: seq<Octet>)
    requires 1 <= |g| <= 3
    ensures DecodeGroup(EncodeGroup(g)) == Some(g)
  {
    var a, b, c := g[0], if |g| > 1 then g[1] else 0, if |g| > 2 then g[2] else 0;
    var sextets := Sextets(First(a), Second(a, b), Third(b, c), Fourth(c));
    assert EncodeGroup(g) == Padded(sextets, |g|);
    assert g == [a, b, c][..|g|];
    SextetsRoundTrip(a, b, c);
    PaddedDecodes(sextets, |g|);
  }

  lemma PaddedDecodes(s: Sextets, n: nat)
    requires 1 <= n <= 3
    ensures DecodeGroup(Padded(s, n)) == Some([Byte0(s.p, s.q), Byte1(s.q, s.r), Byte2(s.r, s.t)][..n])
  {
    var bytes := [Byte0(s.p, s.q), Byte1(s.q, s.r), Byte2(s.r, s.t)];
    assert bytes[..1] == [bytes[0]] && bytes[..2] == [bytes[0], bytes[1]] && bytes[..3] == bytes;
    assert SextetOf('=') == None;
    CharRoundTrip(s.p);
    CharRoundTrip(s.q);
    CharRoundTrip(s.r);
    CharRoundTrip(s.t);
  }

  lemma CharRoundTrip(v: Sextet)
    ensures SextetOf(CharOf(v)) == Some(v)
  {
  }

  /** Vectors of section 10 of RFC 4648. */
  lemma EncodeVectors()
    ensures Encode([0x66]) == "Zg=="
    ensures Encode([0x66, 0x6f]) == "Zm8="
    ensures Encode([0x66, 0x6f, 0x6f]) == "Zm9v"
  {
    assert [0x66, 0x6f, 0x6f][..3] == [0x66, 0x6f, 0x6f] && [0x66, 0x6f][..2] == [0x66, 0x6f] && [0x66][..1] == [0x66];
  }

  /** The alphabet of section 4 of RFC 4648. */
  lemma Alphabet(v: Sextet)
    ensures CharOf(0) == 'A' && CharOf(25) == 'Z' && CharOf(26) == 'a' && CharOf(51) == 'z'
    ensures CharOf(52) == '0' && CharOf(61) == '9' && CharOf(62) == '+' && CharOf(63) == '/'
    ensures v < 61 && v != 25 && v != 51 ==> CharOf(v + 1) as int == CharOf(v) as int + 1
  {
  }

  /** Three bytes and their four sextets are the same 24 bits. */
  lemma SameBits(a: Octet, b: Octet, c: Octet)
    ensures 65536 * a + 256 * b + c
         == 262144 * First(a) + 4096 * Second(a, b) + 64 * Third(b, c) + Fourth(c)
  {
  }

  /** A group: four sextets, or fewer filled up with `=`. */
  predicate IsGroup(s: string)
    requires |s| == 4
  {
    && SextetOf(s[0]).Some? && SextetOf(s[1]).Some?
    && (SextetOf(s[2]).Some? || s[2] == s[3] == '=')
    && (SextetOf(s[3]).Some? || s[3] == '=')
  }

  /** Whole groups of which only the last is filled up. */
  predicate IsBase64(s: string) {
    s == "" || (|s| >= 4 && IsGroup(s[..4]) && IsBase64(s[4..]) && (s[3] == '=' ==> |s| == 4))
  }

  /** Exactly such text is decoded, to three bytes a group less the filling. */
  lemma {:induction false} DecodesExactly(s: string)
    ensures Decode(s).Some? <==> IsBase64(s)
    ensures Decode(s).Some? ==> (Decode(s).value == [] <==> s == "")
  {
    if |s| >= 4 {
      DecodesExactly(s[4..]);
      GroupDecodes(s[..4]);
      assert s[..4][3] == s[3];
    }
  }

  lemma GroupDecodes(s: string)
    requires |s| == 4
    ensures DecodeGroup(s).Some? <==> IsGroup(s)
    ensures DecodeGroup(s).Some? ==> DecodeGroup(s).value != [] && (|DecodeGroup(s).value| < 3 <==> s[3] == '=')
  {
    assert SextetOf('=') == None;
  }

  // ----- padding -----

  function Repeat(c: char, n: nat): (s: string)
    ensures |s| == n && forall i | 0 <= i < n :: s[i] == c
  {
    seq(n, _ => c)
  }

  /** The padding step: four minus the length modulo four, unless that is four. */
  function Pad(s: string): string {
    var padding := 4 - |s| % 4;
    if padding != 4 then s + Repeat('=', padding) else s
  }

  /** Padding fills text up to whole groups and no further. */
  lemma PadFills(s: string)
    ensures s <= Pad(s) && |Pad(s)| % 4 == 0 && |Pad(s)| < |s| + 4
    ensures forall i | |s| <= i < |Pad(s)| :: Pad(s)[i] == '='
  {
  }

  /** Padded text is left alone, and text whose padding was dropped, in whole or in part, gets it back. */
  lemma PadRestores(bytes: seq<Octet>, s: string, dropped: nat)
    requires Encode(bytes) == s + Repeat('=', dropped)
    ensures Pad(s) == Encode(bytes)
  {
    PaddingIsShort(bytes, s, dropped);
    EncodeLength(bytes);
    PadFillsUp(s, dropped, Encode(bytes));
  }

  lemma PadFillsUp(s: string, dropped: nat, whole: string)
    requires whole == s + Repeat('=', dropped) && |whole| % 4 == 0 && dropped <= 2
    ensures Pad(s) == whole
  {
    assert |s| + dropped == |whole|;
    if dropped == 0 {
      assert s + Repeat('=', 0) == s;
    }
  }

  /** An encoded text ends in at most two `=`. */
  lemma PaddingIsShort(bytes: seq<Octet>, s: string, k: nat)
    requires Encode(bytes) == s + Repeat('=', k)
    ensures k <= 2
  {
    var whole := Encode(bytes);
    if k > 2 {
      assert whole[|s| + (k - 3)] == '=';
      assert |s| + (k - 3) == |whole| - 3;
      ThirdLastIsNoPadding(bytes);
    }
  }

  lemma {:induction false} ThirdLastIsNoPadding(bytes: seq<Octet>)
    requires bytes != []
    ensures |Encode(bytes)| >= 4 && Encode(bytes)[|Encode(bytes)| - 3] != '='
    decreases |bytes|
  {
    var n := GroupSize(bytes);
    if n < |bytes| {
      ThirdLastIsNoPadding(bytes[n..]);
    } else {
      assert Encode(bytes[n..]) == "";
    }
  }

  lemma {:induction false} EncodedIsAscii(bytes: seq<Octet>)
    ensures forall i | 0 <= i < |Encode(bytes)| :: Encode(bytes)[i] < '\U{80}' && Encode(bytes)[i] != '%'
    decreases |bytes|
  {
    if bytes != [] {
      var n := GroupSize(bytes);
      EncodedIsAscii(bytes[n..]);
      var group := EncodeGroup(bytes[..n]);
      assert forall i | 0 <= i < 4 :: group[i] < '\U{80}' && group[i] != '%';
    }
  }

  // ----- percent-encoding -----

  predicate Unreserved(c: char) {
    'A' <= c <= 'Z' || 'a' <= c <= 'z' || '0' <= c <= '9' || c in "_.-~"
  }

  type Ascii = s: string | forall i | 0 <= i < |s| :: s[i] < '\U{80}'

  function HexDigit(v: nat): char
    requires v < 16
  {
    if v < 10 then ('0' as int + v) as char else ('A' as int + v - 10) as char
  }

  function HexValue(c: char): Option<nat> {
    if '0' <= c <= '9' then Some(c as int - '0' as int)
    else if 'A' <= c <= 'F' then Some(c as int - 'A' as int + 10)
    else if 'a' <= c <= 'f' then Some(c as int - 'a' as int + 10)
    else None
  }

  /** `quote(s, safe='')`. */
  function Quote(s: Ascii): string {
    if s == "" then ""
    else
      var c := s[0];
      (if Unreserved(c) then [c] else ['%', HexDigit(c as nat / 16), HexDigit(c as nat % 16)]) + Quote(s[1..])
  }

  /** The three characters of base64 text that are escaped. */
  lemma Base64Escapes(rest: Ascii)
    ensures Quote(['+'] + rest) == "%2B" + Quote(rest)
    ensures Quote(['/'] + rest) == "%2F" + Quote(rest)
    ensures Quote(['='] + rest) == "%3D" + Quote(rest)
  {
    assert (['+'] + rest)[1..] == rest && (['/'] + rest)[1..] == rest && (['='] + rest)[1..] == rest;
  }

  lemma {:induction false} QuoteUnreserved(s: Ascii)
    requires forall i | 0 <= i < |s| :: Unreserved(s[i])
    ensures Quote(s) == s
  {
    if s != "" { QuoteUnreserved(s[1..]); }
  }

  lemma {:induction false} QuoteIsPlain(s: Ascii, i: nat)
    requires i < |Quote(s)|
    ensures var c := Quote(s)[i]; c == '%' || 'A' <= c <= 'Z' || 'a' <= c <= 'z' || '0' <= c <= '9' || c in "_.-~"
  {
    var first := if Unreserved(s[0]) then [s[0]] else ['%', HexDigit(s[0] as nat / 16), HexDigit(s[0] as nat % 16)];
    if i >= |first| { QuoteIsPlain(s[1..], i - |first|); }
  }

  /** Escapes in small letters are read too, and what is no escape stays. */
  lemma UnquoteExamples()
    ensures Unquote("%2b%2F") == "+/" && Unquote("%zz%") == "%zz%"
  {
    assert "%2b%2F"[3..] == "%2F" && "%2F"[3..] == "";
    assert Escape("%2b%2F") == Some('+') && Escape("%2F") == Some('/');
    assert "%zz%"[1..] == "zz%" && "zz%"[1..] == "z%" && "z%"[1..] == "%" && "%"[1..] == "";
    assert Unquote("%") == "%" && Unquote("z%") == "z%" && Unquote("zz%") == "zz%";
  }

  /** The character an escape at the front stands for. */
  function Escape(s: string): Option<char> {
    if |s| < 3 || s[0] != '%' then None
    else match (HexValue(s[1]), HexValue(s[2]))
      case (Some(high), Some(low)) => if high < 8 then Some((16 * high + low) as char) else None
      case _ => None
  }

  /** `unquote`: an escape becomes its character, anything else stays. */
  function Unquote(s: string): string {
    if s == "" then ""
    else match Escape(s)
      case Some(c) => [c] + Unquote(s[3..])
      case None => [s[0]] + Unquote(s[1..])
  }

  lemma {:induction false} UnquoteQuote(s: Ascii)
    ensures Unquote(Quote(s)) == s
  {
    if s != "" {
      var c, rest := s[0], Quote(s[1..]);
      UnquoteQuote(s[1..]);
      if Unreserved(c) {
        assert Quote(s)[1..] == rest;
      } else {
        HexRoundTrip(c as nat / 16);
        HexRoundTrip(c as nat % 16);
        assert Quote(s)[3..] == rest;
        assert Escape(Quote(s)) == Some(c);
      }
    }
  }

  lemma HexRoundTrip(v: nat)
    requires v < 16
    ensures HexValue(HexDigit(v)) == Some(v)
  {
  }

  lemma {:induction false} UnquotePlain(s: string)
    requires '%' !in s
    ensures Unquote(s) == s
  {
    if s != "" {
      UnquotePlain(s[1..]);
    }
  }

  // ----- the payload on its way -----

  /** What the proxy address carries as `data`. */
  function Sent(bytes: seq<Octet>): string {
    EncodedIsAscii(bytes);
    Quote(Encode(bytes))
  }

  /** What `localProxy` makes of its `data` parameter before decoding JSON. */
  function Received(data: string): Option<seq<Octet>> {
    Decode(Pad(Unquote(data)))
  }

  lemma TextArrives(s: Ascii)
    requires '%' !in s && |s| % 4 == 0
    ensures Received(s) == Decode(s) && Received(Quote(s)) == Decode(s) && Unquote(Quote(s)) == s
  {
    UnquotePlain(s);
    UnquoteQuote(s);
  }

  /** The payload arrives whether the framework decoded the query once or not at all. */
  lemma PayloadArrives(bytes: seq<Octet>)
    ensures Received(Sent(bytes)) == Some(bytes)
    ensures Received(Unquote(Sent(bytes))) == Some(bytes)
  {
    EncodedIsAscii(bytes);
    EncodeLength(bytes);
    TextArrives(Encode(bytes));
    DecodeEncode(bytes);
  }

  /** It also arrives when the padding was lost on the way, in whole or in part. */
  lemma PayloadArrivesUnpadded(bytes: seq<Octet>, s: string, dropped: nat)
    requires Encode(bytes) == s + Repeat('=', dropped)
    ensures Received(s) == Some(bytes)
  {
    EncodedIsAscii(bytes);
    assert forall i | 0 <= i < |s| :: s[i] == Encode(bytes)[i];
    UnquotePlain(s);
    PadRestores(bytes, s, dropped);
    DecodeEncode(bytes);
  }
}
