/** Strings as the sources handle them: decimal numbers, splitting, joining, trimming. */
module Text {

  // ----- decimal numbers -----

  predicate IsDigit(c: char) {
    '0' <= c <= '9'
  }

  predicate AllDigits(s: string) {
    forall i | 0 <= i < |s| :: IsDigit(s[i])
  }

  function DigitOf(d: nat): (c: char)
    requires d < 10
    ensures IsDigit(c) && DigitValue(c) == d
  {
    ('0' as int + d) as char
  }

  function DigitValue(c: char): (d: nat)
    requires IsDigit(c)
    ensures d < 10
  {
    c as int - '0' as int
  }

  /** The number a run of digits denotes (0 for the empty run). */
  function Value(s: string): nat
    requires AllDigits(s)
  {
    if s == "" then 0 else 10 * Value(s[..|s| - 1]) + DigitValue(s[|s| - 1])
  }

  /** How `%s` and `str.format` print a natural number; reading it back gives the number. */
  function Decimal(n: nat): (s: string)
    ensures |s| > 0 && AllDigits(s)
    ensures Value(s) == n
  {
    if n < 10 then
      var s := [DigitOf(n)];
      assert s[..|s| - 1] == "";
      s
    else
      var init := Decimal(n / 10);
      var s := init + [DigitOf(n % 10)];
      assert s[..|s| - 1] == init;
      s
  }

  /** Numbers above nine do not start with a zero. */
  lemma {:induction false} NoLeadingZero(n: nat)
    ensures n > 0 ==> Decimal(n)[0] != '0'
    ensures n == 0 ==> Decimal(n) == "0"
  {
    if n >= 10 { NoLeadingZero(n / 10); }
  }

  function DecimalInt(n: int): string {
    if n < 0 then "-" + Decimal(-n) else Decimal(n)
  }

  /** The longest run of digits at the front of `s`: what the pattern `\d*` takes. */
  function LeadingDigits(s: string): (d: string)
    ensures d <= s && AllDigits(d)
    ensures |d| < |s| ==> !IsDigit(s[|d|])
  {
    if s != "" && IsDigit(s[0]) then [s[0]] + LeadingDigits(s[1..]) else ""
  }

  lemma {:induction false} LeadingDigitsTakesAll(d: string, rest: string)
    requires AllDigits(d)
    requires rest == "" || !IsDigit(rest[0])
    ensures LeadingDigits(d + rest) == d
  {
    if d == "" {
      assert d + rest == rest;
    } else {
      assert (d + rest)[1..] == d[1..] + rest;
      LeadingDigitsTakesAll(d[1..], rest);
    }
  }

  // ----- positions, splitting, joining -----

  predicate StartsWith(s: string, prefix: string) {
    prefix <= s
  }

  /** Position of the first `c`, or the length when there is none. */
  function IndexOf(s: string, c: char): (i: nat)
    ensures i <= |s|
    ensures forall j | 0 <= j < i :: s[j] != c
    ensures i < |s| ==> s[i] == c
    ensures i < |s| <==> c in s
  {
    if s == "" || s[0] == c then 0 else 1 + IndexOf(s[1..], c)
  }

  lemma {:induction false} IndexOfInMiddle(a: string, c: char, b: string)
    requires c !in a
    ensures IndexOf(a + [c] + b, c) == |a|
  {
    var s := a + [c] + b;
    assert s[|a|] == c;
    assert c in s;
    assert forall j | 0 <= j < |a| :: s[j] == a[j] && a[j] in a;
  }

  /** Position just past the last `c`, or 0 when there is none. */
  function AfterLast(s: string, c: char): (i: nat)
    ensures i <= |s|
    ensures forall j | i <= j < |s| :: s[j] != c
    ensures i > 0 ==> s[i - 1] == c
    ensures i > 0 <==> c in s
  {
    if s == "" then 0
    else if s[|s| - 1] == c then |s|
    else
      assert s == s[..|s| - 1] + [s[|s| - 1]];
      AfterLast(s[..|s| - 1], c)
  }

  lemma {:induction false} AfterLastInMiddle(a: string, c: char, b: string)
    requires c !in b
    ensures AfterLast(a + [c] + b, c) == |a| + 1
  {
    var s := a + [c] + b;
    if b != "" {
      var front := b[..|b| - 1];
      assert b == front + [b[|b| - 1]];
      assert s[..|s| - 1] == a + [c] + front;
      AfterLastInMiddle(a, c, front);
    }
  }

  /** `s.split(sep)` for a one-character separator. */
  function SplitOn(s: string, sep: char): (parts: seq<string>)
    ensures parts != []
  {
    if s == "" then [""]
    else
      var parts := SplitOn(s[1..], sep);
      if s[0] == sep then [""] + parts else [[s[0]] + parts[0]] + parts[1..]
  }

  lemma {:induction false} SplitWhole(a: string, sep: char)
    requires sep !in a
    ensures SplitOn(a, sep) == [a]
  {
    if a != "" {
      SplitWhole(a[1..], sep);
      assert [a[0]] + a[1..] == a;
    }
  }

  lemma {:induction false} SplitFirst(a: string, sep: char, b: string)
    requires sep !in a
    ensures SplitOn(a + [sep] + b, sep) == [a] + SplitOn(b, sep)
  {
    var s := a + [sep] + b;
    if a == "" {
      assert s[1..] == b;
    } else {
      assert s[1..] == a[1..] + [sep] + b;
      SplitFirst(a[1..], sep, b);
      assert [a[0]] + a[1..] == a;
    }
  }

  /** The pieces of a split hold no separator and only characters of the whole. */
  lemma {:induction false} SplitPieces(s: string, sep: char, k: nat)
    requires k < |SplitOn(s, sep)|
    ensures sep !in SplitOn(s, sep)[k]
    ensures forall c | c in SplitOn(s, sep)[k] :: c in s
  {
    if s != "" {
      var parts := SplitOn(s[1..], sep);
      assert s == [s[0]] + s[1..];
      if s[0] == sep {
        if k > 0 { SplitPieces(s[1..], sep, k - 1); }
      } else {
        SplitPieces(s[1..], sep, k);
      }
    }
  }

  function Join(parts: seq<string>, sep: string): string {
    if parts == [] then ""
    else if |parts| == 1 then parts[0]
    else parts[0] + sep + Join(parts[1..], sep)
  }

  // ----- whitespace -----

  /** The characters `str.strip()` removes. */
  predicate IsSpace(c: char) {
    || '\t' <= c <= '\r'
    || '\U{1C}' <= c <= ' '
    || c == '\U{85}' || c == '\U{A0}' || c == '\U{1680}'
    || '\U{2000}' <= c <= '\U{200A}'
    || c == '\U{2028}' || c == '\U{2029}' || c == '\U{202F}' || c == '\U{205F}' || c == '\U{3000}'
  }

  /** They are the 29 code points that Python calls whitespace. */
  lemma SpaceCodes(c: char)
    ensures IsSpace(c) <==> c as int in {
              9, 10, 11, 12, 13, 28, 29, 30, 31, 32, 0x85, 0xA0, 0x1680,
              0x2000, 0x2001, 0x2002, 0x2003, 0x2004, 0x2005, 0x2006, 0x2007, 0x2008, 0x2009, 0x200A,
              0x2028, 0x2029, 0x202F, 0x205F, 0x3000}
  {
  }

  /** No whitespace at either end. */
  predicate Trimmed(s: string) {
    s != "" ==> !IsSpace(s[0]) && !IsSpace(s[|s| - 1])
  }

  function StripLeft(s: string): (r: string)
    ensures r != "" ==> !IsSpace(r[0])
    ensures forall c | c in r :: c in s
    ensures s != "" && !IsSpace(s[0]) ==> r == s
  {
    if s != "" && IsSpace(s[0]) then StripLeft(s[1..]) else s
  }

  function StripRight(s: string): (r: string)
    ensures r != "" ==> !IsSpace(r[|r| - 1])
    ensures r <= s && (s != "" && r != "" ==> r[0] == s[0])
    ensures s != "" && !IsSpace(s[|s| - 1]) ==> r == s
  {
    if s != "" && IsSpace(s[|s| - 1]) then StripRight(s[..|s| - 1]) else s
  }

  function Strip(s: string): (r: string)
    ensures Trimmed(r)
    ensures Trimmed(s) ==> r == s
    ensures forall c | c in r :: c in s
  {
    var l := StripLeft(s);
    StripRight(l)
  }

  /** Stripping removes whitespace at both ends and nothing else. */
  lemma StripCuts(s: string) returns (left: string, right: string)
    ensures s == left + Strip(s) + right
    ensures forall i | 0 <= i < |left| :: IsSpace(left[i])
    ensures forall i | 0 <= i < |right| :: IsSpace(right[i])
  {
    left := StripLeftCuts(s);
    right := StripRightCuts(StripLeft(s));
    assert left + (Strip(s) + right) == left + Strip(s) + right;
  }

  lemma {:induction false} StripLeftCuts(s: string) returns (left: string)
    ensures s == left + StripLeft(s) && forall i | 0 <= i < |left| :: IsSpace(left[i])
  {
    if s != "" && IsSpace(s[0]) {
      var rest := StripLeftCuts(s[1..]);
      left := [s[0]] + rest;
      assert s == [s[0]] + s[1..];
    } else {
      left := "";
    }
  }

  lemma {:induction false} StripRightCuts(s: string) returns (right: string)
    ensures s == StripRight(s) + right && forall i | 0 <= i < |right| :: IsSpace(right[i])
  {
    if s != "" && IsSpace(s[|s| - 1]) {
      var rest := StripRightCuts(s[..|s| - 1]);
      right := rest + [s[|s| - 1]];
      assert s == s[..|s| - 1] + [s[|s| - 1]];
    } else {
      right := "";
    }
  }

  lemma {:induction false} StripRightKeeps(a: string, b: string)
    requires a != "" && !IsSpace(a[|a| - 1])
    ensures StripRight(a + b) == a + StripRight(b)
  {
    if b == "" {
      assert a + b == a;
    } else {
      var front := b[..|b| - 1];
      assert (a + b)[..|a + b| - 1] == a + front;
      if IsSpace(b[|b| - 1]) {
        StripRightKeeps(a, front);
      }
    }
  }

  lemma {:induction false} StripLeftKeeps(a: string, b: string)
    requires b != "" && !IsSpace(b[0])
    ensures StripLeft(a + b) == StripLeft(a) + b
  {
    if a == "" {
      assert a + b == b;
    } else {
      assert (a + b)[1..] == a[1..] + b;
      if IsSpace(a[0]) {
        StripLeftKeeps(a[1..], b);
      }
    }
  }

  /** Around a character that is no whitespace only the outer ends are trimmed. */
  lemma StripAround(a: string, c: char, b: string)
    requires !IsSpace(c)
    ensures Strip(a + [c] + b) == StripLeft(a) + [c] + StripRight(b)
  {
    assert a + [c] + b == a + ([c] + b);
    StripLeftKeeps(a, [c] + b);
    var left := StripLeft(a) + [c];
    assert StripLeft(a) + ([c] + b) == left + b;
    StripRightKeeps(left, b);
  }

  /** Trimming an end first makes no difference. */
  lemma {:induction false} StripStripped(s: string)
    ensures Strip(StripLeft(s)) == Strip(s) && Strip(StripRight(s)) == Strip(s)
  {
    assert StripLeft(StripLeft(s)) == StripLeft(s);
    if s != "" && IsSpace(s[|s| - 1]) {
      var front, last := s[..|s| - 1], s[|s| - 1];
      assert s == front + [last];
      StripStripped(front);
      DropLastSpace(front, last);
    }
  }

  lemma {:induction false} DropLastSpace(front: string, last: char)
    requires IsSpace(last)
    ensures Strip(front + [last]) == Strip(front)
  {
    if front == "" {
      assert front + [last] == [last] && [last][1..] == "";
    } else if IsSpace(front[0]) {
      assert (front + [last])[1..] == front[1..] + [last];
      DropLastSpace(front[1..], last);
    } else {
      assert (front + [last])[..|front|] == front;
    }
  }

  // ----- substrings and case -----

  predicate Contains(s: string, part: string) {
    part <= s || (s != "" && Contains(s[1..], part))
  }

  lemma {:induction false} ContainsLater(front: string, part: string, rest: string)
    ensures Contains(front + (part + rest), part)
  {
    var s := front + (part + rest);
    if front == "" {
      assert s == part + rest;
    } else {
      assert s[1..] == front[1..] + (part + rest);
      ContainsLater(front[1..], part, rest);
    }
  }

  /** The text holds the part somewhere. */
  ghost predicate Occurs(part: string, s: string) {
    exists a: string, b: string :: s == a + (part + b)
  }

  lemma {:induction false} ContainsIff(s: string, part: string)
    ensures Contains(s, part) <==> Occurs(part, s)
  {
    if Occurs(part, s) {
      var a: string, b: string :| s == a + (part + b);
      ContainsLater(a, part, b);
    }
    if part <= s {
      assert s == "" + (part + s[|part|..]);
    } else if s != "" {
      ContainsIff(s[1..], part);
      if Occurs(part, s[1..]) {
        var a: string, b: string :| s[1..] == a + (part + b);
        assert s == ([s[0]] + a) + (part + b);
      }
    }
  }

  /** A front of a part that occurs occurs too. */
  lemma FrontOccurs(front: string, part: string, s: string)
    requires front <= part && Occurs(part, s)
    ensures Occurs(front, s)
  {
    var a: string, b: string :| s == a + (part + b);
    assert part + b == front + (part[|front|..] + b);
  }

  lemma LowerExample()
    ensures Lower("VP9.2 @Z[az") == "vp9.2 @z[az"
  {
  }

  function LowerChar(c: char): char {
    if 'A' <= c <= 'Z' then (c as int + 32) as char else c
  }

  function Lower(s: string): string {
    seq(|s|, i requires 0 <= i < |s| => LowerChar(s[i]))
  }
}
