/**
 The scanner that cuts a JSON object out of a web page (`_extract_json_after` of the YouTube
 spider): it counts braces outside strings and honours backslash escapes.

 Object texts are those of RFC 8259, section 4, with strings as in section 7; they are
 modelled with all their whitespace, so that printing reaches every such text.
 */
module BraceScanner {
  import opened Options

  // ----- object texts -----

  predicate IsWhitespace(s: string) {
    forall i | 0 <= i < |s| :: s[i] in " \t\n\r"
  }

  predicate IsNumberText(s: string) {
    forall i | 0 <= i < |s| :: s[i] in "0123456789+-.eE"
  }

  type Ws = s: string | IsWhitespace(s)
  type NumberText = s: string | IsNumberText(s)

  predicate IsHex(c: char) {
    '0' <= c <= '9' || 'a' <= c <= 'f' || 'A' <= c <= 'F'
  }

  type Hex = c: char | IsHex(c) witness '0'
  type Plain = c: char | c != '"' && c != '\\' witness 'a'

  /** A character of a string: itself, a two-character escape, or `\u` and four hex digits. */
  datatype StringChar =
    | Unescaped(c: Plain)
    | Quote | Backslash | Solidus | Backspace | FormFeed | LineFeed | Return | Tab
    | Unicode(a: Hex, b: Hex, c2: Hex, d: Hex)

  datatype Value =
    | True | False | Null
    | Number(text: NumberText)
    | String(chars: seq<StringChar>)
    | Array(inside: Ws, elements: seq<Element>)
    | Object(inside: Ws, members: seq<Member>)

  datatype Element = Element(before: Ws, value: Value, after: Ws)

  datatype Member = Member(before: Ws, name: seq<StringChar>, afterName: Ws, beforeValue: Ws, value: Value, after: Ws)

  function PrintChar(c: StringChar): string {
    match c
    case Unescaped(p) => [p]
    case Quote => "\\\""
    case Backslash => "\\\\"
    case Solidus => "\\/"
    case Backspace => "\\b"
    case FormFeed => "\\f"
    case LineFeed => "\\n"
    case Return => "\\r"
    case Tab => "\\t"
    case Unicode(h1, h2, h3, h4) => ['\\', 'u', h1, h2, h3, h4]
  }

  function PrintChars(cs: seq<StringChar>): string {
    if cs == [] then "" else PrintChar(cs[0]) + PrintChars(cs[1..])
  }

  function PrintString(cs: seq<StringChar>): string {
    "\"" + PrintChars(cs) + "\""
  }

  function Print(v: Value): string
    decreases v, 2, 0
  {
    match v
    case True => "true"
    case False => "false"
    case Null => "null"
    case Number(text) => text
    case String(chars) => PrintString(chars)
    case Array(inside, elements) => "[" + (if elements == [] then inside else PrintElements(v, |elements|)) + "]"
    case Object(_, _) => "{" + Body(v) + "}"
  }

  /** What stands between the braces of an object. */
  function Body(v: Value): string
    requires v.Object?
    decreases v, 1, 0
  {
    if v.members == [] then v.inside else PrintMembers(v, |v.members|)
  }

  function PrintElement(e: Element): string
    decreases e, 3, 0
  {
    e.before + Print(e.value) + e.after
  }

  function PrintElements(v: Value, n: nat): string
    requires v.Array? && n <= |v.elements|
    decreases v, 0, n
  {
    if n == 0 then ""
    else PrintElements(v, n - 1) + (if n > 1 then "," else "") + PrintElement(v.elements[n - 1])
  }

  function PrintMember(m: Member): string
    decreases m, 3, 0
  {
    m.before + PrintString(m.name) + m.afterName + ":" + (m.beforeValue + Print(m.value) + m.after)
  }

  function PrintMembers(v: Value, n: nat): string
    requires v.Object? && n <= |v.members|
    decreases v, 0, n
  {
    if n == 0 then ""
    else PrintMembers(v, n - 1) + (if n > 1 then "," else "") + PrintMember(v.members[n - 1])
  }

  // ----- the scanner as a machine over characters -----

  datatype State = State(depth: int, inString: bool, escaped: bool)

  datatype Outcome = Running(state: State) | Stopped(length: nat)

  function Next(s: State, ch: char): State {
    if s.escaped then s.(escaped := false)
    else if ch == '\\' then s.(escaped := true)
    else if s.inString then s.(inString := ch != '"')
    else if ch == '"' then s.(inString := true)
    else if ch == '{' then s.(depth := s.depth + 1)
    else if ch == '}' then s.(depth := s.depth - 1)
    else s
  }

  /** The brace that ends the scan. */
  predicate Ends(s: State, ch: char) {
    !s.escaped && !s.inString && ch == '}' && s.depth == 1
  }

  /** The same outcome, counted from `k` characters earlier. */
  function Shift(r: Outcome, k: nat): Outcome {
    match r
    case Running(t) => Running(t)
    case Stopped(n) => Stopped(n + k)
  }

  /** Reads a text; `Stopped(n)` when the n-th character ends the scan. */
  function Read(s: State, text: string): (r: Outcome)
    ensures r.Stopped? ==> 0 < r.length <= |text|
    decreases text
  {
    if text == "" then Running(s)
    else if Ends(s, text[0]) then Stopped(1)
    else Shift(Read(Next(s, text[0]), text[1..]), 1)
  }

  function Find(text: string, part: string): (pos: Option<nat>)
    ensures pos.Some? ==> pos.value + |part| <= |text| && text[pos.value..pos.value + |part|] == part
    ensures pos.Some? ==> forall i | 0 <= i < pos.value :: !(part <= text[i..])
    ensures pos.None? ==> forall i | 0 <= i <= |text| :: !(part <= text[i..])
  {
    if part <= text then Some(0)
    else if text == "" then None
    else
      var rest := Find(text[1..], part);
      assert forall i | 1 <= i <= |text| :: text[i..] == text[1..][i - 1..];
      if rest.Some? then Some(rest.value + 1) else None
  }

  /** The object at the front of a text: up to the brace that ends the scan. */
  function ObjectAtFront(tail: string): Option<string> {
    match Read(State(0, false, false), tail)
    case Running(_) => None
    case Stopped(n) => Some(tail[..n])
  }

  /** The text the scanner hands to the JSON decoder. */
  function ObjectAfter(text: string, marker: string): Option<string> {
    var pos := Find(text, marker);
    if pos.None? then None
    else
      var open := Find(text[pos.value..], "{");
      if open.None? then None else ObjectAtFront(text[pos.value..][open.value..])
  }

  lemma ReadStep(s: State, text: string, i: nat)
    requires i < |text|
    ensures Read(s, text[i..])
         == if Ends(s, text[i]) then Stopped(1) else Shift(Read(Next(s, text[i]), text[i + 1..]), 1)
  {
    assert text[i..][1..] == text[i + 1..];
  }

  lemma ReadNothing(s: State, text: string)
    ensures Read(s, text[|text|..]) == Running(s)
    ensures text[0..] == text
  {
  }

  /** The loop over the page, character by character. */
  method ScanObject(text: string) returns (end: Option<nat>)
    ensures match Read(State(0, false, false), text)
            case Running(_) => end == None
            case Stopped(n) => end == Some(n)
  {
    var depth, inString, escaped := 0, false, false;
    ReadNothing(State(0, false, false), text);
    var i := 0;
    while i < |text|
      invariant 0 <= i <= |text|
      invariant Read(State(0, false, false), text) == Shift(Read(State(depth, inString, escaped), text[i..]), i)
    {
      var ch := text[i];
      ghost var s := State(depth, inString, escaped);
      ReadStep(s, text, i);
      if escaped {
        escaped := false;
      } else if ch == '\\' {
        escaped := true;
      } else if inString {
        if ch == '"' {
          inString := false;
        }
      } else if ch == '"' {
        inString := true;
      } else if ch == '{' {
        depth := depth + 1;
      } else if ch == '}' {
        depth := depth - 1;
        if depth == 0 {
          return Some(i + 1);
        }
      }
      assert State(depth, inString, escaped) == Next(s, ch);
      i := i + 1;
    }
    ReadNothing(State(depth, inString, escaped), text);
    return None;
  }

  method ExtractJsonAfter(text: string, marker: string) returns (found: Option<string>)
    ensures found == ObjectAfter(text, marker)
  {
    var pos := Find(text, marker);
    if pos.None? {
      return None;
    }
    var open := Find(text[pos.value..], "{");
    if open.None? {
      return None;
    }
    var tail := text[pos.value..][open.value..];
    var end := ScanObject(tail);
    found := if end.None? then None else Some(tail[..end.value]);
  }

  // ----- what it does on object texts -----

  function Outside(depth: nat): State {
    State(depth, false, false)
  }

  function Inside(depth: nat): State {
    State(depth, true, false)
  }

  /** Reading a text in two parts. */
  lemma {:induction false} ReadConcat(s: State, a: string, b: string)
    ensures Read(s, a + b) == match Read(s, a)
                              case Stopped(n) => Stopped(n)
                              case Running(t) => Shift(Read(t, b), |a|)
    decreases a
  {
    if a == "" {
      assert a + b == b;
    } else {
      assert (a + b)[1..] == a[1..] + b;
      if !Ends(s, a[0]) {
        ReadConcat(Next(s, a[0]), a[1..], b);
      }
    }
  }

  /** The text leaves the scanner as it was, outside strings at this depth. */
  predicate Passes(depth: nat, text: string) {
    Read(Outside(depth), text) == Running(Outside(depth))
  }

  lemma PassesConcat(depth: nat, a: string, b: string)
    requires Passes(depth, a) && Passes(depth, b)
    ensures Passes(depth, a + b)
  {
    ReadConcat(Outside(depth), a, b);
  }

  predicate Quiet(text: string) {
    forall i | 0 <= i < |text| :: text[i] !in "{}\"\\"
  }

  lemma {:induction false} QuietPasses(depth: nat, text: string)
    requires Quiet(text)
    ensures Passes(depth, text)
  {
    if text != "" {
      assert text[0] !in "{}\"\\";
      QuietPasses(depth, text[1..]);
    }
  }

  lemma {:induction false} CharsStayInside(depth: nat, cs: seq<StringChar>)
    ensures Read(Inside(depth), PrintChars(cs)) == Running(Inside(depth))
  {
    if cs != [] {
      CharStaysInside(depth, cs[0]);
      CharsStayInside(depth, cs[1..]);
      ReadConcat(Inside(depth), PrintChar(cs[0]), PrintChars(cs[1..]));
    }
  }

  lemma CharStaysInside(depth: nat, c: StringChar)
    ensures Read(Inside(depth), PrintChar(c)) == Running(Inside(depth))
  {
    match c
    case Unescaped(p) => assert [p][1..] == "";
    case Unicode(h1, h2, h3, h4) =>
      EscapeStaysInside(depth, 'u');
      HexStaysInside(depth, [h1, h2, h3, h4]);
      ReadConcat(Inside(depth), "\\u", [h1, h2, h3, h4]);
      assert "\\u" + [h1, h2, h3, h4] == PrintChar(c);
    case _ => EscapeStaysInside(depth, PrintChar(c)[1]);
  }

  lemma EscapeStaysInside(depth: nat, c: char)
    ensures Read(Inside(depth), ['\\', c]) == Running(Inside(depth))
  {
    var escaped := State(depth, true, true);
    ReadStep(escaped, [c], 0);
    ReadStep(Inside(depth), ['\\', c], 0);
    assert ['\\', c][1..] == [c] && ['\\', c][0..] == ['\\', c] && [c][0..] == [c] && [c][1..] == "";
  }

  lemma {:induction false} HexStaysInside(depth: nat, hex: string)
    requires forall i | 0 <= i < |hex| :: IsHex(hex[i])
    ensures Read(Inside(depth), hex) == Running(Inside(depth))
  {
    if hex != "" {
      assert IsHex(hex[0]);
      HexStaysInside(depth, hex[1..]);
    }
  }

  /** A string passes whatever it holds: braces and escaped quotes inside it never count. */
  lemma StringPasses(depth: nat, cs: seq<StringChar>)
    ensures Passes(depth, PrintString(cs))
  {
    CharsStayInside(depth, cs);
    ReadConcat(Outside(depth), "\"", PrintChars(cs));
    ReadConcat(Outside(depth), "\"" + PrintChars(cs), "\"");
  }

  lemma PassesBetween(depth: nat, a: string, b: string, c: string)
    requires Passes(depth, a) && Passes(depth, b) && Passes(depth, c)
    ensures Passes(depth, a + b + c)
  {
    PassesConcat(depth, a, b);
    PassesConcat(depth, a + b, c);
  }

  lemma OpeningBrace(depth: nat)
    ensures Read(Outside(depth), "{") == Running(Outside(depth + 1))
  {
    assert "{"[1..] == "";
  }

  lemma ClosingBrace(depth: nat)
    ensures Read(Outside(depth + 1), "}") == if depth == 0 then Stopped(1) else Running(Outside(depth))
  {
    assert "}"[1..] == "";
  }

  lemma ReadThrough(s: State, a: string, t: State, b: string)
    requires Read(s, a) == Running(t)
    ensures Read(s, a + b) == Shift(Read(t, b), |a|)
  {
    ReadConcat(s, a, b);
  }

  /** Braces around a text that passes one level deeper: the closing one ends the scan exactly at the top level. */
  lemma BracesPass(depth: nat, body: string)
    requires Passes(depth + 1, body)
    ensures Read(Outside(depth), "{" + body + "}")
         == if depth == 0 then Stopped(|body| + 2) else Running(Outside(depth))
  {
    OpeningBrace(depth);
    ClosingBrace(depth);
    var front := "{" + body;
    assert Read(Outside(depth), front) == Running(Outside(depth + 1)) by {
      ReadThrough(Outside(depth), "{", Outside(depth + 1), body);
    }
    ReadThrough(Outside(depth), front, Outside(depth + 1), "}");
  }

  /** Inside an object, every value leaves the depth as it was and never ends the scan. */
  lemma {:induction false} ValuePasses(depth: nat, v: Value)
    requires depth >= 1
    ensures Passes(depth, Print(v))
    decreases v, 2, 0
  {
    match v
    case String(chars) => StringPasses(depth, chars);
    case Array(_, _) => ArrayPasses(depth, v);
    case Object(_, _) =>
      BodyPasses(depth + 1, v);
      BracesPass(depth, Body(v));
    case _ => WordPasses(depth, v);
  }

  lemma WordPasses(depth: nat, v: Value)
    requires v.True? || v.False? || v.Null? || v.Number?
    ensures Passes(depth, Print(v))
  {
    WordIsQuiet(v);
    QuietPasses(depth, Print(v));
  }

  lemma WordIsQuiet(v: Value)
    requires v.True? || v.False? || v.Null? || v.Number?
    ensures Quiet(Print(v))
  {
    match v
    case True => assert Quiet("true");
    case False => assert Quiet("false");
    case Null => assert Quiet("null");
    case Number(text) => NumberIsQuiet(text);
  }

  lemma NumberIsQuiet(text: NumberText)
    ensures Quiet(text)
  {
  }

  lemma {:induction false} ArrayPasses(depth: nat, v: Value)
    requires depth >= 1 && v.Array?
    ensures Passes(depth, Print(v))
    decreases v, 1, 0
  {
    QuietPasses(depth, "[");
    QuietPasses(depth, "]");
    if v.elements == [] {
      QuietPasses(depth, v.inside);
      PassesBetween(depth, "[", v.inside, "]");
    } else {
      ElementsPass(depth, v, |v.elements|);
      PassesBetween(depth, "[", PrintElements(v, |v.elements|), "]");
    }
  }

  lemma {:induction false} BodyPasses(depth: nat, v: Value)
    requires depth >= 1 && v.Object?
    ensures Passes(depth, Body(v))
    decreases v, 1, 0
  {
    if v.members == [] { QuietPasses(depth, v.inside); } else { MembersPass(depth, v, |v.members|); }
  }

  lemma {:induction false} ElementsPass(depth: nat, v: Value, n: nat)
    requires depth >= 1 && v.Array? && n <= |v.elements|
    ensures Passes(depth, PrintElements(v, n))
    decreases v, 0, n
  {
    if n > 0 {
      var comma := if n > 1 then "," else "";
      ElementsPass(depth, v, n - 1);
      QuietPasses(depth, comma);
      ElementPasses(depth, v.elements[n - 1]);
      PassesBetween(depth, PrintElements(v, n - 1), comma, PrintElement(v.elements[n - 1]));
    }
  }

  lemma {:induction false} ElementPasses(depth: nat, e: Element)
    requires depth >= 1
    ensures Passes(depth, PrintElement(e))
    decreases e, 3, 0
  {
    QuietPasses(depth, e.before);
    ValuePasses(depth, e.value);
    QuietPasses(depth, e.after);
    PassesBetween(depth, e.before, Print(e.value), e.after);
  }

  lemma {:induction false} MembersPass(depth: nat, v: Value, n: nat)
    requires depth >= 1 && v.Object? && n <= |v.members|
    ensures Passes(depth, PrintMembers(v, n))
    decreases v, 0, n
  {
    if n > 0 {
      var comma := if n > 1 then "," else "";
      MembersPass(depth, v, n - 1);
      QuietPasses(depth, comma);
      MemberPasses(depth, v.members[n - 1]);
      PassesBetween(depth, PrintMembers(v, n - 1), comma, PrintMember(v.members[n - 1]));
    }
  }

  lemma {:induction false} MemberPasses(depth: nat, m: Member)
    requires depth >= 1
    ensures Passes(depth, PrintMember(m))
    decreases m, 3, 0
  {
    MemberNamePasses(depth, m);
    assert Passes(depth, m.beforeValue + Print(m.value) + m.after) by {
      QuietPasses(depth, m.beforeValue);
      ValuePasses(depth, m.value);
      QuietPasses(depth, m.after);
      PassesBetween(depth, m.beforeValue, Print(m.value), m.after);
    }
    QuietPasses(depth, ":");
    PassesBetween(depth, m.before + PrintString(m.name) + m.afterName, ":", m.beforeValue + Print(m.value) + m.after);
  }

  lemma MemberNamePasses(depth: nat, m: Member)
    ensures Passes(depth, m.before + PrintString(m.name) + m.afterName)
  {
    QuietPasses(depth, m.before);
    StringPasses(depth, m.name);
    QuietPasses(depth, m.afterName);
    PassesBetween(depth, m.before, PrintString(m.name), m.afterName);
  }

  /** From outside everything, an object text is read to its last brace and no further. */
  lemma ObjectIsReadWhole(v: Value, after: string)
    requires v.Object?
    ensures Read(Outside(0), Print(v) + after) == Stopped(|Print(v)|)
  {
    BodyPasses(1, v);
    BracesPass(0, Body(v));
    ReadConcat(Outside(0), Print(v), after);
  }

  /** An object text after the first marker, with no earlier brace, is cut out exactly, whatever follows it. */
  lemma ObjectIsCutOut(before: string, between: string, marker: string, v: Value, after: string)
    requires v.Object? && '{' !in between && marker <= between
    requires Find(before + between + Print(v) + after, marker) == Some(|before|)
    ensures ObjectAfter(before + between + Print(v) + after, marker) == Some(Print(v))
  {
    var text := before + between + Print(v) + after;
    var rest := between + (Print(v) + after);
    assert text[|before|..] == rest;
    FirstBrace(between, Print(v) + after);
    assert rest[|between|..] == Print(v) + after;
    assert ObjectAtFront(Print(v) + after) == Some(Print(v)) by {
      ObjectIsReadWhole(v, after);
      assert (Print(v) + after)[..|Print(v)|] == Print(v);
    }
    CutAt(text, marker, |before|, |between|);
  }

  lemma CutAt(text: string, marker: string, pos: nat, open: nat)
    requires pos <= |text| && Find(text, marker) == Some(pos)
    requires open <= |text[pos..]| && Find(text[pos..], "{") == Some(open)
    ensures ObjectAfter(text, marker) == ObjectAtFront(text[pos..][open..])
  {
  }

  /** A backslash escapes outside strings too, and single quotes open none. */
  lemma NotOnlyJson()
    ensures Read(Outside(0), "{\\}}") == Stopped(4)
    ensures Read(Outside(0), "{'}'}") == Stopped(3)
  {
    assert "{\\}}"[1..] == "\\}}" && "\\}}"[1..] == "}}" && "}}"[1..] == "}";
    assert "{'}'}"[1..] == "'}'}" && "'}'}"[1..] == "}'}";
    var open, escaped := State(1, false, false), State(1, false, true);
    assert Next(Outside(0), '{') == open && Next(open, '\\') == escaped && Next(escaped, '}') == open;
    assert Read(open, "}") == Stopped(1);
    assert Read(escaped, "}}") == Stopped(2);
    assert Read(open, "\\}}") == Stopped(3);
    assert Next(open, '\'') == open && Read(open, "}'}") == Stopped(1);
    assert Read(open, "'}'}") == Stopped(2);
  }

  /** A text that stops is stopped by the same character whatever follows. */
  lemma {:induction false} StopsEarly(s: State, text: string, after: string)
    requires Read(s, text).Stopped?
    ensures Read(s, text + after) == Read(s, text)
    decreases text
  {
    assert (text + after)[1..] == text[1..] + after && (text + after)[0] == text[0];
    if !Ends(s, text[0]) { StopsEarly(Next(s, text[0]), text[1..], after); }
  }

  /** An object text that breaks off, wherever it does, is not taken for an object. */
  lemma BrokenOffIsNone(before: string, between: string, marker: string, v: Value, n: nat)
    requires v.Object? && n < |Print(v)| && '{' !in between && marker <= between
    requires Find(before + between + Print(v)[..n], marker) == Some(|before|)
    ensures ObjectAfter(before + between + Print(v)[..n], marker) == None
  {
    var part := Print(v)[..n];
    var text := before + between + part;
    assert text[|before|..] == between + part;
    assert part + Print(v)[n..] == Print(v);
    if Read(Outside(0), part).Stopped? {
      assert Print(v) + "" == Print(v);
      StopsEarly(Outside(0), part, Print(v)[n..]);
      ObjectIsReadWhole(v, "");
    }
    if n == 0 {
      assert between + part == between;
      NoBrace(between);
    } else {
      assert part[0] == '{';
      FirstBrace(between, part);
      assert (between + part)[|between|..] == part;
    }
  }

  lemma {:induction false} NoBrace(between: string)
    requires '{' !in between
    ensures Find(between, "{") == None
  {
    assert "{"[0] == '{';
    if between != "" {
      assert between[0] in between;
      NoBrace(between[1..]);
    }
  }

  /** What is cut out stands behind the first marker, begins at the first brace there and ends in a brace. */
  lemma CutOutIsObject(text: string, marker: string)
    requires ObjectAfter(text, marker).Some?
    ensures Find(text, marker).Some?
    ensures var found, rest := ObjectAfter(text, marker).value, text[Find(text, marker).value..];
            && Find(rest, "{").Some? && found <= rest[Find(rest, "{").value..]
            && found != "" && found[0] == '{' && found[|found| - 1] == '}'
  {
    var rest := text[Find(text, marker).value..];
    var at := Find(rest, "{").value;
    assert rest[at..at + 1][0] == '{';
    FrontIsObject(rest[at..]);
  }

  lemma FrontIsObject(tail: string)
    requires tail != "" && tail[0] == '{' && ObjectAtFront(tail).Some?
    ensures var found := ObjectAtFront(tail).value;
            found <= tail && found != "" && found[0] == '{' && found[|found| - 1] == '}'
  {
    EndsInBrace(State(0, false, false), tail);
  }

  lemma {:induction false} EndsInBrace(s: State, text: string)
    requires Read(s, text).Stopped?
    ensures text[Read(s, text).length - 1] == '}'
    decreases text
  {
    if !Ends(s, text[0]) { EndsInBrace(Next(s, text[0]), text[1..]); }
  }

  lemma FirstBrace(between: string, tail: string)
    requires '{' !in between && tail != "" && tail[0] == '{'
    ensures Find(between + tail, "{") == Some(|between|)
  {
    var text := between + tail;
    assert text[|between|..] == tail;
    assert "{" <= tail;
    assert forall i | 0 <= i < |between| :: text[i] == between[i] && text[i] != '{';
  }
}
