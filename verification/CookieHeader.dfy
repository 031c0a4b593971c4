/**
 Reading and normalising a cookie header (`_ck_dict`, `_norm_ck` of the X spider):
 a text of key=value pieces becomes a dictionary, and a dictionary is printed with only
 the kept keys, in a fixed order.
 */
module CookieHeader {
  import opened Options
  import opened Text

  const KEEP: seq<string> := ["auth_token", "ct0", "twid", "lang"]
  const LANG := "lang"
  const DEFAULT_LANG := "zh-cn"

  type Cookies = map<string, string>

  // ----- reading -----

  function WithoutBreaks(s: string): (r: string)
    ensures forall i | 0 <= i < |r| :: r[i] != '\r' && r[i] != '\n'
    ensures (forall i | 0 <= i < |s| :: s[i] != '\r' && s[i] != '\n') ==> r == s
  {
    if s == "" then ""
    else if s[0] == '\r' || s[0] == '\n' then WithoutBreaks(s[1..])
    else [s[0]] + WithoutBreaks(s[1..])
  }

  /** The key and value of a piece; nothing without `=`, key or value. */
  function ParsePiece(piece: string): Option<(string, string)> {
    ParseStripped(Strip(piece))
  }

  function ParseStripped(p: string): Option<(string, string)> {
    if '=' !in p then None
    else
      var i := IndexOf(p, '=');
      var k, v := Strip(p[..i]), Strip(p[i + 1..]);
      if k != "" && v != "" then Some((k, v)) else None
  }

  function AddPiece(d: Cookies, piece: string): Cookies {
    match ParsePiece(piece)
    case None => d
    case Some((k, v)) => d[k := v]
  }

  function AddPieces(d: Cookies, pieces: seq<string>): Cookies {
    if pieces == [] then d else AddPiece(AddPieces(d, pieces[..|pieces| - 1]), pieces[|pieces| - 1])
  }

  function Parse(header: string): Cookies {
    AddPieces(map[], SplitOn(WithoutBreaks(header), ';'))
  }

  /** `_ck_dict`. */
  method ReadCookies(header: string) returns (d: Cookies)
    ensures d == Parse(header)
  {
    d := ReadPieces(SplitOn(WithoutBreaks(header), ';'));
  }

  /** The loop over the pieces. */
  method ReadPieces(pieces: seq<string>) returns (d: Cookies)
    ensures d == AddPieces(map[], pieces)
  {
    d := map[];
    for n := 0 to |pieces|
      invariant d == AddPieces(map[], pieces[..n])
    {
      AddLast(map[], pieces[..n], pieces[n]);
      assert pieces[..n] + [pieces[n]] == pieces[..n + 1];
      var read := ParsePiece(pieces[n]);
      if read.Some? {
        d := d[read.value.0 := read.value.1];
      }
    }
    assert pieces[..|pieces|] == pieces;
  }

  // ----- printing -----

  function Pair(k: string, v: string): string {
    k + "=" + v
  }

  /** The printed pairs of the first `n` kept keys. */
  function Printed(d: Cookies, n: nat): seq<string>
    requires n <= |KEEP|
  {
    if n == 0 then []
    else
      var k := KEEP[n - 1];
      Printed(d, n - 1) + if k in d && d[k] != "" then [Pair(k, d[k])] else []
  }

  function Render(d: Cookies): string {
    Join(Printed(d, |KEEP|), "; ")
  }

  // ----- normalising -----

  /** Characters whose lower case is the given letter: the Kelvin sign is a second capital K. */
  predicate LowersTo(c: char, lower: char) {
    LowerChar(c) == lower || (lower == 'k' && c == '\U{212A}')
  }

  predicate HasCookiePrefix(s: string) {
    |s| >= 7 && forall i | 0 <= i < 7 :: LowersTo(s[i], "cookie:"[i])
  }

  function Body(header: string): string {
    var s := Strip(header);
    if HasCookiePrefix(s) then Strip(s[7..]) else s
  }

  function WithLang(d: Cookies): Cookies {
    if d != map[] && LANG !in d then d[LANG := DEFAULT_LANG] else d
  }

  /** `_norm_ck`. */
  function Normalize(header: string): string {
    Render(WithLang(Parse(Body(header))))
  }

  function KeptOnly(d: Cookies): Cookies {
    map k | k in d && k in KEEP :: d[k]
  }

  // ----- what reading means -----

  predicate Names(piece: string, k: string) {
    ParsePiece(piece).Some? && ParsePiece(piece).value.0 == k
  }

  /** What one piece does to one key. */
  lemma PieceEffect(pieces: seq<string>, k: string)
    requires pieces != []
    ensures var d, last := AddPieces(map[], pieces), pieces[|pieces| - 1];
            var before := AddPieces(map[], pieces[..|pieces| - 1]);
            if Names(last, k) then k in d && ParsePiece(last) == Some((k, d[k]))
            else (k in d <==> k in before) && (k in d ==> d[k] == before[k])
  {
    var read := ParsePiece(pieces[|pieces| - 1]);
  }

  /** The last piece that names a key. */
  function LastNaming(pieces: seq<string>, k: string): (n: Option<nat>)
    ensures n.Some? ==> n.value < |pieces| && Names(pieces[n.value], k)
  {
    if pieces == [] then None
    else if Names(pieces[|pieces| - 1], k) then Some(|pieces| - 1)
    else LastNaming(pieces[..|pieces| - 1], k)
  }

  lemma {:induction false} NoLaterNaming(pieces: seq<string>, k: string, m: nat)
    requires m < |pieces| && (LastNaming(pieces, k).Some? ==> LastNaming(pieces, k).value < m)
    ensures !Names(pieces[m], k)
  {
    if m < |pieces| - 1 {
      NoLaterNaming(pieces[..|pieces| - 1], k, m);
    }
  }

  /** A key is read exactly if some piece names it, and then with the value of the last such piece. */
  lemma {:induction false} LastPieceWins(pieces: seq<string>, k: string)
    ensures var d, n := AddPieces(map[], pieces), LastNaming(pieces, k);
            (k in d <==> n.Some?) && (n.Some? ==> ParsePiece(pieces[n.value]) == Some((k, d[k])))
    decreases |pieces|
  {
    if pieces != [] {
      PieceEffect(pieces, k);
      LastPieceWins(pieces[..|pieces| - 1], k);
    }
  }

  /** A piece is cut at its first `=`, and its key and value are trimmed; the value may hold further `=`. */
  lemma PieceCutsAtFirstEquals(k: string, v: string)
    requires '=' !in k
    ensures ParsePiece(k + ['='] + v)
         == if Strip(k) != "" && Strip(v) != "" then Some((Strip(k), Strip(v))) else None
  {
    var left, right := StripLeft(k), StripRight(v);
    StripAround(k, '=', v);
    var p := left + ['='] + right;
    assert '=' !in left;
    IndexOfInMiddle(left, '=', right);
    assert p[|left|] == '=' && '=' in p;
    assert p[..|left|] == left && p[|left| + 1..] == right;
    StripStripped(k);
    StripStripped(v);
  }

  /** A leading `Cookie:`, in whatever case, is dropped with the blanks around it. */
  lemma CookiePrefixDropped(word: string, rest: string)
    requires |word| == 6 && forall i | 0 <= i < 6 :: LowersTo(word[i], "cookie:"[i])
    ensures Body(word + [':'] + rest) == Strip(rest)
  {
    var tail := StripRight(rest);
    assert Strip(word + [':'] + rest) == word + [':'] + tail by {
      assert LowersTo(word[0], 'c');
      assert StripLeft(word) == word;
      StripAround(word, ':', rest);
    }
    PrefixStands(word, tail);
    StripStripped(rest);
  }

  lemma PrefixStands(word: string, tail: string)
    requires |word| == 6 && forall i | 0 <= i < 6 :: LowersTo(word[i], "cookie:"[i])
    ensures HasCookiePrefix(word + [':'] + tail) && (word + [':'] + tail)[7..] == tail
  {
    var s := word + [':'] + tail;
    assert forall i | 0 <= i < 6 :: s[i] == word[i];
    assert s[6] == ':' == "cookie:"[6];
  }

  /** The word is recognised in capitals, small letters or a mixture of them. */
  lemma CookieWordDropped(word: string, rest: string)
    requires |word| == 6 && forall i | 0 <= i < 6 :: word[i] == "cookie"[i] || word[i] == "COOKIE"[i]
    ensures Body(word + [':'] + rest) == Strip(rest)
  {
    forall i | 0 <= i < 6 ensures LowersTo(word[i], "cookie:"[i]) {
      assert "cookie:"[i] == "cookie"[i];
    }
    CookiePrefixDropped(word, rest);
  }

  /** A header that begins with another letter is only trimmed. */
  lemma OtherStartKept(header: string)
    requires Strip(header) != "" && Strip(header)[0] != 'c' && Strip(header)[0] != 'C'
    ensures Body(header) == Strip(header)
  {
  }

  /** Line breaks are taken out wherever they are. */
  lemma {:induction false} BreaksTakenOut(a: string, c: char, b: string)
    ensures WithoutBreaks(a + [c] + b)
         == WithoutBreaks(a) + (if c == '\r' || c == '\n' then "" else [c]) + WithoutBreaks(b)
  {
    if a == "" {
      assert ("" + [c] + b)[1..] == b && "" + [c] + b == [c] + b;
    } else {
      assert (a + [c] + b)[1..] == a[1..] + [c] + b;
      BreaksTakenOut(a[1..], c, b);
    }
  }

  /** The four keys that are kept, in the order in which they are printed. */
  lemma AllFourPrinted(d: Cookies)
    requires d.Keys == {"auth_token", "ct0", "twid", "lang"} && forall k | k in d :: d[k] != ""
    ensures Render(d)
         == "auth_token=" + d["auth_token"] + "; ct0=" + d["ct0"] + "; twid=" + d["twid"] + "; lang=" + d["lang"]
  {
    var a, b := Pair("auth_token", d["auth_token"]), Pair("ct0", d["ct0"]);
    var c, e := Pair("twid", d["twid"]), Pair("lang", d["lang"]);
    assert Printed(d, 0) == [] && Printed(d, 1) == [a];
    assert Printed(d, 2) == [a, b];
    assert Printed(d, 3) == [a, b, c];
    assert Printed(d, 4) == [a, b, c, e];
    JoinFour(a, b, c, e);
  }

  lemma JoinFour(a: string, b: string, c: string, e: string)
    ensures Join([a, b, c, e], "; ") == a + "; " + b + "; " + c + "; " + e
  {
    assert [a, b, c, e][1..] == [b, c, e] && [b, c, e][1..] == [c, e] && [c, e][1..] == [e];
    assert Join([c, e], "; ") == c + "; " + e;
    assert Join([b, c, e], "; ") == b + "; " + (c + "; " + e);
  }

  /** A header with cookies but no language gets `zh-cn`; one without cookies stays without. */
  lemma LanguageAdded(header: string)
    ensures var d, read := Parse(Body(header)), Parse(Normalize(header));
            && (d == map[] ==> read == map[])
            && (d != map[] && "lang" !in d ==> "lang" in read && read["lang"] == "zh-cn")
            && (forall k | k in read && k != "lang" :: k in d && read[k] == d[k])
            && (forall k | k in d && k in {"auth_token", "ct0", "twid", "lang"} :: k in read && read[k] == d[k])
            && (forall k | k in read :: k in {"auth_token", "ct0", "twid", "lang"})
  {
    NormalizedParses(header);
    KeptNames();
  }

  lemma KeptNames()
    ensures forall k :: k in KEEP <==> k in {"auth_token", "ct0", "twid", "lang"}
  {
    assert KEEP[0] == "auth_token" && KEEP[1] == "ct0" && KEEP[2] == "twid" && KEEP[3] == "lang";
  }

  // ----- what can be printed and read back -----

  predicate Clean(v: string) {
    v != "" && Trimmed(v) && forall i | 0 <= i < |v| :: v[i] != ';' && v[i] != '\r' && v[i] != '\n'
  }

  predicate AllClean(d: Cookies) {
    forall k | k in d :: Clean(d[k])
  }

  lemma PieceIsClean(piece: string)
    requires forall c | c in piece :: c != ';' && c != '\r' && c != '\n'
    ensures ParsePiece(piece).Some? ==> Clean(ParsePiece(piece).value.1)
  {
    var p := Strip(piece);
    if '=' in p {
      var rest := p[IndexOf(p, '=') + 1..];
      var v := Strip(rest);
      forall i | 0 <= i < |v| ensures v[i] != ';' && v[i] != '\r' && v[i] != '\n' {
        assert v[i] in v && v[i] in rest && v[i] in p && v[i] in piece;
      }
    }
  }

  lemma {:induction false} PiecesAreClean(pieces: seq<string>)
    requires forall n, c | 0 <= n < |pieces| && c in pieces[n] :: c != ';' && c != '\r' && c != '\n'
    ensures AllClean(AddPieces(map[], pieces))
  {
    if pieces != [] {
      PiecesAreClean(pieces[..|pieces| - 1]);
      PieceIsClean(pieces[|pieces| - 1]);
    }
  }

  /** Every value read is non-empty, trimmed, and free of separators and line breaks. */
  lemma ParsedIsClean(header: string)
    ensures AllClean(Parse(header))
  {
    var s := WithoutBreaks(header);
    var pieces := SplitOn(s, ';');
    forall n, c | 0 <= n < |pieces| && c in pieces[n] ensures c != ';' && c != '\r' && c != '\n' {
      SplitPieces(s, ';', n);
    }
    PiecesAreClean(pieces);
  }

  // ----- reading back what was printed -----

  lemma KeptKeys(k: string)
    requires k in KEEP
    ensures |k| >= 3 && Trimmed(k) && '=' !in k && ';' !in k && '\r' !in k && '\n' !in k
    ensures k[0] != 'c' || k[1] == 't'
  {
    assert k == "auth_token" || k == "ct0" || k == "twid" || k == "lang" by {
      var i :| 0 <= i < |KEEP| && KEEP[i] == k;
    }
  }

  /** A printed pair, with or without the blank the join puts before it, is read as its key and value. */
  lemma PairReadsBack(k: string, v: string, blank: string)
    requires k in KEEP && Clean(v) && (blank == "" || blank == " ")
    ensures ParsePiece(blank + Pair(k, v)) == Some((k, v))
  {
    PairIsPlain(k, v);
    StripBlank(blank, Pair(k, v));
    PairSplits(k, v);
  }

  lemma PairSplits(k: string, v: string)
    requires k in KEEP && Clean(v)
    ensures ParseStripped(Pair(k, v)) == Some((k, v))
  {
    var p := Pair(k, v);
    KeptKeys(k);
    assert p == k + ['='] + v;
    assert IndexOf(p, '=') == |k| by { IndexOfInMiddle(k, '=', v); }
    assert p[..|k|] == k && p[|k| + 1..] == v && p[|k|] == '=';
  }

  lemma StripBlank(blank: string, p: string)
    requires p != "" && Trimmed(p) && (blank == "" || blank == " ")
    ensures Strip(blank + p) == p
  {
    if blank == "" {
      assert blank + p == p;
    } else {
      assert (blank + p)[1..] == p;
      assert StripLeft(blank + p) == p;
    }
  }

  lemma PairIsPlain(k: string, v: string)
    requires k in KEEP && Clean(v)
    ensures var p := Pair(k, v);
            && |p| >= 5 && Trimmed(p)
            && (forall i | 0 <= i < |p| :: p[i] != ';' && p[i] != '\r' && p[i] != '\n')
            && !HasCookiePrefixFrom(p)
  {
    KeptKeys(k);
    var p := Pair(k, v);
    forall i | 0 <= i < |p| ensures p[i] != ';' && p[i] != '\r' && p[i] != '\n' {
      if i < |k| { assert p[i] in k; } else if i > |k| { assert p[i] == v[i - |k| - 1]; }
    }
  }

  /** The first two characters could begin `cookie:`. */
  predicate HasCookiePrefixFrom(p: string)
    requires |p| >= 2
  {
    LowersTo(p[0], 'c') && LowersTo(p[1], 'o')
  }

  // ----- the joined text -----

  predicate Plain(entries: seq<string>) {
    forall n | 0 <= n < |entries| ::
      && |entries[n]| >= 5 && Trimmed(entries[n])
      && (forall i | 0 <= i < |entries[n]| :: entries[n][i] != ';' && entries[n][i] != '\r' && entries[n][i] != '\n')
      && !HasCookiePrefixFrom(entries[n])
  }

  lemma {:induction false} PrintedIsPlain(d: Cookies, n: nat)
    requires AllClean(d) && n <= |KEEP|
    ensures Plain(Printed(d, n))
  {
    if n > 0 {
      PrintedIsPlain(d, n - 1);
      if KEEP[n - 1] in d { PairIsPlain(KEEP[n - 1], d[KEEP[n - 1]]); }
    }
  }

  /** The text of a join begins with the first entry, ends with the last, and has no line breaks. */
  lemma {:induction false} JoinedText(entries: seq<string>)
    requires Plain(entries) && entries != []
    ensures var s := Join(entries, "; ");
            && entries[0] <= s && |s| >= 5
            && !IsSpace(s[|s| - 1])
            && (forall i | 0 <= i < |s| :: s[i] != '\r' && s[i] != '\n')
  {
    if |entries| > 1 {
      JoinedText(entries[1..]);
      var s, front, rest := Join(entries, "; "), entries[0] + "; ", Join(entries[1..], "; ");
      assert s == front + rest;
    }
  }

  function Spaced(entries: seq<string>): seq<string> {
    if entries == [] then [] else [" " + entries[0]] + Spaced(entries[1..])
  }

  /** The pieces that reading finds in a join: the first entry bare, the others after a blank. */
  function AsPieces(entries: seq<string>): seq<string> {
    if entries == [] then [""] else [entries[0]] + Spaced(entries[1..])
  }

  lemma {:induction false} JoinSplits(entries: seq<string>)
    requires Plain(entries)
    ensures SplitOn(Join(entries, "; "), ';') == AsPieces(entries)
  {
    if entries == [] {
    } else if |entries| == 1 {
      SplitWhole(entries[0], ';');
    } else {
      var rest := Join(entries[1..], "; ");
      JoinSplits(entries[1..]);
      assert entries[0] + "; " + rest == entries[0] + [';'] + (" " + rest);
      SplitFirst(entries[0], ';', " " + rest);
      assert (" " + rest)[1..] == rest;
    }
  }

  lemma {:induction false} SpacedSnoc(entries: seq<string>, e: string)
    ensures Spaced(entries + [e]) == Spaced(entries) + [" " + e]
  {
    if entries == [] {
      assert [e][1..] == [] && [] + [e] == [e];
    } else {
      SpacedSnoc(entries[1..], e);
      assert (entries + [e])[1..] == entries[1..] + [e];
    }
  }

  lemma AsPiecesSnoc(entries: seq<string>, e: string)
    ensures AsPieces(entries + [e]) == if entries == [] then [e] else AsPieces(entries) + [" " + e]
  {
    if entries == [] {
      assert [] + [e] == [e] && [e][1..] == [];
    } else {
      assert (entries + [e])[1..] == entries[1..] + [e];
      SpacedSnoc(entries[1..], e);
    }
  }

  lemma AddLast(d: Cookies, pieces: seq<string>, piece: string)
    ensures AddPieces(d, pieces + [piece]) == AddPiece(AddPieces(d, pieces), piece)
  {
    assert (pieces + [piece])[..|pieces|] == pieces;
  }

  function KeptUpTo(d: Cookies, n: nat): Cookies
    requires n <= |KEEP|
  {
    if n == 0 then map[]
    else
      var before := KeptUpTo(d, n - 1);
      if KEEP[n - 1] in d then before[KEEP[n - 1] := d[KEEP[n - 1]]] else before
  }

  lemma {:induction false} KeptUpToIs(d: Cookies, n: nat)
    requires n <= |KEEP|
    ensures KeptUpTo(d, n) == map k | k in d && k in KEEP[..n] :: d[k]
  {
    if n > 0 {
      KeptUpToIs(d, n - 1);
      assert KEEP[..n] == KEEP[..n - 1] + [KEEP[n - 1]];
    }
  }

  /** Whatever reads nothing as no cookies and one more pair as one more cookie reads the printed pairs back. */
  lemma {:induction false} ReadsBack(d: Cookies, n: nat, read: seq<string> -> Cookies)
    requires AllClean(d) && n <= |KEEP| && read([]) == map[]
    requires forall before, k | k in KEEP && k in d :: read(before + [Pair(k, d[k])]) == read(before)[k := d[k]]
    ensures read(Printed(d, n)) == KeptUpTo(d, n)
  {
    if n > 0 {
      ReadsBack(d, n - 1, read);
      PrintedStep(d, n, KEEP[n - 1]);
    }
  }

  function ReadEntries(entries: seq<string>): Cookies {
    AddPieces(map[], AsPieces(entries))
  }

  lemma EntryRead(d: Cookies, before: seq<string>, k: string)
    requires AllClean(d) && k in KEEP && k in d
    ensures ReadEntries(before + [Pair(k, d[k])]) == ReadEntries(before)[k := d[k]]
  {
    PieceAdded(before, k, d[k]);
  }

  lemma PiecesReadBack(d: Cookies, n: nat)
    requires AllClean(d) && n <= |KEEP|
    ensures ReadEntries(Printed(d, n)) == KeptUpTo(d, n)
  {
    NothingRead();
    forall before, k | k in KEEP && k in d
      ensures ReadEntries(before + [Pair(k, d[k])]) == ReadEntries(before)[k := d[k]]
    {
      EntryRead(d, before, k);
    }
    ReadsBack(d, n, ReadEntries);
  }

  lemma PrintedStep(d: Cookies, n: nat, k: string)
    requires AllClean(d) && 0 < n <= |KEEP| && k == KEEP[n - 1]
    ensures k in KEEP && (k in d ==> Clean(d[k]))
    ensures Printed(d, n) == if k in d then Printed(d, n - 1) + [Pair(k, d[k])] else Printed(d, n - 1)
    ensures KeptUpTo(d, n) == if k in d then KeptUpTo(d, n - 1)[k := d[k]] else KeptUpTo(d, n - 1)
  {
  }

  /** An empty text is one empty piece. */
  lemma NothingRead()
    ensures AddPieces(map[], AsPieces([])) == map[]
    ensures ReadEntries([]) == map[]
  {
    assert Strip("") == "";
    assert AddPieces(map[], [""]) == AddPiece(map[], "") by { AddOnly(""); }
  }

  lemma AddOnly(piece: string)
    ensures AddPieces(map[], [piece]) == AddPiece(map[], piece)
  {
    assert [piece][..0] == [];
  }

  /** One more printed pair is one more key read. */
  lemma PieceAdded(before: seq<string>, k: string, v: string)
    requires k in KEEP && Clean(v)
    ensures AddPieces(map[], AsPieces(before + [Pair(k, v)])) == AddPieces(map[], AsPieces(before))[k := v]
  {
    var e := Pair(k, v);
    AsPiecesSnoc(before, e);
    if before == [] {
      PairReadsBack(k, v, "");
      assert "" + e == e;
      AddOnly(e);
      NothingRead();
    } else {
      PairReadsBack(k, v, " ");
      AddLast(map[], AsPieces(before), " " + e);
    }
  }

  /** Reading what a clean dictionary prints gives back its kept keys. */
  lemma ParseRender(d: Cookies)
    requires AllClean(d)
    ensures Parse(Render(d)) == KeptOnly(d)
  {
    var entries := Printed(d, |KEEP|);
    PrintedIsPlain(d, |KEEP|);
    if entries != [] { JoinedText(entries); }
    assert WithoutBreaks(Render(d)) == Render(d);
    JoinSplits(entries);
    PiecesReadBack(d, |KEEP|);
    KeptUpToIs(d, |KEEP|);
    assert KEEP[..|KEEP|] == KEEP;
  }

  /** Printed text is already trimmed and never starts like `cookie:`. */
  lemma BodyOfRender(d: Cookies)
    requires AllClean(d)
    ensures Body(Render(d)) == Render(d)
  {
    var s, entries := Render(d), Printed(d, |KEEP|);
    PrintedIsPlain(d, |KEEP|);
    if entries != [] {
      JoinedText(entries);
      assert s[0] == entries[0][0] && s[1] == entries[0][1];
      assert Trimmed(s);
      assert "cookie:"[0] == 'c' && "cookie:"[1] == 'o';
    }
  }

  lemma WithLangIsClean(d: Cookies)
    requires AllClean(d)
    ensures AllClean(WithLang(d))
  {
    assert Clean(DEFAULT_LANG);
  }

  /** Reading a normalised header gives the header's own cookies, the default language added to any, restricted to
      the kept keys. */
  lemma NormalizedParses(header: string)
    ensures Parse(Normalize(header)) == KeptOnly(WithLang(Parse(Body(header))))
  {
    ParsedIsClean(Body(header));
    WithLangIsClean(Parse(Body(header)));
    ParseRender(WithLang(Parse(Body(header))));
  }

  lemma {:induction false} PrintedKept(d: Cookies, n: nat)
    requires n <= |KEEP|
    ensures Printed(KeptOnly(d), n) == Printed(d, n)
  {
    if n > 0 { PrintedKept(d, n - 1); }
  }

  /** Normalising is idempotent. */
  lemma NormalizeIdempotent(header: string)
    ensures Normalize(Normalize(header)) == Normalize(header)
  {
    var d := WithLang(Parse(Body(header)));
    ParsedIsClean(Body(header));
    WithLangIsClean(Parse(Body(header)));
    BodyOfRender(d);
    NormalizedParses(header);
    PrintedKept(d, |KEEP|);
    assert WithLang(KeptOnly(d)) == KeptOnly(d) by {
      assert LANG == KEEP[3];
      if d != map[] { assert LANG in d && LANG in KeptOnly(d); }
    }
  }
}
