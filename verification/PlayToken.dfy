/**
 The play list `detailContent` prints and the token `playerContent` reads back (YouTube spider):
 entries joined by `$$$`, each a title, `$`, a video id, `@` and a quality.
 */
module PlayToken {
  import opened Options
  import opened Text
  import T = Tracks

  // ----- printing -----

  const UNSAFE := "#$@%&!?*|\\/:<>"

  function Blanked(title: string): (r: string)
    ensures |r| == |title| && forall i | 0 <= i < |r| :: r[i] !in UNSAFE
  {
    if title == "" then ""
    else [if title[0] in UNSAFE then ' ' else title[0]] + Blanked(title[1..])
  }

  /** `_safe_title`. */
  function SafeTitle(title: string): (r: string)
    ensures '$' !in r && '@' !in r && |r| <= 60
  {
    if title == "" then "video"
    else
      var blank := Blanked(title);
      if |blank| <= 60 then blank else blank[..60]
  }

  function SourceName(track: T.Track): (name: string)
    requires track.name == T.ClassName(track.isHdr)
    ensures '$' !in name
  {
    if track.format.height != 0 then
      NoDollarInNumber(track.format.height);
      DecimalInt(track.format.height) + "p " + track.name
    else track.name
  }

  lemma NoDollarInNumber(n: int)
    ensures '$' !in DecimalInt(n)
  {
    var digits := if n < 0 then Decimal(-n) else Decimal(n);
    forall i | 0 <= i < |DecimalInt(n)| ensures DecimalInt(n)[i] != '$' {
      assert forall k | 0 <= k < |digits| :: IsDigit(digits[k]);
    }
  }

  function QualityOf(hdr: bool): string {
    if hdr then "hdr" else "best"
  }

  function Token(videoId: string, hdr: bool): string {
    videoId + "@" + QualityOf(hdr)
  }

  function Entry(title: string, name: string, videoId: string, hdr: bool): string {
    SafeTitle(title) + " " + name + ['$'] + Token(videoId, hdr)
  }

  /** The tracks of a video, or nothing when the page could not be read. */
  type Extract = string -> Option<seq<T.Format>>

  function TracksOf(extract: Extract, videoId: string): seq<T.Track> {
    match extract(videoId)
    case None => []
    case Some(formats) => T.ChooseTracks(formats, "best")
  }

  lemma TrackNames(extract: Extract, videoId: string)
    ensures var tracks := TracksOf(extract, videoId);
            && |tracks| <= 2
            && (forall t | t in tracks :: t.name == T.ClassName(t.isHdr))
            && (|tracks| == 2 ==> !tracks[0].isHdr && tracks[1].isHdr)
  {
    match extract(videoId)
    case None =>
    case Some(formats) => T.TracksAreBest(formats, "best");
  }

  /** The entries of the play list; SDR and HDR by name alone when there are no tracks. */
  function Entries(extract: Extract, title: string, videoId: string): seq<string> {
    var tracks := TracksOf(extract, videoId);
    if tracks == [] then [Entry(title, "SDR", videoId, false), Entry(title, "HDR", videoId, true)]
    else
      TrackNames(extract, videoId);
      seq(|tracks|, i requires 0 <= i < |tracks| =>
        Entry(title, SourceName(tracks[i]), videoId, tracks[i].isHdr))
  }

  /** Each unsafe character becomes a blank and sixty characters are kept; without a title it is `video`. */
  lemma SafeTitleIs(title: string)
    ensures title == "" ==> SafeTitle(title) == "video"
    ensures title != "" ==> |SafeTitle(title)| == if |title| <= 60 then |title| else 60
    ensures title != "" ==>
              forall i | 0 <= i < |SafeTitle(title)| ::
                SafeTitle(title)[i] == if title[i] in "#$@%&!?*|\\/:<>" then ' ' else title[i]
  {
    BlankedAt(title);
  }

  lemma {:induction false} BlankedAt(title: string)
    ensures |Blanked(title)| == |title|
    ensures forall i | 0 <= i < |title| :: Blanked(title)[i] == if title[i] in UNSAFE then ' ' else title[i]
  {
    if title != "" { BlankedAt(title[1..]); }
  }

  /** How an entry looks. */
  lemma EntryExample()
    ensures Entry("A$B", "1080p SDR", "id", false) == "A B 1080p SDR$id@best"
  {
    TitleExample();
  }

  /** A source is named by its height, when it is known, and its class. */
  lemma NameExamples(f: T.Format)
    ensures f.height == 1080 ==> SourceName(T.Track(f, "SDR", false)) == "1080p SDR"
    ensures f.height == 0 ==> SourceName(T.Track(f, "HDR", true)) == "HDR"
  {
    NumberExample();
  }

  lemma TitleExample()
    ensures SafeTitle("A$B") == "A B"
  {
    assert "A$B"[1..] == "$B" && "$B"[1..] == "B" && "B"[1..] == "";
    assert Blanked("B") == "B" && Blanked("$B") == " B" && Blanked("A$B") == "A B";
  }

  lemma NumberExample()
    ensures DecimalInt(1080) == "1080"
  {
    assert Decimal(1) == "1" && Decimal(10) == "10" && Decimal(108) == "108" && Decimal(1080) == "1080";
  }

  /** One entry for every track, in their order; without tracks one for each class. */
  lemma EntriesAre(extract: Extract, title: string, videoId: string)
    ensures var tracks, entries := TracksOf(extract, videoId), Entries(extract, title, videoId);
            && (tracks == [] ==> entries == [Entry(title, "SDR", videoId, false), Entry(title, "HDR", videoId, true)])
            && (tracks != [] ==> |entries| == |tracks|)
            && (extract(videoId).None? ==> tracks == [])
            && (extract(videoId).Some? ==> tracks == T.ChooseTracks(extract(videoId).value, "best"))
  {
    TrackNames(extract, videoId);
  }

  const SEPARATOR := "$$$"

  function PlayUrl(extract: Extract, title: string, videoId: string): string {
    Join(Entries(extract, title, videoId), SEPARATOR)
  }

  // ----- splitting the list -----

  /** `split('$$$')`. */
  function SplitEntries(s: string): (parts: seq<string>)
    ensures parts != []
  {
    if s == "" then [""]
    else if SEPARATOR <= s then [""] + SplitEntries(s[3..])
    else
      var parts := SplitEntries(s[1..]);
      [[s[0]] + parts[0]] + parts[1..]
  }

  /** The text holds the separator. */
  predicate HoldsSeparator(s: string) {
    Contains(s, SEPARATOR)
  }

  /** No separator inside, and none can begin at the end. */
  predicate Separable(e: string) {
    !HoldsSeparator(e) && (e != "" ==> e[|e| - 1] != '$')
  }

  lemma SeparatorChars(s: string)
    ensures SEPARATOR <= s <==> |s| >= 3 && s[0] == s[1] == s[2] == '$'
  {
    assert |SEPARATOR| == 3 && SEPARATOR[0] == SEPARATOR[1] == SEPARATOR[2] == '$';
  }

  lemma NoSeparatorAtFront(e: string, rest: string)
    requires Separable(e) && e != ""
    ensures !(SEPARATOR <= e + rest)
  {
    SeparatorChars(e);
    SeparatorChars(e + rest);
    assert forall i | 0 <= i < |e| :: (e + rest)[i] == e[i];
  }

  lemma SeparableTail(e: string)
    requires Separable(e) && e != ""
    ensures Separable(e[1..])
  {
  }

  lemma {:induction false} SplitAtSeparator(e: string, rest: string)
    requires Separable(e)
    ensures SplitEntries(e + (SEPARATOR + rest)) == [e] + SplitEntries(rest)
  {
    var s := e + (SEPARATOR + rest);
    if e == "" {
      assert s == SEPARATOR + rest && s[3..] == rest;
    } else {
      assert s[1..] == e[1..] + (SEPARATOR + rest);
      NoSeparatorAtFront(e, SEPARATOR + rest);
      SeparableTail(e);
      SplitAtSeparator(e[1..], rest);
      assert [e[0]] + e[1..] == e;
    }
  }

  lemma {:induction false} SplitLast(e: string)
    requires !HoldsSeparator(e)
    ensures SplitEntries(e) == [e]
  {
    if e != "" {
      SplitLast(e[1..]);
      assert [e[0]] + e[1..] == e;
    }
  }

  lemma {:induction false} SplitJoined(entries: seq<string>)
    requires entries != [] && forall i | 0 <= i < |entries| :: Separable(entries[i])
    ensures SplitEntries(Join(entries, SEPARATOR)) == entries
  {
    if |entries| == 1 {
      SplitLast(entries[0]);
    } else {
      SplitJoined(entries[1..]);
      var rest := Join(entries[1..], SEPARATOR);
      assert entries[0] + SEPARATOR + rest == entries[0] + (SEPARATOR + rest);
      SplitAtSeparator(entries[0], rest);
      assert [entries[0]] + entries[1..] == entries;
    }
  }

  /** The pieces of a split hold no separator, and the first is the front of the text. */
  lemma {:induction false} PiecesHoldNone(s: string, k: nat)
    requires k < |SplitEntries(s)|
    ensures !HoldsSeparator(SplitEntries(s)[k])
    ensures SplitEntries(s)[0] <= s
  {
    if s == "" {
    } else if SEPARATOR <= s {
      if k > 0 { PiecesHoldNone(s[3..], k - 1); }
    } else {
      var parts := SplitEntries(s[1..]);
      PiecesHoldNone(s[1..], k);
      var first := [s[0]] + parts[0];
      assert first <= s && first[1..] == parts[0];
      if k == 0 {
        assert !(SEPARATOR <= first);
      }
    }
  }

  lemma {:induction false} HoldsAfterFree(front: string, rest: string)
    requires '$' !in front
    ensures HoldsSeparator(front + rest) <==> HoldsSeparator(rest)
  {
    if front == "" {
      assert front + rest == rest;
    } else {
      SeparatorChars(front + rest);
      assert (front + rest)[1..] == front[1..] + rest && (front + rest)[0] == front[0] != '$';
      HoldsAfterFree(front[1..], rest);
    }
  }

  lemma {:induction false} HoldsBeforeFree(rest: string, end: string)
    requires '$' !in end && end != ""
    ensures HoldsSeparator(rest + end) <==> HoldsSeparator(rest)
  {
    if rest == "" {
      assert rest + end == "" + end + "";
      HoldsAfterFree(end, "");
      assert end + "" == end == rest + end;
    } else {
      SeparatorChars(rest + end);
      SeparatorChars(rest);
      assert (rest + end)[1..] == rest[1..] + end;
      assert forall i | 0 <= i < |end| :: (rest + end)[|rest| + i] == end[i];
      HoldsBeforeFree(rest[1..], end);
    }
  }

  /** An entry holds the separator exactly if its `$` and the video id together do, and never ends in `$`. */
  lemma EntryHoldsIff(title: string, name: string, videoId: string, hdr: bool)
    requires '$' !in name
    ensures var e := Entry(title, name, videoId, hdr);
            (HoldsSeparator(e) <==> HoldsSeparator("$" + videoId)) && e != "" && e[|e| - 1] != '$'
  {
    var front, end := SafeTitle(title) + " " + name, "@" + QualityOf(hdr);
    var e := Entry(title, name, videoId, hdr);
    assert '$' !in front && '$' !in end;
    assert e == front + (("$" + videoId) + end);
    HoldsInside(front, "$" + videoId, end);
    assert e[|e| - 1] == end[|end| - 1];
  }

  lemma HoldsInside(front: string, middle: string, end: string)
    requires '$' !in front && '$' !in end && end != ""
    ensures HoldsSeparator(front + (middle + end)) <==> HoldsSeparator(middle)
  {
    HoldsAfterFree(front, middle + end);
    HoldsBeforeFree(middle, end);
  }

  lemma EntriesHoldIff(extract: Extract, title: string, videoId: string, i: nat)
    requires i < |Entries(extract, title, videoId)|
    ensures var e := Entries(extract, title, videoId)[i];
            (HoldsSeparator(e) <==> HoldsSeparator("$" + videoId)) && e != "" && e[|e| - 1] != '$'
  {
    var tracks := TracksOf(extract, videoId);
    TrackNames(extract, videoId);
    if tracks == [] {
      EntryHoldsIff(title, "SDR", videoId, false);
      EntryHoldsIff(title, "HDR", videoId, true);
    } else {
      EntryHoldsIff(title, SourceName(tracks[i]), videoId, tracks[i].isHdr);
    }
  }

  lemma DollarFreeToken(videoId: string, hdr: bool)
    requires '$' !in videoId
    ensures '$' !in Token(videoId, hdr) && Token(videoId, hdr) != ""
  {
  }

  /** Splitting the printed list gives its entries back exactly if no separator forms at a video id. */
  lemma ListSplitsBackIff(extract: Extract, title: string, videoId: string)
    ensures SplitEntries(PlayUrl(extract, title, videoId)) == Entries(extract, title, videoId)
       <==> !HoldsSeparator("$" + videoId)
  {
    var entries, split := Entries(extract, title, videoId), SplitEntries(PlayUrl(extract, title, videoId));
    TrackNames(extract, videoId);
    assert entries != [];
    if HoldsSeparator("$" + videoId) {
      EntriesHoldIff(extract, title, videoId, 0);
      PiecesHoldNone(PlayUrl(extract, title, videoId), 0);
      assert split[0] != entries[0];
    } else {
      forall i | 0 <= i < |entries| ensures Separable(entries[i]) {
        EntriesHoldIff(extract, title, videoId, i);
      }
      SplitJoined(entries);
    }
  }

  /** The id `$$x` completes a separator, whatever the title and the tracks. */
  lemma DollarsSplitList(extract: Extract, title: string)
    ensures SplitEntries(PlayUrl(extract, title, "$$x")) != Entries(extract, title, "$$x")
  {
    assert "$" + "$$x" == SEPARATOR + "x";
    ListSplitsBackIff(extract, title, "$$x");
  }

  // ----- reading a token -----

  const QUALITIES := ["best", "hdr", "4k", "2k", "1080p"]

  /** The video id and quality `playerContent` reads from what it is given. */
  function ReadToken(pid: string): (string, string) {
    ReadRaw(pid[AfterLast(pid, '$')..])
  }

  /** The bare token, as a framework that cuts at `$` passes it on, reads back exactly if the id holds no `$`. */
  lemma TokenReadsBackIff(videoId: string, hdr: bool)
    ensures ReadToken(Token(videoId, hdr)) == (videoId, QualityOf(hdr)) <==> '$' !in videoId
  {
    var token := Token(videoId, hdr);
    if '$' !in videoId {
      DollarFreeToken(videoId, hdr);
      assert token[AfterLast(token, '$')..] == token;
      RawReadsBack(videoId, hdr);
    } else {
      NothingReadHasDollar(token);
    }
  }

  lemma NothingReadHasDollar(pid: string)
    ensures '$' !in ReadToken(pid).0
  {
    var raw := pid[AfterLast(pid, '$')..];
    assert forall i | 0 <= i < |raw| :: raw[i] != '$';
  }

  /** What stands after the last `$`, split at its last `@`. */
  function ReadRaw(raw: string): (string, string) {
    var at := AfterLast(raw, '@');
    var videoId, quality := if at > 0 then raw[..at - 1] else raw, if at > 0 then raw[at..] else "1080p";
    (videoId, if quality in QUALITIES then quality else "best")
  }

  lemma RawReadsBack(videoId: string, hdr: bool)
    ensures ReadRaw(Token(videoId, hdr)) == (videoId, QualityOf(hdr))
  {
    var token, quality := Token(videoId, hdr), QualityOf(hdr);
    assert token == videoId + ['@'] + quality;
    assert AfterLast(token, '@') == |videoId| + 1 by { AfterLastInMiddle(videoId, '@', quality); }
    assert token[..|videoId|] == videoId && token[|videoId| + 1..] == quality;
    QualityKnown(hdr);
  }

  lemma QualityKnown(hdr: bool)
    ensures QualityOf(hdr) in QUALITIES && (QualityOf(hdr) == "hdr" <==> hdr)
  {
    assert QUALITIES[0] == "best" && QUALITIES[1] == "hdr";
    assert "best"[0] != "hdr"[0];
  }

  /** Without `@` the quality is 1080p, and an unknown one counts as the best. */
  lemma QualityRead(videoId: string, quality: string)
    requires '$' !in videoId && '$' !in quality && '@' !in quality
    ensures '@' !in videoId ==> ReadToken(videoId) == (videoId, "1080p")
    ensures ReadToken(videoId + ['@'] + quality)
         == (videoId, if quality in ["best", "hdr", "4k", "2k", "1080p"] then quality else "best")
  {
    assert videoId[AfterLast(videoId, '$')..] == videoId;
    assert QUALITIES[4] == "1080p";
    var token := videoId + ['@'] + quality;
    assert '$' !in token;
    assert token[AfterLast(token, '$')..] == token;
    AfterLastInMiddle(videoId, '@', quality);
    assert token[..|videoId|] == videoId && token[|videoId| + 1..] == quality;
  }

  /** Without a track of the wanted class the first track is played, and without tracks none. */
  lemma FallsBackToFirst(extract: Extract, pid: string)
    ensures var (videoId, quality) := ReadToken(pid);
            var tracks := TracksOf(extract, videoId);
            && (tracks == [] ==> Played(extract, pid) == None)
            && (tracks != [] && (forall t | t in tracks :: t.isHdr != (quality == "hdr")) ==>
                  Played(extract, pid) == Some(tracks[0]))
  {
    var (videoId, quality) := ReadToken(pid);
    var tracks := TracksOf(extract, videoId);
    TrackNames(extract, videoId);
    if tracks != [] && (forall t | t in tracks :: t.isHdr != (quality == "hdr")) {
      ClassNamesDiffer();
      forall j | 0 <= j < |tracks| ensures tracks[j].name != T.ClassName(quality == "hdr") {
        assert tracks[j] in tracks;
      }
      OfNameNone(T.ClassName(quality == "hdr"), tracks);
    }
  }

  /** A printed entry reads back to its video id and quality exactly if the id holds no `$`. */
  lemma EntryReadsBackIff(title: string, name: string, videoId: string, hdr: bool)
    ensures ReadToken(Entry(title, name, videoId, hdr)) == (videoId, QualityOf(hdr)) <==> '$' !in videoId
  {
    var front, entry := SafeTitle(title) + " " + name, Entry(title, name, videoId, hdr);
    if '$' !in videoId {
      DollarFreeToken(videoId, hdr);
      AfterLastInMiddle(front, '$', Token(videoId, hdr));
      assert entry[|front| + 1..] == Token(videoId, hdr);
      RawReadsBack(videoId, hdr);
    } else {
      NothingReadHasDollar(entry);
    }
  }

  /** For the id `a$b` an entry reads back as the video `b`. */
  lemma DollarIdMisread(title: string, name: string)
    ensures ReadToken(Entry(title, name, "a$b", false)) == ("b", "best")
  {
    var front, token := SafeTitle(title) + " " + name + "$a", Token("b", false);
    assert Entry(title, name, "a$b", false) == front + ['$'] + token;
    DollarFreeToken("b", false);
    AfterLastInMiddle(front, '$', token);
    assert (front + ['$'] + token)[|front| + 1..] == token;
    RawReadsBack("b", false);
  }

  // ----- playing -----

  function OfName(name: string, tracks: seq<T.Track>): seq<T.Track> {
    if tracks == [] then []
    else (if tracks[0].name == name then [tracks[0]] else []) + OfName(name, tracks[1..])
  }

  /** The first track of the wanted name, or else the first of all. */
  function PickFrom(tracks: seq<T.Track>, quality: string): Option<T.Track> {
    var wanted := OfName(if quality == "hdr" then "HDR" else "SDR", tracks);
    if wanted != [] then Some(wanted[0])
    else if tracks != [] then Some(tracks[0])
    else None
  }

  function PickFor(extract: Extract, videoId: string, quality: string): Option<T.Track> {
    PickFrom(TracksOf(extract, videoId), quality)
  }

  /** The track `playerContent` picks. */
  function Played(extract: Extract, pid: string): Option<T.Track> {
    var read := ReadToken(pid);
    PickFor(extract, read.0, read.1)
  }

  lemma {:induction false} OfNameNone(name: string, tracks: seq<T.Track>)
    requires forall j | 0 <= j < |tracks| :: tracks[j].name != name
    ensures OfName(name, tracks) == []
  {
    if tracks != [] { OfNameNone(name, tracks[1..]); }
  }

  lemma {:induction false} OfNamePicks(name: string, tracks: seq<T.Track>, i: nat)
    requires i < |tracks| && tracks[i].name == name
    requires forall j | 0 <= j < |tracks| && j != i :: tracks[j].name != name
    ensures OfName(name, tracks) == [tracks[i]]
  {
    if i == 0 {
      OfNameNone(name, tracks[1..]);
    } else {
      OfNamePicks(name, tracks[1..], i - 1);
    }
  }

  lemma ClassNamesDiffer()
    ensures T.ClassName(true) != T.ClassName(false)
  {
    assert "SDR"[0] != "HDR"[0];
  }

  lemma PicksTrack(tracks: seq<T.Track>, i: nat)
    requires i < |tracks| && forall j | 0 <= j < |tracks| :: tracks[j].name == T.ClassName(tracks[j].isHdr)
    requires forall j | 0 <= j < |tracks| && j != i :: tracks[j].isHdr != tracks[i].isHdr
    ensures PickFrom(tracks, QualityOf(tracks[i].isHdr)) == Some(tracks[i])
  {
    ClassNamesDiffer();
    QualityKnown(tracks[i].isHdr);
    OfNamePicks(tracks[i].name, tracks, i);
  }

  lemma PicksOwnTrack(extract: Extract, videoId: string, i: nat)
    requires i < |TracksOf(extract, videoId)|
    ensures PickFor(extract, videoId, QualityOf(TracksOf(extract, videoId)[i].isHdr))
         == Some(TracksOf(extract, videoId)[i])
  {
    var tracks := TracksOf(extract, videoId);
    TrackNames(extract, videoId);
    forall j | 0 <= j < |tracks| ensures tracks[j].name == T.ClassName(tracks[j].isHdr) {
      assert tracks[j] in tracks;
    }
    PicksTrack(tracks, i);
  }

  /** A quality plays the track of its class: HDR for `hdr`, SDR for any other. */
  lemma PlaysWantedClass(extract: Extract, pid: string, i: nat)
    requires i < |TracksOf(extract, ReadToken(pid).0)|
    requires TracksOf(extract, ReadToken(pid).0)[i].isHdr <==> ReadToken(pid).1 == "hdr"
    ensures Played(extract, pid) == Some(TracksOf(extract, ReadToken(pid).0)[i])
  {
    WantedIsPicked(extract, ReadToken(pid).0, ReadToken(pid).1, i);
  }

  lemma WantedIsPicked(extract: Extract, videoId: string, quality: string, i: nat)
    requires i < |TracksOf(extract, videoId)| && (TracksOf(extract, videoId)[i].isHdr <==> quality == "hdr")
    ensures PickFor(extract, videoId, quality) == Some(TracksOf(extract, videoId)[i])
  {
    var tracks := TracksOf(extract, videoId);
    PicksOwnTrack(extract, videoId, i);
    QualityKnown(tracks[i].isHdr);
    assert PickFrom(tracks, quality) == PickFrom(tracks, QualityOf(tracks[i].isHdr));
  }

  /** Every entry printed for a track plays exactly that track, whole or cut at its `$`. */
  lemma EntryPlaysItsTrack(extract: Extract, title: string, videoId: string, i: nat)
    requires '$' !in videoId && i < |TracksOf(extract, videoId)|
    ensures i < |Entries(extract, title, videoId)|
    ensures var track := TracksOf(extract, videoId)[i];
            && Played(extract, Entries(extract, title, videoId)[i]) == Some(track)
            && Played(extract, Token(videoId, track.isHdr)) == Some(track)
  {
    var track := TracksOf(extract, videoId)[i];
    TrackNames(extract, videoId);
    assert track in TracksOf(extract, videoId);
    PicksOwnTrack(extract, videoId, i);
    EntryReadsBackIff(title, SourceName(track), videoId, track.isHdr);
    TokenReadsBackIff(videoId, track.isHdr);
    assert Entries(extract, title, videoId)[i] == Entry(title, SourceName(track), videoId, track.isHdr);
  }
}
