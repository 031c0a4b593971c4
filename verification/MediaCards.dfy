/**
 The cards of a tweet (`_media_cards` of the X spider) and how `detailContent` reads their
 identifiers back (`_tid` and the choice of one video).
 */
module MediaCards {
  import opened Options
  import opened Text

  /** A video of a tweet, with the addresses it can be played from. */
  datatype Group = Group(cover: string, variants: seq<string>)

  const TWEET := "tweet:"
  const VIDEO := "::video::"
  const COLONS := "::"

  function CardId(tid: string, i: nat): string {
    TWEET + (tid + (VIDEO + Decimal(i)))
  }

  function PhotoId(tid: string): string {
    TWEET + (tid + "::photo::0")
  }

  // ----- printing -----

  /** The cards of the first `n` groups: one for every group that can be played. */
  function CardsOf(tid: string, groups: seq<Group>, n: nat): seq<string>
    requires n <= |groups|
  {
    if n == 0 then []
    else CardsOf(tid, groups, n - 1) + if groups[n - 1].variants != [] then [CardId(tid, n - 1)] else []
  }

  /** The identifiers of a tweet's cards: of its videos, or else one for its photos; none without an identifier. */
  method Cards(tid: string, groups: seq<Group>, photos: seq<string>) returns (ids: seq<string>)
    ensures ids == if tid == "" then []
                   else if groups != [] then CardsOf(tid, groups, |groups|)
                   else if photos != [] then [PhotoId(tid)] else []
  {
    ids := [];
    if tid == "" {
      return;
    }
    if groups != [] {
      for i := 0 to |groups|
        invariant ids == CardsOf(tid, groups, i)
      {
        if groups[i].variants != [] {
          ids := ids + [CardId(tid, i)];
        }
      }
      return;
    }
    if photos != [] {
      ids := [PhotoId(tid)];
    }
  }

  // ----- reading back -----

  /** `replace('tweet:', '')`. */
  function WithoutTweet(s: string): string {
    if s == "" then ""
    else if TWEET <= s then WithoutTweet(s[6..])
    else [s[0]] + WithoutTweet(s[1..])
  }

  function BeforeColons(s: string): string {
    if s == "" || COLONS <= s then "" else [s[0]] + BeforeColons(s[1..])
  }

  /** `_tid`. */
  function TidOf(id: string): string {
    BeforeColons(WithoutTweet(id))
  }

  /** What stands after the last `::`, as `rsplit` gives it. */
  function AfterColons(s: string): string {
    if s != "" && Contains(s[1..], COLONS) then AfterColons(s[1..])
    else if COLONS <= s then s[2..]
    else s
  }

  /** The video an identifier names, when it names one. */
  function SelectedOf(id: string): Option<nat> {
    if !Contains(id, VIDEO) then None
    else
      var last := AfterColons(id);
      if last != "" && AllDigits(last) then Some(Value(last)) else None
  }

  /** The groups `detailContent` offers for an identifier. */
  function Offered(groups: seq<Group>, id: string): seq<Group> {
    match SelectedOf(id)
    case None => groups
    case Some(i) => if i < |groups| then [groups[i]] else groups
  }

  // ----- the tweet, read back -----

  /** Neither mark is in the identifier, nor forms where it meets the colons that follow it. */
  predicate Unmarked(tid: string) {
    !Contains(tid + ":", TWEET) && !Contains(tid + ":", COLONS)
  }

  lemma {:induction false} NothingToReplace(s: string)
    requires !Contains(s, TWEET)
    ensures WithoutTweet(s) == s
  {
    if s != "" { NothingToReplace(s[1..]); }
  }

  lemma {:induction false} NoTweetWithout(s: string)
    requires 'w' !in s
    ensures !Contains(s, TWEET)
  {
    assert TWEET[1] == 'w';
    if s != "" { NoTweetWithout(s[1..]); }
  }

  /** Each removal shortens the text by the six characters of the mark. */
  lemma {:induction false} RemovedLength(s: string)
    ensures |WithoutTweet(s)| <= |s| && (|s| - |WithoutTweet(s)|) % 6 == 0
    ensures Contains(s, TWEET) ==> |WithoutTweet(s)| < |s|
  {
    if s == "" {
    } else if TWEET <= s {
      RemovedLength(s[6..]);
    } else {
      RemovedLength(s[1..]);
    }
  }

  /** The mark ends at its only colon, so no mark reaches across one. */
  lemma {:induction false} ReplacedApart(a: string, b: string)
    requires a == "" || a[|a| - 1] == ':'
    ensures WithoutTweet(a + b) == WithoutTweet(a) + WithoutTweet(b)
  {
    var s := a + b;
    if a == "" {
      assert s == b;
    } else if TWEET <= s {
      assert s[|a| - 1] == ':' && forall i | 0 <= i < 5 :: TWEET[i] != ':';
      assert |a| >= 6;
      assert TWEET <= a && s[6..] == a[6..] + b;
      ReplacedApart(a[6..], b);
    } else {
      assert a == s[..|a|];
      assert s[1..] == a[1..] + b;
      ReplacedApart(a[1..], b);
    }
  }

  lemma {:induction false} CutAtFirstColons(s: string)
    requires Contains(s, COLONS)
    ensures BeforeColons(s) + COLONS <= s
  {
    if !(COLONS <= s) { CutAtFirstColons(s[1..]); }
  }

  lemma {:induction false} CutHereIff(a: string, rest: string)
    ensures BeforeColons(a + (COLONS + rest)) == a <==> !Contains(a + ":", COLONS)
  {
    var s := a + (COLONS + rest);
    if a == "" {
      assert s == COLONS + rest;
      assert !Contains(":", COLONS);
    } else {
      assert s[1..] == a[1..] + (COLONS + rest) && (a + ":")[1..] == a[1..] + ":";
      assert COLONS <= s <==> COLONS <= a + ":";
      CutHereIff(a[1..], rest);
    }
  }

  /** The part of an identifier after its tweet: its only inner pair of colons stands at position 6. */
  predicate IsTail(tail: string) {
    && 'w' !in tail && |tail| > 7 && tail[0] == tail[6] == tail[7] == ':'
    && forall k | 0 <= k < |tail| - 1 && tail[k] == tail[k + 1] == ':' :: k == 6
  }

  lemma {:induction false} ContainsAt(s: string, k: nat)
    requires k + 1 < |s| && s[k] == s[k + 1] == ':'
    ensures Contains(s, COLONS)
  {
    if k > 0 { ContainsAt(s[1..], k - 1); }
  }

  /** If a mark is removed from the tweet, the first pair of colons comes out in another place. */
  lemma MarkedIsCutElsewhere(tid: string, tail: string)
    requires IsTail(tail) && Contains(tid + ":", TWEET)
    ensures BeforeColons(WithoutTweet(tid + ":") + tail) != tid
  {
    var left := WithoutTweet(tid + ":");
    var s := left + tail;
    RemovedLength(tid + ":");
    assert s[|left| + 6] == tail[6] && s[|left| + 7] == tail[7];
    ContainsAt(s, |left| + 6);
    CutAtFirstColons(s);
    if BeforeColons(s) == tid {
      PairInTail(left, tail, tid);
    }
  }

  lemma PairInTail(left: string, tail: string, tid: string)
    requires IsTail(tail) && |left| <= |tid| && tid + COLONS <= left + tail
    ensures |tid| == |left| + 6
  {
    var s, k := left + tail, |tid| - |left|;
    assert (tid + COLONS)[|tid|] == s[|tid|] == tail[k] && (tid + COLONS)[|tid| + 1] == s[|tid| + 1] == tail[k + 1];
  }

  lemma TidOfParts(tid: string, tail: string)
    requires IsTail(tail)
    ensures TidOf(TWEET + (tid + (":" + tail))) == BeforeColons(WithoutTweet(tid + ":") + tail)
  {
    var rest := tid + (":" + tail);
    assert (TWEET + rest)[6..] == rest && rest == (tid + ":") + tail;
    ReplacedApart(tid + ":", tail);
    NoTweetWithout(tail);
    NothingToReplace(tail);
  }

  lemma TidReadBackIff(tid: string, tail: string)
    requires IsTail(tail)
    ensures TidOf(TWEET + (tid + (":" + tail))) == tid <==> Unmarked(tid)
  {
    TidOfParts(tid, tail);
    if Contains(tid + ":", TWEET) {
      MarkedIsCutElsewhere(tid, tail);
    } else {
      NothingToReplace(tid + ":");
      assert tid + ":" + tail == tid + (COLONS + tail[1..]);
      CutHereIff(tid, tail[1..]);
    }
  }

  lemma TailsOfCards(i: nat)
    ensures IsTail(":video::" + Decimal(i)) && IsTail(":photo::0")
  {
    var digits, tail := Decimal(i), ":video::" + Decimal(i);
    assert forall k | 0 <= k < |digits| :: IsDigit(digits[k]) && tail[8 + k] == digits[k];
  }

  /** The tweet of a card is read back, of a video and of photos, exactly if its identifier is unmarked. */
  lemma TidReadsBackIff(tid: string, i: nat)
    ensures TidOf(CardId(tid, i)) == tid <==> Unmarked(tid)
    ensures TidOf(PhotoId(tid)) == tid <==> Unmarked(tid)
  {
    TailsOfCards(i);
    assert VIDEO + Decimal(i) == ":" + (":video::" + Decimal(i));
    assert "::photo::0" == ":" + ":photo::0";
    TidReadBackIff(tid, ":video::" + Decimal(i));
    TidReadBackIff(tid, ":photo::0");
  }

  lemma {:induction false} NoPair(s: string)
    requires forall k | 0 <= k < |s| - 1 :: !(s[k] == s[k + 1] == ':')
    ensures !Contains(s, COLONS)
  {
    if s != "" {
      assert COLONS[0] == COLONS[1] == ':';
      assert |s| > 1 ==> !(s[0] == s[0 + 1] == ':');
      forall k | 0 <= k < |s[1..]| - 1 ensures !(s[1..][k] == s[1..][k + 1] == ':') {
        assert !(s[k + 1] == s[k + 1 + 1] == ':');
      }
      NoPair(s[1..]);
    }
  }

  /** Decimal identifiers, as the service issues them, are unmarked. */
  lemma DecimalUnmarked(tid: string)
    requires AllDigits(tid)
    ensures Unmarked(tid)
  {
    var s := tid + ":";
    assert forall k | 0 <= k < |tid| :: s[k] == tid[k] && IsDigit(tid[k]);
    NoTweetWithout(s);
    NoPair(s);
  }

  /** The identifier `tweet` is lost: the mark it completes is removed with it. */
  lemma MarkedTidLost()
    ensures TidOf(CardId("tweet", 0)) == ":video" && !Unmarked("tweet")
  {
    var tail := ":video::" + Decimal(0);
    TailsOfCards(0);
    assert CardId("tweet", 0) == TWEET + ("tweet" + (":" + tail));
    TidOfParts("tweet", tail);
    assert "tweet" + ":" == TWEET && TWEET[6..] == "";
    assert WithoutTweet(TWEET) == "";
    assert "" + tail == ":video" + (COLONS + Decimal(0));
    NoPair(":video" + ":");
    CutHereIff(":video", Decimal(0));
  }

  // ----- the video, read back -----

  lemma {:induction false} NoColonsInDigits(digits: string)
    requires AllDigits(digits)
    ensures !Contains(digits, COLONS) && AfterColons(digits) == digits
  {
    if digits != "" {
      assert IsDigit(digits[0]);
      NoColonsInDigits(digits[1..]);
    }
  }

  lemma ColonsAtFront(digits: string)
    requires AllDigits(digits) && digits != ""
    ensures AfterColons(COLONS + digits) == digits
  {
    var s := COLONS + digits;
    assert s[1..] == ":" + digits && s[2..] == digits;
    assert (":" + digits)[1..] == digits && IsDigit(digits[0]);
    NoColonsInDigits(digits);
  }

  lemma {:induction false} LastPart(front: string, digits: string)
    requires AllDigits(digits) && digits != ""
    ensures AfterColons(front + (COLONS + digits)) == digits
  {
    var s := front + (COLONS + digits);
    if front == "" {
      assert s == COLONS + digits;
      ColonsAtFront(digits);
    } else {
      assert s[1..] == front[1..] + (COLONS + digits);
      ContainsLater(front[1..], COLONS, digits);
      LastPart(front[1..], digits);
    }
  }

  /** The video of a card is read back. */
  lemma SelectedReadsBack(tid: string, i: nat)
    ensures SelectedOf(CardId(tid, i)) == Some(i)
  {
    var id, front := CardId(tid, i), TWEET + tid;
    assert id == front + (VIDEO + Decimal(i));
    ContainsLater(front, VIDEO, Decimal(i));
    var upTo := front + "::video";
    assert id == upTo + (COLONS + Decimal(i));
    LastPart(upTo, Decimal(i));
    assert Value(Decimal(i)) == i;
  }

  /** A card's identifier determines its tweet and its video, so no two cards share a place in the pool. */
  lemma CardIdInjective(t1: string, i1: nat, t2: string, i2: nat)
    requires CardId(t1, i1) == CardId(t2, i2)
    ensures t1 == t2 && i1 == i2
  {
    SelectedReadsBack(t1, i1);
    SelectedReadsBack(t2, i2);
    var id, tail := CardId(t1, i1), VIDEO + Decimal(i1);
    assert |id| == 6 + |t1| + |tail| == 6 + |t2| + |tail|;
    assert id[6..6 + |t1|] == t1 && id[6..6 + |t2|] == t2;
  }

  lemma {:induction false} CardsHaveGroups(tid: string, groups: seq<Group>, n: nat, k: nat) returns (i: nat)
    requires n <= |groups| && k < |CardsOf(tid, groups, n)|
    ensures i < n && groups[i].variants != [] && CardsOf(tid, groups, n)[k] == CardId(tid, i)
  {
    if k < |CardsOf(tid, groups, n - 1)| {
      i := CardsHaveGroups(tid, groups, n - 1, k);
    } else {
      i := n - 1;
    }
  }

  /** Every playable video has a card, and no other. */
  lemma {:induction false} CardForEachVideo(tid: string, groups: seq<Group>, n: nat, i: nat)
    requires i < n <= |groups|
    ensures CardId(tid, i) in CardsOf(tid, groups, n) <==> groups[i].variants != []
  {
    var last := if groups[n - 1].variants != [] then [CardId(tid, n - 1)] else [];
    assert CardsOf(tid, groups, n) == CardsOf(tid, groups, n - 1) + last;
    if i < n - 1 {
      CardForEachVideo(tid, groups, n - 1, i);
      if CardId(tid, i) == CardId(tid, n - 1) { CardIdInjective(tid, i, tid, n - 1); }
    } else if CardId(tid, i) in CardsOf(tid, groups, n - 1) {
      var k :| 0 <= k < |CardsOf(tid, groups, n - 1)| && CardsOf(tid, groups, n - 1)[k] == CardId(tid, i);
      var m := CardsHaveGroups(tid, groups, n - 1, k);
      CardIdInjective(tid, i, tid, m);
    }
  }

  /** The cards stand in the order of their videos. */
  lemma {:induction false} CardsInOrder(tid: string, groups: seq<Group>, n: nat, a: nat, b: nat)
    requires n <= |groups| && a < b < |CardsOf(tid, groups, n)|
    ensures var cards := CardsOf(tid, groups, n);
            && SelectedOf(cards[a]).Some? && SelectedOf(cards[b]).Some?
            && SelectedOf(cards[a]).value < SelectedOf(cards[b]).value
  {
    if b < |CardsOf(tid, groups, n - 1)| {
      CardsInOrder(tid, groups, n - 1, a, b);
    } else {
      var i := CardsHaveGroups(tid, groups, n - 1, a);
      SelectedReadsBack(tid, i);
      SelectedReadsBack(tid, n - 1);
    }
  }

  /** An identifier that names no video offers them all. */
  lemma PlainIdOffersAll(groups: seq<Group>, id: string)
    requires !Occurs("::video::", id)
    ensures Offered(groups, id) == groups
  {
    ContainsIff(id, "::video::");
  }

  /** A card whose video is gone opens its tweet with all its videos. */
  lemma GoneVideoOffersAll(tid: string, groups: seq<Group>, i: nat)
    requires i >= |groups|
    ensures Offered(groups, CardId(tid, i)) == groups
  {
    SelectedReadsBack(tid, i);
  }

  /** Every card printed opens exactly one playable video, and of its own tweet exactly if the identifier is
      unmarked. */
  lemma CardOpensItsVideo(tid: string, groups: seq<Group>, k: nat) returns (i: nat)
    requires k < |CardsOf(tid, groups, |groups|)|
    ensures var id := CardsOf(tid, groups, |groups|)[k];
            && i < |groups| && groups[i].variants != [] && id == CardId(tid, i)
            && Offered(groups, id) == [groups[i]] && (TidOf(id) == tid <==> Unmarked(tid))
  {
    i := CardsHaveGroups(tid, groups, |groups|, k);
    TidReadsBackIff(tid, i);
    SelectedReadsBack(tid, i);
  }
}
