/** What holds of a feed over whole runs: any requests, in any order, against any answers. */
module FeedRuns {
  import opened MediaFeed
  import opened Numbers

  // ----- every reachable state -----

  predicate DistinctKeys<T>(pool: seq<Card<T>>) {
    forall i, j | 0 <= i < j < |pool| :: pool[i].key != pool[j].key
  }

  /** The pool's keys are distinct and non-empty, the seen-set is exactly those keys, and two empty answers end the
      feed. */
  ghost predicate Inv<T>(s: Feed<T>) {
    && DistinctKeys(s.pool)
    && "" !in Keys(s.pool)
    && s.seen == Keys(s.pool)
    && (!s.done ==> s.empty < 2)
  }

  lemma {:induction false} NewCardsAreNew<T>(seen: set<string>, cards: seq<Card<T>>)
    ensures DistinctKeys(NewCards(seen, cards))
    ensures Keys(NewCards(seen, cards)) !! seen
    ensures Keys(NewCards(seen, cards)) == Keys(cards) - seen - {""}
    decreases cards
  {
    if cards != [] {
      var k := cards[0].key;
      KeysConcat([cards[0]], cards[1..]);
      KeysOne(cards[0]);
      assert [cards[0]] + cards[1..] == cards;
      if k != "" && k !in seen {
        NewCardsAreNew(seen + {k}, cards[1..]);
        var rest := NewCards(seen + {k}, cards[1..]);
        KeysConcat([cards[0]], rest);
        forall i | 0 <= i < |rest| ensures rest[i].key != k {
          assert rest[i].key in Keys(rest);
        }
      } else {
        NewCardsAreNew(seen, cards[1..]);
      }
    }
  }

  /** The card at `j` is keyed, unseen, and the first of the answer with its key. */
  predicate FirstOfKey<T>(seen: set<string>, cards: seq<Card<T>>, j: nat)
    requires j < |cards|
  {
    cards[j].key != "" && cards[j].key !in seen && forall i | 0 <= i < j :: cards[i].key != cards[j].key
  }

  function FirstsOfKeys<T>(seen: set<string>, cards: seq<Card<T>>, n: nat): seq<Card<T>>
    requires n <= |cards|
  {
    if n == 0 then []
    else FirstsOfKeys(seen, cards, n - 1) + if FirstOfKey(seen, cards, n - 1) then [cards[n - 1]] else []
  }

  /** What an answer adds to the pool: in their order, exactly the cards that are the first with an unseen key. */
  lemma {:induction false} NewCardsAreFirsts<T>(seen: set<string>, cards: seq<Card<T>>, n: nat)
    requires n <= |cards|
    ensures NewCards(seen, cards[..n]) == FirstsOfKeys(seen, cards, n)
  {
    if n > 0 {
      NewCardsAreFirsts(seen, cards, n - 1);
      var before, last := cards[..n - 1], cards[n - 1];
      assert cards[..n] == before + [last];
      NewCardsConcat(seen, before, [last]);
      NewCardsAreNew(seen, before);
      assert last.key in Keys(before) <==> exists i | 0 <= i < n - 1 :: cards[i].key == last.key by {
        if i :| 0 <= i < n - 1 && cards[i].key == last.key { assert before[i].key in Keys(before); }
      }
      assert [last][1..] == [];
    }
  }

  lemma TakeKeepsInv<T>(s: Feed<T>, cards: seq<Card<T>>)
    requires Inv(s)
    ensures Inv(Take(s, cards)) && s.pool <= Take(s, cards).pool
    ensures Take(s, cards).seen == s.seen + Keys(cards) - {""}
  {
    var added := NewCards(s.seen, cards);
    NewCardsAreNew(s.seen, cards);
    KeysConcat(s.pool, added);
    forall i, j | 0 <= i < |s.pool| && 0 <= j < |added| ensures s.pool[i].key != added[j].key {
      assert s.pool[i].key in Keys(s.pool) && added[j].key in Keys(added);
    }
  }

  /** One answer keeps the invariant, only appends to the pool, and offers every keyed card a place in it. */
  lemma RoundKeepsInv<T>(s: Feed<T>, r: Reply<T>)
    requires Inv(s) && !s.done
    ensures var t := Round(s, r);
            Inv(t) && s.pool <= t.pool && t.round == s.round + 1
            && Keys(t.pool) == Keys(s.pool) + Keys(Flatten(r.items)) - {""}
  {
    TakeKeepsInv(s.(round := s.round + 1, empty := 0), Flatten(r.items));
    if r.items == [] {
      assert Flatten(r.items) == [];
      assert Keys(s.pool) + Keys<T>([]) - {""} == Keys(s.pool);
    }
  }

  lemma {:induction false} AdvanceKeepsInv<T>(lim: Limits, backend: Backend<T>, s: Feed<T>, p: nat)
    requires Inv(s)
    ensures var t := Advance(lim, backend, s, p);
            Inv(t) && s.pool <= t.pool && Settled(lim, t, p)
    decreases Budget(lim, p) - s.round
  {
    if !Settled(lim, s, p) {
      var t := Round(s, backend(s.round + 1, s.cursor));
      RoundKeepsInv(s, backend(s.round + 1, s.cursor));
      AdvanceKeepsInv(lim, backend, t, p);
    }
  }

  /** Backend fetches: one a round, never past the budget of the page asked for, none once done. */
  lemma {:induction false} FetchesBounded<T>(lim: Limits, backend: Backend<T>, s: Feed<T>, p: nat)
    ensures var t := Advance(lim, backend, s, p);
            s.round <= t.round <= Max(s.round, Budget(lim, p))
            && (s.done ==> t == s)
    decreases Budget(lim, p) - s.round
  {
    if !Settled(lim, s, p) {
      FetchesBounded(lim, backend, Round(s, backend(s.round + 1, s.cursor)), p);
    }
  }

  /** The budgets of the two loops, in fetches. */
  lemma SpiderBudgets<T>(backend: Backend<T>, s: Feed<T>, p: nat, pageSize: nat)
    ensures Advance(UserMedia(pageSize), backend, s, p).round <= Max(s.round, Max(120, p * 80))
    ensures Advance(HomeVideos(pageSize), backend, s, p).round <= Max(s.round, Max(30, p * 20))
    // a request gives up on a page only when they are spent or the feed is done
    ensures var t := Advance(UserMedia(pageSize), backend, s, p);
            |t.pool| < p * pageSize && !t.done ==> t.round >= Max(120, p * 80)
    ensures var t := Advance(HomeVideos(pageSize), backend, s, p);
            |t.pool| < p * pageSize && !t.done ==> t.round >= Max(30, p * 20)
    // and it fetches nothing for a page that is full
    ensures |s.pool| >= p * pageSize ==>
              Advance(UserMedia(pageSize), backend, s, p) == s && Advance(HomeVideos(pageSize), backend, s, p) == s
  {
    FetchesBounded(UserMedia(pageSize), backend, s, p);
    FetchesBounded(HomeVideos(pageSize), backend, s, p);
    AdvanceSettles(UserMedia(pageSize), backend, s, p);
    AdvanceSettles(HomeVideos(pageSize), backend, s, p);
  }

  // ----- the order of requests does not matter -----

  /** The state after a run of page requests. */
  function Run<T>(lim: Limits, backend: Backend<T>, s: Feed<T>, pages: seq<nat>): Feed<T>
    decreases pages
  {
    if pages == [] then s else Run(lim, backend, Advance(lim, backend, s, pages[0]), pages[1..])
  }

  function Highest(pages: seq<nat>): nat {
    if pages == [] then 0 else Max(pages[0], Highest(pages[1..]))
  }

  lemma LaterPageNeedsMore<T>(lim: Limits, s: Feed<T>, p: nat, q: nat)
    requires p <= q && Settled(lim, s, q)
    ensures Settled(lim, s, p)
  {
    MulMonotone(p, q, lim.pageSize);
    MulMonotone(p, q, lim.perPage);
  }

  lemma MulMonotone(p: nat, q: nat, k: nat)
    requires p <= q
    ensures p * k <= q * k
  {
  }

  /** A request for page `p` is a stage on the way to any later page. */
  lemma {:induction false} AdvanceThrough<T>(lim: Limits, backend: Backend<T>, s: Feed<T>, p: nat, q: nat)
    requires p <= q
    ensures Advance(lim, backend, Advance(lim, backend, s, p), q) == Advance(lim, backend, s, q)
    decreases Budget(lim, p) - s.round
  {
    if !Settled(lim, s, p) {
      var t := Round(s, backend(s.round + 1, s.cursor));
      AdvanceStep(lim, backend, s, p);
      if Settled(lim, s, q) { LaterPageNeedsMore(lim, s, p, q); }
      AdvanceStep(lim, backend, s, q);
      AdvanceThrough(lim, backend, t, p, q);
    } else {
      AdvanceStop(lim, backend, s, p);
    }
  }

  /** A request stops only with the page full, the feed done or the budget spent. */
  lemma {:induction false} AdvanceSettles<T>(lim: Limits, backend: Backend<T>, s: Feed<T>, p: nat)
    ensures Settled(lim, Advance(lim, backend, s, p), p)
    decreases Budget(lim, p) - s.round
  {
    if !Settled(lim, s, p) {
      AdvanceSettles(lim, backend, Round(s, backend(s.round + 1, s.cursor)), p);
    }
  }

  lemma AdvanceBothWays<T>(lim: Limits, backend: Backend<T>, s: Feed<T>, p: nat, q: nat)
    ensures Advance(lim, backend, Advance(lim, backend, s, p), q) == Advance(lim, backend, s, Max(p, q))
  {
    if p <= q {
      AdvanceThrough(lim, backend, s, p, q);
    } else {
      AdvanceSettles(lim, backend, s, p);
      LaterPageNeedsMore(lim, Advance(lim, backend, s, p), q, p);
    }
  }

  /** Whatever pages were asked for, in whatever order and how often: the state is that of asking once for the
      highest. */
  lemma {:induction false} RunIsHighest<T>(lim: Limits, backend: Backend<T>, s: Feed<T>, pages: seq<nat>)
    requires pages != []
    ensures Run(lim, backend, s, pages) == Advance(lim, backend, s, Highest(pages))
    decreases pages
  {
    if |pages| == 1 {
      assert pages[1..] == [] && Highest(pages[1..]) == 0;
    } else {
      RunIsHighest(lim, backend, Advance(lim, backend, s, pages[0]), pages[1..]);
      AdvanceBothWays(lim, backend, s, pages[0], Highest(pages[1..]));
    }
  }

  lemma {:induction false} RunKeepsInv<T>(lim: Limits, backend: Backend<T>, s: Feed<T>, pages: seq<nat>)
    requires Inv(s)
    ensures Inv(Run(lim, backend, s, pages)) && s.pool <= Run(lim, backend, s, pages).pool
    decreases pages
  {
    if pages != [] {
      AdvanceKeepsInv(lim, backend, s, pages[0]);
      RunKeepsInv(lim, backend, Advance(lim, backend, s, pages[0]), pages[1..]);
    }
  }

  /** From a reset, every run ends with distinct non-empty keys and a seen-set of exactly those keys. */
  lemma ReachableInv<T>(lim: Limits, backend: Backend<T>, pages: seq<nat>)
    ensures Inv(Run(lim, backend, Empty(), pages))
  {
    assert Inv(Empty<T>());
    RunKeepsInv(lim, backend, Empty(), pages);
  }

  // ----- pages served -----

  lemma Slices(p: nat, size: nat)
    requires p >= 1
    ensures p * size == (p - 1) * size + size
  {
  }

  lemma SliceGrows<T>(pool: seq<T>, later: seq<T>, s: nat, e: nat)
    requires s <= e && pool <= later
    ensures var a, b := pool[Min(s, |pool|)..Min(e, |pool|)], later[Min(s, |later|)..Min(e, |later|)];
            a <= b && |b| <= e - s && (|a| == e - s ==> a == b)
  {
  }

  /** What page `p` shows only grows at its end as the pool grows, so a full page never changes again. */
  lemma PageOnlyGrows<T>(pool: seq<Card<T>>, later: seq<Card<T>>, p: nat, more: bool, moreLater: bool, size: nat)
    requires p >= 1 && pool <= later
    ensures var a, b := PoolView(pool, p, more, size).list, PoolView(later, p, moreLater, size).list;
            a <= b && |b| <= size && (|a| == size ==> a == b)
  {
    Slices(p, size);
    SliceGrows(pool, later, (p - 1) * size, p * size);
  }

  /** A full page, once served, is identical on every later request of any run. */
  lemma FullPageStays<T>(lim: Limits, backend: Backend<T>, s: Feed<T>, p: nat, pages: seq<nat>)
    requires Inv(s) && p >= 1
    ensures var a := PoolView(s.pool, p, !s.done, lim.pageSize);
            var t := Run(lim, backend, s, pages);
            var b := PoolView(t.pool, p, !t.done, lim.pageSize);
            a.list <= b.list && (|a.list| == lim.pageSize ==> a.list == b.list)
  {
    RunKeepsInv(lim, backend, s, pages);
    var t := Run(lim, backend, s, pages);
    PageOnlyGrows(s.pool, t.pool, p, !s.done, !t.done, lim.pageSize);
  }

  lemma {:induction false} DoneStays<T>(lim: Limits, backend: Backend<T>, s: Feed<T>, pages: seq<nat>)
    requires s.done
    ensures Run(lim, backend, s, pages) == s
    decreases pages
  {
    if pages != [] {
      DoneStays(lim, backend, s, pages[1..]);
    }
  }

  /** A page count equal to the page is final: no later run adds anything, and every page beyond is empty. */
  lemma LastPageIsLast<T>(lim: Limits, backend: Backend<T>, s: Feed<T>, p: nat, pages: seq<nat>, q: nat)
    requires p >= 1 && PoolView(s.pool, p, !s.done, lim.pageSize).pageCount == p
    ensures Run(lim, backend, s, pages) == s
    ensures PoolView(s.pool, p, !s.done, lim.pageSize).total == |s.pool|
    ensures q > p ==> PoolView(s.pool, q, !s.done, lim.pageSize).list == []
  {
    DoneStays(lim, backend, s, pages);
    if q > p {
      MulMonotone(p, q - 1, lim.pageSize);
    }
  }

  /** The page count promises a further page exactly if the feed may grow or that page holds something; otherwise
      the total counts the pool. */
  lemma PageCountTellsMore<T>(pool: seq<Card<T>>, p: nat, more: bool, size: nat)
    requires p >= 1 && size > 0
    ensures var view := PoolView(pool, p, more, size);
            && view.page == p && view.limit == size && p <= view.pageCount <= p + 1
            && (view.pageCount > p <==> more || PoolView(pool, p + 1, more, size).list != [])
            && view.total == (if view.pageCount > p then 999999 else |pool|)
  {
    Slices(p + 1, size);
  }

  function FirstPages<T>(pool: seq<Card<T>>, n: nat, more: bool, size: nat): seq<Card<T>> {
    if n == 0 then [] else FirstPages(pool, n - 1, more, size) + PoolView(pool, n, more, size).list
  }

  lemma NextSlice<T>(pool: seq<T>, s: nat, e: nat)
    requires s <= e
    ensures pool[..Min(s, |pool|)] + pool[Min(s, |pool|)..Min(e, |pool|)] == pool[..Min(e, |pool|)]
  {
  }

  lemma PageIsSlice<T>(pool: seq<Card<T>>, n: nat, more: bool, size: nat, s: nat, e: nat)
    requires n >= 1 && s == (n - 1) * size && e == n * size
    ensures s <= e && PoolView(pool, n, more, size).list == pool[Min(s, |pool|)..Min(e, |pool|)]
  {
    Slices(n, size);
  }

  /** Pages 1 to n, laid end to end, are the pool's first n * size cards. */
  lemma {:induction false} PagesTile<T>(pool: seq<Card<T>>, n: nat, more: bool, size: nat)
    ensures FirstPages(pool, n, more, size) == pool[..Min(n * size, |pool|)]
  {
    if n > 0 {
      var s, e := (n - 1) * size, n * size;
      PagesTile(pool, n - 1, more, size);
      PageIsSlice(pool, n, more, size, s, e);
      NextSlice(pool, s, e);
    }
  }

  // ----- when a feed is done -----

  /** The state after a run of answers; a done feed takes no more of them. */
  function After<T>(replies: seq<Reply<T>>): Feed<T> {
    if replies == [] then Empty()
    else
      var s := After(replies[..|replies| - 1]);
      if s.done then s else Round(s, replies[|replies| - 1])
  }

  /** The cursor reached: the last one named that was neither empty nor the one reached before. */
  function LastNew<T>(replies: seq<Reply<T>>): string {
    if replies == [] then ""
    else
      var before, named := LastNew(replies[..|replies| - 1]), replies[|replies| - 1].bottom;
      if named != "" && named != before then named else before
  }

  /** The k-th answer names a cursor beyond the one reached. */
  predicate Advances<T>(replies: seq<Reply<T>>, k: nat)
    requires k < |replies|
  {
    replies[k].bottom != "" && replies[k].bottom != LastNew(replies[..k])
  }

  /** The k-th answer had neither items nor a new cursor. */
  predicate Dead<T>(replies: seq<Reply<T>>, k: nat)
    requires k < |replies|
  {
    replies[k].items == [] && !Advances(replies, k)
  }

  /** The k-th answer had items but no new cursor. */
  predicate Final<T>(replies: seq<Reply<T>>, k: nat)
    requires k < |replies|
  {
    replies[k].items != [] && !Advances(replies, k)
  }

  predicate NoItemsBetween<T>(replies: seq<Reply<T>>, j: nat, k: nat)
    requires j <= k <= |replies|
  {
    forall i | j <= i < k :: replies[i].items == []
  }

  /** An answer with neither items nor a new cursor came, and no items have come since. */
  ghost predicate DeadPending<T>(replies: seq<Reply<T>>, n: nat)
    requires n <= |replies|
  {
    exists j | 0 <= j < n :: Dead(replies, j) && NoItemsBetween(replies, j, n)
  }

  lemma AfterStep<T>(replies: seq<Reply<T>>, k: nat)
    requires k < |replies|
    ensures var s := After(replies[..k]);
            After(replies[..k + 1]) == if s.done then s else Round(s, replies[k])
  {
    assert replies[..k + 1][..k] == replies[..k] && replies[..k + 1][k] == replies[k];
  }

  lemma PendingStep<T>(replies: seq<Reply<T>>, k: nat)
    requires k < |replies|
    ensures DeadPending(replies, k + 1) <==> Dead(replies, k) || (replies[k].items == [] && DeadPending(replies, k))
  {
    if Dead(replies, k) {
      assert NoItemsBetween(replies, k, k + 1);
    }
    if replies[k].items == [] && DeadPending(replies, k) {
      var j :| 0 <= j < k && Dead(replies, j) && NoItemsBetween(replies, j, k);
      assert NoItemsBetween(replies, j, k + 1);
    }
    if DeadPending(replies, k + 1) && !Dead(replies, k) {
      var j :| 0 <= j < k + 1 && Dead(replies, j) && NoItemsBetween(replies, j, k + 1);
      assert replies[k].items == [] && NoItemsBetween(replies, j, k);
    }
  }

  /** Until it is done, a feed stands at the last new cursor, and asks with it next. */
  lemma {:induction false} CursorIsLastNew<T>(replies: seq<Reply<T>>)
    requires !After(replies).done
    ensures After(replies).cursor == LastNew(replies)
  {
    if replies != [] { CursorIsLastNew(replies[..|replies| - 1]); }
  }

  /** While the feed is not done, its counter says whether a dead answer is pending. */
  lemma {:induction false} EmptyCounts<T>(replies: seq<Reply<T>>, n: nat)
    requires n <= |replies| && !After(replies[..n]).done
    ensures After(replies[..n]).empty == if DeadPending(replies, n) then 1 else 0
  {
    if n > 0 {
      AfterStep(replies, n - 1);
      CursorIsLastNew(replies[..n - 1]);
      EmptyCounts(replies, n - 1);
      PendingStep(replies, n - 1);
    }
  }

  /** The answer that ends a feed, exactly: items without a new cursor, or the second dead answer with no items
      between. */
  lemma DoneExactlyWhen<T>(replies: seq<Reply<T>>, k: nat)
    requires k < |replies| && !After(replies[..k]).done
    ensures After(replies[..k + 1]).done <==> Final(replies, k) || (Dead(replies, k) && DeadPending(replies, k))
  {
    AfterStep(replies, k);
    CursorIsLastNew(replies[..k]);
    EmptyCounts(replies, k);
  }

  /** The answers a backend gives over the first n rounds, each asked for with the last new cursor. */
  function Replies<T>(backend: Backend<T>, n: nat): seq<Reply<T>> {
    if n == 0 then []
    else
      var before := Replies(backend, n - 1);
      before + [backend(n, LastNew(before))]
  }

  lemma {:induction false} RepliesLength<T>(backend: Backend<T>, n: nat)
    ensures |Replies(backend, n)| == n
  {
    if n > 0 { RepliesLength(backend, n - 1); }
  }

  lemma AfterOneMore<T>(backend: Backend<T>, n: nat)
    requires !After(Replies(backend, n)).done
    ensures var s := After(Replies(backend, n));
            After(Replies(backend, n + 1)) == Round(s, backend(n + 1, s.cursor))
  {
    var before := Replies(backend, n);
    var all := Replies(backend, n + 1);
    CursorIsLastNew(before);
    assert all[..|all| - 1] == before;
  }

  /** The state is the one its rounds' answers lead to. */
  ghost predicate Explained<T>(backend: Backend<T>, s: Feed<T>) {
    s == After(Replies(backend, s.round))
  }

  lemma RoundCounts<T>(s: Feed<T>, r: Reply<T>)
    ensures Round(s, r).round == s.round + 1
  {
  }

  lemma RoundExplained<T>(backend: Backend<T>, s: Feed<T>)
    requires Explained(backend, s) && !s.done
    ensures Explained(backend, Round(s, backend(s.round + 1, s.cursor)))
  {
    AfterOneMore(backend, s.round);
    RoundCounts(s, backend(s.round + 1, s.cursor));
  }

  /** A request keeps the state explained by its rounds' answers. */
  lemma {:induction false} AdvanceExplained<T>(lim: Limits, backend: Backend<T>, s: Feed<T>, p: nat)
    requires Explained(backend, s)
    ensures Explained(backend, Advance(lim, backend, s, p))
    decreases Budget(lim, p) - s.round
  {
    if !Settled(lim, s, p) {
      RoundExplained(backend, s);
      AdvanceStep(lim, backend, s, p);
      AdvanceExplained(lim, backend, Round(s, backend(s.round + 1, s.cursor)), p);
    }
  }

  lemma {:induction false} RunFromExplained<T>(lim: Limits, backend: Backend<T>, s: Feed<T>, pages: seq<nat>)
    requires Explained(backend, s)
    ensures Explained(backend, Run(lim, backend, s, pages))
    decreases pages
  {
    if pages != [] {
      AdvanceExplained(lim, backend, s, pages[0]);
      RunFromExplained(lim, backend, Advance(lim, backend, s, pages[0]), pages[1..]);
    }
  }

  /** Every state a run from a reset reaches is the state after its rounds' answers. */
  lemma RunExplained<T>(lim: Limits, backend: Backend<T>, pages: seq<nat>)
    ensures Explained(backend, Run(lim, backend, Empty(), pages))
  {
    assert Replies(backend, 0) == [];
    assert Explained(backend, Empty());
    RunFromExplained(lim, backend, Empty(), pages);
  }

  lemma {:induction false} RoundsAtMost<T>(replies: seq<Reply<T>>)
    ensures After(replies).round <= |replies|
  {
    if replies != [] {
      RoundsAtMost(replies[..|replies| - 1]);
      RoundCounts(After(replies[..|replies| - 1]), replies[|replies| - 1]);
    }
  }

  /** After any run of requests the feed is done exactly if its last answer ended it, as said above. */
  lemma RunDoneExactlyWhen<T>(lim: Limits, backend: Backend<T>, pages: seq<nat>)
    ensures var t := Run(lim, backend, Empty(), pages);
            var replies := Replies(backend, t.round);
            && |replies| == t.round
            && (t.done <==> t.round > 0
                            && (Final(replies, t.round - 1)
                                || (Dead(replies, t.round - 1) && DeadPending(replies, t.round - 1))))
  {
    RunExplained(lim, backend, pages);
    ExplainedDone(backend, Run(lim, backend, Empty(), pages));
  }

  lemma ExplainedDone<T>(backend: Backend<T>, t: Feed<T>)
    requires Explained(backend, t)
    ensures var replies := Replies(backend, t.round);
            && |replies| == t.round
            && (t.done <==> t.round > 0
                            && (Final(replies, t.round - 1)
                                || (Dead(replies, t.round - 1) && DeadPending(replies, t.round - 1))))
  {
    var replies, n := Replies(backend, t.round), t.round;
    RepliesLength(backend, n);
    if n > 0 {
      assert replies[..n] == replies;
      RoundsAtMost(replies[..n - 1]);
      DoneExactlyWhen(replies, n - 1);
    }
  }
}
