/**
 The resumable fetch loops of the X spider (`_user_media`, `_home_videos`, `_pool`):
 a pool of cards that only grows, a seen-set, a counter of empty answers, a done flag
 that absorbs, and a budget of rounds kept across calls.

 Both loops have the same steps and differ in the budget, so one model takes the
 budget as parameters: 120 and 80 per page for a user's media, 30 and 20 for home videos.
 The backend may answer the n-th round in any way, also differently for the same cursor.
 */
module MediaFeed {
  import opened Numbers
  import opened Paging

  /** A card offered to the pool; an empty key (neither id nor picture, or no video) is not kept. */
  datatype Card<+T> = Card(key: string, body: T)

  /** One answer: the cards of each item in turn, and the next cursor. */
  datatype Reply<+T> = Reply(items: seq<seq<Card<T>>>, bottom: string)

  type Backend<!T> = (nat, string) -> Reply<T>

  datatype Feed<+T> = Feed(pool: seq<Card<T>>, seen: set<string>, cursor: string, done: bool, round: nat, empty: nat)

  datatype View<+T> = View(list: seq<Card<T>>, page: nat, pageCount: nat, limit: nat, total: nat)

  datatype Limits = Limits(pageSize: nat, minimum: nat, perPage: nat)

  function UserMedia(pageSize: nat): Limits { Limits(pageSize, 120, 80) }

  function HomeVideos(pageSize: nat): Limits { Limits(pageSize, 30, 20) }

  function Budget(lim: Limits, p: nat): nat {
    Max(lim.minimum, p * lim.perPage)
  }

  function Empty<T>(): Feed<T> {
    Feed([], {}, "", false, 0, 0)
  }

  function Keys<T>(cards: seq<Card<T>>): set<string> {
    set i | 0 <= i < |cards| :: cards[i].key
  }

  /** The cards that are new: keyed, and the first with their key. */
  function NewCards<T>(seen: set<string>, cards: seq<Card<T>>): seq<Card<T>>
    decreases cards
  {
    if cards == [] then []
    else if cards[0].key != "" && cards[0].key !in seen then
      [cards[0]] + NewCards(seen + {cards[0].key}, cards[1..])
    else NewCards(seen, cards[1..])
  }

  function Flatten<T>(items: seq<seq<T>>): seq<T> {
    if items == [] then [] else items[0] + Flatten(items[1..])
  }

  function Take<T>(s: Feed<T>, cards: seq<Card<T>>): Feed<T> {
    var added := NewCards(s.seen, cards);
    s.(pool := s.pool + added, seen := s.seen + Keys(added))
  }

  predicate MovesOn<T>(r: Reply<T>, cursor: string) {
    r.bottom != "" && r.bottom != cursor
  }

  /** What one round of the loop does with an answer. */
  function Round<T>(s: Feed<T>, r: Reply<T>): Feed<T> {
    var s1 := s.(round := s.round + 1);
    if r.items == [] then
      if MovesOn(r, s.cursor) then s1.(cursor := r.bottom)
      else s1.(empty := s.empty + 1, done := s.done || s.empty + 1 >= 2)
    else
      var s2 := Take(s1.(empty := 0), Flatten(r.items));
      if MovesOn(r, s.cursor) then s2.(cursor := r.bottom) else s2.(done := true)
  }

  /** The loop's exit condition for page `p`. */
  predicate Settled<T>(lim: Limits, s: Feed<T>, p: nat) {
    |s.pool| >= p * lim.pageSize || s.done || s.round >= Budget(lim, p)
  }

  /** The feed after the loop has run for page `p`. */
  function Advance<T>(lim: Limits, backend: Backend<T>, s: Feed<T>, p: nat): Feed<T>
    decreases Budget(lim, p) - s.round
  {
    if Settled(lim, s, p) then s
    else Advance(lim, backend, Round(s, backend(s.round + 1, s.cursor)), p)
  }

  lemma AdvanceStep<T>(lim: Limits, backend: Backend<T>, s: Feed<T>, p: nat)
    requires !Settled(lim, s, p)
    ensures Advance(lim, backend, s, p) == Advance(lim, backend, Round(s, backend(s.round + 1, s.cursor)), p)
  {
  }

  lemma AdvanceStop<T>(lim: Limits, backend: Backend<T>, s: Feed<T>, p: nat)
    requires Settled(lim, s, p)
    ensures Advance(lim, backend, s, p) == s
  {
  }

  /** `_pool`: the slice of the pool that is page `p`. */
  function PoolView<T>(pool: seq<Card<T>>, p: nat, more: bool, pageSize: nat): View<T>
    requires p >= 1
  {
    var s, e := (p - 1) * pageSize, p * pageSize;
    assert s <= e;
    View(pool[Min(s, |pool|)..Min(e, |pool|)], p,
         if more || |pool| > e then p + 1 else p,
         pageSize,
         if more || |pool| > e then 999999 else |pool|)
  }

  // ----- the object -----

  class FeedCache<T> {
    const backend: Backend<T>
    const lim: Limits
    var pool: seq<Card<T>>
    var seen: set<string>
    var cursor: string
    var done: bool
    var round: nat
    var empty: nat

    constructor (backend: Backend<T>, lim: Limits)
      ensures this.backend == backend && this.lim == lim && Model() == Empty()
    {
      this.backend, this.lim := backend, lim;
      pool, seen, cursor, done, round, empty := [], {}, "", false, 0, 0;
    }

    function Model(): Feed<T>
      reads this
    {
      Feed(pool, seen, cursor, done, round, empty)
    }

    method AddCard(card: Card<T>)
      modifies this
      ensures Model() == Take(old(Model()), [card])
    {
      assert [card][1..] == [];
      if card.key != "" && card.key !in seen {
        assert NewCards(seen, [card]) == [card];
        KeysOne(card);
        seen := seen + {card.key};
        pool := pool + [card];
      } else {
        assert NewCards(seen, [card]) == [];
        assert pool + [] == pool && seen + Keys<T>([]) == seen;
      }
    }

    /** The body of the loop; its `break` and `continue` both go back to the loop's condition. */
    method FetchRound()
      modifies this
      ensures Model() == Round(old(Model()), backend(old(round) + 1, old(cursor)))
      ensures round == old(round) + 1
    {
      round := round + 1;
      var last := cursor;
      var reply := backend(round, last);
      if reply.items == [] && reply.bottom != "" && reply.bottom != last {
        cursor := reply.bottom;
        return;
      }
      if reply.items == [] {
        empty := empty + 1;
        if empty < 2 {
          return;
        }
        done := true;
        return;
      }
      empty := 0;
      AddItems(reply.items);
      if reply.bottom != "" && reply.bottom != last {
        cursor := reply.bottom;
      } else {
        done := true;
      }
    }

    /** One round of a request that ends in `goal`. */
    method FetchToward(p: nat, ghost goal: Feed<T>)
      requires !Settled(lim, Model(), p) && Advance(lim, backend, Model(), p) == goal
      modifies this
      ensures Advance(lim, backend, Model(), p) == goal && round == old(round) + 1
    {
      ghost var s := Model();
      ghost var t := Round(s, backend(s.round + 1, s.cursor));
      assert Advance(lim, backend, t, p) == goal by { AdvanceStep(lim, backend, s, p); }
      FetchRound();
      assert Model() == t;
    }

    method Request(pg: int) returns (view: View<T>)
      modifies this
      ensures Model() == Advance(lim, backend, old(Model()), PageNumber(pg))
      ensures view == PoolView(pool, PageNumber(pg), !done, lim.pageSize)
    {
      var p := PageNumber(pg);
      var need, budget := p * lim.pageSize, Budget(lim, p);
      ghost var goal := Advance(lim, backend, Model(), p);
      while |pool| < need && !done && round < budget
        invariant Advance(lim, backend, Model(), p) == goal
        decreases budget - round
      {
        FetchToward(p, goal);
      }
      AdvanceStop(lim, backend, Model(), p);
      view := PoolView(pool, p, !done, lim.pageSize);
    }

    method AddItems(items: seq<seq<Card<T>>>)
      modifies this
      ensures Model() == Take(old(Model()), Flatten(items))
    {
      ghost var s := Model();
      TakeNone(s);
      for i := 0 to |items|
        invariant Model() == Take(s, Flatten(items[..i]))
      {
        assert Flatten(items[..i]) + items[i][..0] == Flatten(items[..i]);
        for j := 0 to |items[i]|
          invariant Model() == Take(s, Flatten(items[..i]) + items[i][..j])
        {
          TakeConcat(s, Flatten(items[..i]) + items[i][..j], [items[i][j]]);
          assert Flatten(items[..i]) + items[i][..j] + [items[i][j]] == Flatten(items[..i]) + items[i][..j + 1];
          AddCard(items[i][j]);
        }
        assert items[i][..|items[i]|] == items[i];
        FlattenSnoc(items, i);
      }
      assert items[..|items|] == items;
    }
  }

  lemma {:induction false} FlattenSnoc<T>(items: seq<seq<T>>, i: nat)
    requires i < |items|
    ensures Flatten(items[..i + 1]) == Flatten(items[..i]) + items[i]
  {
    if i == 0 {
      assert items[..1][1..] == [];
    } else {
      FlattenSnoc(items[1..], i - 1);
      assert items[..i + 1][1..] == items[1..][..i] && items[..i][1..] == items[1..][..i - 1];
    }
  }

  lemma {:induction false} NewCardsConcat<T>(seen: set<string>, a: seq<Card<T>>, b: seq<Card<T>>)
    ensures NewCards(seen, a + b) == NewCards(seen, a) + NewCards(seen + Keys(NewCards(seen, a)), b)
    decreases a
  {
    if a == [] {
      assert a + b == b;
      assert seen + Keys(NewCards(seen, a)) == seen;
    } else {
      assert (a + b)[1..] == a[1..] + b;
      var k := a[0].key;
      if k != "" && k !in seen {
        NewCardsConcat(seen + {k}, a[1..], b);
        KeysConcat([a[0]], NewCards(seen + {k}, a[1..]));
        KeysOne(a[0]);
        assert seen + {k} + Keys(NewCards(seen + {k}, a[1..])) == seen + Keys(NewCards(seen, a));
      } else {
        NewCardsConcat(seen, a[1..], b);
      }
    }
  }

  lemma TakeNone<T>(s: Feed<T>)
    ensures Take(s, []) == s
  {
    assert s.seen + Keys<T>([]) == s.seen;
  }

  lemma TakeConcat<T>(s: Feed<T>, a: seq<Card<T>>, b: seq<Card<T>>)
    ensures Take(s, a + b) == Take(Take(s, a), b)
  {
    NewCardsConcat(s.seen, a, b);
    KeysConcat(NewCards(s.seen, a), NewCards(s.seen + Keys(NewCards(s.seen, a)), b));
  }

  lemma KeysOne<T>(card: Card<T>)
    ensures Keys([card]) == {card.key}
  {
    assert [card][0] == card;
  }

  lemma KeysConcat<T>(a: seq<Card<T>>, b: seq<Card<T>>)
    ensures Keys(a + b) == Keys(a) + Keys(b)
  {
    assert forall i | 0 <= i < |b| :: (a + b)[|a| + i] == b[i];
    assert forall i | 0 <= i < |a| :: (a + b)[i] == a[i];
  }
}
