/**
 The random-access page cache over a forward-only cursor chain
 (`_paged` and `_page_ret` of the X spider).

 A backend answers a cursor with items and the cursor of the next page; an empty
 cursor ends the chain. `Paged` caches both under text keys, fills the gap when a
 page is asked for out of order, and falls back to the first page past the end.
 */
module CursorPages {
  import opened Options
  import opened Paging
  import opened Text

  datatype Answer<+Item> = Answer(items: seq<Item>, bottom: string)

  datatype View<+Item> = View(list: seq<Item>, page: nat, pageCount: nat, limit: int, total: nat)

  /** What the backend answers for a request key and a cursor. */
  type Backend<!Item> = (string, string) -> Answer<Item>

  // ----- the reference: walking the chain from its start -----

  function CursorOf<Item>(backend: Backend<Item>, key: string, page: nat): string
    requires page >= 1
    decreases page, 0
  {
    if page == 1 then "" else Walk(backend, key, page - 1).bottom
  }

  function Walk<Item>(backend: Backend<Item>, key: string, page: nat): Answer<Item>
    requires page >= 1
    decreases page, 1
  {
    backend(key, CursorOf(backend, key, page))
  }

  /** The chain is long enough to have this page. */
  predicate InChain<Item>(backend: Backend<Item>, key: string, page: nat) {
    page >= 1 && (page == 1 || (InChain(backend, key, page - 1) && Walk(backend, key, page - 1).bottom != ""))
  }

  lemma {:induction false} EarlierInChain<Item>(backend: Backend<Item>, key: string, i: nat, page: nat)
    requires 1 <= i <= page && InChain(backend, key, page)
    ensures InChain(backend, key, i)
    ensures i < page ==> Walk(backend, key, i).bottom != ""
    decreases page - i
  {
    if i < page {
      EarlierInChain(backend, key, i + 1, page);
    }
  }

  lemma NotBeyond<Item>(backend: Backend<Item>, key: string, last: nat, page: nat)
    requires 1 <= last < page && Walk(backend, key, last).bottom == ""
    ensures !InChain(backend, key, page)
  {
    if InChain(backend, key, page) {
      EarlierInChain(backend, key, last, page);
    }
  }

  function PageView<Item>(answer: Answer<Item>, page: nat, pageSize: int): View<Item> {
    View(answer.items, page,
         if answer.bottom != "" then page + 1 else page,
         pageSize,
         if answer.bottom != "" then 999999 else |answer.items|)
  }

  /** An answer is shown with all its items, in their order, and a further page is promised exactly if it names a
      cursor. */
  ghost predicate Shows<Item>(view: View<Item>, a: Answer<Item>, page: nat, pageSize: int, more: bool) {
    view == View(a.items, page, if more then page + 1 else page, pageSize, if more then 999999 else |a.items|)
  }

  lemma PageShown<Item>(backend: Backend<Item>, key: string, page: nat, a: Answer<Item>, pageSize: int)
    ensures Shows(PageView(a, page, pageSize), a, page, pageSize, a.bottom != "")
    ensures InChain(backend, key, page) && a == Walk(backend, key, page)
            ==> Shows(PageView(a, page, pageSize), a, page, pageSize, InChain(backend, key, page + 1))
  {
  }

  /** The page count promises a further page exactly if the chain has one, and the last page counts its items. */
  lemma PageCountTellsNext<Item>(backend: Backend<Item>, key: string, page: nat, pageSize: int)
    requires InChain(backend, key, page)
    ensures var view := PageView(Walk(backend, key, page), page, pageSize);
            && (view.pageCount > page <==> InChain(backend, key, page + 1))
            && (view.total == |view.list| || InChain(backend, key, page + 1))
  {
    assert InChain(backend, key, page + 1) <==> Walk(backend, key, page).bottom != "";
  }

  /** What an empty cache serves: the page, or past the end the first page over again. */
  function FreshAnswer<Item>(backend: Backend<Item>, key: string, page: nat): Answer<Item>
    requires page >= 1
  {
    Walk(backend, key, if InChain(backend, key, page) then page else 1)
  }

  /** What a reader would expect past the end: nothing, and no further page. */
  function ExpectedAnswer<Item>(backend: Backend<Item>, key: string, page: nat): Answer<Item>
    requires page >= 1
  {
    if InChain(backend, key, page) then Walk(backend, key, page) else Answer([], "")
  }

  /** The fallback is right exactly inside the chain, or when the whole chain is one empty page. */
  lemma FreshAnswerRightIff<Item>(backend: Backend<Item>, key: string, page: nat, pageSize: int)
    requires page >= 1
    ensures PageView(FreshAnswer(backend, key, page), page, pageSize)
         == PageView(ExpectedAnswer(backend, key, page), page, pageSize)
       <==> InChain(backend, key, page) || backend(key, "") == Answer([], "")
  {
    assert CursorOf(backend, key, 1) == "";
    if !InChain(backend, key, page) {
      var first := backend(key, "");
      assert Walk(backend, key, 1) == first;
      if first.items == [] && first.bottom == "" {
        assert first == Answer([], "");
      }
    }
  }

  /** A chain of two pages: page 3 shows page 1 again and promises a page 4. */
  lemma PastEndShowsFirstPage()
    ensures var backend: Backend<int> := (key, cursor) => if cursor == "" then Answer([1], "next") else Answer([2], "");
            && !InChain(backend, "following:7", 3)
            && PageView(FreshAnswer(backend, "following:7", 3), 3, 20) == View([1], 3, 4, 20, 999999)
  {
    var backend: Backend<int> := (key, cursor) => if cursor == "" then Answer([1], "next") else Answer([2], "");
    assert CursorOf(backend, "following:7", 1) == "";
    assert Walk(backend, "following:7", 1) == Answer([1], "next");
    assert CursorOf(backend, "following:7", 2) == "next";
    assert Walk(backend, "following:7", 2) == Answer([2], "");
  }

  // ----- cache keys -----

  function CacheKey(key: string, kind: char, page: nat): string {
    key + [':', kind, ':'] + Decimal(page)
  }

  function PageKey(key: string, page: nat): string {
    CacheKey(key, 'p', page)
  }

  function CursorKey(key: string, page: nat): string {
    CacheKey(key, 'c', page)
  }

  /** How the keys of a page and its cursor look. */
  lemma KeyExamples()
    ensures PageKey("following:7", 12) == "following:7:p:12" && CursorKey("following:7", 12) == "following:7:c:12"
  {
    assert Decimal(1) == "1" && Decimal(12) == "12";
  }

  lemma {:induction false} CacheKeySuffix(key: string, kind: char, page: nat)
    ensures AfterLast(CacheKey(key, kind, page), ':') == |key| + 3
  {
    var s := CacheKey(key, kind, page);
    assert s[|key| + 2] == ':';
    assert forall j | |key| + 3 <= j < |s| :: s[j] == Decimal(page)[j - |key| - 3];
  }

  /** A cache key determines the request key, the kind of entry and the page it was made from. */
  lemma {:induction false} CacheKeyInjective(k1: string, t1: char, p1: nat, k2: string, t2: char, p2: nat)
    requires CacheKey(k1, t1, p1) == CacheKey(k2, t2, p2)
    ensures k1 == k2 && t1 == t2 && p1 == p2
  {
    CacheKeySuffix(k1, t1, p1);
    CacheKeySuffix(k2, t2, p2);
    var s := CacheKey(k1, t1, p1);
    assert s[..|k1|] == k1 && s[..|k2|] == k2;
    assert s[|k1| + 1] == t1 && s[|k2| + 1] == t2;
    assert s[|k1| + 3..] == Decimal(p1) && s[|k2| + 3..] == Decimal(p2);
    assert Value(Decimal(p1)) == p1 && Value(Decimal(p2)) == p2;
  }

  // ----- the cache as a value -----

  datatype Cache<+Item> = Cache(pages: map<string, Answer<Item>>, cursors: map<string, string>)

  function NoPages<Item>(): Cache<Item> {
    Cache(map[], map[])
  }

  function PageAt<Item>(s: Cache<Item>, key: string, page: nat): Option<Answer<Item>> {
    if PageKey(key, page) in s.pages then Some(s.pages[PageKey(key, page)]) else None
  }

  function CursorAt<Item>(s: Cache<Item>, key: string, page: nat): Option<string> {
    if CursorKey(key, page) in s.cursors then Some(s.cursors[CursorKey(key, page)]) else None
  }

  /** The cursor stored for a page, empty when there is none. */
  function CursorAfter<Item>(s: Cache<Item>, key: string, page: nat): string {
    match CursorAt(s, key, page) case None => "" case Some(c) => c
  }

  /** Stores an answer for a page and, when it names a next cursor, that cursor. */
  function Put<Item>(s: Cache<Item>, key: string, page: nat, a: Answer<Item>): Cache<Item> {
    Cache(s.pages[PageKey(key, page) := a],
          if a.bottom == "" then s.cursors else s.cursors[CursorKey(key, page) := a.bottom])
  }

  /** The cursor that leads to a page: none for the first. */
  function CursorTo<Item>(s: Cache<Item>, key: string, page: nat): string {
    if page > 1 then CursorAfter(s, key, page - 1) else ""
  }

  /** The loop that fills the gap before page `p`, from page `i` on, up to the end of the chain. */
  function Filled<Item>(backend: Backend<Item>, s: Cache<Item>, key: string, i: nat, p: nat): Cache<Item>
    decreases p - i
  {
    if i >= p then s
    else
      var a := backend(key, CursorTo(s, key, i));
      var t := Put(s, key, i, a);
      if a.bottom == "" then t else Filled(backend, t, key, i + 1, p)
  }

  /** The cache when the page itself is fetched. */
  function Ready<Item>(backend: Backend<Item>, s: Cache<Item>, key: string, p: nat): Cache<Item> {
    if p > 1 && CursorTo(s, key, p) == "" then Filled(backend, s, key, 1, p) else s
  }

  function Fetched<Item>(backend: Backend<Item>, s: Cache<Item>, key: string, p: nat): Answer<Item> {
    backend(key, CursorTo(Ready(backend, s, key, p), key, p))
  }

  /** The answer `_paged` shows for a page. */
  function Served<Item>(backend: Backend<Item>, s: Cache<Item>, key: string, p: nat): Answer<Item> {
    match PageAt(s, key, p) case Some(a) => a case None => Fetched(backend, s, key, p)
  }

  /** The cache `_paged` leaves behind. */
  function Requested<Item>(backend: Backend<Item>, s: Cache<Item>, key: string, p: nat): Cache<Item> {
    if PageAt(s, key, p).Some? then s else Put(Ready(backend, s, key, p), key, p, Fetched(backend, s, key, p))
  }

  /** What is at hand before a request: the page if cached, or else what the cursor stored before it leads to. */
  function AtHand<Item>(backend: Backend<Item>, s: Cache<Item>, key: string, p: nat): Answer<Item> {
    match PageAt(s, key, p) case Some(a) => a case None => backend(key, CursorTo(s, key, p))
  }

  // ----- what every request keeps -----

  /** `q` is a page of the chain, and it is the page asked for whenever the chain has that page. */
  ghost predicate StandsFor<Item>(backend: Backend<Item>, key: string, page: nat, q: nat) {
    InChain(backend, key, q) && (InChain(backend, key, page) ==> q == page)
  }

  /** An entry holds the walk's answer; only past the end of the chain may it be that of another page. */
  ghost predicate EntryOk<Item>(backend: Backend<Item>, key: string, page: nat, a: Answer<Item>) {
    exists q: nat :: StandsFor(backend, key, page, q) && a == Walk(backend, key, q)
  }

  ghost predicate CursorOk<Item>(backend: Backend<Item>, key: string, page: nat, c: string) {
    c != "" && exists q: nat :: StandsFor(backend, key, page, q) && c == Walk(backend, key, q).bottom
  }

  ghost predicate CacheOk<Item>(backend: Backend<Item>, s: Cache<Item>) {
    && (forall key: string, p: nat | p >= 1 && PageAt(s, key, p).Some? ::
          EntryOk(backend, key, p, PageAt(s, key, p).value))
    && (forall key: string, p: nat | p >= 1 && CursorAt(s, key, p).Some? ::
          CursorOk(backend, key, p, CursorAt(s, key, p).value))
  }

  /** Every entry of another request key is as it was. */
  ghost predicate SameElsewhere<Item>(s: Cache<Item>, t: Cache<Item>, key: string) {
    forall k: string, i: nat | k != key :: PageAt(t, k, i) == PageAt(s, k, i) && CursorAt(t, k, i) == CursorAt(s, k, i)
  }

  lemma PutLooksUp<Item>(s: Cache<Item>, key: string, page: nat, a: Answer<Item>, k: string, i: nat)
    ensures var t := Put(s, key, page, a);
            if k == key && i == page
            then PageAt(t, k, i) == Some(a)
                 && CursorAt(t, k, i) == (if a.bottom != "" then Some(a.bottom) else CursorAt(s, k, i))
            else PageAt(t, k, i) == PageAt(s, k, i) && CursorAt(t, k, i) == CursorAt(s, k, i)
  {
    if PageKey(k, i) == PageKey(key, page) { CacheKeyInjective(k, 'p', i, key, 'p', page); }
    if CursorKey(k, i) == CursorKey(key, page) { CacheKeyInjective(k, 'c', i, key, 'c', page); }
  }

  lemma PutKeeps<Item>(backend: Backend<Item>, s: Cache<Item>, key: string, page: nat, a: Answer<Item>)
    requires CacheOk(backend, s) && page >= 1 && EntryOk(backend, key, page, a)
    ensures CacheOk(backend, Put(s, key, page, a)) && SameElsewhere(s, Put(s, key, page, a), key)
  {
    var t := Put(s, key, page, a);
    forall k: string, i: nat ensures PageAt(t, k, i) == if k == key && i == page then Some(a) else PageAt(s, k, i) {
      PutLooksUp(s, key, page, a, k, i);
    }
    forall k: string, i: nat
      ensures CursorAt(t, k, i) == if k == key && i == page && a.bottom != "" then Some(a.bottom) else CursorAt(s, k, i)
    {
      PutLooksUp(s, key, page, a, k, i);
    }
  }

  /** The gap is being filled: page `i` is of the chain, and the cursor that leads to it is the walk's. */
  ghost predicate Filling<Item>(backend: Backend<Item>, s: Cache<Item>, key: string, i: nat) {
    CacheOk(backend, s) && InChain(backend, key, i) && CursorTo(s, key, i) == CursorOf(backend, key, i)
  }

  lemma FillingStep<Item>(backend: Backend<Item>, s: Cache<Item>, key: string, i: nat, p: nat)
    requires Filling(backend, s, key, i) && i < p
    ensures var a := backend(key, CursorTo(s, key, i));
            var t := Put(s, key, i, a);
            && CacheOk(backend, t) && SameElsewhere(s, t, key)
            && (if a.bottom == "" then !InChain(backend, key, p) else Filling(backend, t, key, i + 1))
            && (a.bottom == "" || i + 1 < p ==> CursorTo(t, key, p) == CursorTo(s, key, p))
  {
    var a := backend(key, CursorTo(s, key, i));
    assert a == Walk(backend, key, i) && StandsFor(backend, key, i, i);
    PutKeeps(backend, s, key, i, a);
    PutLooksUp(s, key, i, a, key, i);
    PutLooksUp(s, key, i, a, key, p - 1);
    if a.bottom == "" { NotBeyond(backend, key, i, p); }
  }

  /** Inside the chain filling leads to the page; past the end it leaves the cursor before the page as it was. */
  lemma {:induction false} FilledKeeps<Item>(backend: Backend<Item>, s: Cache<Item>, key: string, i: nat, p: nat)
    requires Filling(backend, s, key, i) && 1 <= i <= p
    ensures var t := Filled(backend, s, key, i, p);
            && CacheOk(backend, t) && SameElsewhere(s, t, key)
            && CursorTo(t, key, p)
               == if InChain(backend, key, p) then CursorOf(backend, key, p) else CursorTo(s, key, p)
    decreases p - i
  {
    if i < p {
      var a := backend(key, CursorTo(s, key, i));
      var t := Put(s, key, i, a);
      FillingStep(backend, s, key, i, p);
      if a.bottom != "" {
        FilledKeeps(backend, t, key, i + 1, p);
        assert i + 1 == p ==> InChain(backend, key, p);
        SameTwice(s, t, Filled(backend, t, key, i + 1, p), key);
      }
    }
  }

  lemma SameTwice<Item>(s: Cache<Item>, t: Cache<Item>, u: Cache<Item>, key: string)
    requires SameElsewhere(s, t, key) && SameElsewhere(t, u, key)
    ensures SameElsewhere(s, u, key)
  {
  }

  lemma ReadyKeeps<Item>(backend: Backend<Item>, s: Cache<Item>, key: string, p: nat)
    requires CacheOk(backend, s) && p >= 1
    ensures var t := Ready(backend, s, key, p);
            && CacheOk(backend, t) && SameElsewhere(s, t, key)
            && CursorTo(t, key, p)
               == if InChain(backend, key, p) then CursorOf(backend, key, p) else CursorTo(s, key, p)
  {
    if p > 1 {
      if CursorTo(s, key, p) == "" {
        FilledKeeps(backend, s, key, 1, p);
      } else if InChain(backend, key, p) {
        EarlierInChain(backend, key, p - 1, p);
        var q: nat :| StandsFor(backend, key, p - 1, q) && CursorTo(s, key, p) == Walk(backend, key, q).bottom;
      }
    }
  }

  /** Inside the chain the page a walk from the start reaches is served; past the end, what is at hand. */
  lemma ServedIs<Item>(backend: Backend<Item>, s: Cache<Item>, key: string, p: nat)
    requires CacheOk(backend, s) && p >= 1
    ensures Served(backend, s, key, p)
         == if InChain(backend, key, p) then Walk(backend, key, p) else AtHand(backend, s, key, p)
  {
    ReadyKeeps(backend, s, key, p);
  }

  /** Whatever is served is a page of the chain. */
  lemma ServedOk<Item>(backend: Backend<Item>, s: Cache<Item>, key: string, p: nat)
    requires CacheOk(backend, s) && p >= 1
    ensures EntryOk(backend, key, p, Served(backend, s, key, p))
  {
    ServedIs(backend, s, key, p);
    if InChain(backend, key, p) {
      assert StandsFor(backend, key, p, p);
    } else if PageAt(s, key, p).None? {
      var c := CursorTo(s, key, p);
      if c == "" {
        assert CursorOf(backend, key, 1) == "" && StandsFor(backend, key, p, 1);
      } else {
        var q: nat :| StandsFor(backend, key, p - 1, q) && c == Walk(backend, key, q).bottom;
        assert CursorOf(backend, key, q + 1) == c && StandsFor(backend, key, p, q + 1);
      }
    }
  }

  /** A request keeps the cache in agreement with the walk and other keys untouched. */
  lemma RequestKeeps<Item>(backend: Backend<Item>, s: Cache<Item>, key: string, p: nat)
    requires CacheOk(backend, s) && p >= 1
    ensures CacheOk(backend, Requested(backend, s, key, p)) && SameElsewhere(s, Requested(backend, s, key, p), key)
  {
    if PageAt(s, key, p).None? {
      ReadyKeeps(backend, s, key, p);
      ServedOk(backend, s, key, p);
      PutKeeps(backend, Ready(backend, s, key, p), key, p, Fetched(backend, s, key, p));
    }
  }

  lemma RequestCaches<Item>(backend: Backend<Item>, s: Cache<Item>, key: string, p: nat)
    ensures PageAt(Requested(backend, s, key, p), key, p) == Some(Served(backend, s, key, p))
  {
  }

  // ----- every run of requests -----

  datatype Ask = Ask(key: string, page: int)

  function Run<Item>(backend: Backend<Item>, asks: seq<Ask>): Cache<Item> {
    if asks == [] then NoPages()
    else
      var init, last := asks[..|asks| - 1], asks[|asks| - 1];
      Requested(backend, Run(backend, init), last.key, PageNumber(last.page))
  }

  lemma {:induction false} RunOk<Item>(backend: Backend<Item>, asks: seq<Ask>)
    ensures CacheOk(backend, Run(backend, asks))
  {
    if asks != [] {
      var init, last := asks[..|asks| - 1], asks[|asks| - 1];
      RunOk(backend, init);
      RequestKeeps(backend, Run(backend, init), last.key, PageNumber(last.page));
    }
  }

  /** After any requests, for any keys in any order, a page of the chain is served as a walk from the start finds it. */
  lemma RunServesWalk<Item>(backend: Backend<Item>, asks: seq<Ask>, key: string, page: nat)
    requires InChain(backend, key, page)
    ensures Served(backend, Run(backend, asks), key, page) == Walk(backend, key, page)
  {
    RunOk(backend, asks);
    ServedIs(backend, Run(backend, asks), key, page);
  }

  /** The answer shown is right exactly inside the chain, or when what is at hand before the request is empty and
      the last. */
  lemma ServedRightIff<Item>(backend: Backend<Item>, s: Cache<Item>, key: string, page: nat, pageSize: int)
    requires CacheOk(backend, s) && page >= 1
    ensures PageView(Served(backend, s, key, page), page, pageSize)
         == PageView(ExpectedAnswer(backend, key, page), page, pageSize)
       <==> InChain(backend, key, page) || AtHand(backend, s, key, page) == Answer([], "")
  {
    ServedIs(backend, s, key, page);
    var served := AtHand(backend, s, key, page);
    if served.items == [] && served.bottom == "" {
      assert served == Answer([], "");
    }
  }

  /** With neither the page nor the cursor before it cached, an empty cache's answer is served. */
  lemma FreshServes<Item>(backend: Backend<Item>, s: Cache<Item>, key: string, p: nat)
    requires CacheOk(backend, s) && p >= 1 && PageAt(s, key, p).None? && CursorTo(s, key, p) == ""
    ensures Served(backend, s, key, p) == FreshAnswer(backend, key, p)
  {
    ServedIs(backend, s, key, p);
    assert CursorOf(backend, key, 1) == "";
  }

  /** Filling a gap inside the chain stores every page on the way. */
  lemma {:induction false} GapIsCached<Item>(backend: Backend<Item>, s: Cache<Item>, key: string,
        i: nat, p: nat, j: nat)
    requires Filling(backend, s, key, i) && 1 <= i <= j < p && InChain(backend, key, p)
    ensures PageAt(Filled(backend, s, key, i, p), key, j) == Some(Walk(backend, key, j))
    decreases p - i
  {
    FillingStep(backend, s, key, i, p);
    EarlierInChain(backend, key, i, p);
    var a := backend(key, CursorTo(s, key, i));
    var t := Put(s, key, i, a);
    if i < j {
      GapIsCached(backend, t, key, i + 1, p, j);
    } else {
      PutLooksUp(s, key, i, a, key, i);
      FilledElsewhere(backend, t, key, i + 1, p, j);
    }
  }

  /** Filling from a page on leaves the pages before it alone. */
  lemma {:induction false} FilledElsewhere<Item>(backend: Backend<Item>, s: Cache<Item>, key: string,
        i: nat, p: nat, j: nat)
    requires j < i
    ensures PageAt(Filled(backend, s, key, i, p), key, j) == PageAt(s, key, j)
    decreases p - i
  {
    if i < p {
      var a := backend(key, CursorTo(s, key, i));
      PutLooksUp(s, key, i, a, key, j);
      FilledElsewhere(backend, Put(s, key, i, a), key, i + 1, p, j);
    }
  }

  /** Asking a new cache for a page of the chain caches all pages up to it. */
  lemma JumpCaches<Item>(backend: Backend<Item>, key: string, p: nat, j: nat)
    requires InChain(backend, key, p) && 1 <= j <= p
    ensures PageAt(Requested(backend, NoPages(), key, p), key, j) == Some(Walk(backend, key, j))
  {
    var s: Cache<Item> := NoPages();
    ServedIs(backend, s, key, p);
    RequestCaches(backend, s, key, p);
    if j < p {
      EarlierInChain(backend, key, 1, p);
      assert CursorOf(backend, key, 1) == "";
      GapIsCached(backend, s, key, 1, p, j);
      PutLooksUp(Ready(backend, s, key, p), key, p, Fetched(backend, s, key, p), key, j);
    }
  }

  // ----- asking for one page after the other -----

  /** What asking for pages 1, 2, 3, … shows: each time what the cursor of the page before leads to. */
  function InOrder<Item>(backend: Backend<Item>, key: string, page: nat): Answer<Item>
    requires page >= 1
  {
    backend(key, if page == 1 then "" else InOrder(backend, key, page - 1).bottom)
  }

  function FirstPages(key: string, n: nat): seq<Ask> {
    if n == 0 then [] else FirstPages(key, n - 1) + [Ask(key, n)]
  }

  lemma RunFirstPages<Item>(backend: Backend<Item>, key: string, n: nat)
    requires n >= 1
    ensures Run(backend, FirstPages(key, n)) == Requested(backend, Run(backend, FirstPages(key, n - 1)), key, n)
  {
    var asks := FirstPages(key, n);
    assert asks[..|asks| - 1] == FirstPages(key, n - 1);
  }

  /** Of this key the cache holds exactly the first `n` pages shown in order, and their cursors. */
  ghost predicate Walked<Item>(backend: Backend<Item>, s: Cache<Item>, key: string, n: nat) {
    && (forall i: nat | i >= 1 :: PageAt(s, key, i) == if i <= n then Some(InOrder(backend, key, i)) else None)
    && (forall i: nat | i >= 1 :: CursorAt(s, key, i) ==
          if i <= n && InOrder(backend, key, i).bottom != "" then Some(InOrder(backend, key, i).bottom) else None)
  }

  lemma {:induction false} InOrderInChain<Item>(backend: Backend<Item>, key: string, i: nat)
    requires InChain(backend, key, i)
    ensures InOrder(backend, key, i) == Walk(backend, key, i)
  {
    if i > 1 { InOrderInChain(backend, key, i - 1); }
  }

  lemma PutWalked<Item>(backend: Backend<Item>, s: Cache<Item>, key: string, i: nat, n: nat)
    requires Walked(backend, s, key, n) && 1 <= i <= n + 1
    ensures Walked(backend, Put(s, key, i, InOrder(backend, key, i)), key, if i <= n then n else n + 1)
  {
    forall j: nat ensures
      var t, a := Put(s, key, i, InOrder(backend, key, i)), InOrder(backend, key, i);
      && PageAt(t, key, j) == (if j == i then Some(a) else PageAt(s, key, j))
      && CursorAt(t, key, j) == (if j == i && a.bottom != "" then Some(a.bottom) else CursorAt(s, key, j))
    {
      PutLooksUp(s, key, i, InOrder(backend, key, i), key, j);
    }
  }

  lemma {:induction false} FilledWalked<Item>(backend: Backend<Item>, s: Cache<Item>, key: string, i: nat, n: nat)
    requires Walked(backend, s, key, n) && 1 <= i <= n + 1 && InChain(backend, key, i)
    ensures Walked(backend, Filled(backend, s, key, i, n + 1), key, n)
    decreases n + 1 - i
  {
    if i <= n {
      var a := InOrder(backend, key, i);
      InOrderInChain(backend, key, i);
      assert a == backend(key, CursorTo(s, key, i));
      PutWalked(backend, s, key, i, n);
      if a.bottom != "" { FilledWalked(backend, Put(s, key, i, a), key, i + 1, n); }
    }
  }

  lemma {:induction false} InOrderWalked<Item>(backend: Backend<Item>, key: string, n: nat)
    ensures Walked(backend, Run(backend, FirstPages(key, n)), key, n)
    ensures Served(backend, Run(backend, FirstPages(key, n)), key, n + 1) == InOrder(backend, key, n + 1)
  {
    var s := Run(backend, FirstPages(key, n));
    if n > 0 {
      RunFirstPages(backend, key, n);
      InOrderWalked(backend, key, n - 1);
      var before := Run(backend, FirstPages(key, n - 1));
      ReadyWalked(backend, before, key, n - 1);
      PutWalked(backend, Ready(backend, before, key, n), key, n, n - 1);
    }
    ReadyWalked(backend, s, key, n);
  }

  lemma ReadyWalked<Item>(backend: Backend<Item>, s: Cache<Item>, key: string, n: nat)
    requires Walked(backend, s, key, n)
    ensures Walked(backend, Ready(backend, s, key, n + 1), key, n)
    ensures PageAt(s, key, n + 1).None? && Fetched(backend, s, key, n + 1) == InOrder(backend, key, n + 1)
  {
    FilledWalked(backend, s, key, 1, n);
  }

  /** A page counted around a chain of `last` pages. */
  function Around(page: nat, last: nat): (q: nat)
    requires page >= 1 && last >= 1
    ensures 1 <= q <= last && (page <= last ==> q == page)
  {
    if page <= last then page else Around(page - last, last)
  }

  lemma {:induction false} AroundNext(page: nat, last: nat)
    requires page >= 1 && last >= 1
    ensures Around(page + 1, last) == if Around(page, last) == last then 1 else Around(page, last) + 1
  {
    if page > last { AroundNext(page - last, last); }
  }

  lemma {:induction false} InOrderRepeats<Item>(backend: Backend<Item>, key: string, last: nat, p: nat)
    requires InChain(backend, key, last) && Walk(backend, key, last).bottom == "" && p >= 1
    ensures InOrder(backend, key, p) == Walk(backend, key, Around(p, last))
  {
    assert CursorOf(backend, key, 1) == "";
    if p > 1 {
      InOrderRepeats(backend, key, last, p - 1);
      AroundNext(p - 1, last);
    }
  }

  /** A finite chain asked for page by page is shown over and over: there is no last page. */
  lemma WalkRepeats<Item>(backend: Backend<Item>, key: string, last: nat, p: nat)
    requires InChain(backend, key, last) && Walk(backend, key, last).bottom == "" && p >= 1
    ensures Served(backend, Run(backend, FirstPages(key, p - 1)), key, p) == Walk(backend, key, Around(p, last))
  {
    InOrderWalked(backend, key, p - 1);
    InOrderRepeats(backend, key, last, p);
  }

  // ----- a filled cache past the end, concretely -----

  function TwoPages(): Backend<int> {
    (key: string, cursor: string) => if cursor == "" then Answer([1], "next") else Answer([2], "")
  }

  lemma TwoPagesEnd(key: string, page: nat)
    requires page >= 3
    ensures Walk(TwoPages(), key, 1) == Answer([1], "next") && Walk(TwoPages(), key, 2) == Answer([2], "")
    ensures !InChain(TwoPages(), key, page)
  {
    assert CursorOf(TwoPages(), key, 1) == "";
    assert CursorOf(TwoPages(), key, 2) == "next";
    NotBeyond(TwoPages(), key, 2, page);
  }

  /** After page 3 of two, page 4 shows page 2. */
  lemma FilledPastEnd(key: string)
    ensures var s := Run(TwoPages(), [Ask(key, 3)]);
            PageView(Served(TwoPages(), s, key, 4), 4, 20) == View([2], 4, 4, 20, 1)
  {
    var s0: Cache<int> := NoPages();
    var asks := [Ask(key, 3)];
    assert asks[..0] == [];
    var s := Requested(TwoPages(), s0, key, 3);
    assert Run(TwoPages(), asks) == s;
    RunOk(TwoPages(), asks);
    TwoPagesEnd(key, 3);
    TwoPagesEnd(key, 4);
    ServedIs(TwoPages(), s0, key, 3);
    ServedIs(TwoPages(), s, key, 4);
    FilledBefore(TwoPages(), s0, key, 1, 3, 4);
    PutLooksUp(Ready(TwoPages(), s0, key, 3), key, 3, Answer([1], "next"), key, 3);
    PutLooksUp(Ready(TwoPages(), s0, key, 3), key, 3, Answer([1], "next"), key, 4);
  }

  /** Filling the gap before a page leaves that page and later ones alone. */
  lemma {:induction false} FilledBefore<Item>(backend: Backend<Item>, s: Cache<Item>, key: string,
        i: nat, p: nat, j: nat)
    requires j >= p
    ensures PageAt(Filled(backend, s, key, i, p), key, j) == PageAt(s, key, j)
    decreases p - i
  {
    if i < p {
      var a := backend(key, CursorTo(s, key, i));
      PutLooksUp(s, key, i, a, key, j);
      FilledBefore(backend, Put(s, key, i, a), key, i + 1, p, j);
    }
  }

  // ----- the object -----

  class PageCache<Item> {
    const backend: Backend<Item>
    const pageSize: int
    var pages: map<string, Answer<Item>>
    var cursors: map<string, string>

    constructor (backend: Backend<Item>, pageSize: int)
      ensures Valid() && Model() == NoPages()
      ensures this.backend == backend && this.pageSize == pageSize
    {
      this.backend, this.pageSize := backend, pageSize;
      pages, cursors := map[], map[];
    }

    function Model(): Cache<Item>
      reads this
    {
      Cache(pages, cursors)
    }

    ghost predicate Valid()
      reads this
    {
      CacheOk(backend, Model())
    }

    method Store(key: string, page: nat, answer: Answer<Item>)
      modifies this
      ensures Model() == Put(old(Model()), key, page, answer)
      // an answer of the walk keeps the cache in agreement with it, and other keys are never disturbed
      ensures old(Valid()) && page >= 1 && EntryOk(backend, key, page, answer)
              ==> Valid() && SameElsewhere(old(Model()), Model(), key)
    {
      if Valid() && page >= 1 && EntryOk(backend, key, page, answer) {
        PutKeeps(backend, Model(), key, page, answer);
      }
      pages := pages[PageKey(key, page) := answer];
      if answer.bottom != "" {
        cursors := cursors[CursorKey(key, page) := answer.bottom];
      }
    }

    /** The loop over the pages before `p`. */
    method Fill(key: string, p: nat)
      requires p >= 1
      modifies this
      ensures Model() == Filled(backend, old(Model()), key, 1, p)
    {
      ghost var goal := Filled(backend, Model(), key, 1, p);
      var i := 1;
      while i < p
        invariant 1 <= i <= p && Filled(backend, Model(), key, i, p) == goal
      {
        var prev := if i > 1 then CursorAfter(Model(), key, i - 1) else "";
        var answer := backend(key, prev);
        Store(key, i, answer);
        if answer.bottom == "" {
          return;
        }
        i := i + 1;
      }
    }

    /** `_paged` before its answer is wrapped. */
    method Lookup(key: string, p: nat) returns (answer: Answer<Item>)
      requires p >= 1
      modifies this
      ensures Model() == Requested(backend, old(Model()), key, p)
      ensures answer == Served(backend, old(Model()), key, p)
    {
      if PageKey(key, p) in pages {
        return pages[PageKey(key, p)];
      }
      var cursor := if p > 1 then CursorAfter(Model(), key, p - 1) else "";
      if p > 1 && cursor == "" {
        Fill(key, p);
        cursor := CursorAfter(Model(), key, p - 1);
      }
      answer := backend(key, cursor);
      Store(key, p, answer);
    }

    method Paged(key: string, pg: int) returns (view: View<Item>)
      requires Valid()
      modifies this
      // one request of the runs above
      ensures Model() == Requested(backend, old(Model()), key, PageNumber(pg))
      ensures view == PageView(Served(backend, old(Model()), key, PageNumber(pg)), PageNumber(pg), pageSize)
      ensures Valid() && SameElsewhere(old(Model()), Model(), key)
      // within the chain: exactly the page a walk from the start reaches, whatever was asked before
      ensures var p := PageNumber(pg);
              InChain(backend, key, p) ==> view == PageView(Walk(backend, key, p), p, pageSize)
      // all its items, and a further page promised exactly if the chain has one
      ensures var p := PageNumber(pg);
              InChain(backend, key, p) ==>
                Shows(view, Walk(backend, key, p), p, pageSize, InChain(backend, key, p + 1))
      ensures var p := PageNumber(pg);
              !InChain(backend, key, p) ==>
                var a := AtHand(backend, old(Model()), key, p);
                Shows(view, a, p, pageSize, a.bottom != "")
      // past its end: what is at hand before the request
      ensures var p := PageNumber(pg);
              !InChain(backend, key, p) ==> view == PageView(AtHand(backend, old(Model()), key, p), p, pageSize)
      // anywhere: some page of the chain, and it stays cached
      ensures var p := PageNumber(pg);
              exists q: nat :: StandsFor(backend, key, p, q) && view == PageView(Walk(backend, key, q), p, pageSize)
      ensures var p := PageNumber(pg);
              PageAt(Model(), key, p).Some? && view == PageView(PageAt(Model(), key, p).value, p, pageSize)
      // with nothing cached around it: what an empty cache serves
      ensures var p := PageNumber(pg);
              PageAt(old(Model()), key, p).None? && CursorTo(old(Model()), key, p) == ""
              ==> view == PageView(FreshAnswer(backend, key, p), p, pageSize)
      // and so the right answer exactly inside the chain, or when that is empty and the last
      ensures var p := PageNumber(pg);
              view == PageView(ExpectedAnswer(backend, key, p), p, pageSize)
              <==> InChain(backend, key, p) || AtHand(backend, old(Model()), key, p) == Answer([], "")
    {
      var p := PageNumber(pg);
      ghost var s := Model();
      var answer := Lookup(key, p);
      RequestKeeps(backend, s, key, p);
      RequestCaches(backend, s, key, p);
      ServedIs(backend, s, key, p);
      ServedOk(backend, s, key, p);
      ServedRightIff(backend, s, key, p, pageSize);
      PageShown(backend, key, p, answer, pageSize);
      if PageAt(s, key, p).None? && CursorTo(s, key, p) == "" { FreshServes(backend, s, key, p); }
      view := PageView(answer, p, pageSize);
    }
  }
}
