/** What every interleaving of events keeps, and when loads start and deferred plays are served. */
module PomoRuns {
  import opened PomoStore

  // ----- the lists -----

  predicate Distinct(list: seq<Item>) {
    && (forall i | 0 <= i < |list| :: list[i].url != "")
    && (forall i, j | 0 <= i < j < |list| :: list[i].url != list[j].url)
  }

  predicate Indexed(list: seq<Item>) {
    forall i | 0 <= i < |list| :: list[i].index == i + 1
  }

  ghost predicate Inv(s: State) {
    && Distinct(s.online) && Distinct(s.pan) && Distinct(s.magnet)
    && Indexed(s.pan) && Indexed(s.magnet)
    && !(s.loading && s.loaded)
    // while loading, the load started last is in flight, for the page shown
    && (s.loading ==> s.nextLoad > 0 && s.nextLoad - 1 in s.pending && s.pending[s.nextLoad - 1] == s.onlinePage)
    && (forall load | load in s.pending :: load < s.nextLoad && s.pending[load] != "")
  }

  lemma AddedKeeps(list: seq<Item>, item: Item)
    requires Distinct(list)
    ensures Distinct(Added(list, item)) && list <= Added(list, item)
    ensures Indexed(list) ==> Indexed(Added(list, item))
    ensures forall u :: HasUrl(Added(list, item), u) <==> HasUrl(list, u) || (u != "" && u == item.url)
  {
    var after := Added(list, item);
    if after != list {
      assert forall i | 0 <= i < |list| :: after[i] == list[i];
      assert after[|list|].url == item.url;
    }
    forall u ensures HasUrl(after, u) <==> HasUrl(list, u) || (u != "" && u == item.url) {
      if HasUrl(list, u) {
        var i :| 0 <= i < |list| && list[i].url == u;
        assert after[i].url == u;
      }
    }
  }

  lemma {:induction false} AddedAllKeeps(list: seq<Item>, items: seq<Item>)
    requires Distinct(list)
    ensures Distinct(AddedAll(list, items)) && list <= AddedAll(list, items)
    ensures Indexed(list) ==> Indexed(AddedAll(list, items))
  {
    if items != [] {
      AddedAllKeeps(list, items[..|items| - 1]);
      AddedKeeps(AddedAll(list, items[..|items| - 1]), items[|items| - 1]);
    }
  }

  lemma {:induction false} NotFromPageKeeps(list: seq<Item>)
    requires Distinct(list)
    ensures Distinct(NotFromPage(list)) && |NotFromPage(list)| <= |list|
    ensures forall u | HasUrl(NotFromPage(list), u) :: HasUrl(list, u)
    ensures forall i | 0 <= i < |NotFromPage(list)| :: NotFromPage(list)[i].source != FROM_PAGE
  {
    if list != [] {
      var before, last := list[..|list| - 1], list[|list| - 1];
      NotFromPageKeeps(before);
      var kept := NotFromPage(before);
      forall u | HasUrl(NotFromPage(list), u) ensures HasUrl(list, u) {
        if HasUrl(kept, u) {
          var i :| 0 <= i < |before| && before[i].url == u;
          assert list[i].url == u;
        } else {
          assert list[|list| - 1].url == u;
        }
      }
      forall i | 0 <= i < |kept| ensures kept[i].url != last.url {
        assert HasUrl(kept, kept[i].url);
        var j :| 0 <= j < |before| && before[j].url == kept[i].url;
        assert list[j].url != list[|list| - 1].url;
      }
    }
  }

  // ----- every event keeps the invariant -----

  lemma {:induction false} AddLinksKeeps(s: State, links: seq<Link>)
    requires Inv(s)
    ensures Inv(AddLinks(s, links))
  {
    if links != [] {
      var before, last := AddLinks(s, links[..|links| - 1]), links[|links| - 1];
      AddLinksKeeps(s, links[..|links| - 1]);
      AddToKeeps(before, last.group, last.item);
    }
  }

  lemma AddToKeeps(s: State, g: Group, item: Item)
    requires Inv(s)
    ensures Inv(AddTo(s, g, item))
  {
    AddedKeeps(ItemsOf(s, g), item);
  }

  lemma WithActiveTabKeeps(s: State)
    requires Inv(s)
    ensures Inv(WithActiveTab(s))
  {
  }

  lemma LoadStartedKeeps(s: State, playLink: string)
    requires Inv(s)
    ensures Inv(LoadStarted(s, playLink))
  {
  }

  lemma PlayedKeeps(s: State, g: Group, row: nat, deferred: bool)
    requires Inv(s)
    ensures Inv(Played(s, g, row, deferred))
  {
  }

  lemma ScannedKeeps(s: State, page: Page)
    requires Inv(s)
    ensures Inv(Scanned(s, page))
  {
    var cleared := s.(pan := [], magnet := []);
    AddLinksKeeps(cleared, page.rows);
    AddLinksKeeps(AddLinks(cleared, page.rows), ActionLinks(page.actions));
    assert Inv(Collected(s, page));
    WithActiveTabKeeps(Collected(s, page));
    LoadStartedKeeps(WithActiveTab(Collected(s, page)), page.playLink);
  }

  lemma OnlineAfterKeeps(list: seq<Item>, outcome: Outcome, playPage: string)
    requires Distinct(list)
    ensures Distinct(OnlineAfter(list, outcome, playPage))
  {
    match outcome
    case Failed => AddedKeeps(list, PageItem(playPage));
    case NoList =>
    case Episodes(items) =>
      NotFromPageKeeps(list);
      AddedAllKeeps(NotFromPage(list), EpisodesOf(items, playPage));
  }

  /** What a completion does to the fields that no other handler of it touches. */
  lemma CompletedFields(s: State, load: nat, outcome: Outcome)
    requires load in s.pending
    ensures var t := Completed(s, load, outcome);
            && t.online == OnlineAfter(s.online, outcome, s.pending[load])
            && t.pan == s.pan && t.magnet == s.magnet
            && t.onlinePage == s.onlinePage && t.nextLoad == s.nextLoad && t.pending == s.pending - {load}
            && !t.loading && t.loaded
  {
  }

  lemma CompletedKeeps(s: State, load: nat, outcome: Outcome)
    requires Inv(s)
    ensures Inv(Completed(s, load, outcome))
  {
    if load in s.pending {
      OnlineAfterKeeps(s.online, outcome, s.pending[load]);
      CompletedFields(s, load, outcome);
    }
  }

  lemma PlayerClickedKeeps(s: State, playLink: string)
    requires Inv(s)
    ensures Inv(PlayerClicked(s, playLink))
  {
    LoadStartedKeeps(s, playLink);
    var t := (if s.online == [] && !s.loaded then LoadStarted(s, playLink) else s).(activeTab := Online);
    assert Inv(t);
    PlayedKeeps(t, Online, 0, false);
  }

  lemma LinkClickedKeeps(s: State, g: Group, item: Item)
    requires Inv(s)
    ensures Inv(LinkClicked(s, g, item))
  {
    AddToKeeps(s, g, item);
    var t := WithActiveTab(AddTo(s, g, item));
    WithActiveTabKeeps(AddTo(s, g, item));
    PlayedKeeps(t.(activeTab := g), g, RowOf(ItemsOf(t, g), item.url), false);
  }

  lemma NextKeeps(s: State, e: Event)
    requires Inv(s)
    ensures Inv(Next(s, e))
  {
    match e
    case Scan(page) => ScannedKeeps(s, page);
    case Complete(load, outcome) => CompletedKeeps(s, load, outcome);
    case PageChange => assert Inv(PageChanged(s));
    case ClickPlayer(playLink) => PlayerClickedKeeps(s, playLink);
    case ClickLink(g, item) => LinkClickedKeeps(s, g, item);
    case ClickTab(tab) => assert Inv(s.(activeTab := tab));
    case ClickRow(g, row) => PlayedKeeps(s, g, row, false);
  }

  /** Over every interleaving from the start: distinct non-empty addresses, right indices in the pan and magnet
      lists, never loading and loaded at once. */
  lemma {:induction false} RunKeepsInv(events: seq<Event>)
    ensures Inv(Run(INITIAL, events))
  {
    if events != [] {
      RunKeepsInv(events[..|events| - 1]);
      NextKeeps(Run(INITIAL, events[..|events| - 1]), events[|events| - 1]);
    }
  }

  // ----- the index of online items -----

  lemma {:induction false} AddedAllIndexed(list: seq<Item>, items: seq<Item>)
    ensures list <= AddedAll(list, items)
    ensures Indexed(AddedAll(list, items)) <==> Indexed(list)
  {
    if items != [] {
      var before, item := AddedAll(list, items[..|items| - 1]), items[|items| - 1];
      AddedAllIndexed(list, items[..|items| - 1]);
      assert Indexed(Added(before, item)) <==> Indexed(before) by {
        assert forall i | 0 <= i < |before| :: Added(before, item)[i] == before[i];
      }
    }
  }

  /** Indices at most `m`, and right exactly for the front of the list they were taken from. */
  predicate IndexedAsFront(kept: seq<Item>, list: seq<Item>, m: nat) {
    && |kept| <= m <= |list| && (forall i | 0 <= i < |kept| :: kept[i].index <= m)
    && (Indexed(kept) <==> kept == list[..|kept|])
  }

  lemma KeptStep(list: seq<Item>, before: seq<Item>, m: nat)
    requires Indexed(list) && m < |list| && IndexedAsFront(before, list, m)
    ensures IndexedAsFront(before + [list[m]], list, m + 1)
  {
    var kept := before + [list[m]];
    assert forall i | 0 <= i < |before| :: kept[i] == before[i];
    assert kept[|before|].index == m + 1;
    if Indexed(kept) {
      assert |before| == m && before == list[..m];
      assert kept == list[..m + 1];
    }
    if kept == list[..|kept|] {
      assert forall i | 0 <= i < |kept| :: kept[i] == list[i];
    }
  }

  lemma {:induction false} KeptIndices(list: seq<Item>, m: nat)
    requires Indexed(list) && m <= |list|
    ensures IndexedAsFront(NotFromPage(list[..m]), list, m)
  {
    if m > 0 {
      KeptIndices(list, m - 1);
      assert list[..m][..m - 1] == list[..m - 1];
      KeptStep(list, NotFromPage(list[..m - 1]), m - 1);
    }
  }

  /** A completion leaves the online indices right exactly if it brings no list, or no item that stays stood behind
      one that is removed. */
  lemma OnlineIndexedExactlyWhen(s: State, load: nat, outcome: Outcome)
    requires Inv(s) && Indexed(s.online) && load in s.pending
    ensures var kept := NotFromPage(s.online);
            Indexed(Completed(s, load, outcome).online)
            <==> (outcome.Episodes? ==> |kept| <= |s.online| && kept == s.online[..|kept|])
  {
    CompletedFields(s, load, outcome);
    match outcome
    case Failed => AddedKeeps(s.online, PageItem(s.pending[load]));
    case NoList =>
    case Episodes(items) =>
      assert s.online[..|s.online|] == s.online;
      KeptIndices(s.online, |s.online|);
      AddedAllIndexed(NotFromPage(s.online), EpisodesOf(items, s.pending[load]));
  }

  // ----- loads -----

  predicate StartsLoad(s: State, e: Event) {
    Next(s, e).nextLoad > s.nextLoad
  }

  function Starts(s: State, events: seq<Event>): nat {
    if events == [] then 0
    else
      var before := Run(s, events[..|events| - 1]);
      Starts(s, events[..|events| - 1]) + if StartsLoad(before, events[|events| - 1]) then 1 else 0
  }

  predicate NoPageChange(events: seq<Event>) {
    forall i | 0 <= i < |events| :: !events[i].PageChange?
  }

  /** The state without its lists and its tab. */
  function Control(s: State): State {
    s.(activeTab := Online, online := [], pan := [], magnet := [])
  }

  lemma {:induction false} AddLinksControl(s: State, links: seq<Link>)
    ensures Control(AddLinks(s, links)) == Control(s)
  {
    if links != [] { AddLinksControl(s, links[..|links| - 1]); }
  }

  lemma ScanControl(s: State, page: Page)
    ensures Control(Scanned(s, page)) == if page.isDetail then LoadStarted(Control(s), page.playLink) else Control(s)
  {
    var cleared := s.(pan := [], magnet := []);
    AddLinksControl(cleared, page.rows);
    AddLinksControl(AddLinks(cleared, page.rows), ActionLinks(page.actions));
    assert Control(Collected(s, page)) == Control(s);
    TabControl(Collected(s, page));
    StartControl(WithActiveTab(Collected(s, page)), page.playLink);
  }

  lemma TabControl(s: State)
    ensures Control(WithActiveTab(s)) == Control(s)
  {
  }

  lemma StartControl(s: State, playLink: string)
    ensures Control(LoadStarted(s, playLink)) == LoadStarted(Control(s), playLink)
  {
  }

  lemma PlayedControl(s: State, g: Group, row: nat, deferred: bool)
    ensures Control(Played(s, g, row, deferred)).(plays := s.plays) == Control(s)
  {
  }

  lemma PlayerControl(s: State, playLink: string)
    ensures var t := if s.online == [] && !s.loaded then LoadStarted(Control(s), playLink) else Control(s);
            Control(PlayerClicked(s, playLink)).(plays := s.plays, playWhenReady := s.playWhenReady) == t
  {
    StartControl(s, playLink);
  }

  lemma LinkControl(s: State, g: Group, item: Item)
    ensures Control(LinkClicked(s, g, item)).(plays := s.plays) == Control(s)
  {
    assert Control(AddTo(s, g, item)) == Control(s);
    TabControl(AddTo(s, g, item));
    var t := WithActiveTab(AddTo(s, g, item));
    PlayedControl(t.(activeTab := g), g, RowOf(ItemsOf(t, g), item.url), false);
  }

  /** An event starts at most one load, and only when none is under way or done; without a page change that stays so. */
  lemma LoadFlags(s: State, e: Event)
    ensures Next(s, e).nextLoad <= s.nextLoad + 1
    ensures StartsLoad(s, e) ==> !s.loading && !s.loaded && Next(s, e).loading
    ensures !e.PageChange? && (s.loading || s.loaded) ==> Next(s, e).loading || Next(s, e).loaded
  {
    match e
    case Scan(page) => ScanControl(s, page);
    case Complete(load, outcome) => if load in s.pending { CompletedFields(s, load, outcome); }
    case PageChange =>
    case ClickPlayer(playLink) => PlayerControl(s, playLink);
    case ClickLink(g, item) => LinkControl(s, g, item);
    case ClickTab(_) =>
    case ClickRow(g, row) => PlayedControl(s, g, row, false);
  }

  /** Between two page changes at most one load is started, none if one is under way or done, late completions or
      not. */
  lemma {:induction false} OneLoadPerPage(s: State, events: seq<Event>)
    requires NoPageChange(events)
    ensures Starts(s, events) + (if s.loading || s.loaded then 1 else 0) <= 1
    ensures Starts(s, events) > 0 || s.loading || s.loaded ==> Run(s, events).loading || Run(s, events).loaded
  {
    if events != [] {
      var init := events[..|events| - 1];
      OneLoadPerPage(s, init);
      LoadFlags(Run(s, init), events[|events| - 1]);
    }
  }

  /** Nothing that starts a load: no page change, no click on the player link, no scan of a detail page. */
  predicate Quiet(events: seq<Event>) {
    forall i | 0 <= i < |events| :: QuietEvent(events[i])
  }

  predicate QuietEvent(e: Event) {
    match e
    case Scan(page) => !page.isDetail
    case PageChange => false
    case ClickPlayer(_) => false
    case _ => true
  }

  /** The answer to a load that is in flight arrives. */
  predicate Answers(s: State, events: seq<Event>) {
    exists i | 0 <= i < |events| :: events[i].Complete? && events[i].load in s.pending
  }

  lemma QuietStep(s: State, e: Event)
    requires QuietEvent(e) && !s.loading
    ensures var t := Next(s, e);
            var answered := e.Complete? && e.load in s.pending;
            !t.loading && (t.loaded <==> s.loaded || answered) && (!answered ==> t.pending == s.pending)
  {
    match e
    case Scan(page) => ScanControl(s, page);
    case Complete(load, outcome) => if load in s.pending { CompletedFields(s, load, outcome); }
    case ClickLink(g, item) => LinkControl(s, g, item);
    case ClickTab(_) =>
    case ClickRow(g, row) => PlayedControl(s, g, row, false);
  }

  lemma {:induction false} QuietRun(s: State, events: seq<Event>)
    requires !s.loading && !s.loaded && Quiet(events)
    ensures var t := Run(s, events);
            !t.loading && (t.loaded <==> Answers(s, events)) && (!t.loaded ==> t.pending == s.pending)
  {
    if events != [] {
      var init, e := events[..|events| - 1], events[|events| - 1];
      assert QuietEvent(events[|events| - 1]);
      QuietRun(s, init);
      QuietStep(Run(s, init), e);
      AnswersSnoc(s, init, e);
      assert events == init + [e];
    }
  }

  lemma AnswersSnoc(s: State, init: seq<Event>, e: Event)
    ensures Answers(s, init + [e]) <==> Answers(s, init) || (e.Complete? && e.load in s.pending)
  {
    var events := init + [e];
    assert events[|init|] == e;
    if Answers(s, init) {
      var i :| 0 <= i < |init| && init[i].Complete? && init[i].load in s.pending;
      assert events[i] == init[i];
    }
  }

  /** After a page change the page's own load is sent, exactly if no load of an earlier page was answered before its
      scan. */
  lemma OwnLoadSentExactlyWhen(s: State, events: seq<Event>, page: Page)
    requires Quiet(events) && page.isDetail && page.playLink != ""
    ensures var t := Run(PageChanged(s), events);
            && (StartsLoad(t, Scan(page)) <==> !Answers(s, events))
            && (StartsLoad(t, Scan(page)) ==>
                  Next(t, Scan(page)).pending == t.pending[t.nextLoad := page.playLink]
                  && Next(t, Scan(page)).onlinePage == page.playLink)
  {
    QuietRun(PageChanged(s), events);
    ScanControl(Run(PageChanged(s), events), page);
  }

  /** A detail page without a link to a player page has nothing to load. */
  lemma NoLinkNothingToLoad(s: State, page: Page)
    requires page.isDetail && page.playLink == "" && !s.loading
    ensures var t := Scanned(s, page);
            t.loaded && !t.loading && t.pending == s.pending && t.nextLoad == s.nextLoad
  {
    ScanControl(s, page);
  }

  /** A page change leaves nothing to show and nothing to wait for, but loads in flight go on. */
  lemma NothingLeftOver(s: State)
    ensures var t := Next(s, PageChange);
            && (forall g: Group :: ItemsOf(t, g) == [])
            && !t.loading && !t.loaded && !t.playWhenReady && t.onlinePage == ""
            && t.pending == s.pending && t.nextLoad == s.nextLoad && t.plays == s.plays
  {
  }

  /** Page A is left, its load is answered, and then page B is scanned: no load is sent for page B, then or later. */
  lemma OwnLoadSuppressed(more: seq<Event>)
    requires NoPageChange(more)
    ensures var s := Run(INITIAL, [Detail("A"), PageChange, Complete(0, NoList), Detail("B")]);
            && s.loaded && s.pending == map[] && s.nextLoad == 1 && s.onlinePage == ""
            && Starts(s, more) == 0
  {
    var events := [Detail("A"), PageChange, Complete(0, NoList), Detail("B")];
    RunTwo(INITIAL, Detail("A"), PageChange);
    assert events[..3][..2] == [Detail("A"), PageChange];
    assert events[..3] == [Detail("A"), PageChange, Complete(0, NoList)];
    var left := Run(INITIAL, events[..3][..2]);
    assert left == State(Online, false, false, "", false, [], [], [], map[0 := "A"], 1, []);
    assert map[0 := "A"] - {0} == map[];
    CompletedFields(left, 0, NoList);
    ScanControl(Run(INITIAL, events[..3]), Page(true, false, [], [], "B"));
    OneLoadPerPage(Run(INITIAL, events), more);
  }

  // ----- deferred plays -----

  /** Deferred plays served so far. */
  function Served(plays: seq<Play>): nat {
    if plays == [] then 0 else Served(plays[..|plays| - 1]) + if plays[|plays| - 1].deferred then 1 else 0
  }

  function Flag(s: State): nat {
    if s.playWhenReady then 1 else 0
  }

  function Deferrals(s: State, events: seq<Event>): nat {
    if events == [] then 0
    else
      var before, e := Run(s, events[..|events| - 1]), events[|events| - 1];
      Deferrals(s, events[..|events| - 1])
      + if e.ClickPlayer? && PlayerClicked(before, e.playLink).playWhenReady then 1 else 0
  }

  lemma ServedSnoc(plays: seq<Play>, p: Play)
    ensures Served(plays + [p]) == Served(plays) + if p.deferred then 1 else 0
  {
    assert (plays + [p])[..|plays|] == plays;
  }

  lemma PlayedServes(s: State, g: Group, row: nat, deferred: bool)
    ensures Served(Played(s, g, row, deferred).plays)
         == Served(s.plays) + if deferred && row < |ItemsOf(s, g)| then 1 else 0
  {
    if row < |ItemsOf(s, g)| { ServedSnoc(s.plays, Play(g, ItemsOf(s, g)[row].url, deferred)); }
  }

  lemma CompletedServes(s: State, load: nat, outcome: Outcome)
    requires load in s.pending
    ensures var t := Completed(s, load, outcome);
            && Served(t.plays) == Served(s.plays) + (if s.playWhenReady && t.online != [] then 1 else 0)
            && t.playWhenReady == (s.playWhenReady && t.online == [])
  {
    var u := s.(online := OnlineAfter(s.online, outcome, s.pending[load]), pending := s.pending - {load});
    var t := WithActiveTab(u.(loading := false, loaded := true));
    assert t.online == u.online && t.plays == s.plays && t.playWhenReady == s.playWhenReady;
    PlayedServes(t.(playWhenReady := false), Online, 0, true);
  }

  lemma PlayerServes(s: State, playLink: string)
    ensures Served(PlayerClicked(s, playLink).plays) == Served(s.plays)
  {
    var t := (if s.online == [] && !s.loaded then LoadStarted(s, playLink) else s).(activeTab := Online);
    assert t.plays == s.plays;
    PlayedServes(t, Online, 0, false);
  }

  lemma LinkServes(s: State, g: Group, item: Item)
    ensures Served(LinkClicked(s, g, item).plays) == Served(s.plays)
  {
    var t := WithActiveTab(AddTo(s, g, item));
    assert t.plays == s.plays;
    PlayedServes(t.(activeTab := g), g, RowOf(ItemsOf(t, g), item.url), false);
  }

  /** A deferred play is served only by a completion that finds the flag up, and takes it down. */
  lemma ServesOnce(s: State, e: Event)
    ensures var t := Next(s, e);
            && Served(s.plays) <= Served(t.plays) <= Served(s.plays) + 1
            && (Served(t.plays) > Served(s.plays) ==>
                  e.Complete? && e.load in s.pending && s.playWhenReady && !t.playWhenReady)
            && (t.playWhenReady && !s.playWhenReady ==> e.ClickPlayer?)
  {
    match e
    case Scan(page) => ScanControl(s, page);
    case Complete(load, outcome) => if load in s.pending { CompletedServes(s, load, outcome); }
    case PageChange =>
    case ClickPlayer(playLink) => PlayerServes(s, playLink);
    case ClickLink(g, item) => LinkServes(s, g, item); LinkControl(s, g, item);
    case ClickTab(_) =>
    case ClickRow(g, row) => PlayedServes(s, g, row, false); PlayedControl(s, g, row, false);
  }

  /** No more deferred plays are served than clicks deferred one: each is served at most once. */
  lemma {:induction false} ServedAtMostDeferred(events: seq<Event>)
    ensures var s := Run(INITIAL, events);
            Served(s.plays) + Flag(s) <= Deferrals(INITIAL, events)
  {
    if events != [] {
      ServedAtMostDeferred(events[..|events| - 1]);
      ServesOnce(Run(INITIAL, events[..|events| - 1]), events[|events| - 1]);
    }
  }

  /** The player link was clicked on the page shown now. */
  ghost predicate ClickedHere(events: seq<Event>) {
    exists i | 0 <= i < |events| :: events[i].ClickPlayer? && NoPageChange(events[i + 1..])
  }

  lemma ClickedHereSnoc(init: seq<Event>, e: Event)
    requires e.ClickPlayer? || (ClickedHere(init) && !e.PageChange?)
    ensures ClickedHere(init + [e])
  {
    var events := init + [e];
    if e.ClickPlayer? {
      assert events[|init|] == e && NoPageChange(events[|init| + 1..]);
    } else {
      var i :| 0 <= i < |init| && init[i].ClickPlayer? && NoPageChange(init[i + 1..]);
      assert events[i] == init[i] && events[i + 1..] == init[i + 1..] + [e];
      assert NoPageChange(events[i + 1..]);
    }
  }

  /** A deferred play waits only for the page on which it was asked for. */
  lemma {:induction false} DeferredHere(events: seq<Event>)
    requires Run(INITIAL, events).playWhenReady
    ensures ClickedHere(events)
  {
    if events != [] {
      var init, e := events[..|events| - 1], events[|events| - 1];
      var s := Run(INITIAL, init);
      ServesOnce(s, e);
      if s.playWhenReady { DeferredHere(init); }
      assert events == init + [e];
      ClickedHereSnoc(init, e);
    }
  }

  /** Whatever is served as a deferred play was asked for on the page then shown. */
  lemma ServedWasAskedHere(events: seq<Event>, e: Event)
    requires Served(Next(Run(INITIAL, events), e).plays) > Served(Run(INITIAL, events).plays)
    ensures ClickedHere(events)
  {
    ServesOnce(Run(INITIAL, events), e);
    DeferredHere(events);
  }

  /** Nothing is in flight and nothing will be sent for this page. */
  predicate Stranded(s: State) {
    s.loaded && s.pending == map[]
  }

  lemma {:induction false} StrandedServesNothing(s: State, events: seq<Event>)
    requires Stranded(s) && NoPageChange(events)
    ensures Stranded(Run(s, events)) && Served(Run(s, events).plays) == Served(s.plays)
  {
    if events != [] {
      var init, e := events[..|events| - 1], events[|events| - 1];
      StrandedServesNothing(s, init);
      ServesOnce(Run(s, init), e);
      assert !events[|events| - 1].PageChange?;
      StaysStranded(Run(s, init), e);
    }
  }

  lemma StaysStranded(s: State, e: Event)
    requires Stranded(s) && !e.PageChange?
    ensures Stranded(Next(s, e))
  {
    match e
    case Scan(page) => ScanControl(s, page);
    case Complete(_, _) =>
    case ClickPlayer(playLink) => PlayerControl(s, playLink);
    case ClickLink(g, item) => LinkControl(s, g, item);
    case ClickTab(_) =>
    case ClickRow(g, row) => PlayedControl(s, g, row, false);
  }

  ghost predicate CanBeServed(s: State) {
    exists events :: NoPageChange(events) && Served(Run(s, events).plays) > Served(s.plays)
  }

  lemma RunOne(s: State, e: Event)
    ensures Run(s, [e]) == Next(s, e)
  {
    assert [e][..0] == [];
  }

  lemma RunTwo(s: State, d: Event, e: Event)
    ensures Run(s, [d, e]) == Next(Next(s, d), e)
  {
    assert [d, e][..1] == [d];
    RunOne(s, d);
  }

  /** A completion with an episode serves a deferred play. */
  lemma EpisodeServes(s: State, load: nat)
    requires s.playWhenReady && load in s.pending
    ensures Served(Completed(s, load, Episodes([Item("http://e", "", "", "", 0)])).plays) == Served(s.plays) + 1
  {
    var items := EpisodesOf([Item("http://e", "", "", "", 0)], s.pending[load]);
    var kept := NotFromPage(s.online);
    assert items[..0] == [] && AddedAll(kept, items) == Added(kept, items[0]);
    CompletedFields(s, load, Episodes([Item("http://e", "", "", "", 0)]));
    CompletedServes(s, load, Episodes([Item("http://e", "", "", "", 0)]));
    if HasUrl(kept, "http://e") { assert kept != []; }
  }

  /** A deferred play can still be served on this page exactly if a load is in flight or may yet be sent. */
  lemma ServableExactlyWhen(s: State)
    requires Inv(s) && s.playWhenReady
    ensures CanBeServed(s) <==> !Stranded(s)
  {
    if Stranded(s) {
      forall events | NoPageChange(events) ensures Served(Run(s, events).plays) == Served(s.plays) {
        StrandedServesNothing(s, events);
      }
    } else if s.pending != map[] {
      var load :| load in s.pending;
      PendingServes(s, load);
    } else {
      ScanServes(s);
    }
  }

  lemma PendingServes(s: State, load: nat)
    requires s.playWhenReady && load in s.pending
    ensures CanBeServed(s)
  {
    var answer := Complete(load, Episodes([Item("http://e", "", "", "", 0)]));
    EpisodeServes(s, load);
    RunOne(s, answer);
    assert NoPageChange([answer]);
  }

  lemma ScanStarts(s: State, page: Page)
    requires page.isDetail && page.playLink != "" && !s.loading && !s.loaded
    ensures var t := Scanned(s, page);
            s.nextLoad in t.pending && t.playWhenReady == s.playWhenReady && t.plays == s.plays
  {
    ScanControl(s, page);
  }

  lemma ScanServes(s: State)
    requires s.playWhenReady && !s.loading && !s.loaded
    ensures CanBeServed(s)
  {
    var scan := Scan(Page(true, false, [], [], "http://p"));
    var answer := Complete(s.nextLoad, Episodes([Item("http://e", "", "", "", 0)]));
    ScanStarts(s, scan.page);
    EpisodeServes(Scanned(s, scan.page), s.nextLoad);
    RunTwo(s, scan, answer);
    assert NoPageChange([scan, answer]);
  }

  function Detail(link: string): Event {
    Scan(Page(true, false, [], [], link))
  }

  /** A click on the player link after the load of its page brought nothing: the play is deferred for good. */
  lemma StrandedReached()
    ensures var s := Run(INITIAL, [Detail("A"), Complete(0, NoList), ClickPlayer("A")]);
            s.playWhenReady && Stranded(s) && !CanBeServed(s)
  {
    var events := [Detail("A"), Complete(0, NoList), ClickPlayer("A")];
    var s1 := Next(INITIAL, Detail("A"));
    assert s1 == State(Online, true, false, "A", false, [], [], [], map[0 := "A"], 1, []);
    RunTwo(INITIAL, Detail("A"), Complete(0, NoList));
    assert events[..2] == [Detail("A"), Complete(0, NoList)];
    RunKeepsInv(events);
    ServableExactlyWhen(Run(INITIAL, events));
  }

  // ----- clicks -----

  /** Clicking a link plays exactly its address, from its own list, where it is the only item with that address. */
  lemma LinkClickPlays(s: State, g: Group, item: Item)
    requires Inv(s) && item.url != ""
    ensures var t := LinkClicked(s, g, item);
            && t.plays == s.plays + [Play(g, item.url, false)] && t.activeTab == g
            && HasUrl(ItemsOf(t, g), item.url) && Distinct(ItemsOf(t, g))
            && (HasUrl(ItemsOf(s, g), item.url) ==> ItemsOf(t, g) == ItemsOf(s, g))
  {
    AddedKeeps(ItemsOf(s, g), item);
    AddedLists(s, g, item);
    PlaysRow(WithActiveTab(AddTo(s, g, item)), g, item.url);
  }

  lemma AddedLists(s: State, g: Group, item: Item)
    ensures var t := WithActiveTab(AddTo(s, g, item));
            ItemsOf(t, g) == Added(ItemsOf(s, g), item) && t.plays == s.plays
  {
  }

  lemma PlaysRow(t: State, g: Group, url: string)
    requires HasUrl(ItemsOf(t, g), url)
    ensures var i := RowOf(ItemsOf(t, g), url);
            i < |ItemsOf(t, g)|
            && Played(t.(activeTab := g), g, i, false) == t.(activeTab := g, plays := t.plays + [Play(g, url, false)])
  {
  }

  /** After the tab is settled it shows something whenever any list holds something. */
  lemma ActiveTabShowsItems(s: State)
    ensures var t := WithActiveTab(s);
            && t.(activeTab := s.activeTab) == s
            && (s.online != [] || s.pan != [] || s.magnet != [] <==> ItemsOf(t, t.activeTab) != [])
            && (ItemsOf(s, s.activeTab) != [] ==> t.activeTab == s.activeTab)
            // a tab that is left is left for the first that shows something
            && (t.activeTab != s.activeTab ==>
                  && (t.activeTab != Online ==> s.online == [])
                  && (t.activeTab == Magnet ==> s.pan == []))
  {
  }

  /** The active tab shows something if any list does. */
  predicate TabShows(s: State) {
    s.online != [] || s.pan != [] || s.magnet != [] ==> ItemsOf(s, s.activeTab) != []
  }

  /** A scan of a detail page and a completed load settle the tab, and a click on a tab chooses it. */
  lemma TabsSettle(s: State, page: Page, load: nat, outcome: Outcome, tab: Group)
    ensures page.isDetail ==> TabShows(Next(s, Scan(page)))
    ensures load in s.pending ==> TabShows(Next(s, Complete(load, outcome)))
    ensures Next(s, ClickTab(tab)) == s.(activeTab := tab)
  {
    ActiveTabShowsItems(Collected(s, page));
    if load in s.pending {
      var online := OnlineAfter(s.online, outcome, s.pending[load]);
      SettledShows(s.(online := online, pending := s.pending - {load}));
    }
  }

  lemma SettledShows(s: State)
    ensures TabShows(Settled(s))
  {
    ActiveTabShowsItems(s.(loading := false, loaded := true));
  }

  /** A click on the player link plays the first online item, or else defers the play and loads if nothing was
      loaded. */
  lemma PlayerClickPlays(s: State, playLink: string)
    ensures var t := Next(s, ClickPlayer(playLink));
            && t.activeTab == Online && (forall g: Group :: ItemsOf(t, g) == ItemsOf(s, g))
            && t.plays == s.plays + (if s.online == [] then [] else [Play(Online, s.online[0].url, false)])
            && (t.playWhenReady <==> s.playWhenReady || s.online == [])
            && (t.nextLoad > s.nextLoad <==> s.online == [] && !s.loaded && !s.loading && playLink != "")
  {
  }

  /** A click on a row plays its address, and one on no row nothing. */
  lemma RowClickPlays(s: State, g: Group, row: nat)
    ensures var t := Next(s, ClickRow(g, row));
            && t.(plays := s.plays) == s
            && t.plays == s.plays + (if row < |ItemsOf(s, g)| then [Play(g, ItemsOf(s, g)[row].url, false)] else [])
  {
    if row >= |ItemsOf(s, g)| { assert s.plays + [] == s.plays; }
  }

  /** A link without an address does nothing. */
  lemma EmptyLinkIgnored(s: State, g: Group, item: Item)
    requires item.url == ""
    ensures Next(s, ClickLink(g, item)) == s
  {
  }

  // ----- what a scan collects -----

  predicate LinkTo(links: seq<Link>, g: Group, url: string) {
    exists i | 0 <= i < |links| :: links[i].group == g && links[i].item.url == url
  }

  lemma {:induction false} AddLinksHas(s: State, links: seq<Link>, g: Group, url: string)
    requires Inv(s)
    ensures HasUrl(ItemsOf(AddLinks(s, links), g), url)
       <==> HasUrl(ItemsOf(s, g), url) || (url != "" && LinkTo(links, g, url))
  {
    if links != [] {
      var init, last := links[..|links| - 1], links[|links| - 1];
      var before := AddLinks(s, init);
      AddLinksHas(s, init, g, url);
      AddLinksKeeps(s, init);
      LinkToLast(init, last, g, url);
      assert links == init + [last];
      AddToHas(before, last.group, last.item, g, url);
    }
  }

  lemma AddToHas(s: State, h: Group, item: Item, g: Group, url: string)
    requires Inv(s)
    ensures HasUrl(ItemsOf(AddTo(s, h, item), g), url)
       <==> HasUrl(ItemsOf(s, g), url) || (url != "" && h == g && item.url == url)
  {
    AddedKeeps(ItemsOf(s, h), item);
  }

  lemma LinkToLast(init: seq<Link>, last: Link, g: Group, url: string)
    ensures LinkTo(init + [last], g, url) <==> LinkTo(init, g, url) || (last.group == g && last.item.url == url)
  {
    var links := init + [last];
    assert links[|init|] == last;
    if LinkTo(init, g, url) {
      var i :| 0 <= i < |init| && init[i].group == g && init[i].item.url == url;
      assert links[i].group == g && links[i].item.url == url;
    }
  }

  lemma CollectedHas(s: State, page: Page, g: Group, url: string)
    requires Inv(s) && g != Online
    ensures HasUrl(ItemsOf(Collected(s, page), g), url)
       <==> page.hasDownloads && url != "" && (LinkTo(page.rows, g, url) || LinkTo(ActionLinks(page.actions), g, url))
  {
    var cleared := s.(pan := [], magnet := []);
    assert Inv(cleared) && ItemsOf(cleared, g) == [];
    if page.hasDownloads {
      AddLinksHas(cleared, page.rows, g, url);
      AddLinksKeeps(cleared, page.rows);
      AddLinksHas(AddLinks(cleared, page.rows), ActionLinks(page.actions), g, url);
    }
  }

  lemma TabLists(s: State, g: Group)
    ensures ItemsOf(WithActiveTab(s), g) == ItemsOf(s, g)
  {
  }

  lemma StartLists(s: State, playLink: string, g: Group)
    ensures ItemsOf(LoadStarted(s, playLink), g) == ItemsOf(s, g)
  {
  }

  // ----- and in which order -----

  /** What is added to a list comes at its end, numbered by its place, unless its address is there. */
  lemma AddedAtEnd(list: seq<Item>, item: Item)
    requires item.url != "" && !HasUrl(list, item.url)
    ensures var after := Added(list, item);
            |after| == |list| + 1 && after[..|list|] == list && after[|list|] == item.(index := |list| + 1)
  {
  }

  lemma {:induction false} AddedAllConcat(list: seq<Item>, a: seq<Item>, b: seq<Item>)
    ensures AddedAll(list, a + b) == AddedAll(AddedAll(list, a), b)
  {
    if b == [] {
      assert a + b == a;
    } else {
      var front := b[..|b| - 1];
      assert (a + b)[..|a + b| - 1] == a + front;
      AddedAllConcat(list, a, front);
    }
  }

  /** The items of the links of a group, in their order. */
  function ItemsFor(g: Group, links: seq<Link>): seq<Item> {
    if links == [] then []
    else
      var before, last := ItemsFor(g, links[..|links| - 1]), links[|links| - 1];
      if last.group == g then before + [last.item] else before
  }

  /** Those that do not lead to the player page. */
  function PlainFor(g: Group, links: seq<Link>): seq<Item> {
    if links == [] then []
    else
      var before, last := PlainFor(g, links[..|links| - 1]), links[|links| - 1];
      if last.group == g && !last.player then before + [last.item] else before
  }

  lemma {:induction false} ActionItems(g: Group, links: seq<Link>)
    requires g != Online
    ensures ItemsFor(g, ActionLinks(links)) == PlainFor(g, links)
  {
    if links != [] {
      var before, last := ActionLinks(links[..|links| - 1]), links[|links| - 1];
      ActionItems(g, links[..|links| - 1]);
      assert (before + [last])[..|before|] == before;
    }
  }

  lemma {:induction false} AddLinksInOrder(s: State, links: seq<Link>, g: Group)
    ensures ItemsOf(AddLinks(s, links), g) == AddedAll(ItemsOf(s, g), ItemsFor(g, links))
  {
    if links != [] {
      var init, last := links[..|links| - 1], links[|links| - 1];
      AddLinksInOrder(s, init, g);
      var items := ItemsFor(g, init);
      assert (items + [last.item])[..|items|] == items;
    }
  }

  /** The pan and magnet lists hold what the rows and then the actions link to, in that order. */
  lemma CollectedInOrder(s: State, page: Page, g: Group)
    requires page.hasDownloads && g != Online
    ensures ItemsOf(Collected(s, page), g) == AddedAll([], ItemsFor(g, page.rows) + PlainFor(g, page.actions))
  {
    var cleared := s.(pan := [], magnet := []);
    AddLinksInOrder(cleared, page.rows, g);
    AddLinksInOrder(AddLinks(cleared, page.rows), ActionLinks(page.actions), g);
    ActionItems(g, page.actions);
    AddedAllConcat([], ItemsFor(g, page.rows), PlainFor(g, page.actions));
  }

  /** A link that is collected from the actions. */
  predicate ActionTo(links: seq<Link>, g: Group, url: string) {
    exists i | 0 <= i < |links| :: links[i].group == g && links[i].item.url == url && !links[i].player
  }

  lemma {:induction false} ActionLinksTo(links: seq<Link>, g: Group, url: string)
    ensures LinkTo(ActionLinks(links), g, url) <==> g != Online && ActionTo(links, g, url)
  {
    if links != [] {
      var init, last := links[..|links| - 1], links[|links| - 1];
      ActionLinksTo(init, g, url);
      LinkToLast(ActionLinks(init), last, g, url);
      assert links == init + [last];
      if ActionTo(init, g, url) {
        var i :| 0 <= i < |init| && init[i].group == g && init[i].item.url == url && !init[i].player;
        assert links[i] == init[i];
      }
    }
  }

  lemma OnlineAfterScan(s: State, page: Page, url: string)
    requires Inv(s)
    ensures HasUrl(Collected(s, page).online, url)
       <==> HasUrl(s.online, url) || (page.hasDownloads && url != "" && LinkTo(page.rows, Online, url))
  {
    var cleared := s.(pan := [], magnet := []);
    assert Inv(cleared) && cleared.online == s.online;
    if page.hasDownloads {
      AddLinksHas(cleared, page.rows, Online, url);
      AddLinksKeeps(cleared, page.rows);
      AddLinksHas(AddLinks(cleared, page.rows), ActionLinks(page.actions), Online, url);
      ActionLinksTo(page.actions, Online, url);
    }
  }

  /** A scan leaves in the pan and magnet lists exactly the addresses the page links to, whatever they held before,
      and adds to the online list those of its rows that lead to media. */
  lemma ScanCollects(s: State, page: Page, g: Group, url: string)
    requires Inv(s) && page.isDetail
    ensures HasUrl(ItemsOf(Scanned(s, page), g), url)
       <==> || (g == Online && HasUrl(s.online, url))
            || (page.hasDownloads && url != ""
                && (LinkTo(page.rows, g, url) || (g != Online && ActionTo(page.actions, g, url))))
  {
    if g == Online {
      OnlineAfterScan(s, page, url);
    } else {
      CollectedHas(s, page, g, url);
      ActionLinksTo(page.actions, g, url);
    }
    TabLists(Collected(s, page), g);
    StartLists(WithActiveTab(Collected(s, page)), page.playLink, g);
  }
}
