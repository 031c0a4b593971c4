/**
 Whether what is shown and played is of the page shown: exactly when a completion keeps it so,
 the runs on which it always is, and runs on which a late completion breaks it.
 */
module PomoPages {
  import opened PomoStore
  import opened PomoRuns

  // ----- items of another page -----

  /** The page an item was found on, if it came from a load. */
  predicate OfPage(item: Item, page: string) {
    item.source == FROM_PAGE ==> (if item.playPage != "" then item.playPage else item.url) == page
  }

  predicate AllOfPage(list: seq<Item>, page: string) {
    forall i | 0 <= i < |list| :: OfPage(list[i], page)
  }

  predicate FoundOn(item: Item, page: string) {
    item.source == FROM_PAGE && item.playPage == page
  }

  lemma {:induction false} AddedAllFoundOn(list: seq<Item>, items: seq<Item>, page: string)
    requires forall i | 0 <= i < |items| :: FoundOn(items[i], page)
    ensures list <= AddedAll(list, items)
    ensures forall i | |list| <= i < |AddedAll(list, items)| :: FoundOn(AddedAll(list, items)[i], page)
  {
    if items != [] {
      AddedAllFoundOn(list, items[..|items| - 1], page);
      assert FoundOn(items[|items| - 1], page);
    }
  }

  /** An episode keeps its address and title, and is marked with the page it was found on. */
  lemma EpisodesKeepText(items: seq<Item>, page: string, i: nat)
    requires i < |items|
    ensures |EpisodesOf(items, page)| == |items|
    ensures var e := EpisodesOf(items, page)[i];
            e.url == items[i].url && e.title == items[i].title && FoundOn(e, page)
  {
  }

  lemma {:induction false} AddedAllNothing(list: seq<Item>, items: seq<Item>)
    ensures AddedAll(list, items) == list
       <==> forall i | 0 <= i < |items| :: items[i].url == "" || HasUrl(list, items[i].url)
  {
    if items != [] {
      var init, last := items[..|items| - 1], items[|items| - 1];
      AddedAllNothing(list, init);
      AddedAllIndexed(list, init);
      assert items == init + [last];
      if AddedAll(list, items) == list { assert AddedAll(list, init) == list; }
    }
  }

  /** The items that stay are of the page shown, and the load was sent for that page or brings nothing new. */
  ghost predicate WillShowPage(s: State, load: nat, outcome: Outcome)
    requires load in s.pending
  {
    var onTime := s.pending[load] == s.onlinePage;
    match outcome
    case Failed => AllOfPage(s.online, s.onlinePage) && (onTime || HasUrl(s.online, s.pending[load]))
    case NoList => AllOfPage(s.online, s.onlinePage)
    case Episodes(items) =>
      onTime || forall i | 0 <= i < |items| :: items[i].url == "" || HasUrl(NotFromPage(s.online), items[i].url)
  }

  /** However a load ends: what is shown then is of the page shown exactly if the state before and the outcome say
      so. */
  lemma CompletionShowsPageExactlyWhen(s: State, load: nat, outcome: Outcome)
    requires Inv(s) && load in s.pending
    ensures var t := Completed(s, load, outcome);
            AllOfPage(t.online, t.onlinePage) <==> WillShowPage(s, load, outcome)
  {
    CompletedFields(s, load, outcome);
    match outcome
    case Failed => FailureShows(s.online, s.pending[load], s.onlinePage);
    case NoList =>
    case Episodes(items) => EpisodesShow(s.online, items, s.pending[load], s.onlinePage);
  }

  lemma FailureShows(list: seq<Item>, playPage: string, page: string)
    requires playPage != ""
    ensures AllOfPage(Added(list, PageItem(playPage)), page)
       <==> AllOfPage(list, page) && (playPage == page || HasUrl(list, playPage))
  {
    var after := Added(list, PageItem(playPage));
    assert forall i | 0 <= i < |list| :: after[i] == list[i];
    if !HasUrl(list, playPage) {
      assert OfPage(after[|list|], page) <==> playPage == page;
    }
  }

  lemma EpisodesShow(list: seq<Item>, items: seq<Item>, playPage: string, page: string)
    requires Distinct(list) && playPage != ""
    ensures AllOfPage(AddedAll(NotFromPage(list), EpisodesOf(items, playPage)), page)
       <==> playPage == page
            || forall i | 0 <= i < |items| :: items[i].url == "" || HasUrl(NotFromPage(list), items[i].url)
  {
    var kept, all := NotFromPage(list), EpisodesOf(items, playPage);
    var after := AddedAll(kept, all);
    NotFromPageKeeps(list);
    assert forall i | 0 <= i < |all| :: FoundOn(all[i], playPage) && all[i].url == items[i].url;
    AddedAllFoundOn(kept, all, playPage);
    AddedAllNothing(kept, all);
    assert forall i | 0 <= i < |kept| :: after[i] == kept[i] && kept[i].source != FROM_PAGE;
    if after != kept {
      assert |after| > |kept| && FoundOn(after[|kept|], playPage);
      assert OfPage(after[|kept|], page) <==> playPage == page;
    }
  }

  /** What a served deferred play plays, and exactly when that is of the page shown. */
  lemma ServedPlayOfPageExactlyWhen(s: State, load: nat, outcome: Outcome)
    requires Inv(s) && load in s.pending && s.playWhenReady && Completed(s, load, outcome).online != []
    ensures var t := Completed(s, load, outcome);
            && t.plays == s.plays + [Play(Online, t.online[0].url, true)]
            && (OfPage(t.online[0], t.onlinePage)
                <==> match outcome
                     case Episodes(_) => NotFromPage(s.online) != [] || s.pending[load] == s.onlinePage
                     case _ => if s.online != [] then OfPage(s.online[0], s.onlinePage)
                               else s.pending[load] == s.onlinePage)
  {
    CompletedFields(s, load, outcome);
    SettledPlays(s.(online := OnlineAfter(s.online, outcome, s.pending[load]), pending := s.pending - {load}));
    match outcome
    case Failed =>
    case NoList =>
    case Episodes(items) => FirstEpisode(s.online, items, s.pending[load], s.onlinePage);
  }

  lemma SettledPlays(s: State)
    requires s.playWhenReady && s.online != []
    ensures Settled(s).plays == s.plays + [Play(Online, s.online[0].url, true)]
  {
  }

  lemma FirstEpisode(list: seq<Item>, items: seq<Item>, playPage: string, page: string)
    requires Distinct(list) && playPage != "" && AddedAll(NotFromPage(list), EpisodesOf(items, playPage)) != []
    ensures OfPage(AddedAll(NotFromPage(list), EpisodesOf(items, playPage))[0], page)
       <==> NotFromPage(list) != [] || playPage == page
  {
    var kept, all := NotFromPage(list), EpisodesOf(items, playPage);
    NotFromPageKeeps(list);
    assert forall i | 0 <= i < |all| :: FoundOn(all[i], playPage);
    AddedAllFoundOn(kept, all, playPage);
    if kept != [] { assert AddedAll(kept, all)[0] == kept[0]; }
  }

  // ----- runs on which every load ends on its own page -----

  predicate NoneFromPage(list: seq<Item>) {
    forall i | 0 <= i < |list| :: list[i].source != FROM_PAGE
  }

  predicate LinksPlain(links: seq<Link>) {
    forall i | 0 <= i < |links| :: links[i].item.source != FROM_PAGE
  }

  /** Only a load marks its items as found on a page; scans and clicks do not. */
  predicate Plain(e: Event) {
    match e
    case Scan(page) => LinksPlain(page.rows) && LinksPlain(page.actions)
    case ClickLink(_, item) => item.source != FROM_PAGE
    case _ => true
  }

  /** The number of the first load that may be started for the page shown. */
  function Epoch(events: seq<Event>): nat {
    if events == [] then 0
    else
      var init := events[..|events| - 1];
      if events[|events| - 1].PageChange? then Run(INITIAL, init).nextLoad else Epoch(init)
  }

  /** Every load that ended was started since the last page change before its end. */
  predicate Timely(events: seq<Event>) {
    events != [] ==>
      var init, e := events[..|events| - 1], events[|events| - 1];
      && Timely(init) && Plain(e)
      && (e.Complete? && e.load in Run(INITIAL, init).pending ==> e.load >= Epoch(init))
  }

  /** Loads from `m` on belong to the page shown, at most one was started, and until it ends nothing from a load is
      shown. */
  ghost predicate Current(s: State, m: nat) {
    && m <= s.nextLoad <= m + 1
    && (s.nextLoad == m + 1 ==> s.loading || s.loaded)
    && (s.nextLoad == m || m in s.pending ==> NoneFromPage(s.online))
    && (m in s.pending ==> s.pending[m] == s.onlinePage)
    && Indexed(s.online) && AllOfPage(s.online, s.onlinePage)
  }

  lemma AddedPlain(list: seq<Item>, item: Item, page: string)
    requires item.source != FROM_PAGE
    ensures Indexed(list) ==> Indexed(Added(list, item))
    ensures AllOfPage(list, page) ==> AllOfPage(Added(list, item), page)
    ensures NoneFromPage(list) ==> NoneFromPage(Added(list, item))
  {
  }

  lemma AddToCurrent(s: State, m: nat, g: Group, item: Item)
    requires Current(s, m) && item.source != FROM_PAGE
    ensures Current(AddTo(s, g, item), m)
  {
    AddedPlain(s.online, item, s.onlinePage);
  }

  lemma {:induction false} AddLinksCurrent(s: State, m: nat, links: seq<Link>)
    requires Current(s, m) && LinksPlain(links)
    ensures Current(AddLinks(s, links), m)
  {
    if links != [] {
      var init, last := links[..|links| - 1], links[|links| - 1];
      assert links[|links| - 1].item.source != FROM_PAGE;
      AddLinksCurrent(s, m, init);
      AddToCurrent(AddLinks(s, init), m, last.group, last.item);
    }
  }

  lemma {:induction false} ActionLinksPlain(links: seq<Link>)
    requires LinksPlain(links)
    ensures LinksPlain(ActionLinks(links))
  {
    if links != [] {
      assert links[|links| - 1].item.source != FROM_PAGE;
      ActionLinksPlain(links[..|links| - 1]);
    }
  }

  lemma StartCurrent(s: State, m: nat, playLink: string)
    requires Current(s, m)
    ensures Current(LoadStarted(s, playLink), m)
  {
  }

  lemma TabCurrent(s: State, m: nat)
    requires Current(s, m)
    ensures Current(WithActiveTab(s), m)
  {
  }

  lemma PlayedCurrent(s: State, m: nat, g: Group, row: nat, deferred: bool)
    requires Current(s, m)
    ensures Current(Played(s, g, row, deferred), m)
  {
  }

  lemma ScanCurrent(s: State, m: nat, page: Page)
    requires Current(s, m) && Plain(Scan(page))
    ensures Current(Scanned(s, page), m)
  {
    var cleared := s.(pan := [], magnet := []);
    assert Current(cleared, m);
    ActionLinksPlain(page.actions);
    AddLinksCurrent(cleared, m, page.rows);
    AddLinksCurrent(AddLinks(cleared, page.rows), m, ActionLinks(page.actions));
    TabCurrent(Collected(s, page), m);
    StartCurrent(WithActiveTab(Collected(s, page)), m, page.playLink);
  }

  lemma PlayerCurrent(s: State, m: nat, playLink: string)
    requires Current(s, m)
    ensures Current(PlayerClicked(s, playLink), m)
  {
    StartCurrent(s, m, playLink);
    var t := (if s.online == [] && !s.loaded then LoadStarted(s, playLink) else s).(activeTab := Online);
    assert Current(t, m);
    PlayedCurrent(t, m, Online, 0, false);
  }

  lemma LinkCurrent(s: State, m: nat, g: Group, item: Item)
    requires Current(s, m) && item.source != FROM_PAGE
    ensures Current(LinkClicked(s, g, item), m)
  {
    AddToCurrent(s, m, g, item);
    TabCurrent(AddTo(s, g, item), m);
    var t := WithActiveTab(AddTo(s, g, item));
    assert Current(t.(activeTab := g), m);
    PlayedCurrent(t.(activeTab := g), m, g, RowOf(ItemsOf(t, g), item.url), false);
  }

  lemma {:induction false} NoneRemoved(list: seq<Item>)
    requires NoneFromPage(list)
    ensures NotFromPage(list) == list
  {
    if list != [] {
      NoneRemoved(list[..|list| - 1]);
      assert list[|list| - 1].source != FROM_PAGE;
    }
  }

  lemma OnTimeKeeps(list: seq<Item>, outcome: Outcome, page: string)
    requires Distinct(list) && NoneFromPage(list) && Indexed(list) && page != ""
    ensures Indexed(OnlineAfter(list, outcome, page)) && AllOfPage(OnlineAfter(list, outcome, page), page)
  {
    match outcome
    case Failed => FailureShows(list, page, page);
    case NoList =>
    case Episodes(items) =>
      NoneRemoved(list);
      AddedAllIndexed(list, EpisodesOf(items, page));
      EpisodesShow(list, items, page, page);
  }

  lemma CompletedCurrent(s: State, m: nat, load: nat, outcome: Outcome)
    requires Inv(s) && Current(s, m) && (load in s.pending ==> load >= m)
    ensures Current(Completed(s, load, outcome), m)
  {
    if load in s.pending {
      assert load == m && s.nextLoad == m + 1;
      OnTimeKeeps(s.online, outcome, s.onlinePage);
      CompletedFields(s, load, outcome);
    }
  }

  lemma NextCurrent(s: State, m: nat, e: Event)
    requires Inv(s) && Current(s, m) && Plain(e)
    requires e.Complete? && e.load in s.pending ==> e.load >= m
    ensures Current(Next(s, e), if e.PageChange? then s.nextLoad else m)
  {
    match e
    case Scan(page) => ScanCurrent(s, m, page);
    case Complete(load, outcome) => CompletedCurrent(s, m, load, outcome);
    case PageChange =>
    case ClickPlayer(playLink) => PlayerCurrent(s, m, playLink);
    case ClickLink(g, item) => LinkCurrent(s, m, g, item);
    case ClickTab(_) =>
    case ClickRow(g, row) => PlayedCurrent(s, m, g, row, false);
  }

  lemma {:induction false} TimelyCurrent(events: seq<Event>)
    requires Timely(events)
    ensures Current(Run(INITIAL, events), Epoch(events))
  {
    if events != [] {
      var init, e := events[..|events| - 1], events[|events| - 1];
      TimelyCurrent(init);
      RunKeepsInv(init);
      NextCurrent(Run(INITIAL, init), Epoch(init), e);
    }
  }

  /** As long as no load ends on a later page than its own, the online items are numbered in order and all of the
      page shown. */
  lemma TimelyRunShowsPage(events: seq<Event>)
    requires Timely(events)
    ensures Indexed(Run(INITIAL, events).online)
    ensures AllOfPage(Run(INITIAL, events).online, Run(INITIAL, events).onlinePage)
  {
    TimelyCurrent(events);
  }

  // ----- late completions, concretely -----

  function Bare(url: string): Item {
    Item(url, "", "", "", 0)
  }

  /** Page A is left before its load ends, and page B sends its own. */
  function TwoInFlight(): State {
    Next(Next(Next(INITIAL, Detail("A")), PageChange), Detail("B"))
  }

  function LateEpisode(): State {
    Next(TwoInFlight(), Complete(0, Episodes([Bare("x")])))
  }

  lemma TwoInFlightIs()
    ensures TwoInFlight() == State(Online, true, false, "B", false, [], [], [], map[0 := "A", 1 := "B"], 2, [])
  {
    var s1 := Next(INITIAL, Detail("A"));
    assert s1 == State(Online, true, false, "A", false, [], [], [], map[0 := "A"], 1, []);
    var s2 := Next(s1, PageChange);
    assert s2 == State(Online, false, false, "", false, [], [], [], map[0 := "A"], 1, []);
  }

  /** The late answer to page A is shown on page B. */
  lemma LateEpisodeShown()
    ensures LateEpisode()
         == State(Online, false, true, "B", false, [Item("x", FROM_PAGE, "", "A", 1)], [], [], map[1 := "B"], 2, [])
  {
    TwoInFlightIs();
    var s := TwoInFlight();
    OneEpisode([], Bare("x"), "A");
    assert s.pending - {0} == map[1 := "B"];
    assert NotFromPage([]) == [];
    CompletedFields(s, 0, Episodes([Bare("x")]));
  }

  /** The answer to page B holds no list: it was sent for the page shown, and page A's episode stays. */
  lemma LateEpisodeStays()
    ensures var s := LateEpisode();
            && 1 in s.pending && s.pending[1] == s.onlinePage
            && !AllOfPage(Completed(s, 1, NoList).online, Completed(s, 1, NoList).onlinePage)
  {
    LateEpisodeShown();
    CompletedFields(LateEpisode(), 1, NoList);
    PageBIsNotA(LateEpisode().online[0]);
  }

  /** The late failure of page A puts the entry for page A on page B. */
  lemma LateFailureShown()
    ensures var t := Completed(TwoInFlight(), 0, Failed);
            && t.onlinePage == "B" && t.online == [Item("A", FROM_PAGE, "", "", 1)]
            && !AllOfPage(t.online, t.onlinePage)
  {
    TwoInFlightIs();
    CompletedFields(TwoInFlight(), 0, Failed);
    assert Added([], PageItem("A")) == [Item("A", FROM_PAGE, "", "", 1)];
    var online := Completed(TwoInFlight(), 0, Failed).online;
    PageBIsNotA(online[0]);
  }

  lemma PageBIsNotA(item: Item)
    requires item.source == FROM_PAGE && (item.playPage == "A" || (item.playPage == "" && item.url == "A"))
    ensures !OfPage(item, "B")
  {
    assert "A"[0] != "B"[0];
  }

  /** A click on page B defers a play, and the late answer to page A serves it with page A's episode. */
  lemma LateEpisodePlayed()
    ensures var t := Completed(Next(TwoInFlight(), ClickPlayer("B")), 0, Episodes([Bare("x")]));
            && t.plays == [Play(Online, "x", true)] && t.onlinePage == "B"
            && t.online == [Item("x", FROM_PAGE, "", "A", 1)]
  {
    TwoInFlightIs();
    var s := Next(TwoInFlight(), ClickPlayer("B"));
    assert s == TwoInFlight().(playWhenReady := true);
    OneEpisode([], Bare("x"), "A");
    assert NotFromPage([]) == [];
    CompletedFields(s, 0, Episodes([Bare("x")]));
    SettledPlays(s.(online := [Item("x", FROM_PAGE, "", "A", 1)], pending := s.pending - {0}));
  }

  lemma ClickAfterLateEpisode()
    ensures var t := Next(LateEpisode(), ClickLink(Online, Bare("y")));
            t.online == [Item("x", FROM_PAGE, "", "A", 1), Bare("y").(index := 2)] && t.pending == map[1 := "B"]
  {
    LateEpisodeShown();
    assert "x"[0] != "y"[0];
    LinkControl(LateEpisode(), Online, Bare("y"));
    assert Added([Item("x", FROM_PAGE, "", "A", 1)], Bare("y"))
        == [Item("x", FROM_PAGE, "", "A", 1), Bare("y").(index := 2)];
  }

  /** A click on another online link and then the answer to page B: two items end with index 2. */
  lemma LateEpisodeBreaksIndices()
    ensures var clicked := Next(LateEpisode(), ClickLink(Online, Bare("y")));
            var end := Completed(clicked, 1, Episodes([Bare("z")]));
            |end.online| == 2 && end.online[0].index == 2 && end.online[1].index == 2
  {
    var t, clicked := Next(LateEpisode(), ClickLink(Online, Bare("y"))), Bare("y").(index := 2);
    ClickAfterLateEpisode();
    KeptClicked(t.online[0], clicked);
    OneEpisode([clicked], Bare("z"), "B");
    CompletedFields(t, 1, Episodes([Bare("z")]));
    assert "y"[0] != "z"[0];
    assert !HasUrl([clicked], "z");
  }

  lemma OneEpisode(list: seq<Item>, e: Item, page: string)
    ensures AddedAll(list, EpisodesOf([e], page)) == Added(list, Episode(e, page))
  {
    assert EpisodesOf([e], page) == [Episode(e, page)];
    assert [Episode(e, page)][..0] == [];
  }

  lemma KeptClicked(shown: Item, clicked: Item)
    requires shown.source == FROM_PAGE && clicked.source == ""
    ensures NotFromPage([shown, clicked]) == [clicked]
  {
    assert |FROM_PAGE| > 0;
    assert [shown, clicked][..1] == [shown] && [shown][..0] == [];
    assert NotFromPage([shown]) == [];
  }
}
