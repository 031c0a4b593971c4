/**
 The asynchronous item store of the Pomo page extension: `addItem`, `collectDownloadItems`,
 `loadOnlineItems`, `parseOnlinePage`, `ensureActiveTab`, the click handlers and the
 `fmurlchange` handler over one shared `state`.

 JavaScript runs one handler at a time, so a run is a sequence of events. A load suspends
 at its first `await`; from then on it is an entry of `pending`, and its completion is an
 event of its own that may come at any later time, also after a page change.
 */
module PomoStore {

  datatype Group = Online | Pan | Magnet

  /** `playPage` is the page an episode was found on, empty for the others; `index` is set when stored. */
  datatype Item = Item(url: string, source: string, title: string, playPage: string, index: nat)

  const FROM_PAGE := "online-page"

  datatype Play = Play(group: Group, url: string, deferred: bool)

  datatype State = State(
    activeTab: Group,
    loading: bool,
    loaded: bool,
    onlinePage: string,
    playWhenReady: bool,
    online: seq<Item>,
    pan: seq<Item>,
    magnet: seq<Item>,
    pending: map<nat, string>,  // loads in flight and the pages they were sent for
    nextLoad: nat,
    plays: seq<Play>)           // what was handed to the native player

  /** A link of the page as `classify` sorts it; `player` marks a link to the player page. */
  datatype Link = Link(group: Group, item: Item, player: bool)

  datatype Page = Page(isDetail: bool, hasDownloads: bool, rows: seq<Link>, actions: seq<Link>, playLink: string)

  /** How a load ends: the request fails, the page holds no list, or it holds these episodes. */
  datatype Outcome = Failed | NoList | Episodes(items: seq<Item>)

  datatype Event =
    | Scan(page: Page)
    | Complete(load: nat, outcome: Outcome)
    | PageChange
    | ClickPlayer(playLink: string)
    | ClickLink(group: Group, item: Item)
    | ClickTab(tab: Group)
    | ClickRow(group: Group, row: nat)

  const INITIAL := State(Online, false, false, "", false, [], [], [], map[], 0, [])

  // ----- lists -----

  predicate HasUrl(list: seq<Item>, url: string) {
    exists i | 0 <= i < |list| :: list[i].url == url
  }

  function Added(list: seq<Item>, item: Item): seq<Item> {
    if item.url == "" || HasUrl(list, item.url) then list else list + [item.(index := |list| + 1)]
  }

  function AddedAll(list: seq<Item>, items: seq<Item>): seq<Item> {
    if items == [] then list else Added(AddedAll(list, items[..|items| - 1]), items[|items| - 1])
  }

  function ItemsOf(s: State, g: Group): seq<Item> {
    match g case Online => s.online case Pan => s.pan case Magnet => s.magnet
  }

  function AddTo(s: State, g: Group, item: Item): State {
    match g
    case Online => s.(online := Added(s.online, item))
    case Pan => s.(pan := Added(s.pan, item))
    case Magnet => s.(magnet := Added(s.magnet, item))
  }

  function AddLinks(s: State, links: seq<Link>): State {
    if links == [] then s
    else
      var before, last := AddLinks(s, links[..|links| - 1]), links[|links| - 1];
      AddTo(before, last.group, last.item)
  }

  /** The action links that are collected: not to the player page, and not media. */
  function ActionLinks(links: seq<Link>): seq<Link> {
    if links == [] then []
    else
      var before, last := ActionLinks(links[..|links| - 1]), links[|links| - 1];
      if last.player || last.group == Online then before else before + [last]
  }

  function NotFromPage(list: seq<Item>): seq<Item> {
    if list == [] then []
    else
      var before, last := NotFromPage(list[..|list| - 1]), list[|list| - 1];
      if last.source == FROM_PAGE then before else before + [last]
  }

  // ----- the handlers as functions of the state -----

  function WithActiveTab(s: State): State {
    if ItemsOf(s, s.activeTab) != [] then s
    else if s.online != [] then s.(activeTab := Online)
    else if s.pan != [] then s.(activeTab := Pan)
    else if s.magnet != [] then s.(activeTab := Magnet)
    else s
  }

  function Collected(s: State, page: Page): State {
    var cleared := s.(pan := [], magnet := []);
    if !page.hasDownloads then cleared else AddLinks(AddLinks(cleared, page.rows), ActionLinks(page.actions))
  }

  function LoadStarted(s: State, playLink: string): State {
    if s.loaded || s.loading then s
    else if playLink == "" then s.(loaded := true)
    else s.(loading := true, onlinePage := playLink,
            pending := s.pending[s.nextLoad := playLink], nextLoad := s.nextLoad + 1)
  }

  function Played(s: State, g: Group, row: nat, deferred: bool): State {
    if row < |ItemsOf(s, g)| then s.(plays := s.plays + [Play(g, ItemsOf(s, g)[row].url, deferred)]) else s
  }

  function Scanned(s: State, page: Page): State {
    if !page.isDetail then s else LoadStarted(WithActiveTab(Collected(s, page)), page.playLink)
  }

  function PageItem(playPage: string): Item {
    Item(playPage, FROM_PAGE, "", "", 0)
  }

  function Episode(e: Item, playPage: string): Item {
    e.(source := FROM_PAGE, playPage := playPage)
  }

  function EpisodesOf(items: seq<Item>, playPage: string): (r: seq<Item>)
    ensures |r| == |items| && forall i | 0 <= i < |items| :: r[i] == Episode(items[i], playPage)
  {
    seq(|items|, i requires 0 <= i < |items| => Episode(items[i], playPage))
  }

  /** The online list after a load of `playPage`. */
  function OnlineAfter(list: seq<Item>, outcome: Outcome, playPage: string): seq<Item> {
    match outcome
    case Failed => Added(list, PageItem(playPage))
    case NoList => list
    case Episodes(items) => AddedAll(NotFromPage(list), EpisodesOf(items, playPage))
  }

  function Settled(s: State): State {
    var t := WithActiveTab(s.(loading := false, loaded := true));
    if t.playWhenReady && t.online != [] then Played(t.(playWhenReady := false), Online, 0, true) else t
  }

  function Completed(s: State, load: nat, outcome: Outcome): State {
    if load !in s.pending then s
    else Settled(s.(online := OnlineAfter(s.online, outcome, s.pending[load]), pending := s.pending - {load}))
  }

  function PageChanged(s: State): State {
    s.(loading := false, loaded := false, onlinePage := "", playWhenReady := false,
       online := [], pan := [], magnet := [])
  }

  function PlayerClicked(s: State, playLink: string): State {
    var t := (if s.online == [] && !s.loaded then LoadStarted(s, playLink) else s).(activeTab := Online);
    if t.online != [] then Played(t, Online, 0, false) else t.(playWhenReady := true)
  }

  function RowOf(list: seq<Item>, url: string): (i: nat)
    ensures i <= |list| && (forall j | 0 <= j < i :: list[j].url != url) && (i < |list| ==> list[i].url == url)
  {
    if list == [] || list[0].url == url then 0 else 1 + RowOf(list[1..], url)
  }

  function LinkClicked(s: State, g: Group, item: Item): State {
    if item.url == "" then s
    else
      var t := WithActiveTab(AddTo(s, g, item));
      var i := RowOf(ItemsOf(t, g), item.url);
      if i < |ItemsOf(t, g)| then Played(t.(activeTab := g), g, i, false) else t
  }

  function Next(s: State, e: Event): State {
    match e
    case Scan(page) => Scanned(s, page)
    case Complete(load, outcome) => Completed(s, load, outcome)
    case PageChange => PageChanged(s)
    case ClickPlayer(playLink) => PlayerClicked(s, playLink)
    case ClickLink(g, item) => LinkClicked(s, g, item)
    case ClickTab(tab) => s.(activeTab := tab)
    case ClickRow(g, row) => Played(s, g, row, false)
  }

  function Run(s: State, events: seq<Event>): State {
    if events == [] then s else Next(Run(s, events[..|events| - 1]), events[|events| - 1])
  }

  // ----- the object -----

  class Store {
    var activeTab: Group
    var loading: bool
    var loaded: bool
    var onlinePage: string
    var playWhenReady: bool
    var online: seq<Item>
    var pan: seq<Item>
    var magnet: seq<Item>
    var pending: map<nat, string>
    var nextLoad: nat
    var plays: seq<Play>

    constructor ()
      ensures Model() == INITIAL
    {
      activeTab, loading, loaded, onlinePage, playWhenReady := Online, false, false, "", false;
      online, pan, magnet := [], [], [];
      pending, nextLoad, plays := map[], 0, [];
    }

    function Model(): State
      reads this
    {
      State(activeTab, loading, loaded, onlinePage, playWhenReady, online, pan, magnet, pending, nextLoad, plays)
    }

    /** `addItem`: a scan for the address, then a push. */
    method AddItem(g: Group, item: Item)
      modifies this
      ensures Model() == AddTo(old(Model()), g, item)
    {
      if item.url == "" {
        return;
      }
      var list := match g case Online => online case Pan => pan case Magnet => magnet;
      for i := 0 to |list|
        invariant forall j | 0 <= j < i :: list[j].url != item.url
        invariant Model() == old(Model())
      {
        if list[i].url == item.url {
          return;
        }
      }
      var stored := list + [item.(index := |list| + 1)];
      match g {
        case Online => online := stored;
        case Pan => pan := stored;
        case Magnet => magnet := stored;
      }
    }

    /** `collectDownloadItems`. */
    method Collect(page: Page)
      modifies this
      ensures Model() == Collected(old(Model()), page)
    {
      pan, magnet := [], [];
      if !page.hasDownloads {
        return;
      }
      AddRows(page.rows);
      AddActions(page.actions);
    }

    method AddRows(rows: seq<Link>)
      modifies this
      ensures Model() == AddLinks(old(Model()), rows)
    {
      for i := 0 to |rows|
        invariant Model() == AddLinks(old(Model()), rows[..i])
      {
        assert rows[..i + 1][..i] == rows[..i];
        AddItem(rows[i].group, rows[i].item);
      }
      assert rows[..|rows|] == rows;
    }

    method AddActions(actions: seq<Link>)
      modifies this
      ensures Model() == AddLinks(old(Model()), ActionLinks(actions))
    {
      for i := 0 to |actions|
        invariant Model() == AddLinks(old(Model()), ActionLinks(actions[..i]))
      {
        assert actions[..i + 1][..i] == actions[..i];
        if actions[i].player || actions[i].group == Online {
          continue;
        }
        ghost var kept := ActionLinks(actions[..i]);
        assert (kept + [actions[i]])[..|kept|] == kept;
        AddItem(actions[i].group, actions[i].item);
      }
      assert actions[..|actions|] == actions;
    }

    method EnsureActiveTab()
      modifies this
      ensures Model() == WithActiveTab(old(Model()))
    {
      if ItemsOf(Model(), activeTab) != [] {
        return;
      }
      if online != [] {
        activeTab := Online;
      } else if pan != [] {
        activeTab := Pan;
      } else if magnet != [] {
        activeTab := Magnet;
      }
    }

    /** `loadOnlineItems` up to its first `await`. */
    method LoadOnline(playLink: string)
      modifies this
      ensures Model() == LoadStarted(old(Model()), playLink)
    {
      if loaded || loading {
        return;
      }
      if playLink == "" {
        loaded := true;
        return;
      }
      loading := true;
      onlinePage := playLink;
      pending := pending[nextLoad := playLink];
      nextLoad := nextLoad + 1;
    }

    method ScanPage(page: Page)
      modifies this
      ensures Model() == Scanned(old(Model()), page)
    {
      if !page.isDetail {
        return;
      }
      Collect(page);
      EnsureActiveTab();
      LoadOnline(page.playLink);
    }

    /** `parseOnlinePage` on a page that holds a list. */
    method StoreEpisodes(items: seq<Item>, playPage: string)
      modifies this
      ensures Model() == old(Model()).(online := AddedAll(NotFromPage(old(online)), EpisodesOf(items, playPage)))
    {
      ghost var before, all := Model(), EpisodesOf(items, playPage);
      online := NotFromPage(online);
      for i := 0 to |items|
        invariant Model() == before.(online := AddedAll(NotFromPage(before.online), all[..i]))
      {
        assert all[..i + 1][..i] == all[..i];
        AddItem(Online, Episode(items[i], playPage));
      }
      assert all[..|items|] == all;
    }

    /** The rest of `loadOnlineItems`, when the answer to a load arrives. */
    method CompleteLoad(load: nat, outcome: Outcome)
      requires load in pending
      modifies this
      ensures Model() == Completed(old(Model()), load, outcome)
    {
      var playPage := pending[load];
      pending := pending - {load};
      match outcome {
        case Failed => AddItem(Online, PageItem(playPage));
        case NoList =>
        case Episodes(items) => StoreEpisodes(items, playPage);
      }
      Settle();
    }

    /** The `finally` block. */
    method Settle()
      modifies this
      ensures Model() == Settled(old(Model()))
    {
      loading := false;
      loaded := true;
      EnsureActiveTab();
      if playWhenReady && online != [] {
        playWhenReady := false;
        PlayItem(Online, 0, true);
      }
    }

    /** `playItem`, up to the call of the native player. */
    method PlayItem(g: Group, row: nat, deferred: bool)
      modifies this`plays
      ensures Model() == Played(old(Model()), g, row, deferred)
    {
      var list := ItemsOf(Model(), g);
      if row >= |list| {
        return;
      }
      plays := plays + [Play(g, list[row].url, deferred)];
    }

    /** The `fmurlchange` handler; loads in flight are not cancelled. */
    method ChangePage()
      modifies this
      ensures Model() == PageChanged(old(Model()))
    {
      loading, loaded, onlinePage, playWhenReady := false, false, "", false;
      online, pan, magnet := [], [], [];
    }

    /** `interceptOriginalClicks` on a link to the player page. */
    method OnPlayerClick(playLink: string)
      modifies this
      ensures Model() == PlayerClicked(old(Model()), playLink)
    {
      if online == [] && !loaded {
        LoadOnline(playLink);
      }
      activeTab := Online;
      if online != [] {
        PlayItem(Online, 0, false);
      } else {
        playWhenReady := true;
      }
    }

    /** `interceptOriginalClicks` on any other link, and `playItemObject`. */
    method OnLinkClick(g: Group, item: Item)
      modifies this
      ensures Model() == LinkClicked(old(Model()), g, item)
    {
      if item.url == "" {
        return;
      }
      AddItem(g, item);
      EnsureActiveTab();
      var list := ItemsOf(Model(), g);
      ghost var before := Model();
      for i := 0 to |list|
        invariant forall j | 0 <= j < i :: list[j].url != item.url
        invariant Model() == before
      {
        if list[i].url == item.url {
          activeTab := g;
          PlayItem(g, i, false);
          return;
        }
      }
    }

    /** One event, by its handler; an answer that is not awaited has none. */
    method Handle(e: Event)
      modifies this
      ensures Model() == Next(old(Model()), e)
    {
      match e {
        case Scan(page) => ScanPage(page);
        case Complete(load, outcome) =>
          if load in pending {
            CompleteLoad(load, outcome);
          }
        case PageChange => ChangePage();
        case ClickPlayer(playLink) => OnPlayerClick(playLink);
        case ClickLink(g, item) => OnLinkClick(g, item);
        case ClickTab(tab) => activeTab := tab;
        case ClickRow(g, row) => PlayItem(g, row, false);
      }
    }

    /** The browser's event loop: the object goes through exactly the states of the run. */
    method HandleAll(events: seq<Event>)
      modifies this
      ensures Model() == Run(old(Model()), events)
    {
      for i := 0 to |events|
        invariant Model() == Run(old(Model()), events[..i])
      {
        assert events[..i + 1][..i] == events[..i];
        Handle(events[i]);
      }
      assert events[..|events|] == events;
    }
  }
}
