/**
 The lazily extended result pages of a search (`_search_youtube_page`, `_fetch_search_first_page`,
 `_fetch_search_continuation` of the YouTube spider).

 A session keeps the pages fetched so far and the token of the next one. Asking for a page
 extends the session as far as needed; asking for page 1 starts the session again.
 Every request to the site may fail, which leaves the session as far as it got.
 */
module SearchSession {
  import opened Paging
  import opened VideoScan

  datatype Page = Page(videos: seq<Video>, next: string)

  /** What a first page says about the client: the key of the interface and the context every continuation sends
      along. */
  datatype Client = Client(apiKey: string, context: string)

  datatype First = First(page: Page, client: Client)

  /** The site: the first page of a query, the page a token leads to, and which requests fail. */
  datatype Site = Site(
    first: string -> First,
    more: (Client, string) -> Page,
    fails: nat -> bool,
    normalize: string -> string)

  datatype Progress = Progress(key: string, client: Client, pages: seq<seq<Video>>, next: string)

  datatype Outcome = Ok(videos: seq<Video>, hasMore: bool) | Failed

  /** `_search_cache_key`: queries that share a session. */
  function CacheKey(site: Site, key: string): string {
    site.normalize(key)
  }

  /** The n-th request fails. */
  predicate Fails(site: Site, n: nat) {
    site.fails(n)
  }

  /** Queries share a session exactly if they are the same when normalised. */
  lemma SharedSession(site: Site, a: string, b: string)
    ensures CacheKey(site, a) == CacheKey(site, b) <==> site.normalize(a) == site.normalize(b)
  {
  }

  /** Requests `from` to `to` were sent, and the last of them failed. */
  predicate LastFailed(site: Site, from: nat, to: nat) {
    to > from && Fails(site, to - 1)
  }

  lemma LastFailedLater(site: Site, from: nat, between: nat, to: nat)
    requires from <= between <= to && !LastFailed(site, from, between)
    ensures LastFailed(site, between, to) <==> LastFailed(site, from, to)
  {
  }

  function FirstOf(site: Site, key: string): First {
    site.first(key)
  }

  // ----- the reference: the token chain of a query -----

  /** What following a token yields; without an API key the spider reads an empty document. */
  function Follow(site: Site, client: Client, token: string): Page {
    if token == "" || client.apiKey == "" then Page([], "") else site.more(client, token)
  }

  function ChainPage(site: Site, key: string, i: nat): Page
    requires i >= 1
  {
    if i == 1 then FirstOf(site, key).page
    else Follow(site, FirstOf(site, key).client, ChainPage(site, key, i - 1).next)
  }

  predicate HasPage(site: Site, key: string, i: nat) {
    i >= 1 && (i == 1 || (HasPage(site, key, i - 1) && ChainPage(site, key, i - 1).next != ""))
  }

  /** The answer a reader of the whole chain would give. */
  function Expected(site: Site, key: string, page: nat): Outcome
    requires page >= 1
  {
    if HasPage(site, key, page) then Ok(ChainPage(site, key, page).videos, HasPage(site, key, page + 1))
    else Ok([], false)
  }

  lemma {:induction false} EarlierPages(site: Site, key: string, i: nat, n: nat)
    requires 1 <= i <= n && HasPage(site, key, n)
    ensures HasPage(site, key, i)
    decreases n - i
  {
    if i < n { EarlierPages(site, key, i + 1, n); }
  }

  /** The stored pages are the first pages of the chain, and the stored token is the last one's. */
  ghost predicate IsPrefix(site: Site, s: Progress) {
    && s.client == FirstOf(site, s.key).client
    && HasPage(site, s.key, |s.pages|)
    && s.next == ChainPage(site, s.key, |s.pages|).next
    && forall i | 0 <= i < |s.pages| :: s.pages[i] == ChainPage(site, s.key, i + 1).videos
  }

  /** What a session answers for a page it was extended for. */
  function Answer(s: Progress, page: nat): Outcome
    requires page >= 1
  {
    Ok(if |s.pages| >= page then s.pages[page - 1] else [], s.next != "" || |s.pages| > page)
  }

  /** A page beyond the first is what its predecessor's token leads to; without an interface key it is empty. */
  lemma NextPageFollows(site: Site, key: string, i: nat)
    requires i >= 1 && HasPage(site, key, i + 1)
    ensures var client, token := FirstOf(site, key).client, ChainPage(site, key, i).next;
            && token != ""
            && ChainPage(site, key, i + 1) == (if client.apiKey != "" then site.more(client, token) else Page([], ""))
  {
  }

  /** The answer to a later page: the site's, as its predecessor's token leads to it, or nothing past the end. */
  ghost predicate AnswersPage(site: Site, key: string, page: nat, r: Outcome)
    requires page >= 2
  {
    var client := FirstOf(site, key).client;
    if !HasPage(site, key, page) || client.apiKey == "" then r == Ok([], false)
    else
      var answer := site.more(client, ChainPage(site, key, page - 1).next);
      r == Ok(answer.videos, answer.next != "")
  }

  lemma ExpectedPage(site: Site, key: string, page: nat)
    requires page >= 2
    ensures AnswersPage(site, key, page, Expected(site, key, page))
  {
    if HasPage(site, key, page) { NextPageFollows(site, key, page - 1); }
  }

  /** The first page is the site's first answer to the query. */
  lemma ExpectedFirst(site: Site, key: string)
    ensures Expected(site, key, 1) == Ok(site.first(key).page.videos, site.first(key).page.next != "")
  {
  }

  /** A prefix of the chain that reaches the page, or the chain's end, answers as the whole chain does. */
  lemma AnswerIsExpected(site: Site, s: Progress, page: nat)
    requires page >= 1 && IsPrefix(site, s) && (|s.pages| >= page || s.next == "")
    ensures Answer(s, page) == Expected(site, s.key, page)
  {
    var n := |s.pages|;
    if page <= n {
      EarlierPages(site, s.key, page, n);
      if page < n {
        EarlierPages(site, s.key, page + 1, n);
      }
    } else if HasPage(site, s.key, page) {
      EarlierPages(site, s.key, n + 1, page);
    }
  }

  /** The session after following its token once. */
  function Extended(site: Site, s: Progress): Progress {
    var data := Follow(site, s.client, s.next);
    s.(pages := s.pages + [data.videos], next := data.next)
  }

  lemma ExtendedIsPrefix(site: Site, s: Progress)
    requires IsPrefix(site, s) && s.next != ""
    ensures IsPrefix(site, Extended(site, s))
  {
    var n := |s.pages|;
    assert ChainPage(site, s.key, n + 1) == Follow(site, s.client, s.next);
    assert HasPage(site, s.key, n + 1);
  }

  /** Queries whose first pages agree have the same chain, so sharing a session between them is harmless. */
  lemma {:induction false} SameFirstSameChain(site: Site, k1: string, k2: string, i: nat)
    requires i >= 1 && FirstOf(site, k1) == FirstOf(site, k2)
    ensures ChainPage(site, k1, i) == ChainPage(site, k2, i)
    ensures HasPage(site, k1, i) <==> HasPage(site, k2, i)
    ensures Expected(site, k1, i) == Expected(site, k2, i)
  {
    if i > 1 {
      SameFirstSameChain(site, k1, k2, i - 1);
    }
  }

  /** A stored session; the token and the pages change as it is extended. */
  class Session {
    const site: Site
    const key: string
    const client: Client
    var pages: seq<seq<Video>>
    var next: string

    constructor (site: Site, key: string)
      ensures this.site == site && this.key == key && Valid()
    {
      var first := FirstOf(site, key);
      this.site, this.key, client := site, key, first.client;
      pages, next := [first.page.videos], first.page.next;
    }

    function Model(): Progress
      reads this
    {
      Progress(key, client, pages, next)
    }

    ghost predicate Valid()
      reads this
    {
      IsPrefix(site, Model())
    }

    /** Follows the token once; without an API key no request is sent. `calls` counts requests. */
    method FollowToken(calls: nat) returns (failed: bool, callsAfter: nat)
      requires Valid() && next != ""
      modifies this
      ensures Valid() && callsAfter >= calls
      ensures failed <==> LastFailed(site, calls, callsAfter)
      ensures Model() == if failed then old(Model()) else Extended(site, old(Model()))
    {
      callsAfter := calls;
      if client.apiKey != "" {
        callsAfter := calls + 1;
        if Fails(site, calls) {
          return true, callsAfter;
        }
      }
      ExtendedIsPrefix(site, Model());
      var data := Follow(site, client, next);
      pages := pages + [data.videos];
      next := data.next;
      failed := false;
    }

    /** The loop: follows tokens until the page is stored, the chain ends or a request fails. */
    method Extend(page: nat, calls: nat) returns (failed: bool, callsAfter: nat)
      requires Valid()
      modifies this
      ensures Valid() && old(pages) <= pages && callsAfter >= calls
      ensures failed <==> LastFailed(site, calls, callsAfter)
      ensures !failed ==> |pages| >= page || next == ""
      // no page beyond the one asked for is fetched
      ensures |pages| <= page || (pages == old(pages) && callsAfter == calls)
    {
      failed, callsAfter := false, calls;
      while !failed && |pages| < page && next != ""
        invariant Valid() && old(pages) <= pages && callsAfter >= calls
        invariant failed <==> LastFailed(site, calls, callsAfter)
        invariant |pages| <= page || (pages == old(pages) && callsAfter == calls)
        decreases !failed, page - |pages|
      {
        failed, callsAfter := FollowToken(callsAfter);
      }
    }

    /** Extends the session as far as the page and answers from it. */
    method Serve(page: nat, calls: nat) returns (r: Outcome, callsAfter: nat)
      requires Valid() && page >= 1
      modifies this
      ensures Valid() && callsAfter >= calls
      ensures r.Ok? ==> r == Expected(site, key, page) && (page >= 2 ==> AnswersPage(site, key, page, r))
      ensures r.Failed? <==> LastFailed(site, calls, callsAfter)
      ensures old(pages) <= pages
    {
      var failed;
      failed, callsAfter := Extend(page, calls);
      if failed {
        return Failed, callsAfter;
      }
      AnswerIsExpected(site, Model(), page);
      if page >= 2 { ExpectedPage(site, key, page); }
      r := Answer(Model(), page);
    }
  }

  class SearchCache {
    const site: Site
    var sessions: map<string, Session>
    var calls: nat  // requests sent so far

    constructor (site: Site)
      ensures Valid() && this.site == site && sessions == map[]
    {
      this.site, sessions, calls := site, map[], 0;
    }

    ghost predicate Valid()
      reads this, sessions.Values
    {
      forall k | k in sessions ::
        sessions[k].site == site && CacheKey(site, sessions[k].key) == k && sessions[k].Valid()
    }

    /** Makes sure there is a session, a new one if asked to restart. */
    method Open(key: string, restart: bool) returns (failed: bool)
      requires Valid()
      modifies this
      ensures Valid() && calls >= old(calls)
      ensures failed <==> LastFailed(site, old(calls), calls)
      ensures var k := CacheKey(site, key);
              if failed || (!restart && k in old(sessions)) then sessions == old(sessions)
              else k in sessions && sessions == old(sessions)[k := sessions[k]]
                   && fresh(sessions[k]) && sessions[k].key == key
    {
      var k := CacheKey(site, key);
      if restart || k !in sessions {
        calls := calls + 1;
        if Fails(site, calls - 1) {
          return true;
        }
        var started := new Session(site, key);
        sessions := sessions[k := started];
      }
      return false;
    }

    method ServeFrom(k: string, page: nat) returns (r: Outcome)
      requires Valid() && k in sessions && page >= 1
      modifies this`calls, sessions[k]
      ensures Valid() && calls >= old(calls)
      ensures r.Ok? ==> r == Expected(site, sessions[k].key, page)
      ensures r.Ok? && page >= 2 ==> AnswersPage(site, sessions[k].key, page, r)
      ensures r.Failed? <==> LastFailed(site, old(calls), calls)
      ensures old(sessions[k].pages) <= sessions[k].pages
    {
      r, calls := sessions[k].Serve(page, calls);
    }

    /** One page request. */
    method SearchPage(key: string, requested: int) returns (r: Outcome)
      requires Valid()
      modifies this, if CacheKey(site, key) in sessions then {sessions[CacheKey(site, key)]} else {}
      // a failure is a failed request, the last one sent
      ensures calls >= old(calls)
      ensures r.Failed? <==> LastFailed(site, old(calls), calls)
      ensures Valid()
      // the sessions of other queries are not touched, and this one is only extended unless page 1 starts it again
      ensures var k := CacheKey(site, key);
              sessions == old(sessions) || (k in sessions && sessions == old(sessions)[k := sessions[k]])
      ensures forall other | other in old(sessions) && other != CacheKey(site, key) ::
                old(sessions[other]).Model() == old(sessions[other].Model())
      ensures var k := CacheKey(site, key);
              k in old(sessions) && requested > 1
              ==> sessions == old(sessions) && old(sessions[k].pages) <= sessions[k].pages
      // the answer of the chain that the session was started from
      ensures r.Ok? ==>
                var page := PageNumber(requested);
                var k := CacheKey(site, key);
                var origin := if page == 1 || k !in old(sessions) then key else old(sessions)[k].key;
                k in sessions && sessions[k].key == origin && r == Expected(site, origin, page)
      // and so for a later page what the site answers to the token before it
      ensures r.Ok? && requested >= 2 ==> AnswersPage(site, sessions[CacheKey(site, key)].key, requested, r)
    {
      var page := PageNumber(requested);
      var k := CacheKey(site, key);
      var failed := Open(key, page == 1);
      ghost var sent := calls;
      if failed {
        r := Failed;
      } else {
        r := ServeFrom(k, page);
        LastFailedLater(site, old(calls), sent, calls);
      }
    }
  }
}
