/**
 The depth-first scan for videos in a decoded JSON document (`_extract_videos_from_api`
 of the YouTube spider): it stops descending once it has enough, shares one result list
 and one seen-set over the whole walk, and cuts the list at the end.
 */
module VideoScan {
  import opened Options

  datatype Video = Video(id: string, name: string, picture: string, remarks: string)

  /** A decoded JSON value; an object lists its members in order. */
  datatype Json =
    | Null
    | Bool(b: bool)
    | Number(digits: string)
    | Text(s: string)
    | Array(items: seq<Json>)
    | Object(members: seq<Member>)

  datatype Member = Member(name: string, value: Json)

  /** What `_parse_renderer` makes of a renderer: a video or nothing. */
  type Parser = Json -> Option<Video>

  const RENDERERS := ["videoRenderer", "compactVideoRenderer", "gridVideoRenderer", "reelItemRenderer"]

  function Get(members: seq<Member>, name: string): Option<Json> {
    if members == [] then None
    else if members[0].name == name then Some(members[0].value)
    else Get(members[1..], name)
  }

  // ----- the reference: all candidates of a document in visit order -----

  function Candidate(parse: Parser, members: seq<Member>, name: string): seq<Video> {
    match Get(members, name)
    case None => []
    case Some(renderer) => match parse(renderer) case None => [] case Some(v) => [v]
  }

  function OwnCandidates(parse: Parser, members: seq<Member>, n: nat): seq<Video>
    requires n <= |RENDERERS|
  {
    if n == 0 then [] else OwnCandidates(parse, members, n - 1) + Candidate(parse, members, RENDERERS[n - 1])
  }

  /** The renderers of an object come before anything nested in it. */
  function Visit(parse: Parser, j: Json): seq<Video>
    decreases j, 1, 0
  {
    match j
    case Object(members) => VisitMembers(parse, j, |members|)
    case Array(items) => VisitItems(parse, j, |items|)
    case _ => []
  }

  function VisitMembers(parse: Parser, j: Json, n: nat): seq<Video>
    requires j.Object? && n <= |j.members|
    decreases j, 0, n
  {
    if n == 0 then OwnCandidates(parse, j.members, |RENDERERS|)
    else VisitMembers(parse, j, n - 1) + Visit(parse, j.members[n - 1].value)
  }

  function VisitItems(parse: Parser, j: Json, n: nat): seq<Video>
    requires j.Array? && n <= |j.items|
    decreases j, 0, n
  {
    if n == 0 then [] else VisitItems(parse, j, n - 1) + Visit(parse, j.items[n - 1])
  }

  // ----- which candidates a document has -----

  /** Looking a name up finds the first member of that name. */
  lemma {:induction false} GetFindsFirst(members: seq<Member>, i: nat)
    requires i < |members| && forall k | 0 <= k < i :: members[k].name != members[i].name
    ensures Get(members, members[i].name) == Some(members[i].value)
  {
    if i > 0 {
      forall k | 0 <= k < i - 1 ensures members[1..][k].name != members[i].name {
        assert members[1..][k] == members[k + 1];
      }
      GetFindsFirst(members[1..], i - 1);
    }
  }

  lemma {:induction false} GetIsMember(members: seq<Member>, name: string) returns (i: nat)
    requires Get(members, name).Some?
    ensures i < |members| && members[i].name == name && members[i].value == Get(members, name).value
  {
    if members[0].name == name {
      i := 0;
    } else {
      var k := GetIsMember(members[1..], name);
      i := k + 1;
    }
  }

  /** The value a path of places leads to, through members of objects and items of arrays. */
  function At(j: Json, path: seq<nat>): Option<Json>
    decreases |path|
  {
    if path == [] then Some(j)
    else match j
      case Object(members) => if path[0] < |members| then At(members[path[0]].value, path[1..]) else None
      case Array(items) => if path[0] < |items| then At(items[path[0]], path[1..]) else None
      case _ => None
  }

  predicate IsRenderer(name: string) {
    || name == "videoRenderer" || name == "compactVideoRenderer"
    || name == "gridVideoRenderer" || name == "reelItemRenderer"
  }

  /** An object with a renderer that reads as this video. */
  ghost predicate Renders(parse: Parser, j: Json, v: Video) {
    j.Object? && exists name :: IsRenderer(name) && Get(j.members, name).Some?
                               && parse(Get(j.members, name).value) == Some(v)
  }

  /** Somewhere in the document, however deep, an object renders this video. */
  ghost predicate RenderedIn(parse: Parser, j: Json, v: Video) {
    exists path: seq<nat> :: At(j, path).Some? && Renders(parse, At(j, path).value, v)
  }

  lemma OwnCandidatesByName(parse: Parser, members: seq<Member>)
    ensures OwnCandidates(parse, members, |RENDERERS|)
         == Candidate(parse, members, "videoRenderer") + Candidate(parse, members, "compactVideoRenderer")
          + Candidate(parse, members, "gridVideoRenderer") + Candidate(parse, members, "reelItemRenderer")
  {
    var none := OwnCandidates(parse, members, 0);
    assert none == [];
    OwnStep(parse, members, 1, "videoRenderer");
    OwnStep(parse, members, 2, "compactVideoRenderer");
    OwnStep(parse, members, 3, "gridVideoRenderer");
    OwnStep(parse, members, 4, "reelItemRenderer");
    assert none + Candidate(parse, members, "videoRenderer") == Candidate(parse, members, "videoRenderer");
  }

  lemma OwnStep(parse: Parser, members: seq<Member>, n: nat, name: string)
    requires 0 < n <= |RENDERERS| && RENDERERS[n - 1] == name
    ensures OwnCandidates(parse, members, n) == OwnCandidates(parse, members, n - 1) + Candidate(parse, members, name)
  {
  }

  lemma OwnCandidatesAre(parse: Parser, members: seq<Member>, v: Video)
    ensures v in OwnCandidates(parse, members, |RENDERERS|) <==> Renders(parse, Object(members), v)
  {
    OwnCandidatesByName(parse, members);
    forall name ensures v in Candidate(parse, members, name)
                   <==> Get(members, name).Some? && parse(Get(members, name).value) == Some(v)
    {
    }
  }

  /** A document's candidates are exactly the videos rendered somewhere in it. */
  lemma {:induction false} VisitFindsAll(parse: Parser, j: Json, v: Video)
    ensures v in Visit(parse, j) <==> RenderedIn(parse, j, v)
    decreases j, 1, 0
  {
    RenderedStep(parse, j, v);
    match j {
      case Object(members) => MembersFindAll(parse, j, |members|, v);
      case Array(items) => ItemsFindAll(parse, j, |items|, v);
      case _ =>
    }
  }

  /** Rendered here, or in one of the values nested directly. */
  lemma RenderedStep(parse: Parser, j: Json, v: Video)
    ensures RenderedIn(parse, j, v)
       <==> || Renders(parse, j, v)
            || (j.Object? && exists k | 0 <= k < |j.members| :: RenderedIn(parse, j.members[k].value, v))
            || (j.Array? && exists k | 0 <= k < |j.items| :: RenderedIn(parse, j.items[k], v))
  {
    if RenderedIn(parse, j, v) {
      var path: seq<nat> :| At(j, path).Some? && Renders(parse, At(j, path).value, v);
      if path != [] {
        var nested := if j.Object? then j.members[path[0]].value else j.items[path[0]];
        assert At(nested, path[1..]).Some? && Renders(parse, At(nested, path[1..]).value, v);
        assert RenderedIn(parse, nested, v);
      }
    }
    if Renders(parse, j, v) { assert At(j, []) == Some(j); }
    if j.Object? {
      forall k | 0 <= k < |j.members| && RenderedIn(parse, j.members[k].value, v) ensures RenderedIn(parse, j, v) {
        RenderedBelow(parse, j, j.members[k].value, k, v);
      }
    }
    if j.Array? {
      forall k | 0 <= k < |j.items| && RenderedIn(parse, j.items[k], v) ensures RenderedIn(parse, j, v) {
        RenderedBelow(parse, j, j.items[k], k, v);
      }
    }
  }

  lemma RenderedBelow(parse: Parser, j: Json, nested: Json, k: nat, v: Video)
    requires || (j.Object? && k < |j.members| && j.members[k].value == nested)
             || (j.Array? && k < |j.items| && j.items[k] == nested)
    requires RenderedIn(parse, nested, v)
    ensures RenderedIn(parse, j, v)
  {
    var path: seq<nat> :| At(nested, path).Some? && Renders(parse, At(nested, path).value, v);
    assert ([k] + path)[1..] == path;
    assert At(j, [k] + path) == At(nested, path);
  }

  lemma {:induction false} MembersFindAll(parse: Parser, j: Json, n: nat, v: Video)
    requires j.Object? && n <= |j.members|
    ensures v in VisitMembers(parse, j, n)
       <==> Renders(parse, j, v) || exists k | 0 <= k < n :: RenderedIn(parse, j.members[k].value, v)
    decreases j, 0, n
  {
    if n == 0 {
      OwnCandidatesAre(parse, j.members, v);
    } else {
      MembersFindAll(parse, j, n - 1, v);
      VisitFindsAll(parse, j.members[n - 1].value, v);
    }
  }

  lemma {:induction false} ItemsFindAll(parse: Parser, j: Json, n: nat, v: Video)
    requires j.Array? && n <= |j.items|
    ensures v in VisitItems(parse, j, n) <==> exists k | 0 <= k < n :: RenderedIn(parse, j.items[k], v)
    decreases j, 0, n
  {
    if n > 0 {
      ItemsFindAll(parse, j, n - 1, v);
      VisitFindsAll(parse, j.items[n - 1], v);
    }
  }

  /** Items are visited one after the other, and a value's own renderers before what is nested in its members. */
  lemma {:induction false} ItemsInOrder(parse: Parser, items: seq<Json>, n: nat)
    requires n <= |items|
    ensures VisitItems(parse, Array(items), n) == Visit(parse, Array(items[..n]))
    ensures n > 0 ==>
              Visit(parse, Array(items[..n])) == Visit(parse, Array(items[..n - 1])) + Visit(parse, items[n - 1])
  {
    ItemsPrefix(parse, items, n, n);
    if n > 0 { ItemsPrefix(parse, items, n - 1, n - 1); }
  }

  lemma {:induction false} ItemsPrefix(parse: Parser, items: seq<Json>, m: nat, n: nat)
    requires n <= m <= |items|
    ensures VisitItems(parse, Array(items), n) == VisitItems(parse, Array(items[..m]), n)
    decreases n
  {
    if n > 0 { ItemsPrefix(parse, items, m, n - 1); }
  }

  function Values(members: seq<Member>, n: nat): (r: seq<Json>)
    requires n <= |members|
    ensures |r| == n && forall i | 0 <= i < n :: r[i] == members[i].value
  {
    seq(n, i requires 0 <= i < n => members[i].value)
  }

  lemma {:induction false} MembersInOrder(parse: Parser, members: seq<Member>, n: nat)
    requires n <= |members|
    ensures VisitMembers(parse, Object(members), n)
         == OwnCandidates(parse, members, |RENDERERS|) + Visit(parse, Array(Values(members, n)))
  {
    if n > 0 {
      MembersInOrder(parse, members, n - 1);
      ItemsInOrder(parse, Values(members, n), n);
      assert Values(members, n)[..n] == Values(members, n);
      assert Values(members, n)[..n - 1] == Values(members, n - 1);
    }
  }

  /** The order of visits: an object's own renderers, by name, and then its values as if in an array. */
  lemma OwnBeforeNested(parse: Parser, members: seq<Member>)
    ensures Visit(parse, Object(members))
         == Candidate(parse, members, "videoRenderer") + Candidate(parse, members, "compactVideoRenderer")
          + Candidate(parse, members, "gridVideoRenderer") + Candidate(parse, members, "reelItemRenderer")
          + Visit(parse, Array(Values(members, |members|)))
  {
    MembersInOrder(parse, members, |members|);
    OwnCandidatesByName(parse, members);
  }

  predicate Has(videos: seq<Video>, id: string) {
    exists i | 0 <= i < |videos| :: videos[i].id == id
  }

  function Append(videos: seq<Video>, v: Video): seq<Video> {
    if Has(videos, v.id) then videos else videos + [v]
  }

  /** The list after all candidates, with nothing left out for the limit. */
  function Absorb(videos: seq<Video>, candidates: seq<Video>): (all: seq<Video>)
    ensures videos <= all
  {
    if candidates == [] then videos
    else Append(Absorb(videos, candidates[..|candidates| - 1]), candidates[|candidates| - 1])
  }

  function Take(videos: seq<Video>, limit: nat): seq<Video> {
    if |videos| <= limit then videos else videos[..limit]
  }

  lemma {:induction false} AbsorbConcat(videos: seq<Video>, a: seq<Video>, b: seq<Video>)
    ensures Absorb(videos, a + b) == Absorb(Absorb(videos, a), b)
  {
    if b == [] {
      assert a + b == a;
    } else {
      var n := |b| - 1;
      assert (a + b)[..|a + b| - 1] == a + b[..n];
      AbsorbConcat(videos, a, b[..n]);
    }
  }

  // ----- what the unpruned walk collects -----

  predicate FirstWithId(candidates: seq<Video>, k: nat)
    requires k < |candidates|
  {
    forall i | 0 <= i < k :: candidates[i].id != candidates[k].id
  }

  function FirstsById(candidates: seq<Video>, n: nat): seq<Video>
    requires n <= |candidates|
  {
    if n == 0 then []
    else FirstsById(candidates, n - 1) + if FirstWithId(candidates, n - 1) then [candidates[n - 1]] else []
  }

  /** The first `limit` videos of the document with distinct ids, in visit order. */
  function FirstVideos(parse: Parser, j: Json, limit: nat): seq<Video> {
    var candidates := Visit(parse, j);
    Take(FirstsById(candidates, |candidates|), limit)
  }

  /** The walk keeps, in visit order, exactly the candidates that are the first with their id. */
  lemma {:induction false} AbsorbKeepsFirsts(candidates: seq<Video>, n: nat)
    requires n <= |candidates|
    ensures Absorb([], candidates[..n]) == FirstsById(candidates, n)
    ensures forall id :: Has(FirstsById(candidates, n), id) <==> Has(candidates[..n], id)
    ensures forall i, j | 0 <= i < j < |FirstsById(candidates, n)| ::
              FirstsById(candidates, n)[i].id != FirstsById(candidates, n)[j].id
  {
    if n > 0 {
      AbsorbKeepsFirsts(candidates, n - 1);
      var v, before := candidates[n - 1], FirstsById(candidates, n - 1);
      assert candidates[..n][..n - 1] == candidates[..n - 1];
      assert candidates[..n] == candidates[..n - 1] + [v];
      assert Has(candidates[..n - 1], v.id) <==> !FirstWithId(candidates, n - 1);
      HasLast(candidates[..n - 1], v);
      HasLast(before, v);
    }
  }

  lemma HasLast(videos: seq<Video>, v: Video)
    ensures forall id :: Has(videos + [v], id) <==> Has(videos, id) || id == v.id
  {
    forall id ensures Has(videos + [v], id) <==> Has(videos, id) || id == v.id {
      if Has(videos, id) {
        var i :| 0 <= i < |videos| && videos[i].id == id;
        assert (videos + [v])[i].id == id;
      }
      assert (videos + [v])[|videos|].id == v.id;
    }
  }

  // ----- the pruned walk -----

  /** Alike up to the limit, and equal while either is below it. */
  ghost predicate Alike(limit: nat, a: seq<Video>, b: seq<Video>) {
    && Take(a, limit) == Take(b, limit)
    && (|a| < limit || |b| < limit ==> a == b)
  }

  lemma AlikeBeyond(limit: nat, a: seq<Video>, b: seq<Video>, a': seq<Video>, b': seq<Video>)
    requires Alike(limit, a, b) && |a| >= limit && a <= a' && b <= b'
    ensures Alike(limit, a', b')
  {
    assert |b| >= limit;
    assert a'[..limit] == a[..limit] && b'[..limit] == b[..limit];
    assert Take(a, limit) == a[..limit] && Take(b, limit) == b[..limit];
    assert Take(a', limit) == a'[..limit] && Take(b', limit) == b'[..limit];
  }

  /** Pruning one part of the walk after another stays alike. */
  lemma AlikeNext(limit: nat, start: seq<Video>, before: seq<Video>, more: seq<Video>, a: seq<Video>, a': seq<Video>)
    requires Alike(limit, a, Absorb(start, before)) && Alike(limit, a', Absorb(a, more)) && a <= a'
    ensures Alike(limit, a', Absorb(start, before + more))
  {
    var b := Absorb(start, before);
    AbsorbConcat(start, before, more);
    if |a| >= limit {
      AlikeBeyond(limit, a, b, a', Absorb(b, more));
    } else {
      assert a == b;
    }
  }

  class Scanner {
    const parse: Parser
    const limit: nat
    var videos: seq<Video>
    var seen: set<string>

    constructor (parse: Parser, limit: nat)
      ensures Valid() && this.parse == parse && this.limit == limit && videos == []
    {
      this.parse, this.limit := parse, limit;
      videos, seen := [], {};
    }

    ghost predicate Valid()
      reads this
    {
      forall id :: id in seen <==> Has(videos, id)
    }

    method Offer(members: seq<Member>, name: string)
      requires Valid()
      modifies this
      ensures Valid() && videos == Absorb(old(videos), Candidate(parse, members, name))
    {
      var renderer := Get(members, name);
      if renderer.Some? {
        var item := parse(renderer.value);
        if item.Some? && item.value.id !in seen {
          HasLast(videos, item.value);
          seen := seen + {item.value.id};
          videos := videos + [item.value];
        }
      }
    }

    /** The loop over the renderer names. */
    method OfferAll(members: seq<Member>)
      requires Valid()
      modifies this
      ensures Valid() && videos == Absorb(old(videos), OwnCandidates(parse, members, |RENDERERS|))
    {
      ghost var start := videos;
      for n := 0 to |RENDERERS|
        invariant Valid() && videos == Absorb(start, OwnCandidates(parse, members, n))
      {
        AbsorbConcat(start, OwnCandidates(parse, members, n), Candidate(parse, members, RENDERERS[n]));
        Offer(members, RENDERERS[n]);
      }
    }

    /** The nested function `scan`: an object that meets the limit midway still offers all its own renderers. */
    method Scan(j: Json)
      requires Valid()
      modifies this
      ensures Valid() && old(videos) <= videos && Alike(limit, videos, Absorb(old(videos), Visit(parse, j)))
      decreases j, 1
    {
      ghost var start := videos;
      if |videos| >= limit {
        AlikeBeyond(limit, start, start, start, Absorb(start, Visit(parse, j)));
        return;
      }
      match j {
        case Object(members) =>
          OfferAll(members);
          ScanMembers(j, start);
        case Array(_) =>
          ScanItems(j);
        case _ =>
      }
    }

    /** The loop over the values of an object whose own renderers have been offered. */
    method ScanMembers(j: Json, ghost start: seq<Video>)
      requires Valid() && j.Object?
      requires start <= videos && videos == Absorb(start, OwnCandidates(parse, j.members, |RENDERERS|))
      modifies this
      ensures Valid() && start <= videos && Alike(limit, videos, Absorb(start, Visit(parse, j)))
      decreases j, 0
    {
      for n := 0 to |j.members|
        invariant Valid() && start <= videos && Alike(limit, videos, Absorb(start, VisitMembers(parse, j, n)))
      {
        ghost var before := videos;
        Scan(j.members[n].value);
        AlikeNext(limit, start, VisitMembers(parse, j, n), Visit(parse, j.members[n].value), before, videos);
      }
    }

    method ScanItems(j: Json)
      requires Valid() && j.Array?
      modifies this
      ensures Valid() && old(videos) <= videos && Alike(limit, videos, Absorb(old(videos), Visit(parse, j)))
      decreases j, 0
    {
      ghost var start := videos;
      for n := 0 to |j.items|
        invariant Valid() && start <= videos && Alike(limit, videos, Absorb(start, VisitItems(parse, j, n)))
      {
        ghost var before := videos;
        Scan(j.items[n]);
        AlikeNext(limit, start, VisitItems(parse, j, n), Visit(parse, j.items[n]), before, videos);
      }
    }
  }

  /** The pruned walk finds exactly the first `limit` videos of the document. */
  method ExtractVideos(parse: Parser, data: Json, limit: nat) returns (found: seq<Video>)
    ensures found == FirstVideos(parse, data, limit)
    // they are all that the document renders, each id once, cut at the limit
    ensures var candidates := Visit(parse, data);
            var firsts := FirstsById(candidates, |candidates|);
            found <= firsts && |found| == if |firsts| <= limit then |firsts| else limit
    ensures forall v | v in found :: RenderedIn(parse, data, v)
  {
    var scanner := new Scanner(parse, limit);
    scanner.Scan(data);
    ghost var candidates := Visit(parse, data);
    AbsorbKeepsFirsts(candidates, |candidates|);
    assert candidates[..|candidates|] == candidates;
    found := Take(scanner.videos, limit);
    forall v | v in found ensures RenderedIn(parse, data, v) {
      FirstsAreCandidates(candidates, |candidates|, v);
      VisitFindsAll(parse, data, v);
    }
  }

  lemma {:induction false} FirstsAreCandidates(candidates: seq<Video>, n: nat, v: Video)
    requires n <= |candidates| && v in FirstsById(candidates, n)
    ensures v in candidates
  {
    if v != candidates[n - 1] { FirstsAreCandidates(candidates, n - 1, v); }
  }
}
