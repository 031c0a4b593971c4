/**
 Choosing among the encodings of a video (`_variants`, `_best_variant`, `_variant_key` of the
 X spider): HLS first, then MP4 by bitrate, then the rest, one entry per address.
 */
module Variants {
  import opened Options
  import opened Ordering

  datatype Variant = Variant(kind: string, url: string, bitrate: int, name: string)

  /** The address up to `?tag=`. */
  function KeyOf(v: Variant): string {
    BeforeTag(v.url)
  }

  function BeforeTag(url: string): string {
    if url == "" || "?tag=" <= url then "" else [url[0]] + BeforeTag(url[1..])
  }

  /** What stands after `?tag=` makes no difference to the key. */
  lemma {:induction false} TagIgnored(a: string, b: string, c: string)
    ensures BeforeTag(a + ("?tag=" + b)) == BeforeTag(a + ("?tag=" + c))
  {
    var s, t := a + ("?tag=" + b), a + ("?tag=" + c);
    if a == "" {
      assert s == "?tag=" + b && t == "?tag=" + c;
    } else {
      assert s[..5] == t[..5];
      assert "?tag=" <= s <==> s[..5] == "?tag=";
      assert "?tag=" <= t <==> t[..5] == "?tag=";
      assert s[1..] == a[1..] + ("?tag=" + b) && t[1..] == a[1..] + ("?tag=" + c);
      TagIgnored(a[1..], b, c);
    }
  }

  /** The key is the front of the address up to the first `?tag=`, or all of it. */
  lemma {:induction false} KeyIsFront(url: string)
    ensures BeforeTag(url) <= url
    ensures forall i | 0 <= i < |BeforeTag(url)| :: !("?tag=" <= url[i..])
    ensures BeforeTag(url) == url || "?tag=" <= url[|BeforeTag(url)|..]
  {
    if url == "" || "?tag=" <= url {
      assert url[0..] == url;
    } else {
      var key := BeforeTag(url[1..]);
      KeyIsFront(url[1..]);
      assert url[0..] == url;
      forall i | 0 <= i < |BeforeTag(url)| ensures !("?tag=" <= url[i..]) {
        if i > 0 { assert url[i..] == url[1..][i - 1..]; }
      }
      assert url[|key| + 1..] == url[1..][|key|..];
    }
  }

  function OfKind(kind: string, arr: seq<Variant>): seq<Variant> {
    Filter((x: Variant) => x.kind == kind, arr)
  }

  predicate IsOther(v: Variant) {
    v.kind != "mp4" && v.kind != "hls"
  }

  function Others(arr: seq<Variant>): seq<Variant> {
    Filter(IsOther, arr)
  }

  function ByBitrate(): Variant -> Rank {
    (x: Variant) => Rank(x.bitrate, 0, 0)
  }

  /** The order in which entries are considered. */
  function Ordered(arr: seq<Variant>): seq<Variant> {
    OfKind("hls", arr) + SortedDescending(ByBitrate(), OfKind("mp4", arr)) + Others(arr)
  }

  /** Keyed, and the first of the list with its key. */
  predicate FirstOfKey(s: seq<Variant>, k: nat)
    requires k < |s|
  {
    KeyOf(s[k]) != "" && forall i | 0 <= i < k :: KeyOf(s[i]) != KeyOf(s[k])
  }

  /** Where the kept ones of the first `n` stand. */
  function KeptAt(s: seq<Variant>, n: nat): (at: seq<nat>)
    requires n <= |s|
    ensures forall i | 0 <= i < |at| :: at[i] < n && FirstOfKey(s, at[i])
    ensures forall i, j | 0 <= i < j < |at| :: at[i] < at[j]
  {
    if n == 0 then [] else KeptAt(s, n - 1) + if FirstOfKey(s, n - 1) then [n - 1] else []
  }

  lemma {:induction false} KeptAtComplete(s: seq<Variant>, n: nat, k: nat)
    requires k < n <= |s| && FirstOfKey(s, k)
    ensures k in KeptAt(s, n)
  {
    if k < n - 1 { KeptAtComplete(s, n - 1, k); }
  }

  function Pick(s: seq<Variant>, at: seq<nat>): (r: seq<Variant>)
    requires forall i | 0 <= i < |at| :: at[i] < |s|
    ensures |r| == |at| && forall i | 0 <= i < |at| :: r[i] == s[at[i]]
  {
    seq(|at|, i requires 0 <= i < |at| => s[at[i]])
  }

  function Kept(s: seq<Variant>): seq<Variant> {
    Pick(s, KeptAt(s, |s|))
  }

  /** `_variants`. */
  method Clean(arr: seq<Variant>) returns (out: seq<Variant>)
    ensures out == Kept(Ordered(arr))
  {
    out := KeepFirst(Ordered(arr));
  }

  /** The seen-set holds exactly the keys so far. */
  ghost predicate SeenSoFar(seen: set<string>, all: seq<Variant>, n: nat)
    requires n <= |all|
  {
    && (forall j | 0 <= j < n && KeyOf(all[j]) != "" :: KeyOf(all[j]) in seen)
    && (forall k | k in seen :: k != "" && exists j | 0 <= j < n :: KeyOf(all[j]) == k)
  }

  lemma SeenStep(seen: set<string>, all: seq<Variant>, n: nat)
    requires n < |all| && SeenSoFar(seen, all, n)
    ensures KeyOf(all[n]) != "" && KeyOf(all[n]) !in seen <==> FirstOfKey(all, n)
    ensures SeenSoFar(if KeyOf(all[n]) != "" then seen + {KeyOf(all[n])} else seen, all, n + 1)
  {
  }

  lemma PickStep(all: seq<Variant>, n: nat)
    requires n < |all|
    ensures Pick(all, KeptAt(all, n + 1)) == Pick(all, KeptAt(all, n)) + if FirstOfKey(all, n) then [all[n]] else []
  {
  }

  /** The loop over the ordered list with its seen-set. */
  method KeepFirst(all: seq<Variant>) returns (out: seq<Variant>)
    ensures out == Kept(all)
  {
    var seen: set<string> := {};
    out := [];
    for i := 0 to |all|
      invariant out == Pick(all, KeptAt(all, i))
      invariant SeenSoFar(seen, all, i)
    {
      var k := KeyOf(all[i]);
      SeenStep(seen, all, i);
      PickStep(all, i);
      if k != "" && k !in seen {
        seen := seen + {k};
        out := out + [all[i]];
      }
    }
  }

  /** `_best_variant`. */
  function Best(vs: seq<Variant>): Option<Variant> {
    if vs == [] then None
    else
      var hls := OfKind("hls", vs);
      if hls != [] then Some(hls[0]) else Some(SortedDescending(ByBitrate(), vs)[0])
  }

  // ----- one entry per key -----

  predicate HasKey(s: seq<Variant>, key: string) {
    exists i | 0 <= i < |s| :: KeyOf(s[i]) == key
  }

  lemma {:induction false} FirstWithKey(s: seq<Variant>, key: string, n: nat) returns (k: nat)
    requires n < |s| && KeyOf(s[n]) == key != ""
    ensures k <= n && KeyOf(s[k]) == key && FirstOfKey(s, k)
  {
    if FirstOfKey(s, n) {
      k := n;
    } else {
      var i :| 0 <= i < n && KeyOf(s[i]) == key;
      k := FirstWithKey(s, key, i);
    }
  }

  lemma KeptHasKey(s: seq<Variant>, key: string)
    ensures HasKey(Kept(s), key) <==> key != "" && HasKey(s, key)
  {
    var at := KeptAt(s, |s|);
    if HasKey(Kept(s), key) {
      var i :| 0 <= i < |at| && KeyOf(Kept(s)[i]) == key;
      assert FirstOfKey(s, at[i]) && KeyOf(s[at[i]]) == key;
    }
    if key != "" && HasKey(s, key) {
      var n :| 0 <= n < |s| && KeyOf(s[n]) == key;
      var k := FirstWithKey(s, key, n);
      KeptAtComplete(s, |s|, k);
      var i :| 0 <= i < |at| && at[i] == k;
      assert KeyOf(Kept(s)[i]) == key;
    }
  }

  lemma HasKeyOfMultiset(s: seq<Variant>, t: seq<Variant>, key: string)
    requires multiset(s) == multiset(t)
    ensures HasKey(s, key) <==> HasKey(t, key)
  {
    if HasKey(s, key) {
      var i :| 0 <= i < |s| && KeyOf(s[i]) == key;
      assert s[i] in multiset(t);
    }
    if HasKey(t, key) {
      var i :| 0 <= i < |t| && KeyOf(t[i]) == key;
      assert t[i] in multiset(s);
    }
  }

  lemma {:induction false} OrderedIsPermutation(arr: seq<Variant>)
    ensures multiset(OfKind("hls", arr)) + multiset(OfKind("mp4", arr)) + multiset(Others(arr)) == multiset(arr)
  {
    if arr != [] {
      OrderedIsPermutation(arr[1..]);
      assert arr == [arr[0]] + arr[1..];
    }
  }

  /** Cleaning keeps exactly one entry for every non-empty key of the input. */
  lemma CleanKeepsEachKeyOnce(arr: seq<Variant>, key: string)
    ensures HasKey(Kept(Ordered(arr)), key) <==> key != "" && HasKey(arr, key)
    ensures forall i, j | 0 <= i < j < |Kept(Ordered(arr))| ::
              KeyOf(Kept(Ordered(arr))[i]) != KeyOf(Kept(Ordered(arr))[j])
  {
    var all := Ordered(arr);
    KeptHasKey(all, key);
    OrderedIsPermutation(arr);
    SortDescends(ByBitrate(), OfKind("mp4", arr));
    assert multiset(all) == multiset(arr);
    HasKeyOfMultiset(all, arr, key);
    var at := KeptAt(all, |all|);
    forall i, j | 0 <= i < j < |at| ensures KeyOf(all[at[i]]) != KeyOf(all[at[j]]) {
      assert FirstOfKey(all, at[j]);
    }
  }

  // ----- the order of the cleaned list -----

  function Class(v: Variant): nat {
    if v.kind == "hls" then 0 else if v.kind == "mp4" then 1 else 2
  }

  lemma {:induction false} FilterSatisfies(p: Variant -> bool, s: seq<Variant>)
    ensures forall i | 0 <= i < |Filter(p, s)| :: p(Filter(p, s)[i])
  {
    if s != [] { FilterSatisfies(p, s[1..]); }
  }

  predicate AllMp4(arr: seq<Variant>) {
    forall i | 0 <= i < |arr| :: arr[i].kind == "mp4"
  }

  /** The MP4 part: all MP4, by falling bitrate. */
  lemma Mp4Part(arr: seq<Variant>)
    ensures var sorted := SortedDescending(ByBitrate(), OfKind("mp4", arr));
            && AllMp4(sorted)
            && forall i, j | 0 <= i < j < |sorted| :: sorted[i].bitrate >= sorted[j].bitrate
  {
    var mp4 := OfKind("mp4", arr);
    var sorted := SortedDescending(ByBitrate(), mp4);
    FilterSatisfies((x: Variant) => x.kind == "mp4", arr);
    SortDescends(ByBitrate(), mp4);
    forall k | 0 <= k < |sorted| ensures sorted[k].kind == "mp4" {
      assert sorted[k] in multiset(sorted);
      assert sorted[k] in mp4;
    }
    forall i, j | 0 <= i < j < |sorted| ensures sorted[i].bitrate >= sorted[j].bitrate {
      assert AtLeast(ByBitrate()(sorted[i]), ByBitrate()(sorted[j]));
    }
  }

  lemma OrderedClasses(arr: seq<Variant>, i: nat, j: nat)
    requires i < j < |Ordered(arr)|
    ensures Class(Ordered(arr)[i]) <= Class(Ordered(arr)[j])
    ensures Ordered(arr)[i].kind == Ordered(arr)[j].kind == "mp4" ==> Ordered(arr)[i].bitrate >= Ordered(arr)[j].bitrate
  {
    FilterSatisfies((x: Variant) => x.kind == "hls", arr);
    FilterSatisfies(IsOther, arr);
    Mp4Part(arr);
    var hls, sorted, other := OfKind("hls", arr), SortedDescending(ByBitrate(), OfKind("mp4", arr)), Others(arr);
    InThreeParts(hls, sorted, other, i, j);
  }

  lemma InThreeParts(hls: seq<Variant>, mp4: seq<Variant>, other: seq<Variant>, i: nat, j: nat)
    requires forall k | 0 <= k < |hls| :: Class(hls[k]) == 0
    requires AllMp4(mp4) && forall k, m | 0 <= k < m < |mp4| :: mp4[k].bitrate >= mp4[m].bitrate
    requires forall k | 0 <= k < |other| :: Class(other[k]) == 2
    requires i < j < |hls + mp4 + other|
    ensures var all := hls + mp4 + other;
            && Class(all[i]) <= Class(all[j])
            && (all[i].kind == all[j].kind == "mp4" ==> all[i].bitrate >= all[j].bitrate)
  {
  }

  /** HLS entries come first, then MP4 by falling bitrate, then the rest. */
  lemma CleanIsOrdered(arr: seq<Variant>, i: nat, j: nat)
    requires i < j < |Kept(Ordered(arr))|
    ensures var out := Kept(Ordered(arr));
            && Class(out[i]) <= Class(out[j])
            && (out[i].kind == out[j].kind == "mp4" ==> out[i].bitrate >= out[j].bitrate)
  {
    var at := KeptAt(Ordered(arr), |Ordered(arr)|);
    OrderedClasses(arr, at[i], at[j]);
  }

  lemma {:induction false} KeptAtPrefix(a: seq<Variant>, b: seq<Variant>, n: nat)
    requires n <= |a|
    ensures KeptAt(a + b, n) == KeptAt(a, n)
  {
    if n > 0 {
      KeptAtPrefix(a, b, n - 1);
      assert FirstOfKey(a + b, n - 1) <==> FirstOfKey(a, n - 1) by {
        assert forall i | 0 <= i < n :: (a + b)[i] == a[i];
      }
    }
  }

  lemma {:induction false} KeptAtGrows(s: seq<Variant>, m: nat, n: nat)
    requires m <= n <= |s|
    ensures KeptAt(s, m) <= KeptAt(s, n)
    decreases n - m
  {
    if m < n { KeptAtGrows(s, m, n - 1); }
  }

  /** The list starts with the input's HLS entries, in their order, each the first with its key. */
  lemma CleanStartsWithHls(arr: seq<Variant>)
    ensures Kept(OfKind("hls", arr)) <= Kept(Ordered(arr))
  {
    var hls := OfKind("hls", arr);
    var rest := SortedDescending(ByBitrate(), OfKind("mp4", arr)) + Others(arr);
    var all := Ordered(arr);
    assert all == hls + rest;
    KeptAtPrefix(hls, rest, |hls|);
    KeptAtGrows(all, |hls|, |all|);
  }

  // ----- the best of the cleaned list -----

  predicate FirstKeyed(s: seq<Variant>, k: nat)
    requires k < |s|
  {
    KeyOf(s[k]) != "" && forall i | 0 <= i < k :: KeyOf(s[i]) == ""
  }

  lemma KeptStartsWithFirstKeyed(s: seq<Variant>, k: nat)
    requires k < |s| && FirstKeyed(s, k)
    ensures Kept(s) != [] && Kept(s)[0] == s[k]
  {
    var at := KeptAt(s, |s|);
    assert FirstOfKey(s, k);
    KeptAtComplete(s, |s|, k);
    assert at[0] <= k;
    assert FirstOfKey(s, at[0]);
  }

  /** The first keyed HLS entry of the input. */
  predicate FirstKeyedHls(arr: seq<Variant>, k: nat)
    requires k < |arr|
  {
    && arr[k].kind == "hls" && KeyOf(arr[k]) != ""
    && forall i | 0 <= i < k :: !(arr[i].kind == "hls" && KeyOf(arr[i]) != "")
  }

  lemma {:induction false} FirstKeyedAmongHls(arr: seq<Variant>, k: nat) returns (m: nat)
    requires k < |arr| && FirstKeyedHls(arr, k)
    ensures m < |OfKind("hls", arr)| && FirstKeyed(OfKind("hls", arr), m) && OfKind("hls", arr)[m] == arr[k]
  {
    var hls := OfKind("hls", arr);
    if k == 0 {
      m := 0;
    } else {
      forall i | 0 <= i < k - 1 ensures !(arr[1..][i].kind == "hls" && KeyOf(arr[1..][i]) != "") {
        assert arr[1..][i] == arr[i + 1];
      }
      var j := FirstKeyedAmongHls(arr[1..], k - 1);
      m := if arr[0].kind == "hls" then j + 1 else j;
      if arr[0].kind == "hls" {
        assert hls == [arr[0]] + OfKind("hls", arr[1..]);
        assert KeyOf(arr[0]) == "";
      } else {
        assert hls == OfKind("hls", arr[1..]);
      }
    }
  }

  lemma FilterOfFirst(p: Variant -> bool, s: seq<Variant>)
    requires s != [] && p(s[0])
    ensures Filter(p, s) == [s[0]] + Filter(p, s[1..])
  {
  }

  /** With a keyed HLS entry in the input, the best of the cleaned list is the first such entry. */
  lemma BestIsFirstHls(arr: seq<Variant>, k: nat)
    requires k < |arr| && FirstKeyedHls(arr, k)
    ensures Best(Kept(Ordered(arr))) == Some(arr[k])
  {
    var hls, out := OfKind("hls", arr), Kept(Ordered(arr));
    var m := FirstKeyedAmongHls(arr, k);
    KeptStartsWithFirstKeyed(hls, m);
    CleanStartsWithHls(arr);
    assert out[0] == arr[k];
    FilterOfFirst((x: Variant) => x.kind == "hls", out);
  }

  predicate NoKeyedHls(arr: seq<Variant>) {
    forall i | 0 <= i < |arr| :: arr[i].kind == "hls" ==> KeyOf(arr[i]) == ""
  }

  lemma {:induction false} NoneOfKind(arr: seq<Variant>)
    requires forall i | 0 <= i < |arr| :: arr[i].kind != "hls"
    ensures OfKind("hls", arr) == []
  {
    if arr != [] { NoneOfKind(arr[1..]); }
  }

  lemma OrderedMembers(arr: seq<Variant>)
    ensures multiset(Ordered(arr)) == multiset(arr)
  {
    OrderedIsPermutation(arr);
    SortDescends(ByBitrate(), OfKind("mp4", arr));
  }

  /** The best of a list without HLS entries has the highest bitrate in it. */
  lemma BestOfList(out: seq<Variant>, i: nat)
    requires i < |out| && forall j | 0 <= j < |out| :: out[j].kind != "hls"
    ensures Best(out).Some? && Best(out).value in out && Best(out).value.bitrate >= out[i].bitrate
  {
    NoneOfKind(out);
    var b := FirstOfSorted(ByBitrate(), out);
    assert AtLeast(ByBitrate()(out[b]), ByBitrate()(out[i]));
  }

  /** Without a keyed HLS entry nothing kept is HLS. */
  lemma KeptHasNoHls(arr: seq<Variant>)
    requires NoKeyedHls(arr)
    ensures forall j | 0 <= j < |Kept(Ordered(arr))| ::
              Kept(Ordered(arr))[j].kind != "hls" && Kept(Ordered(arr))[j] in arr && KeyOf(Kept(Ordered(arr))[j]) != ""
  {
    var all := Ordered(arr);
    var at := KeptAt(all, |all|);
    OrderedMembers(arr);
    forall j | 0 <= j < |at| ensures all[at[j]].kind != "hls" && all[at[j]] in arr && KeyOf(all[at[j]]) != "" {
      assert FirstOfKey(all, at[j]);
      assert all[at[j]] in multiset(arr);
    }
  }

  /** Every keyed MP4 entry is kept, or an MP4 entry with its key and no lower bitrate is. */
  lemma Mp4Represented(arr: seq<Variant>, k: nat) returns (i: nat)
    requires NoKeyedHls(arr) && k < |arr| && arr[k].kind == "mp4" && KeyOf(arr[k]) != ""
    ensures i < |Kept(Ordered(arr))| && KeyOf(Kept(Ordered(arr))[i]) == KeyOf(arr[k])
    ensures Kept(Ordered(arr))[i].kind == "mp4" && Kept(Ordered(arr))[i].bitrate >= arr[k].bitrate
  {
    var all := Ordered(arr);
    OrderedMembers(arr);
    assert arr[k] in multiset(all);
    var n :| 0 <= n < |all| && all[n] == arr[k];
    var m := FirstWithKey(all, KeyOf(arr[k]), n);
    KeptAtComplete(all, |all|, m);
    var at := KeptAt(all, |all|);
    i :| 0 <= i < |at| && at[i] == m;
    EarlierSameKey(arr, m, n);
  }

  /** An entry considered before an MP4 entry with its key is MP4 too, unless a keyed HLS entry, and no lower. */
  lemma EarlierSameKey(arr: seq<Variant>, m: nat, n: nat)
    requires NoKeyedHls(arr) && m <= n < |Ordered(arr)|
    requires Ordered(arr)[n].kind == "mp4" && KeyOf(Ordered(arr)[m]) != ""
    ensures Ordered(arr)[m].kind == "mp4" && Ordered(arr)[m].bitrate >= Ordered(arr)[n].bitrate
  {
    var first, later := Ordered(arr)[m], Ordered(arr)[n];
    OrderedNotHls(arr, m);
    if m < n {
      OrderedClasses(arr, m, n);
      assert Class(first) <= Class(later) == 1;
      assert first.kind == "mp4" by { assert "mp4"[0] != "hls"[0]; }
    }
  }

  lemma OrderedNotHls(arr: seq<Variant>, m: nat)
    requires NoKeyedHls(arr) && m < |Ordered(arr)| && KeyOf(Ordered(arr)[m]) != ""
    ensures Ordered(arr)[m].kind != "hls"
  {
    var v := Ordered(arr)[m];
    OrderedMembers(arr);
    assert v in multiset(Ordered(arr));
    var i :| 0 <= i < |arr| && arr[i] == v;
  }

  /** Without a keyed HLS entry the best of the cleaned list is a keyed input entry, and no keyed MP4 entry has a
      higher bitrate. */
  lemma BestBeatsMp4(arr: seq<Variant>, k: nat)
    requires NoKeyedHls(arr) && k < |arr| && arr[k].kind == "mp4" && KeyOf(arr[k]) != ""
    ensures var best := Best(Kept(Ordered(arr)));
            && best.Some? && best.value in arr && KeyOf(best.value) != ""
            && best.value.bitrate >= arr[k].bitrate
  {
    var out := Kept(Ordered(arr));
    var i := Mp4Represented(arr, k);
    KeptHasNoHls(arr);
    BestOfList(out, i);
    var best := Best(out).value;
    var j :| 0 <= j < |out| && out[j] == best;
  }

  // ----- when the best has the highest bitrate -----

  lemma {:induction false} FilterConcat(p: Variant -> bool, a: seq<Variant>, b: seq<Variant>)
    ensures Filter(p, a + b) == Filter(p, a) + Filter(p, b)
  {
    if a == [] {
      assert a + b == b;
    } else {
      var first, rest := if p(a[0]) then [a[0]] else [], Filter(p, a[1..]);
      assert (a + b)[1..] == a[1..] + b && (a + b)[0] == a[0];
      FilterConcat(p, a[1..], b);
      assert first + (rest + Filter(p, b)) == first + rest + Filter(p, b);
    }
  }

  /** How many of the first `n` pass. */
  function Passing(p: Variant -> bool, s: seq<Variant>, n: nat): nat
    requires n <= |s|
  {
    |Filter(p, s[..n])|
  }

  /** Filtering puts an element behind exactly the passing ones before it. */
  lemma PlaceInFilter(p: Variant -> bool, s: seq<Variant>, j: nat)
    requires j < |s| && p(s[j])
    ensures Passing(p, s, j) < |Filter(p, s)| && Filter(p, s)[Passing(p, s, j)] == s[j]
  {
    FilterConcat(p, s[..j], s[j..]);
    assert s[..j] + s[j..] == s;
    assert s[j..][0] == s[j];
    FilterOfFirst(p, s[j..]);
  }

  lemma PassingGrows(p: Variant -> bool, s: seq<Variant>, m: nat, n: nat)
    requires m < n <= |s|
    ensures Passing(p, s, m) <= Passing(p, s, n)
    ensures p(s[m]) ==> Passing(p, s, m) < Passing(p, s, n)
  {
    FilterConcat(p, s[..m], s[m..n]);
    assert s[..m] + s[m..n] == s[..n];
    if p(s[m]) {
      assert s[m..n][0] == s[m];
      FilterOfFirst(p, s[m..n]);
    }
  }

  /** Where a filtered element stood. */
  lemma {:induction false} PlaceBefore(p: Variant -> bool, s: seq<Variant>, q: nat) returns (j: nat)
    requires q < |Filter(p, s)|
    ensures j < |s| && p(s[j]) && s[j] == Filter(p, s)[q] && Passing(p, s, j) == q
  {
    if p(s[0]) && q == 0 {
      j := 0;
      assert s[..0] == [];
    } else {
      var k := PlaceBefore(p, s[1..], if p(s[0]) then q - 1 else q);
      j := k + 1;
      assert s[..j][1..] == s[1..][..k];
    }
  }

  /** Keyed and not HLS; of another kind only if it is the first of those with its key, and no MP4 entry has that
      key. */
  predicate Counted(arr: seq<Variant>, j: nat)
    requires j < |arr|
  {
    && KeyOf(arr[j]) != "" && arr[j].kind != "hls"
    && (IsOther(arr[j]) ==>
          forall i | 0 <= i < |arr| && KeyOf(arr[i]) == KeyOf(arr[j]) ::
            arr[i].kind != "mp4" && (i < j ==> !IsOther(arr[i])))
  }

  predicate KeyedOther(arr: seq<Variant>, k: nat)
    requires k < |arr|
  {
    IsOther(arr[k]) && KeyOf(arr[k]) != ""
  }

  /** Some entry that counts has no lower bitrate. */
  ghost predicate Matched(arr: seq<Variant>, k: nat)
    requires k < |arr|
  {
    exists j: nat | j < |arr| :: Counted(arr, j) && arr[j].bitrate >= arr[k].bitrate
  }

  /** The part of the considered order that precedes the other kinds. */
  function Front(arr: seq<Variant>): seq<Variant> {
    OfKind("hls", arr) + SortedDescending(ByBitrate(), OfKind("mp4", arr))
  }

  lemma FrontKinds(arr: seq<Variant>, v: Variant)
    ensures v in Front(arr) <==> v in arr && !IsOther(v)
  {
    FilterSatisfies((x: Variant) => x.kind == "hls", arr);
    Mp4Part(arr);
    FilterSatisfies(IsOther, arr);
    OrderedMembers(arr);
    assert v in Ordered(arr) <==> v in arr by {
      assert v in multiset(Ordered(arr)) <==> v in multiset(arr);
    }
    assert Ordered(arr) == Front(arr) + Others(arr);
  }

  lemma PlaceInFront(arr: seq<Variant>, i: nat) returns (m: nat)
    requires i < |arr| && !IsOther(arr[i])
    ensures m < |Front(arr)| <= |Ordered(arr)| && Ordered(arr)[m] == arr[i]
  {
    FrontKinds(arr, arr[i]);
    m :| 0 <= m < |Front(arr)| && Front(arr)[m] == arr[i];
    assert Ordered(arr) == Front(arr) + Others(arr);
  }

  lemma PlaceOfOther(arr: seq<Variant>, j: nat)
    requires j < |arr| && IsOther(arr[j])
    ensures var n := |Front(arr)| + Passing(IsOther, arr, j);
            n < |Ordered(arr)| && Ordered(arr)[n] == arr[j]
  {
    PlaceInFilter(IsOther, arr, j);
    assert Ordered(arr) == Front(arr) + Others(arr);
  }

  /** An entry of another kind that counts comes first with its key in the considered order. */
  lemma CountedIsFirst(arr: seq<Variant>, j: nat)
    requires NoKeyedHls(arr) && j < |arr| && IsOther(arr[j]) && Counted(arr, j)
    ensures var n := |Front(arr)| + Passing(IsOther, arr, j);
            n < |Ordered(arr)| && Ordered(arr)[n] == arr[j] && FirstOfKey(Ordered(arr), n)
  {
    var front, q, all := Front(arr), Passing(IsOther, arr, j), Ordered(arr);
    PlaceOfOther(arr, j);
    assert all == front + Others(arr);
    forall i | 0 <= i < |front| + q ensures KeyOf(all[i]) != KeyOf(arr[j]) {
      if i < |front| {
        FrontKinds(arr, front[i]);
        var m :| 0 <= m < |arr| && arr[m] == front[i];
      } else {
        var m := PlaceBefore(IsOther, arr, i - |front|);
        if j < m { PassingGrows(IsOther, arr, j, m); }
        assert m < j;
      }
    }
  }

  lemma CountedIsKept(arr: seq<Variant>, j: nat) returns (i: nat)
    requires NoKeyedHls(arr) && j < |arr| && Counted(arr, j)
    ensures i < |Kept(Ordered(arr))| && Kept(Ordered(arr))[i].bitrate >= arr[j].bitrate
  {
    if IsOther(arr[j]) {
      var n := |Front(arr)| + Passing(IsOther, arr, j);
      CountedIsFirst(arr, j);
      KeptAtComplete(Ordered(arr), |Ordered(arr)|, n);
      var at := KeptAt(Ordered(arr), |Ordered(arr)|);
      i :| 0 <= i < |at| && at[i] == n;
    } else {
      i := Mp4Represented(arr, j);
    }
  }

  /** An entry of another kind that comes first with its key in the considered order counts. */
  lemma FirstIsCounted(arr: seq<Variant>, n: nat) returns (j: nat)
    requires |Front(arr)| <= n < |Ordered(arr)| && FirstOfKey(Ordered(arr), n)
    ensures j < |arr| && arr[j] == Ordered(arr)[n] && Counted(arr, j)
  {
    var front, all := Front(arr), Ordered(arr);
    assert all == front + Others(arr);
    j := PlaceBefore(IsOther, arr, n - |front|);
    forall i | 0 <= i < |arr| && KeyOf(arr[i]) == KeyOf(arr[j])
      ensures arr[i].kind != "mp4" && (i < j ==> !IsOther(arr[i]))
    {
      if !IsOther(arr[i]) {
        var m := PlaceInFront(arr, i);
      } else if i < j {
        PassingGrows(IsOther, arr, i, j);
        PlaceOfOther(arr, i);
      }
    }
  }

  lemma KeptIsCounted(arr: seq<Variant>, i: nat) returns (j: nat)
    requires NoKeyedHls(arr) && i < |Kept(Ordered(arr))|
    ensures j < |arr| && arr[j] == Kept(Ordered(arr))[i] && Counted(arr, j)
  {
    KeptHasNoHls(arr);
    var at := KeptAt(Ordered(arr), |Ordered(arr)|);
    var v := Kept(Ordered(arr))[i];
    if at[i] < |Front(arr)| {
      assert v == Front(arr)[at[i]];
      FrontKinds(arr, v);
      j :| 0 <= j < |arr| && arr[j] == v;
    } else {
      j := FirstIsCounted(arr, at[i]);
    }
  }

  /** The best of the cleaned list has at least this bitrate. */
  predicate BestReaches(arr: seq<Variant>, bitrate: int) {
    var best := Best(Kept(Ordered(arr)));
    best.Some? && best.value.bitrate >= bitrate
  }

  /** It does exactly if an entry that counts does. */
  lemma BestReachesIff(arr: seq<Variant>, k: nat)
    requires NoKeyedHls(arr) && k < |arr|
    ensures BestReaches(arr, arr[k].bitrate) <==> Matched(arr, k)
  {
    var out := Kept(Ordered(arr));
    KeptHasNoHls(arr);
    if Matched(arr, k) {
      var j: nat :| j < |arr| && Counted(arr, j) && arr[j].bitrate >= arr[k].bitrate;
      var i := CountedIsKept(arr, j);
      BestOfList(out, i);
    }
    if BestReaches(arr, arr[k].bitrate) {
      BestOfList(out, 0);
      var i :| 0 <= i < |out| && out[i] == Best(out).value;
      var j := KeptIsCounted(arr, i);
    }
  }

  /** Without a keyed HLS entry no keyed entry has a higher bitrate than the best, exactly if every keyed entry of
      another kind is matched. */
  lemma BestIsHighestExactlyWhen(arr: seq<Variant>)
    requires NoKeyedHls(arr)
    ensures (forall k | 0 <= k < |arr| && KeyOf(arr[k]) != "" :: BestReaches(arr, arr[k].bitrate))
       <==> (forall k | 0 <= k < |arr| && KeyedOther(arr, k) :: Matched(arr, k))
  {
    forall k | 0 <= k < |arr| && KeyOf(arr[k]) != ""
      ensures BestReaches(arr, arr[k].bitrate) <==> (IsOther(arr[k]) ==> Matched(arr, k))
    {
      BestReachesIff(arr, k);
      if !IsOther(arr[k]) { assert Counted(arr, k); }
    }
  }

  /** Of two entries of another kind with one address the first is kept, whatever their bitrates. */
  lemma LowerOtherCanBeChosen()
    ensures var arr := [Variant("url", "a", 1, ""), Variant("url", "a", 2, "")];
            Best(Kept(Ordered(arr))) == Some(arr[0])
  {
    var low, high := Variant("url", "a", 1, ""), Variant("url", "a", 2, "");
    assert "hls"[0] == 'h' && "url"[0] == 'u' && "mp4"[0] == 'm';
    FilterPair((x: Variant) => x.kind == "hls", low, high);
    FilterPair((x: Variant) => x.kind == "mp4", low, high);
    FilterPair(IsOther, low, high);
    assert Ordered([low, high]) == [low, high];
    assert "a"[1..] == "";
    OneKept([low, high]);
    NoneOfKind([low]);
    assert [low][1..] == [];
  }

  /** Another kind with the address of an MP4 entry is dropped, whatever its bitrate. */
  lemma OtherKindCanBeDropped()
    ensures var arr := [Variant("mp4", "a", 1, ""), Variant("url", "a", 2, "")];
            Best(Kept(Ordered(arr))) == Some(arr[0])
  {
    var mp4, other := Variant("mp4", "a", 1, ""), Variant("url", "a", 2, "");
    var arr := [mp4, other];
    assert "hls"[0] == 'h' && "url"[0] == 'u' && "mp4"[0] == 'm';
    FilterPair((x: Variant) => x.kind == "hls", mp4, other);
    FilterPair((x: Variant) => x.kind == "mp4", mp4, other);
    FilterPair(IsOther, mp4, other);
    assert [mp4][1..] == [];
    assert Ordered(arr) == [mp4, other];
    assert "a"[1..] == "";
    OneKept([mp4, other]);
    NoneOfKind([mp4]);
  }

  lemma FilterPair(p: Variant -> bool, a: Variant, b: Variant)
    ensures Filter(p, [a, b]) == (if p(a) then [a] else []) + (if p(b) then [b] else [])
  {
    assert [a, b][1..] == [b] && [b][1..] == [];
    assert [b] + [] == [b] && [a] + [] == [a];
    assert Filter(p, [b]) == if p(b) then [b] else [];
  }

  lemma OneKept(s: seq<Variant>)
    requires |s| == 2 && KeyOf(s[0]) == KeyOf(s[1]) != ""
    ensures Kept(s) == [s[0]]
  {
    assert KeptAt(s, 1) == [0] && KeptAt(s, 2) == [0];
  }
}
