/** Python's `sorted(…, key=…, reverse=True)`: descending by key, and stable. */
module Ordering {

  /** A tuple of integers as a sort key, compared from the left. */
  datatype Rank = Rank(first: int, second: int, third: int)

  predicate AtLeast(a: Rank, b: Rank) {
    || a.first > b.first
    || (a.first == b.first && a.second > b.second)
    || (a.first == b.first && a.second == b.second && a.third >= b.third)
  }

  /** Puts an element that came earlier in front of every element it does not rank below. */
  function Insert<T>(key: T -> Rank, x: T, s: seq<T>): (r: seq<T>)
    ensures |r| == |s| + 1
  {
    if s == [] || AtLeast(key(x), key(s[0])) then [x] + s else [s[0]] + Insert(key, x, s[1..])
  }

  function SortedDescending<T>(key: T -> Rank, s: seq<T>): (r: seq<T>)
    ensures |r| == |s|
  {
    if s == [] then [] else Insert(key, s[0], SortedDescending(key, s[1..]))
  }

  predicate IsDescending<T>(key: T -> Rank, s: seq<T>) {
    forall i, j | 0 <= i < j < |s| :: AtLeast(key(s[i]), key(s[j]))
  }

  function Filter<T>(p: T -> bool, s: seq<T>): seq<T> {
    if s == [] then [] else (if p(s[0]) then [s[0]] else []) + Filter(p, s[1..])
  }

  lemma {:induction false} InsertDescends<T>(key: T -> Rank, x: T, s: seq<T>)
    requires IsDescending(key, s)
    ensures IsDescending(key, Insert(key, x, s))
    ensures multiset(Insert(key, x, s)) == multiset{x} + multiset(s)
  {
    if s == [] {
    } else if AtLeast(key(x), key(s[0])) {
    } else {
      InsertDescends(key, x, s[1..]);
      var rest := Insert(key, x, s[1..]);
      assert s == [s[0]] + s[1..];
      forall j | 0 <= j < |rest| ensures AtLeast(key(s[0]), key(rest[j])) {
        assert rest[j] in multiset(rest);
        assert rest[j] == x || rest[j] in s[1..];
      }
    }
  }

  /** Sorting reorders the elements into descending order. */
  lemma {:induction false} SortDescends<T>(key: T -> Rank, s: seq<T>)
    ensures IsDescending(key, SortedDescending(key, s))
    ensures multiset(SortedDescending(key, s)) == multiset(s)
  {
    if s != [] {
      SortDescends(key, s[1..]);
      InsertDescends(key, s[0], SortedDescending(key, s[1..]));
      assert s == [s[0]] + s[1..];
    }
  }

  function OfRank<T>(key: T -> Rank, rank: Rank, s: seq<T>): seq<T> {
    if s == [] then [] else if key(s[0]) == rank then [s[0]] + OfRank(key, rank, s[1..]) else OfRank(key, rank, s[1..])
  }

  /** Elements of one rank keep their order: picking them out before or after sorting is the same. */
  lemma {:induction false} SortIsStable<T>(key: T -> Rank, rank: Rank, s: seq<T>)
    ensures OfRank(key, rank, SortedDescending(key, s)) == OfRank(key, rank, s)
  {
    if s != [] {
      SortDescends(key, s[1..]);
      SortIsStable(key, rank, s[1..]);
      InsertIsStable(key, rank, s[0], SortedDescending(key, s[1..]));
    }
  }

  lemma {:induction false} InsertIsStable<T>(key: T -> Rank, rank: Rank, x: T, s: seq<T>)
    requires IsDescending(key, s)
    ensures OfRank(key, rank, Insert(key, x, s)) == OfRank(key, rank, [x] + s)
  {
    if s != [] && !AtLeast(key(x), key(s[0])) {
      InsertIsStable(key, rank, x, s[1..]);
      var rest := Insert(key, x, s[1..]);
      assert ([s[0]] + rest)[1..] == rest;
      assert ([x] + s)[1..] == s && ([x] + s[1..])[1..] == s[1..];
    }
  }

  /** The position of the first element of highest rank. */
  predicate IsFirstBest<T>(key: T -> Rank, s: seq<T>, k: nat)
    requires k < |s|
  {
    && (forall i | 0 <= i < |s| :: AtLeast(key(s[k]), key(s[i])))
    && (forall i | 0 <= i < k :: key(s[i]) != key(s[k]))
  }

  /** Taking the first of the sorted list is taking the first element of highest rank. */
  lemma {:induction false} FirstOfSorted<T>(key: T -> Rank, s: seq<T>) returns (k: nat)
    requires s != []
    ensures k < |s| && SortedDescending(key, s) != [] && SortedDescending(key, s)[0] == s[k] && IsFirstBest(key, s, k)
  {
    var rest := SortedDescending(key, s[1..]);
    if |s| == 1 {
      assert rest == [];
      k := 0;
    } else {
      var j := FirstOfSorted(key, s[1..]);
      if AtLeast(key(s[0]), key(rest[0])) {
        k := 0;
        forall i | 0 <= i < |s| ensures AtLeast(key(s[0]), key(s[i])) {
          if i > 0 { assert s[i] == s[1..][i - 1]; }
        }
      } else {
        k := j + 1;
        forall i | 0 <= i < |s| ensures AtLeast(key(s[k]), key(s[i])) && (i < k ==> key(s[i]) != key(s[k])) {
          if i > 0 { assert s[i] == s[1..][i - 1]; }
        }
      }
    }
  }
}
