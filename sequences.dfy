/**
 * The list operations the store relies on: filtering (a database `where` or
 * JavaScript's `filter`), finding the first match (`find`), sorting by an
 * integer key (a database `orderBy` or JavaScript's stable `sort`) and
 * de-duplication in first-occurrence order (`[...new Set(xs)]`).
 */
module Sequences {
  import opened Wrappers

  /** The elements of `s` that satisfy `keep`, in their original order. */
  function Filter<T(!new)>(s: seq<T>, keep: T -> bool): (r: seq<T>)
    ensures forall x :: x in r <==> x in s && keep(x)
    ensures forall x :: multiset(r)[x] == if keep(x) then multiset(s)[x] else 0
    ensures |r| <= |s|
  {
    if |s| == 0 then []
    else
      assert s == [s[0]] + s[1..];
      (if keep(s[0]) then [s[0]] else []) + Filter(s[1..], keep)
  }

  /** The index of the first element of `s` that satisfies `p`, if there is one. */
  function FirstIndex<T>(s: seq<T>, p: T -> bool): (r: Option<nat>)
    ensures r.None? <==> forall i :: 0 <= i < |s| ==> !p(s[i])
    ensures r.Some? ==> r.value < |s| && p(s[r.value]) && forall j :: 0 <= j < r.value ==> !p(s[j])
  {
    if |s| == 0 then None
    else if p(s[0]) then Some(0)
    else match FirstIndex(s[1..], p)
      case None => None
      case Some(i) => Some(i + 1)
  }

  /** JavaScript's `find`: the first element that satisfies `p`, or nothing. */
  function Find<T>(s: seq<T>, p: T -> bool): (r: Option<T>)
    ensures r.None? <==> forall i :: 0 <= i < |s| ==> !p(s[i])
    ensures r.Some? ==> exists i :: 0 <= i < |s| && s[i] == r.value && p(s[i]) && forall j :: 0 <= j < i ==> !p(s[j])
  {
    match FirstIndex(s, p)
    case None => None
    case Some(i) => Some(s[i])
  }

  /** `s` is non-decreasing in `key`. */
  ghost predicate SortedBy<T>(s: seq<T>, key: T -> int)
  {
    forall i, j :: 0 <= i < j < |s| ==> key(s[i]) <= key(s[j])
  }

  lemma SortedTail<T>(s: seq<T>, key: T -> int)
    requires SortedBy(s, key) && |s| > 0
    ensures SortedBy(s[1..], key)
  {
    forall i, j | 0 <= i < j < |s| - 1 ensures key(s[1..][i]) <= key(s[1..][j]) {
      assert s[1..][i] == s[i + 1] && s[1..][j] == s[j + 1];
    }
  }

  lemma SortedCons<T>(h: T, t: seq<T>, key: T -> int)
    requires SortedBy(t, key) && forall y :: y in t ==> key(h) <= key(y)
    ensures SortedBy([h] + t, key)
  {
    var r := [h] + t;
    forall i, j | 0 <= i < j < |r| ensures key(r[i]) <= key(r[j]) {
      assert r[j] == t[j - 1];
      if i > 0 { assert r[i] == t[i - 1]; }
    }
  }

  /** Everything inserted after the head of a sorted list has a key no smaller than the head's. */
  lemma HeadBelowRest<T>(x: T, s: seq<T>, key: T -> int, rest: seq<T>)
    requires SortedBy(s, key) && |s| > 0 && key(s[0]) < key(x)
    requires multiset(rest) == multiset(s[1..]) + multiset{x}
    ensures forall y :: y in rest ==> key(s[0]) <= key(y)
  {
    forall y | y in rest ensures key(s[0]) <= key(y) {
      assert y in multiset(rest);
      if y != x {
        assert y in multiset(s[1..]);
        var k :| 0 <= k < |s[1..]| && s[1..][k] == y;
        assert s[k + 1] == y;
      }
    }
  }

  /** Inserts `x` in front of the first element whose key is not smaller. */
  function InsertBy<T(!new)>(x: T, s: seq<T>, key: T -> int): (r: seq<T>)
    requires SortedBy(s, key)
    ensures SortedBy(r, key)
    ensures multiset(r) == multiset(s) + multiset{x}
  {
    if |s| == 0 || key(x) <= key(s[0]) then [x] + s
    else
      assert s == [s[0]] + s[1..];
      SortedTail(s, key);
      var tail := InsertBy(x, s[1..], key);
      HeadBelowRest(x, s, key, tail);
      SortedCons(s[0], tail, key);
      [s[0]] + tail
  }

  /** Sorts `s` ascending by `key`; elements with equal keys keep their relative order. */
  function SortBy<T(!new)>(s: seq<T>, key: T -> int): (r: seq<T>)
    ensures SortedBy(r, key)
    ensures multiset(r) == multiset(s)
    ensures |r| == |s|
  {
    if |s| == 0 then []
    else
      assert s == [s[0]] + s[1..];
      assert |multiset(SortBy(s[1..], key))| == |s| - 1;
      InsertBy(s[0], SortBy(s[1..], key), key)
  }

  /** Sorting a list that is already sorted gives it back unchanged. */
  lemma {:induction false} SortBySorted<T(!new)>(s: seq<T>, key: T -> int)
    requires SortedBy(s, key)
    ensures SortBy(s, key) == s
  {
    if |s| > 0 {
      SortBySorted(s[1..], key);
      assert s == [s[0]] + s[1..];
    }
  }

  /** The elements whose key is `k`. */
  function HasKey<T>(key: T -> int, k: int): T -> bool
  {
    x => key(x) == k
  }

  lemma FilterCons<T(!new)>(h: T, t: seq<T>, keep: T -> bool)
    ensures keep(h) ==> Filter([h] + t, keep) == [h] + Filter(t, keep)
    ensures !keep(h) ==> Filter([h] + t, keep) == Filter(t, keep)
  {
    assert ([h] + t)[1..] == t;
  }

  /**
   * The list algebra of one step of `FilterInsertBy`, with the filtered lists
   * named: `x` passes a head `h` that cannot carry `x`'s key.
   */
  lemma PastHead<T>(h: T, x: T, hKept: bool, xKept: bool, fIns: seq<T>, fTail: seq<T>, fS: seq<T>, fT: seq<T>)
    requires fIns == (if hKept then [h] + fTail else fTail)
    requires fS == (if hKept then [h] + fT else fT)
    requires xKept ==> !hKept && fTail == [x] + fT
    requires !xKept ==> fTail == fT
    ensures xKept ==> fIns == [x] + fS
    ensures !xKept ==> fIns == fS
  {
  }

  /** Inserting `x` into a sorted list puts it in front of every element with the same key. */
  lemma {:induction false} FilterInsertBy<T(!new)>(x: T, s: seq<T>, key: T -> int, k: int)
    requires SortedBy(s, key)
    ensures key(x) == k ==> Filter(InsertBy(x, s, key), HasKey(key, k)) == [x] + Filter(s, HasKey(key, k))
    ensures key(x) != k ==> Filter(InsertBy(x, s, key), HasKey(key, k)) == Filter(s, HasKey(key, k))
  {
    var p := HasKey(key, k);
    if |s| == 0 || key(x) <= key(s[0]) {
      assert InsertBy(x, s, key) == [x] + s;
      FilterCons(x, s, p);
    } else {
      var h, t := s[0], s[1..];
      SortedTail(s, key);
      var tail := InsertBy(x, t, key);
      var ins := InsertBy(x, s, key);
      assert ins == [h] + tail;
      assert s == [h] + t;
      FilterInsertBy(x, t, key, k);
      FilterCons(h, tail, p);
      FilterCons(h, t, p);
      PastHead(h, x, p(h), key(x) == k, Filter(ins, p), Filter(tail, p), Filter(s, p), Filter(t, p));
    }
  }

  /** `SortBy` is stable: the elements with any one key come out in their input order. */
  lemma {:induction false} SortByStable<T(!new)>(s: seq<T>, key: T -> int, k: int)
    ensures Filter(SortBy(s, key), HasKey(key, k)) == Filter(s, HasKey(key, k))
  {
    if |s| > 0 {
      SortByStable(s[1..], key, k);
      FilterInsertBy(s[0], SortBy(s[1..], key), key, k);
    }
  }

  /** The first element kept by a filter is the first element of the input that passes it. */
  lemma {:induction false} FilterHead<T(!new)>(s: seq<T>, keep: T -> bool, i: nat)
    requires i < |s| && keep(s[i]) && forall j :: 0 <= j < i ==> !keep(s[j])
    ensures |Filter(s, keep)| > 0 && Filter(s, keep)[0] == s[i]
  {
    if i > 0 {
      FilterHead(s[1..], keep, i - 1);
    }
  }

  /** `f` applied to every element of `s`, in order (JavaScript's `map`). */
  function Map<T, U>(s: seq<T>, f: T -> U): (r: seq<U>)
    ensures |r| == |s| && forall i :: 0 <= i < |s| ==> r[i] == f(s[i])
  {
    seq(|s|, i requires 0 <= i < |s| => f(s[i]))
  }

  /** A map that leaves every key as it was keeps a sorted list sorted. */
  lemma MapKeepsSorted<T>(s: seq<T>, key: T -> int, f: T -> T)
    requires SortedBy(s, key)
    requires forall y :: key(f(y)) == key(y)
    ensures SortedBy(Map(s, f), key)
  {
    var m := Map(s, f);
    forall i, j | 0 <= i < j < |m| ensures key(m[i]) <= key(m[j]) {
      assert key(m[i]) == key(s[i]) && key(m[j]) == key(s[j]);
    }
  }

  lemma MapCons<T, U>(h: T, t: seq<T>, f: T -> U)
    ensures Map([h] + t, f) == [f(h)] + Map(t, f)
  {
  }

  /** Inserting commutes with a map that leaves every key as it was. */
  lemma {:induction false} InsertByCommutesWithMap<T(!new)>(x: T, s: seq<T>, key: T -> int, f: T -> T)
    requires SortedBy(s, key)
    requires forall y :: key(f(y)) == key(y)
    ensures SortedBy(Map(s, f), key)
    ensures InsertBy(f(x), Map(s, f), key) == Map(InsertBy(x, s, key), f)
  {
    MapKeepsSorted(s, key, f);
    var m := Map(s, f);
    if |s| == 0 || key(x) <= key(s[0]) {
      MapCons(x, s, f);
    } else {
      SortedTail(s, key);
      var tail := InsertBy(x, s[1..], key);
      assert InsertBy(x, s, key) == [s[0]] + tail;
      assert key(f(x)) > key(m[0]);
      assert m[1..] == Map(s[1..], f);
      InsertByCommutesWithMap(x, s[1..], key, f);
      assert InsertBy(f(x), m, key) == [m[0]] + Map(tail, f);
      MapCons(s[0], tail, f);
    }
  }

  /** Sorting commutes with a map that leaves every key as it was. */
  lemma {:induction false} SortByCommutesWithMap<T(!new)>(s: seq<T>, key: T -> int, f: T -> T)
    requires forall y :: key(f(y)) == key(y)
    ensures SortBy(Map(s, f), key) == Map(SortBy(s, key), f)
  {
    if |s| > 0 {
      SortByCommutesWithMap(s[1..], key, f);
      assert Map(s, f)[1..] == Map(s[1..], f);
      InsertByCommutesWithMap(s[0], SortBy(s[1..], key), key, f);
    }
  }

  /** The first element of a sorted permutation has the least key of the input. */
  lemma SortByHeadIsLeast<T(!new)>(s: seq<T>, key: T -> int)
    requires |s| > 0
    ensures SortBy(s, key)[0] in s
    ensures forall i :: 0 <= i < |s| ==> key(SortBy(s, key)[0]) <= key(s[i])
  {
    var r := SortBy(s, key);
    assert r[0] in multiset(s);
    forall i | 0 <= i < |s| ensures key(r[0]) <= key(s[i]) {
      assert s[i] in multiset(r);
      var k :| 0 <= k < |r| && r[k] == s[i];
      if k > 0 { assert key(r[0]) <= key(r[k]); }
    }
  }

  /** A sorted permutation starts with the first element of the input that has the least key. */
  lemma SortByHeadIsFirstLeast<T(!new)>(s: seq<T>, key: T -> int, i: nat)
    requires i < |s|
    requires forall j :: 0 <= j < |s| ==> key(s[i]) <= key(s[j])
    requires forall j :: 0 <= j < i ==> key(s[j]) != key(s[i])
    ensures SortBy(s, key)[0] == s[i]
  {
    var r := SortBy(s, key);
    var least := HasKey(key, key(s[i]));
    SortByHeadIsLeast(s, key);
    assert least(r[0]);
    SortByStable(s, key, key(s[i]));
    FilterHead(s, least, i);
    FilterHead(r, least, 0);
  }

  /** `s` has no element twice. */
  ghost predicate Distinct<T>(s: seq<T>)
  {
    forall i, j :: 0 <= i < j < |s| ==> s[i] != s[j]
  }

  /**
   * `r` lists its elements in the order of their first occurrence in `s`:
   * every occurrence in `s` of a later element of `r` is preceded by an
   * occurrence of each earlier one.
   */
  ghost predicate InFirstOccurrenceOrder<T>(r: seq<T>, s: seq<T>)
  {
    forall i, j, k :: 0 <= i < j < |r| && 0 <= k < |s| && s[k] == r[j] ==> r[i] in s[..k]
  }

  /** `[...new Set(s)]`: each value once, in the order in which it first occurs. */
  function Dedup<T(==,!new)>(s: seq<T>): (r: seq<T>)
    ensures forall x :: x in r <==> x in s
    ensures Distinct(r)
    ensures InFirstOccurrenceOrder(r, s)
  {
    if |s| == 0 then []
    else
      var init := s[..|s| - 1];
      var last := s[|s| - 1];
      var r := Dedup(init);
      assert s == init + [last];
      assert forall k :: 0 <= k < |init| ==> s[..k] == init[..k];
      if last in r then r
      else
        assert forall i :: 0 <= i < |r| ==> r[i] in s[..|s| - 1];
        r + [last]
  }
}
