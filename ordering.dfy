/** The two steps that order an action's advisory ids: keep each id once,
    at its first occurrence, then sort stably by severity rank. */
module Ordering {
  import opened Severity
  import opened AuditTypes

  predicate NoDuplicates(s: seq<int>) {
    forall i, j :: 0 <= i < j < |s| ==> s[i] != s[j]
  }

  /** The position of the first occurrence of `x` (JavaScript's `indexOf`). */
  function FirstIndex(s: seq<int>, x: int): (k: nat)
    requires x in s
    ensures k < |s| && s[k] == x && x !in s[..k]
  {
    if s[0] == x then 0 else 1 + FirstIndex(s[1..], x)
  }

  /** The first occurrence is the only position before which `x` is absent. */
  lemma FirstIndexUnique(s: seq<int>, x: int, k: nat)
    requires k < |s| && s[k] == x && x !in s[..k]
    ensures FirstIndex(s, x) == k
  {
  }

  /** Appending an element does not move the first occurrence of an
      element already present. */
  lemma FirstIndexAppend(p: seq<int>, x: int, y: int)
    requires y in p
    ensures FirstIndex(p + [x], y) == FirstIndex(p, y)
  {
    var k := FirstIndex(p, y);
    assert (p + [x])[..k] == p[..k];
    FirstIndexUnique(p + [x], y, k);
  }

  /** The `filter` that keeps `ids[idx]` iff `ids.indexOf(ids[idx]) === idx`,
      i.e. iff the id does not occur earlier. */
  function Dedup(ids: seq<int>): (r: seq<int>)
    ensures NoDuplicates(r)
    ensures forall x :: x in r <==> x in ids
  {
    if ids == [] then []
    else
      var init, last := ids[..|ids| - 1], ids[|ids| - 1];
      assert ids == init + [last];
      if last in init then Dedup(init) else Dedup(init) + [last]
  }

  /** Dedup keeps the ids in the order of their first occurrences. */
  lemma {:induction false} DedupFirstOccurrenceOrder(ids: seq<int>)
    ensures forall i, j :: 0 <= i < j < |Dedup(ids)| ==>
              FirstIndex(ids, Dedup(ids)[i]) < FirstIndex(ids, Dedup(ids)[j])
  {
    if ids != [] {
      var init, last := ids[..|ids| - 1], ids[|ids| - 1];
      assert ids == init + [last];
      DedupFirstOccurrenceOrder(init);
      var d, r := Dedup(init), Dedup(ids);
      forall i, j | 0 <= i < j < |r|
        ensures FirstIndex(ids, r[i]) < FirstIndex(ids, r[j])
      {
        FirstIndexAppend(init, last, r[i]);
        if j < |d| {
          FirstIndexAppend(init, last, r[j]);
        } else {
          assert r[j] == last && last !in init;
          FirstIndexUnique(ids, last, |init|);
        }
      }
    }
  }

  /** The sort key of an advisory id: the rank of its severity. Only ids
      with a ranked advisory reach the sort; the others get key 0. */
  function RankOf(advisories: map<int, Advisory>, id: int): nat {
    if id in advisories && Rank(advisories[id].severity).Some? then Rank(advisories[id].severity).value
    else 0
  }

  predicate SortedBy(s: seq<int>, key: int -> nat) {
    forall i, j :: 0 <= i < j < |s| ==> key(s[i]) <= key(s[j])
  }

  /** The ids of key `k`, in their order in `s`. */
  function OfKey(s: seq<int>, key: int -> nat, k: nat): seq<int> {
    if s == [] then []
    else (if key(s[0]) == k then [s[0]] else []) + OfKey(s[1..], key, k)
  }

  lemma {:induction false} OfKeyAppend(s: seq<int>, x: int, key: int -> nat, k: nat)
    ensures OfKey(s + [x], key, k) == OfKey(s, key, k) + (if key(x) == k then [x] else [])
  {
    if s != [] {
      assert (s + [x])[1..] == s[1..] + [x];
      OfKeyAppend(s[1..], x, key, k);
    }
  }

  /** Inserts `x` into a sorted sequence after every id whose key is at
      most its own. */
  function Insert(s: seq<int>, x: int, key: int -> nat): (r: seq<int>)
    ensures multiset(r) == multiset(s) + multiset{x}
  {
    if s == [] then [x]
    else if key(x) < key(s[0]) then [x] + s
    else
      assert s == [s[0]] + s[1..];
      [s[0]] + Insert(s[1..], x, key)
  }

  /** A lower bound on the keys of `s` and of `x` bounds the keys of the
      insertion. */
  lemma {:induction false} InsertLowerBound(s: seq<int>, x: int, key: int -> nat, lo: nat)
    requires forall i :: 0 <= i < |s| ==> lo <= key(s[i])
    requires lo <= key(x)
    ensures forall i :: 0 <= i < |Insert(s, x, key)| ==> lo <= key(Insert(s, x, key)[i])
  {
    if s != [] && key(x) >= key(s[0]) {
      InsertLowerBound(s[1..], x, key, lo);
    }
  }

  /** A sorted sequence stays sorted behind a head no larger than its keys. */
  lemma ConsSorted(h: int, t: seq<int>, key: int -> nat)
    requires SortedBy(t, key)
    requires forall i :: 0 <= i < |t| ==> key(h) <= key(t[i])
    ensures SortedBy([h] + t, key)
  {
    var r := [h] + t;
    forall i, j | 0 <= i < j < |r| ensures key(r[i]) <= key(r[j]) {
      assert r[j] == t[j - 1];
      if i > 0 {
        assert r[i] == t[i - 1];
      }
    }
  }

  /** Inserting into a sorted sequence keeps it sorted. */
  lemma {:induction false} InsertSorted(s: seq<int>, x: int, key: int -> nat)
    requires SortedBy(s, key)
    ensures SortedBy(Insert(s, x, key), key)
  {
    if s != [] && key(x) >= key(s[0]) {
      var tail := s[1..];
      InsertSorted(tail, x, key);
      assert forall i :: 0 <= i < |tail| ==> key(s[0]) <= key(tail[i]) by {
        forall i | 0 <= i < |tail| ensures key(s[0]) <= key(tail[i]) {
          assert tail[i] == s[i + 1];
        }
      }
      InsertLowerBound(tail, x, key, key(s[0]));
      ConsSorted(s[0], Insert(tail, x, key), key);
    }
  }

  lemma AppendAssoc(a: seq<int>, b: seq<int>, c: seq<int>)
    ensures a + (b + c) == (a + b) + c
  {
  }

  lemma OfKeyCons(h: int, t: seq<int>, key: int -> nat, k: nat)
    ensures OfKey([h] + t, key, k) == (if key(h) == k then [h] else []) + OfKey(t, key, k)
  {
    assert ([h] + t)[1..] == t;
  }

  lemma SortedTail(s: seq<int>, key: int -> nat)
    requires s != [] && SortedBy(s, key)
    ensures SortedBy(s[1..], key)
  {
    var t := s[1..];
    forall i, j | 0 <= i < j < |t| ensures key(t[i]) <= key(t[j]) {
      assert t[i] == s[i + 1] && t[j] == s[j + 1];
    }
  }

  /** Inserting adds `x` last among the ids of its own key. */
  lemma {:induction false} InsertOfKey(s: seq<int>, x: int, key: int -> nat, k: nat)
    requires SortedBy(s, key)
    ensures OfKey(Insert(s, x, key), key, k) == OfKey(s, key, k) + (if key(x) == k then [x] else [])
  {
    var e := if key(x) == k then [x] else [];
    if s == [] {
      assert Insert(s, x, key) == [x] + [];
      OfKeyCons(x, [], key, k);
    } else if key(x) < key(s[0]) {
      assert Insert(s, x, key) == [x] + s;
      OfKeyCons(x, s, key, k);
      if key(x) == k {
        OfKeyAbove(s, key, k);
      }
    } else {
      var h, tail := s[0], s[1..];
      var t := Insert(tail, x, key);
      assert Insert(s, x, key) == [h] + t;
      assert s == [h] + tail;
      var d := if key(h) == k then [h] else [];
      SortedTail(s, key);
      calc {
        OfKey([h] + t, key, k);
        { OfKeyCons(h, t, key, k); }
        d + OfKey(t, key, k);
        { InsertOfKey(tail, x, key, k); }
        d + (OfKey(tail, key, k) + e);
        { AppendAssoc(d, OfKey(tail, key, k), e); }
        (d + OfKey(tail, key, k)) + e;
        { OfKeyCons(h, tail, key, k); }
        OfKey([h] + tail, key, k) + e;
      }
    }
  }

  /** A sorted sequence whose first key is above `k` holds no id of key `k`. */
  lemma {:induction false} OfKeyAbove(s: seq<int>, key: int -> nat, k: nat)
    requires SortedBy(s, key)
    requires s != [] && k < key(s[0])
    ensures OfKey(s, key, k) == []
  {
    if |s| > 1 {
      OfKeyAbove(s[1..], key, k);
    }
  }

  /** A stable sort by ascending key: a permutation of its input, sorted. */
  function StableSort(ids: seq<int>, key: int -> nat): (r: seq<int>)
    ensures multiset(r) == multiset(ids)
    ensures SortedBy(r, key)
  {
    if ids == [] then []
    else
      var init, last := ids[..|ids| - 1], ids[|ids| - 1];
      assert ids == init + [last];
      var sorted := StableSort(init, key);
      InsertSorted(sorted, last, key);
      Insert(sorted, last, key)
  }

  /** The sort is stable: the ids of each key keep their relative order. */
  lemma {:induction false} StableSortOfKey(ids: seq<int>, key: int -> nat, k: nat)
    ensures OfKey(StableSort(ids, key), key, k) == OfKey(ids, key, k)
  {
    if ids != [] {
      var init, last := ids[..|ids| - 1], ids[|ids| - 1];
      assert ids == init + [last];
      StableSortOfKey(init, key, k);
      InsertOfKey(StableSort(init, key), last, key, k);
      OfKeyAppend(init, last, key, k);
    }
  }

  /** The `sort` by ascending severity rank (most severe first), with the
      comparator `rank(a) - rank(b)`. */
  function SortByRank(ids: seq<int>, advisories: map<int, Advisory>): (r: seq<int>)
    ensures multiset(r) == multiset(ids)
    ensures forall i, j :: 0 <= i < j < |r| ==> RankOf(advisories, r[i]) <= RankOf(advisories, r[j])
  {
    StableSort(ids, RankKey(advisories))
  }

  /** `RankOf` as a key function for the sort. */
  function RankKey(advisories: map<int, Advisory>): int -> nat {
    id => RankOf(advisories, id)
  }

  /** A permutation of a duplicate-free sequence is duplicate-free. */
  lemma NoDuplicatesPermutation(a: seq<int>, b: seq<int>)
    requires multiset(a) == multiset(b) && NoDuplicates(a)
    ensures NoDuplicates(b)
  {
    NoDuplicatesCount(a);
    forall i, j | 0 <= i < j < |b| ensures b[i] != b[j] {
      RepeatCounts(b, i, j);
    }
  }

  /** An element at two positions occurs at least twice. */
  lemma RepeatCounts(b: seq<int>, i: nat, j: nat)
    requires i < j < |b|
    ensures b[i] == b[j] ==> multiset(b)[b[i]] >= 2
  {
    assert b == b[..j] + b[j..];
    assert b[..j][i] == b[i] && b[j..][0] == b[j];
    assert multiset(b) == multiset(b[..j]) + multiset(b[j..]);
  }

  /** In a duplicate-free sequence every element occurs once. */
  lemma {:induction false} NoDuplicatesCount(s: seq<int>)
    requires NoDuplicates(s)
    ensures forall x :: multiset(s)[x] <= 1
  {
    if s != [] {
      assert s == [s[0]] + s[1..];
      NoDuplicatesCount(s[1..]);
      assert s[0] !in s[1..];
    }
  }
}
