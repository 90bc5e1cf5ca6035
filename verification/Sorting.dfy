/** Strictly ascending sequences: what every ledger file, book list and tombstone file is. */
module Sorting {
  ghost predicate Ascending(s: seq<nat>) {
    forall i, j :: 0 <= i < j < |s| ==> s[i] < s[j]
  }

  ghost predicate SameElements<T(!new)>(a: seq<T>, b: seq<T>) {
    forall x :: x in a <==> x in b
  }

  ghost function Elements<T>(s: seq<T>): set<T> {
    set x | x in s
  }

  /** `sort_unstable` followed by `dedup`. */
  function SortDedup(s: seq<nat>): seq<nat> {
    if s == [] then [] else Insert(SortDedup(s[..|s| - 1]), s[|s| - 1])
  }

  /** Insert `x` where it keeps `s` ascending, unless it is already there. */
  function Insert(s: seq<nat>, x: nat): seq<nat> {
    if s == [] || s[|s| - 1] < x then s + [x]
    else if s[|s| - 1] == x then s
    else Insert(s[..|s| - 1], x) + [s[|s| - 1]]
  }

  lemma {:induction false} InsertAscending(s: seq<nat>, x: nat)
    requires Ascending(s)
    ensures Ascending(Insert(s, x))
    ensures forall y :: y in Insert(s, x) <==> y in s || y == x
  {
    if s != [] && s[|s| - 1] > x {
      var before, last := s[..|s| - 1], s[|s| - 1];
      assert s == before + [last];
      InsertAscending(before, x);
      var front := Insert(before, x);
      forall i | 0 <= i < |front| ensures front[i] < last {
        assert front[i] in front;
      }
    }
  }

  /** Sorted and deduplicated, and the elements are the same. */
  lemma {:induction false} SortDedupAscending(s: seq<nat>)
    ensures Ascending(SortDedup(s))
    ensures SameElements(SortDedup(s), s)
  {
    if s != [] {
      var before, last := s[..|s| - 1], s[|s| - 1];
      SortDedupAscending(before);
      InsertAscending(SortDedup(before), last);
      assert s == before + [last];
    }
  }

  lemma Greatest(a: seq<nat>, b: seq<nat>)
    requires Ascending(a) && Ascending(b)
    requires SameElements(a, b)
    ensures (a == []) == (b == [])
    ensures a != [] && b != [] ==> a[|a| - 1] == b[|b| - 1]
  {
    if a != [] { assert a[|a| - 1] in b; }
    if b != [] { assert b[|b| - 1] in a; }
  }

  lemma DropGreatest(a: seq<nat>, x: nat)
    requires Ascending(a) && a != []
    ensures x in a[..|a| - 1] <==> x in a && x != a[|a| - 1]
  {
    assert a == a[..|a| - 1] + [a[|a| - 1]];
  }

  /** Two sorted files with the same entries are one file. */
  lemma {:induction false} AscendingUnique(a: seq<nat>, b: seq<nat>)
    requires Ascending(a) && Ascending(b)
    requires SameElements(a, b)
    ensures a == b
  {
    Greatest(a, b);
    if a != [] {
      var a', b' := a[..|a| - 1], b[..|b| - 1];
      forall x ensures x in a' <==> x in b' {
        DropGreatest(a, x);
        DropGreatest(b, x);
      }
      AscendingUnique(a', b');
      assert a == a' + [a[|a| - 1]] && b == b' + [b[|b| - 1]];
    }
  }

  /** As many entries as there are distinct elements. */
  lemma {:induction false} AscendingCardinality(s: seq<nat>)
    requires Ascending(s)
    ensures |Elements(s)| == |s|
  {
    if s != [] {
      var front, x := s[..|s| - 1], s[|s| - 1];
      assert s == front + [x];
      AscendingCardinality(front);
      assert x !in front;
      assert Elements(s) == Elements(front) + {x};
    }
  }

  /**
   * A binary search over an ascending sequence: present exactly when the key is, and then
   * at its only position.
   */
  method BinarySearch(s: seq<nat>, x: nat) returns (found: bool, at: nat)
    requires Ascending(s)
    ensures found <==> x in s
    ensures found ==> at < |s| && s[at] == x
  {
    var lo, hi := 0, |s|;
    while lo < hi
      invariant 0 <= lo <= hi <= |s|
      invariant forall i :: 0 <= i < lo ==> s[i] < x
      invariant forall i :: hi <= i < |s| ==> x < s[i]
    {
      var mid := (lo + hi) / 2;
      if s[mid] == x {
        return true, mid;
      } else if s[mid] < x {
        lo := mid + 1;
      } else {
        hi := mid;
      }
    }
    found, at := false, 0;
  }
}
