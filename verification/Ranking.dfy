/** The exact search: the best keys by score, from bounded heaps over chunks of the entries. */
module Ranking {
  /** A score and its key: better is a greater score, then a lower key. */
  datatype Scored = Scored(score: int, key: nat)

  predicate Worse(a: Scored, b: Scored) {
    a.score < b.score || (a.score == b.score && a.key > b.key)
  }

  function Min(a: nat, b: nat): nat {
    if a < b then a else b
  }

  /** The best `k` of `m`: as many as there are, and nothing left out is better than any. */
  ghost predicate IsTop(t: multiset<Scored>, m: multiset<Scored>, k: nat) {
    && t <= m && |t| == Min(k, |m|)
    && forall x, y :: x in t && y in m - t ==> !Worse(x, y)
  }

  ghost predicate Descending(s: seq<Scored>) {
    forall i, j :: 0 <= i < j < |s| ==> !Worse(s[i], s[j])
  }

  lemma SubsetEqual(a: multiset<Scored>, b: multiset<Scored>)
    requires a <= b && |b| <= |a|
    ensures a == b
  {
    assert b == a + (b - a);
  }

  /** Something is in one and not, or not as often, in the other. */
  lemma Apart(a: multiset<Scored>, b: multiset<Scored>)
    requires |b| <= |a| && a != b
    ensures exists x :: a[x] > b[x]
  {
    if a <= b {
      SubsetEqual(a, b);
    }
  }

  lemma NotWorse(t: multiset<Scored>, other: multiset<Scored>, m: multiset<Scored>, k: nat, x: Scored, y: Scored)
    requires IsTop(t, m, k) && other <= m && x in t && other[y] > t[y]
    ensures !Worse(x, y)
  {
    assert y in m - t;
  }

  /** There is one best `k`. */
  lemma {:induction false} TopUnique(t: multiset<Scored>, t': multiset<Scored>, m: multiset<Scored>, k: nat)
    requires IsTop(t, m, k) && IsTop(t', m, k)
    ensures t == t'
  {
    if t != t' {
      Apart(t, t');
      Apart(t', t);
      var x :| t[x] > t'[x];
      var y :| t'[y] > t[y];
      NotWorse(t, t', m, k, x, y);
      NotWorse(t', t, m, k, y, x);
    }
  }

  /** One more entry: pushed, and the worst popped where there are more than `k`. */
  lemma {:induction false} TopPush(t: multiset<Scored>, m: multiset<Scored>, k: nat, x: Scored)
    requires IsTop(t, m, k) && |t| < k
    ensures IsTop(t + multiset{x}, m + multiset{x}, k)
  {
    assert t == m by {
      assert m == t + (m - t);
      assert m - t == multiset{};
    }
  }

  lemma {:induction false} TopPop(t: multiset<Scored>, m: multiset<Scored>, k: nat, x: Scored, worst: Scored)
    requires IsTop(t, m, k) && |t| == k
    requires worst in t + multiset{x} && forall y :: y in t + multiset{x} ==> !Worse(y, worst)
    ensures IsTop(t + multiset{x} - multiset{worst}, m + multiset{x}, k)
  {
    var pushed, after := t + multiset{x}, t + multiset{x} - multiset{worst};
    forall a, b | a in after && b in m + multiset{x} - after ensures !Worse(a, b) {
      assert a in pushed;
      assert b == worst || b in m - t || b == x;
    }
  }

  /** What a chunk's best left out is no better than anything in the best of all. */
  lemma {:induction false} LeftOut(t: multiset<Scored>, part: multiset<Scored>, m: multiset<Scored>,
      all: multiset<Scored>, k: nat,
                                   x: Scored, y: Scored)
    requires IsTop(part, m, k) && y in m - part && part <= all
    requires IsTop(t, all, k) && x in t
    ensures !Worse(x, y)
  {
    if x !in part {
      assert m == part + (m - part);
      Apart(part, t);
      var z :| part[z] > t[z];
      assert z in all - t && z in part;
    }
  }

  /** The best of two parts' best are the best of the whole. */
  lemma {:induction false} TopUnion(t: multiset<Scored>, a: multiset<Scored>, m: multiset<Scored>,
                                    b: multiset<Scored>, n: multiset<Scored>, k: nat)
    requires IsTop(a, m, k) && IsTop(b, n, k) && IsTop(t, a + b, k)
    ensures IsTop(t, m + n, k)
  {
    forall x, y | x in t && y in m + n - t ensures !Worse(x, y) {
      if y in m - a {
        LeftOut(t, a, m, a + b, k, x, y);
      } else if y in n - b {
        LeftOut(t, b, n, a + b, k, x, y);
      } else {
        assert y in a + b - t;
      }
    }
  }

  /** The first `k` of a descending list are its best. */
  lemma {:induction false} TopOfSorted(s: seq<Scored>, k: nat)
    requires Descending(s)
    ensures IsTop(multiset(s[..Min(k, |s|)]), multiset(s), k)
  {
    var front, rest := s[..Min(k, |s|)], s[Min(k, |s|)..];
    assert s == front + rest;
    assert multiset(s) - multiset(front) == multiset(rest);
  }

  /** A multiset has one descending listing. */
  lemma {:induction false} DescendingUnique(a: seq<Scored>, b: seq<Scored>)
    requires Descending(a) && Descending(b) && multiset(a) == multiset(b)
    ensures a == b
  {
    SameLength(a, b);
    if a != [] {
      LastEqual(a, b);
      DropLast(a);
      DropLast(b);
      DescendingUnique(a[..|a| - 1], b[..|b| - 1]);
      assert a == a[..|a| - 1] + [a[|a| - 1]] && b == b[..|b| - 1] + [b[|b| - 1]];
    }
  }

  lemma SameLength(a: seq<Scored>, b: seq<Scored>)
    requires multiset(a) == multiset(b)
    ensures |a| == |b|
  {
    assert |a| == |multiset(a)| && |b| == |multiset(b)|;
  }

  lemma DropLast(a: seq<Scored>)
    requires a != []
    ensures multiset(a[..|a| - 1]) == multiset(a) - multiset{a[|a| - 1]}
  {
    assert a == a[..|a| - 1] + [a[|a| - 1]];
  }

  lemma LastEqual(a: seq<Scored>, b: seq<Scored>)
    requires Descending(a) && Descending(b) && multiset(a) == multiset(b) && a != [] && b != []
    ensures a[|a| - 1] == b[|b| - 1]
  {
    var x, y := a[|a| - 1], b[|b| - 1];
    assert x in multiset(a) && y in multiset(b);
    assert x in b && y in a;
  }

  /** Sort, best first. */
  function SortDescending(s: seq<Scored>): seq<Scored> {
    if s == [] then [] else InsertDescending(SortDescending(s[..|s| - 1]), s[|s| - 1])
  }

  function InsertDescending(s: seq<Scored>, x: Scored): seq<Scored> {
    if s == [] || !Worse(s[|s| - 1], x) then s + [x]
    else InsertDescending(s[..|s| - 1], x) + [s[|s| - 1]]
  }

  lemma {:induction false} InsertDescends(s: seq<Scored>, x: Scored)
    requires Descending(s)
    ensures Descending(InsertDescending(s, x))
    ensures forall i :: 0 <= i < |InsertDescending(s, x)| ==>
      InsertDescending(s, x)[i] == x || InsertDescending(s, x)[i] in s
  {
    if s != [] && Worse(s[|s| - 1], x) {
      InsertDescends(s[..|s| - 1], x);
      assert s == s[..|s| - 1] + [s[|s| - 1]];
    }
  }

  lemma {:induction false} InsertPermutes(s: seq<Scored>, x: Scored)
    ensures multiset(InsertDescending(s, x)) == multiset(s) + multiset{x}
  {
    if s != [] && Worse(s[|s| - 1], x) {
      InsertPermutes(s[..|s| - 1], x);
      assert s == s[..|s| - 1] + [s[|s| - 1]];
    }
  }

  lemma {:induction false} SortSorts(s: seq<Scored>)
    ensures Descending(SortDescending(s)) && multiset(SortDescending(s)) == multiset(s)
  {
    if s != [] {
      SortSorts(s[..|s| - 1]);
      InsertDescends(SortDescending(s[..|s| - 1]), s[|s| - 1]);
      InsertPermutes(SortDescending(s[..|s| - 1]), s[|s| - 1]);
      assert s == s[..|s| - 1] + [s[|s| - 1]];
    }
  }

  /** The first `k` of a full sort: what the search answers. */
  function BestOf(s: seq<Scored>, k: nat): seq<Scored> {
    SortPermutes(s);
    SortDescending(s)[..Min(k, |s|)]
  }

  lemma SortPermutes(s: seq<Scored>)
    ensures |SortDescending(s)| == |s|
  {
    SortSorts(s);
    SameLength(SortDescending(s), s);
  }

  lemma {:induction false} BestOfIsTop(s: seq<Scored>, k: nat)
    ensures IsTop(multiset(BestOf(s, k)), multiset(s), k) && Descending(BestOf(s, k))
  {
    SortSorts(s);
    SortPermutes(s);
    TopOfSorted(SortDescending(s), k);
  }

  /** Equal best entries are listed alike. */
  lemma {:induction false} BestOfUnique(s: seq<Scored>, s': seq<Scored>, k: nat)
    requires IsTop(multiset(BestOf(s, k)), multiset(s'), k)
    ensures BestOf(s, k) == BestOf(s', k)
  {
    BestOfIsTop(s, k);
    BestOfIsTop(s', k);
    TopUnique(multiset(BestOf(s, k)), multiset(BestOf(s', k)), multiset(s'), k);
    DescendingUnique(BestOf(s, k), BestOf(s', k));
  }

  /** One chunk's best, in whatever order its heap is drained: the worst popped past `k`. */
  method Best(entries: seq<Scored>, k: nat) returns (best: seq<Scored>)
    ensures IsTop(multiset(best), multiset(entries), k)
  {
    var heap: multiset<Scored> := multiset{};
    for i := 0 to |entries|
      invariant IsTop(heap, multiset(entries[..i]), k)
    {
      assert entries[..i + 1] == entries[..i] + [entries[i]];
      ghost var before := heap;
      heap := heap + multiset{entries[i]};
      if |heap| > k {
        var worst := Worst(heap);
        heap := heap - multiset{worst};
        TopPop(before, multiset(entries[..i]), k, entries[i], worst);
      } else {
        TopPush(before, multiset(entries[..i]), k, entries[i]);
      }
    }
    assert entries[..|entries|] == entries;
    best := Drain(heap);
  }

  /** The root of the heap. */
  method Worst(heap: multiset<Scored>) returns (worst: Scored)
    requires heap != multiset{}
    ensures worst in heap && forall y :: y in heap ==> !Worse(y, worst)
  {
    worst :| worst in heap;
    var rest := heap;
    while rest != multiset{}
      invariant rest <= heap && worst in heap
      invariant forall y :: y in heap && y !in rest ==> !Worse(y, worst)
      decreases |rest|
    {
      var y :| y in rest;
      if Worse(y, worst) {
        worst := y;
      }
      rest := rest[y := 0];
    }
  }

  method Drain(heap: multiset<Scored>) returns (s: seq<Scored>)
    ensures multiset(s) == heap
  {
    s := [];
    var rest := heap;
    while rest != multiset{}
      invariant multiset(s) + rest == heap
      decreases |rest|
    {
      var x :| x in rest;
      s, rest := s + [x], rest - multiset{x};
    }
  }

  /** One more chunk: the best of what is collected are still the best of what is read. */
  lemma {:induction false} CollectChunk(top: seq<Scored>, all: seq<Scored>, read: seq<Scored>,
                                        best: seq<Scored>, chunk: seq<Scored>, k: nat)
    requires IsTop(multiset(top), multiset(all), k) && IsTop(multiset(top), multiset(read), k)
    requires IsTop(multiset(best), multiset(chunk), k)
    ensures IsTop(multiset(BestOf(top + best, k)), multiset(all + best), k)
    ensures IsTop(multiset(BestOf(top + best, k)), multiset(read + chunk), k)
  {
    BestOfIsTop(top + best, k);
    var u, t, b := multiset(BestOf(top + best, k)), multiset(top), multiset(best);
    TopUnion(u, t, multiset(all), b, b, k);
    TopUnion(u, t, multiset(read), b, multiset(chunk), k);
  }

  /**
   * The best `k` entries on `threads` threads, each over its chunk: for every number of
   * threads, the first `k` of a full sort, best first, ties by key.
   */
  method TopK(entries: seq<Scored>, k: nat, threads: nat) returns (result: seq<Scored>)
    ensures result == BestOf(entries, k)
    ensures |result| == Min(k, |entries|) && multiset(result) <= multiset(entries)
    ensures forall i, j :: 0 <= i < j < |result| ==>
      result[i].score > result[j].score || (result[i].score == result[j].score && result[i].key <= result[j].key)
    ensures forall i, y :: 0 <= i < |result| && y in multiset(entries) - multiset(result) ==>
      result[i].score > y.score || (result[i].score == y.score && result[i].key <= y.key)
  {
    var workers := if threads < 1 then 1 else threads;
    var each := (|entries| + workers - 1) / workers;
    var chunk := if each < 1 then 1 else each;
    var all, at := [], 0;
    ghost var top: seq<Scored> := [];
    while at < |entries|
      invariant at <= |entries|
      invariant IsTop(multiset(top), multiset(all), k) && IsTop(multiset(top), multiset(entries[..at]), k)
    {
      var next := if at + chunk < |entries| then at + chunk else |entries|;
      var best := Best(entries[at..next], k);
      assert entries[..next] == entries[..at] + entries[at..next];
      CollectChunk(top, all, entries[..at], best, entries[at..next], k);
      top, all, at := BestOf(top + best, k), all + best, next;
    }
    assert entries[..at] == entries;
    result := BestOf(all, k);
    BestOfIsTop(all, k);
    TopUnique(multiset(result), multiset(top), multiset(all), k);
    BestOfUnique(all, entries, k);
    InNumbers(entries, k, result);
  }

  /** The answer told in scores and keys. */
  lemma InNumbers(entries: seq<Scored>, k: nat, result: seq<Scored>)
    requires result == BestOf(entries, k)
    ensures |result| == Min(k, |entries|) && multiset(result) <= multiset(entries)
    ensures forall i, j :: 0 <= i < j < |result| ==>
      result[i].score > result[j].score || (result[i].score == result[j].score && result[i].key <= result[j].key)
    ensures forall i, y :: 0 <= i < |result| && y in multiset(entries) - multiset(result) ==>
      result[i].score > y.score || (result[i].score == y.score && result[i].key <= y.key)
  {
    BestOfIsTop(entries, k);
    SortPermutes(entries);
    forall i, y | 0 <= i < |result| && y in multiset(entries) - multiset(result) ensures !Worse(result[i], y) {
      assert result[i] in multiset(result);
    }
    forall i, j | 0 <= i < j < |result| ensures !Worse(result[i], result[j]) {
    }
  }
}
