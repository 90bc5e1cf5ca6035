/**
 * The location rows as a segment's writer stores them: sorted, and of the rows of one key in
 * one book that name one parent in one window, the first line only.
 */
module OccurrenceRows {
  import opened Wrappers
  import opened Plan

  /** The order rows are stored in: by key, book, hint, anchor and window. */
  predicate Less(a: Occurrence, b: Occurrence) {
    || a.key < b.key
    || (a.key == b.key && a.book < b.book)
    || (a.key == b.key && a.book == b.book && a.hint < b.hint)
    || (a.key == b.key && a.book == b.book && a.hint == b.hint && a.anchor < b.anchor)
    || (a.key == b.key && a.book == b.book && a.hint == b.hint && a.anchor == b.anchor && a.window < b.window)
  }

  ghost predicate InOrder(s: seq<Occurrence>) {
    forall i, j :: 0 <= i < j < |s| ==> !Less(s[j], s[i])
  }

  ghost predicate Ascend(s: seq<Occurrence>) {
    forall i, j :: 0 <= i < j < |s| ==> Less(s[i], s[j])
  }

  /** `sort_unstable`: rows that compare alike are the same row. */
  function Sorted(s: seq<Occurrence>): seq<Occurrence> {
    if s == [] then [] else Placed(Sorted(s[..|s| - 1]), s[|s| - 1])
  }

  function Placed(s: seq<Occurrence>, x: Occurrence): seq<Occurrence> {
    if s == [] || !Less(x, s[|s| - 1]) then s + [x] else Placed(s[..|s| - 1], x) + [s[|s| - 1]]
  }

  lemma {:induction false} PlacedInOrder(s: seq<Occurrence>, x: Occurrence)
    requires InOrder(s)
    ensures InOrder(Placed(s, x))
    ensures forall y :: y in Placed(s, x) <==> y in s || y == x
  {
    if s != [] && Less(x, s[|s| - 1]) {
      var before, last := s[..|s| - 1], s[|s| - 1];
      assert s == before + [last];
      PlacedInOrder(before, x);
      var front := Placed(before, x);
      forall i | 0 <= i < |front| ensures !Less(last, front[i]) {
        assert front[i] in front;
      }
    }
  }

  lemma {:induction false} SortedInOrder(s: seq<Occurrence>)
    ensures InOrder(Sorted(s))
    ensures forall y :: y in Sorted(s) <==> y in s
  {
    if s != [] {
      var before, last := s[..|s| - 1], s[|s| - 1];
      SortedInOrder(before);
      PlacedInOrder(Sorted(before), last);
      assert s == before + [last];
    }
  }

  /** Rows a reader recovers through one parent: of one key and book, one anchor and window. */
  predicate SameParent(a: Occurrence, b: Occurrence) {
    a.key == b.key && a.book == b.book && a.anchor == b.anchor && a.window == b.window
  }

  /** A row of which no other names the same parent at an earlier line. */
  ghost predicate IsKept(s: seq<Occurrence>, o: Occurrence) {
    o in s && forall p {:trigger SameParent(p, o)} :: p in s && SameParent(p, o) ==> o.hint <= p.hint
  }

  /** What the writer keeps of the rows it is handed. */
  ghost predicate AreKept(handed: seq<Occurrence>, rows: seq<Occurrence>) {
    Ascend(rows) && forall o :: o in rows <==> IsKept(handed, o)
  }

  function GroupOf(o: Occurrence): (Key, nat) {
    (o.key, o.book)
  }

  function ParentOf(o: Occurrence): (Key, nat) {
    (o.anchor, o.window)
  }

  /** Whether a row of the key and book names the parent. */
  ghost predicate Names(s: seq<Occurrence>, group: (Key, nat), parent: (Key, nat)) {
    s != [] &&
    (Names(s[..|s| - 1], group, parent) || (GroupOf(s[|s| - 1]) == group && ParentOf(s[|s| - 1]) == parent))
  }

  ghost predicate HasParent(s: seq<Occurrence>, o: Occurrence) {
    exists p :: p in s && SameParent(p, o)
  }

  lemma {:induction false} NamesMeans(s: seq<Occurrence>, o: Occurrence)
    ensures Names(s, GroupOf(o), ParentOf(o)) <==> HasParent(s, o)
  {
    if s != [] {
      var before, last := s[..|s| - 1], s[|s| - 1];
      assert s == before + [last];
      NamesMeans(before, o);
      if HasParent(before, o) {
        var p :| p in before && SameParent(p, o);
        assert p in s;
      }
      assert SameParent(last, o) <==> GroupOf(last) == GroupOf(o) && ParentOf(last) == ParentOf(o);
      assert last in s;
    }
  }

  lemma {:induction false} NamesNothing(s: seq<Occurrence>, group: (Key, nat), parent: (Key, nat))
    requires forall p <- s :: GroupOf(p) != group
    ensures !Names(s, group, parent)
  {
    if s != [] { NamesNothing(s[..|s| - 1], group, parent); }
  }

  lemma NamesAppend(s: seq<Occurrence>, x: Occurrence, group: (Key, nat), parent: (Key, nat))
    ensures Names(s + [x], group, parent) <==>
      Names(s, group, parent) || (GroupOf(x) == group && ParentOf(x) == parent)
  {
    assert (s + [x])[..|s|] == s;
  }

  /** The loop's variables: the key and book being read, and their parents so far. */
  ghost predicate ParentsAre(s: seq<Occurrence>, current: Option<(Key, nat)>, parents: set<(Key, nat)>) {
    if s == [] then current == None else
      && current == Some(GroupOf(s[|s| - 1]))
      && forall q: (Key, nat) :: q in parents <==> Names(s, current.value, q)
  }

  /** A row of another key or book is of none read so far. */
  lemma NewGroup(s: seq<Occurrence>, x: Occurrence)
    requires InOrder(s + [x]) && (s == [] || GroupOf(s[|s| - 1]) != GroupOf(x))
    ensures forall p <- s :: GroupOf(p) != GroupOf(x)
  {
    var more := s + [x];
    forall p | p in s ensures GroupOf(p) != GroupOf(x) {
      var i :| 0 <= i < |s| && s[i] == p;
      assert more[i] == p && more[|s| - 1] == s[|s| - 1] && more[|s|] == x;
    }
  }

  lemma NextParents(s: seq<Occurrence>, x: Occurrence, current: Option<(Key, nat)>, parents: set<(Key, nat)>)
    requires InOrder(s + [x]) && ParentsAre(s, current, parents)
    ensures var seen := if current == Some(GroupOf(x)) then parents else {};
      && (ParentOf(x) in seen <==> HasParent(s, x))
      && ParentsAre(s + [x], Some(GroupOf(x)), seen + {ParentOf(x)})
  {
    var seen := if current == Some(GroupOf(x)) then parents else {};
    forall q: (Key, nat) ensures q in seen <==> Names(s, GroupOf(x), q) {
      if current != Some(GroupOf(x)) {
        NewGroup(s, x);
        NamesNothing(s, GroupOf(x), q);
      }
    }
    NamesMeans(s, x);
    forall q: (Key, nat) ensures q in seen + {ParentOf(x)} <==> Names(s + [x], GroupOf(x), q) {
      NamesAppend(s, x, GroupOf(x), q);
    }
  }

  /** The next row is kept exactly where it names a parent no row before it did. */
  lemma NextKept(s: seq<Occurrence>, x: Occurrence, rows: seq<Occurrence>)
    requires InOrder(s + [x]) && AreKept(s, rows)
    ensures AreKept(s + [x], if HasParent(s, x) then rows else rows + [x])
  {
    var more := s + [x];
    forall i | 0 <= i < |s| ensures !Less(x, s[i]) {
      assert more[i] == s[i] && more[|s|] == x;
    }
    forall o ensures IsKept(more, o) <==> if HasParent(s, x) then IsKept(s, o) else IsKept(s, o) || o == x {
      KeptWith(s, x, o);
    }
    if !HasParent(s, x) {
      forall i | 0 <= i < |rows| ensures Less(rows[i], x) {
        assert rows[i] in rows && IsKept(s, rows[i]);
        assert SameParent(x, x);
      }
    }
  }

  lemma KeptWith(s: seq<Occurrence>, x: Occurrence, o: Occurrence)
    requires forall p <- s :: !Less(x, p)
    ensures IsKept(s + [x], o) <==> if HasParent(s, x) then IsKept(s, o) else IsKept(s, o) || o == x
  {
    var more := s + [x];
    if HasParent(s, x) {
      var p :| p in s && SameParent(p, x);
      assert p.hint <= x.hint;
      if IsKept(more, o) && o == x {
        assert p in more && SameParent(p, o);
      }
    }
  }

  /** The loop's state: the rows kept, and what the next is compared with. */
  datatype Reading = Reading(rows: seq<Occurrence>, current: Option<(Key, nat)>, parents: set<(Key, nat)>)

  ghost predicate ReadSoFar(s: seq<Occurrence>, reading: Reading) {
    AreKept(s, reading.rows) && ParentsAre(s, reading.current, reading.parents)
  }

  /** One row of the loop: kept where its parent is new to its key and book. */
  method Keep(ghost s: seq<Occurrence>, x: Occurrence, before: Reading) returns (reading: Reading)
    requires InOrder(s + [x]) && ReadSoFar(s, before)
    ensures ReadSoFar(s + [x], reading)
  {
    NextParents(s, x, before.current, before.parents);
    NextKept(s, x, before.rows);
    var seen := if before.current == Some(GroupOf(x)) then before.parents else {};
    var rows := if ParentOf(x) in seen then before.rows else before.rows + [x];
    return Reading(rows, Some(GroupOf(x)), seen + {ParentOf(x)});
  }

  lemma PrefixInOrder(s: seq<Occurrence>, n: nat)
    requires InOrder(s) && n < |s|
    ensures s[..n + 1] == s[..n] + [s[n]] && InOrder(s[..n + 1])
  {
  }

  /**
   * Identical parents are written once: sorted, a row is kept where it is the first of its
   * key and book to name its anchor in its window.
   */
  method KeepFirst(handed: seq<Occurrence>) returns (rows: seq<Occurrence>)
    ensures AreKept(handed, rows)
    ensures forall i, j :: 0 <= i < j < |rows| ==> rows[i].key <= rows[j].key
    ensures forall i, j :: 0 <= i < j < |rows| && rows[i].key == rows[j].key ==> rows[i].book <= rows[j].book
    ensures forall i, j :: 0 <= i < j < |rows| && rows[i].key == rows[j].key && rows[i].book == rows[j].book ==>
      rows[i].hint <= rows[j].hint
    ensures forall i, o :: 0 <= i < |rows| && o in handed && o == rows[i].(hint := o.hint) ==> rows[i].hint <= o.hint
  {
    var sorted := Sorted(handed);
    SortedInOrder(handed);
    var reading := Reading([], None, {});
    for n := 0 to |sorted|
      invariant ReadSoFar(sorted[..n], reading)
    {
      PrefixInOrder(sorted, n);
      reading := Keep(sorted[..n], sorted[n], reading);
    }
    assert sorted[..|sorted|] == sorted;
    SameKept(sorted, handed);
    rows := reading.rows;
    forall i, o | 0 <= i < |rows| && o in handed && o == rows[i].(hint := o.hint) ensures rows[i].hint <= o.hint {
      assert IsKept(handed, rows[i]) && SameParent(o, rows[i]);
    }
  }

  lemma SameKept(a: seq<Occurrence>, b: seq<Occurrence>)
    requires forall o :: o in a <==> o in b
    ensures forall o :: IsKept(a, o) <==> IsKept(b, o)
  {
  }

  /** Every row is kept, or an earlier one of its parent is. */
  lemma {:induction false} FirstOfParent(handed: seq<Occurrence>, o: Occurrence) returns (first: Occurrence)
    requires o in handed
    ensures IsKept(handed, first) && SameParent(first, o)
    decreases o.hint
  {
    first := o;
    if !IsKept(handed, o) {
      var p :| p in handed && SameParent(p, o) && p.hint < o.hint;
      first := FirstOfParent(handed, p);
    }
  }
}
