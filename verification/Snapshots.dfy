/** A delta stores again the locations of exactly the keys whose locations changed. */
module Snapshots {
  import opened Wrappers
  import opened Plan
  import opened Alias
  import opened LedgerSplit
  import opened Locations
  import opened Assemble
  import opened Segments
  import opened Assembly
  import opened Disputes

  /** Where a row's record stands in its book: an alias is its line's first window. */
  function Rank(row: Row): (nat, nat) {
    (row.hint, if row.window == ALIAS_WINDOW then 0 else row.window)
  }

  predicate Precedes(a: (nat, nat), b: (nat, nat)) {
    a.0 < b.0 || (a.0 == b.0 && a.1 < b.1)
  }

  ghost predicate RanksAscend(rows: seq<Row>) {
    forall i, j :: 0 <= i < j < |rows| ==> Precedes(Rank(rows[i]), Rank(rows[j]))
  }

  /** Two lists in order that hold the same rows are one list. */
  lemma {:induction false} OneListing(a: seq<Row>, b: seq<Row>)
    requires RanksAscend(a) && RanksAscend(b) && (forall row :: row in a <==> row in b)
    ensures a == b
  {
    BothEmpty(a, b);
    if a != [] {
      LastSame(a, b);
      var x, y, last := a[..|a| - 1], b[..|b| - 1], a[|a| - 1];
      assert a == x + [last] && b == y + [last];
      forall row ensures row in x <==> row in y {
        InFront(a, row);
        InFront(b, row);
      }
      OneListing(x, y);
    }
  }

  lemma BothEmpty(a: seq<Row>, b: seq<Row>)
    requires forall row :: row in a <==> row in b
    ensures a == [] <==> b == []
  {
    if a != [] { assert a[0] in b; }
    if b != [] { assert b[0] in a; }
  }

  lemma InFront(a: seq<Row>, row: Row)
    requires a != [] && RanksAscend(a)
    ensures row in a[..|a| - 1] <==> row in a && row != a[|a| - 1]
  {
  }

  lemma LastSame(a: seq<Row>, b: seq<Row>)
    requires RanksAscend(a) && RanksAscend(b) && a != [] && (forall row :: row in a <==> row in b)
    ensures b != [] && a[|a| - 1] == b[|b| - 1]
  {
    assert a[|a| - 1] in b;
    assert b[|b| - 1] in a;
  }

  /** A row among the first `n` records of a key in a book: the one of this record. */
  ghost predicate RowFrom(release: Release, n: nat, name: Name, row: Row, i: nat)
    requires release.Valid()
  {
    && i < n <= |release.plan.records| && release.books[release.plan.records[i].book] == name
    && Rank(row) == (release.plan.records[i].ordinal, release.plan.records[i].window)
  }

  ghost predicate RowsFrom(release: Release, n: nat, name: Name, rows: seq<Row>)
    requires release.Valid()
  {
    forall row {:trigger row in rows} :: row in rows ==> exists i: nat :: RowFrom(release, n, name, row, i)
  }

  lemma RankOfRecord(release: Release, i: nat)
    requires release.Valid() && AliasesAreFirst(release) && i < |release.plan.records|
    ensures var o := release.OccurrenceOf(i);
      Rank(Row(o.hint, o.anchor, o.window)) == (release.plan.records[i].ordinal, release.plan.records[i].window)
  {
    assert WellFormed(release.plan.records[i], release.plan.windowed);
  }

  /** The row the record after the first `m` adds, if it is of the key and the book. */
  lemma RowsNext(release: Release, m: nat, n: nat, name: Name, key: Key) returns (more: seq<Row>)
    requires release.Valid() && release.Located().Valid() && AliasesAreFirst(release)
    requires n == m + 1 <= |release.plan.records|
    ensures release.Located().RowsAt(n, name, key) == release.Located().RowsAt(m, name, key) + more
    ensures |more| <= 1 && (more != [] ==> RowFrom(release, n, name, more[0], m))
  {
    RowsAre(release, |release.plan.records|, m);
    RankOfRecord(release, m);
    var o, side := release.OccurrenceOf(m), release.Located();
    more := if side.NameOf(m) == name && o.key == key then [Row(o.hint, o.anchor, o.window)] else [];
  }

  lemma FromLater(release: Release, m: nat, n: nat, name: Name, rows: seq<Row>, more: seq<Row>)
    requires release.Valid() && m < n && RowsFrom(release, m, name, rows) && n <= |release.plan.records|
    requires |more| <= 1 && (more != [] ==> RowFrom(release, n, name, more[0], m))
    ensures RowsFrom(release, n, name, rows + more)
  {
    forall row | row in rows + more ensures exists i: nat :: RowFrom(release, n, name, row, i) {
      if row in rows {
        var i: nat :| RowFrom(release, m, name, row, i);
        assert RowFrom(release, n, name, row, i);
      } else {
        assert row == more[0];
      }
    }
  }

  /** Records of one book come in the order of their ranks. */
  lemma RanksOrder(release: Release, m: nat, n: nat, name: Name, rows: seq<Row>, more: seq<Row>)
    requires release.Valid() && m < n <= |release.plan.records| && RowsFrom(release, m, name, rows)
    requires |more| <= 1 && (more != [] ==> RowFrom(release, n, name, more[0], m)) && RanksAscend(rows)
    ensures RanksAscend(rows + more)
  {
    if more != [] {
      forall x | 0 <= x < |rows| ensures Precedes(Rank(rows[x]), Rank(more[0])) {
        assert rows[x] in rows;
        var i: nat :| RowFrom(release, m, name, rows[x], i);
        assert release.plan.records[i].Before(release.plan.records[m]);
        SameName(release, i, m);
      }
    }
  }

  lemma SameName(release: Release, i: nat, j: nat)
    requires release.Valid() && i < |release.plan.records| && j < |release.plan.records|
    requires release.books[release.plan.records[i].book] == release.books[release.plan.records[j].book]
    ensures release.plan.records[i].book == release.plan.records[j].book
  {
    var a, b := release.plan.records[i].book, release.plan.records[j].book;
    assert release.plan.records[i] in release.plan.records && release.plan.records[j] in release.plan.records;
  }

  lemma {:induction false} RowsAscend(release: Release, n: nat, name: Name, key: Key)
    requires release.Valid() && release.Located().Valid() && AliasesAreFirst(release) && n <= |release.plan.records|
    ensures RowsFrom(release, n, name, release.Located().RowsAt(n, name, key)) == true
    ensures RanksAscend(release.Located().RowsAt(n, name, key)) == true
  {
    if n > 0 {
      RowsAscend(release, n - 1, name, key);
      var rows := release.Located().RowsAt(n - 1, name, key);
      var more := RowsNext(release, n - 1, n, name, key);
      FromLater(release, n - 1, n, name, rows, more);
      RanksOrder(release, n - 1, n, name, rows, more);
    }
  }

  /** Whether a location of a key is one release's and not the other's. */
  ghost predicate Moved(now: Release, before: Release, l: Location)
    requires now.Valid() && before.Valid()
  {
    HasLocation(now, l) != HasLocation(before, l)
  }

  lemma RowIsLocated(release: Release, name: Name, key: Key, row: Row)
    requires release.Valid() && release.Located().Valid()
    ensures row in release.Located().All(name, key) <==>
      HasLocation(release, Location(name, key, row.hint, row.anchor, row.window))
  {
    var l := Location(name, key, row.hint, row.anchor, row.window);
    LocationsAreRows(release, |release.plan.records|, l);
    assert LocatedBefore(release, |release.plan.records|, l) <==> HasLocation(release, l);
  }

  lemma {:induction false} SameRows(now: Release, before: Release, name: Name, key: Key)
    requires now.Valid() && before.Valid() && now.Located().Valid() && before.Located().Valid()
    requires AliasesAreFirst(now) && AliasesAreFirst(before)
    requires forall l: Location {:trigger Moved(now, before, l)} :: l.key == key ==> !Moved(now, before, l)
    ensures now.Located().All(name, key) == before.Located().All(name, key)
  {
    var a, b := now.Located().All(name, key), before.Located().All(name, key);
    RowsAscend(now, |now.plan.records|, name, key);
    RowsAscend(before, |before.plan.records|, name, key);
    forall row ensures row in a <==> row in b {
      RowIsLocated(now, name, key, row);
      RowIsLocated(before, name, key, row);
      assert !Moved(now, before, Location(name, key, row.hint, row.anchor, row.window));
    }
    OneListing(a, b);
  }

  lemma {:induction false} MovedDiffers(now: Release, before: Release, l: Location)
    requires now.Valid() && before.Valid() && now.Located().Valid() && before.Located().Valid()
    requires Moved(now, before, l)
    ensures Differs(now.Located(), before.Located(), l.name, l.key)
  {
    RowIsLocated(now, l.name, l.key, Row(l.hint, l.anchor, l.window));
    RowIsLocated(before, l.name, l.key, Row(l.hint, l.anchor, l.window));
  }

  /** Two releases differ in a key's rows exactly where a location of it is one's and not the other's. */
  lemma {:induction false} DifferingMoved(now: Release, before: Release, key: Key)
    requires now.Valid() && before.Valid() && now.Located().Valid() && before.Located().Valid()
    requires AliasesAreFirst(now) && AliasesAreFirst(before)
    ensures key in Differing(now.Located(), before.Located()) <==>
      exists l: Location :: l.key == key && Moved(now, before, l)
  {
    DifferingMeans(now.Located(), before.Located());
    if l: Location :| l.key == key && Moved(now, before, l) {
      MovedDiffers(now, before, l);
    } else {
      forall name ensures !Differs(now.Located(), before.Located(), name, key) {
        SameRows(now, before, name, key);
      }
    }
  }

  /**
   * The keys whose locations a build stores: all of a plan with locations where the release before
   * has none to compare with, and else exactly those with a location that came, went, or moved.
   */
  lemma {:induction false} SnapshotsAre(build: Build, plan: PlanRecords, books: seq<Name>, delta: Option<Ledger>,
      cosine: Cosine, threshold: Option<real>, key: Key)
    requires IsBuild(build, plan, books, delta, cosine, threshold)
    ensures delta.None? || delta.value.occurrences.None? ==> (build.Snapshots(key) <==> plan.windowed)
    ensures delta.Some? && delta.value.occurrences.Some? ==>
      Earlier(delta.value, cosine).Valid() &&
      (build.Snapshots(key) <==>
        plan.windowed && exists l: Location :: l.key == key && Moved(build.now, Earlier(delta.value, cosine), l))
  {
    if delta.Some? && delta.value.occurrences.Some? {
      var before := Earlier(delta.value, cosine);
      LocatedValid(build.now);
      LocatedValid(before);
      DecidedAreFirst(build.now, cosine, threshold);
      DecidedAreFirst(before, cosine, delta.value.aliasThreshold);
      DifferingMoved(build.now, before, key);
    }
  }
}
