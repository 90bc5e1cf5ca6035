/**
 * A delta that does not show what a rebuild does. A long line and a short one that shares its
 * vector are published; then the short line is dropped, on a warehouse of the same package
 * that never held its text. Nothing is missing, so the delta is accepted, and the device keeps
 * the short line's place.
 */
module StaleAlias {
  import opened Wrappers
  import opened Plan
  import opened Alias
  import opened Bytes
  import opened Prefixes
  import opened AliasLaws
  import opened LedgerSplit
  import opened Locations
  import opened Assemble
  import opened Assembly
  import opened SmallPlans
  import opened Segments
  import opened Redecision
  import opened Chain

  /** Two texts whose keys differ in their first eight bytes, which is all format 3 stores. */
  const LONG: Digest := Digest(0x0A_0000_0000_0000_0000, 0)
  const SHORT: Digest := Digest(0x14_0000_0000_0000_0000, 0)
  const BOTH_LINES: PlanRecords :=
    PlanRecords(true, [PlanRecord(0, 0, 0, false, LONG), PlanRecord(0, 1, 0, true, SHORT)])
  const LONG_LINE: PlanRecords := PlanRecords(true, [PlanRecord(0, 0, 0, false, LONG)])
  const BOOKS: seq<Name> := [7]
  const THRESHOLD: Option<real> := Some(0.99)
  const FORMAT: nat := 3

  function Alike(one: Vector, other: Vector): Option<real> {
    Some(1.0)
  }

  const BOTH_HELD: Warehouse := Warehouse(map[LONG := [1.0], SHORT := [1.0]], Alike)
  const LONG_HELD: Warehouse := Warehouse(map[LONG := [1.0]], Alike)

  /** The short line's place, in the book called 7: under the long line's key, its own the anchor. */
  const STALE: Location := Location(7, LONG.key, 1, SHORT.key, ALIAS_WINDOW)

  lemma PlansValid()
    ensures BOTH_LINES.Valid() && LONG_LINE.Valid()
  {
  }

  lemma ReleasesValid(targets: map<nat, Target>)
    ensures Release(BOTH_LINES, BOOKS, targets).Valid() && Release(LONG_LINE, BOOKS, targets).Valid()
  {
    PlansValid();
  }

  lemma ShortFindsLong(q: Question)
    requires q == Ask(BOTH_LINES, BOTH_HELD, 0.99)
    ensures q.Found(1) && q.Choice(1) == Some(Target(LONG.key, 1.0))
  {
    PlansValid();
    assert q.FirstWindow(0, 0, 0);
    LineUnique(q, 0, 0, 0);
    assert BOTH_HELD.vectors[SHORT] == [1.0] && BOTH_HELD.similarity([1.0], [1.0]) == Some(1.0);
    assert q.cosine(SHORT, LONG) == Some(1.0);
    assert q.Candidate(1, NEIGHBOURS[0]) == Some(Target(LONG.key, 1.0));
    assert q.Candidates(1)[0].Some?;
    BestIsFirstGreatest(q.Candidates(1));
    var j, k := ChoiceIsNeighbour(q, 1);
  }

  /** On the first warehouse the short line is an alias, and only it. */
  lemma ShortIsAlias()
    ensures TargetsOf(BOTH_LINES, BOTH_HELD.Score(), THRESHOLD) == map[1 := Target(LONG.key, 1.0)]
  {
    var q := Ask(BOTH_LINES, BOTH_HELD, 0.99);
    ShortFindsLong(q);
    WholeMeans(q, 2, SHORT.key);
    assert q.Aliased(1) && !q.Aliased(0);
  }

  /** On the second it is none. */
  lemma ShortIsForgotten()
    ensures TargetsOf(BOTH_LINES, LONG_HELD.Score(), THRESHOLD) == map[]
  {
    PlansValid();
    var q := Ask(BOTH_LINES, LONG_HELD, 0.99);
    if q.Aliased(1) {
      var j, k := ChoiceIsNeighbour(q, 1);
    }
  }

  lemma LongIsNone()
    ensures TargetsOf(LONG_LINE, LONG_HELD.Score(), THRESHOLD) == map[]
  {
  }

  ghost function First(): Release {
    Release(BOTH_LINES, BOOKS, map[1 := Target(LONG.key, 1.0)])
  }

  ghost function Forgotten(): Release {
    Release(BOTH_LINES, BOOKS, map[])
  }

  ghost function Next(): Release {
    Release(LONG_LINE, BOOKS, map[])
  }

  /** The chain: a base of both lines, and a delta of the long one. */
  ghost predicate IsStale(chain: Chain) {
    && chain.Valid() && chain.Delta? && chain.before.Base? && chain.before.threshold == THRESHOLD
    && chain.before.warehouse == BOTH_HELD && chain.warehouse == LONG_HELD
    && chain.before.Last().plan == BOTH_LINES && chain.Last().plan == LONG_LINE
    && chain.before.Last().books == chain.Last().books == BOOKS
  }

  /** What its two releases are, and what the delta takes the first for. */
  lemma StaleReleases(chain: Chain)
    requires IsStale(chain)
    ensures chain.before.Last() == First() && chain.Last() == Next()
    ensures chain.build.delta.value.occurrences.Some? && chain.Again() == Forgotten()
  {
    ShortIsAlias();
    ShortIsForgotten();
    LongIsNone();
    assert chain.before.Valid() && chain.before.Threshold() == THRESHOLD && chain.Threshold() == THRESHOLD;
    LedgerOfRelease(chain.build.delta.value, chain.before.Last());
  }

  lemma HasStale()
    ensures First().Valid() && Stores(First(), STALE) && LONG.key in ReleaseKeys(First())
    ensures Next().Valid() && !HasLocation(Next(), STALE) && HasPair(Next(), 7, LONG.key)
  {
    ReleasesValid(First().targets);
    ReleasesValid(map[]);
    assert LocationAt(First(), 1) == STALE;
    assert IsPair(First(), 0, 7, LONG.key) && IsPair(Next(), 0, 7, LONG.key);
    PairIsLive(First(), 7, LONG.key);
  }

  lemma RowsOf()
    ensures Next().Valid() && Next().Rows(1) == [Occurrence(LONG.key, 0, 0, LONG.key, 0)]
    ensures Forgotten().Valid()
    ensures Forgotten().Rows(2) == [Occurrence(LONG.key, 0, 0, LONG.key, 0), Occurrence(SHORT.key, 0, 1, SHORT.key, 0)]
  {
    ReleasesValid(map[]);
    assert Forgotten().Rows(1) == [Occurrence(LONG.key, 0, 0, LONG.key, 0)];
  }

  /** The long line's own rows are the same in what the delta compares. */
  lemma LongUnchanged(name: Name)
    ensures Next().Valid() && Next().Located().Valid() && Forgotten().Valid() && Forgotten().Located().Valid()
    ensures !Differs(Next().Located(), Forgotten().Located(), name, LONG.key)
  {
    ReleasesValid(map[]);
    LocatedValid(Next());
    LocatedValid(Forgotten());
    RowsOf();
    SameRowsAt(Next().Located(), Forgotten().Located(), name);
  }

  lemma SameRowsAt(now: Side, was: Side, name: Name)
    requires now.Valid() && was.Valid() && now.books == was.books && |now.rows| == 1 && |was.rows| == 2
    requires now.rows[0] == was.rows[0] && was.rows[1].key != LONG.key
    ensures now.RowsAt(1, name, LONG.key) == was.RowsAt(2, name, LONG.key)
  {
    assert now.RowsAt(0, name, LONG.key) == was.RowsAt(0, name, LONG.key) == [];
    assert was.RowsAt(1, name, LONG.key) == now.RowsAt(1, name, LONG.key);
  }

  lemma LongIsSame()
    ensures Next().Valid() && Next().Located().Valid() && Forgotten().Valid() && Forgotten().Located().Valid()
    ensures LONG.key !in Differing(Next().Located(), Forgotten().Located())
  {
    LongUnchanged(7);
    forall name ensures !Differs(Next().Located(), Forgotten().Located(), name, LONG.key) {
      LongUnchanged(name);
    }
    DifferingMeans(Next().Located(), Forgotten().Located());
  }

  /** So it is not in the snapshot. */
  lemma {:induction false} LongUntouched(chain: Chain)
    requires IsStale(chain)
    ensures !chain.build.Snapshots(LONG.key)
  {
    StaleReleases(chain);
    LongIsSame();
  }

  /** The device still shows the short line where a rebuild has nothing. */
  lemma {:induction false} StaysStale(chain: Chain)
    requires IsStale(chain)
    ensures STALE in Shown(chain.OnDevice(), 7) && !HasLocation(chain.Last(), STALE)
  {
    StaleReleases(chain);
    HasStale();
    ChainHolds(chain.before);
    LongUntouched(chain);
    KeptLocations(chain.before.OnDevice(), chain.build, chain.segment, STALE);
    ChainHoldsKeys(chain);
  }

  lemma KeysApart()
    ensures !Collide(LONG.key, SHORT.key, 8)
  {
    assert Space(8) == 0x1_0000_0000_0000_0000;
    if Collide(LONG.key, SHORT.key, 8) {
      CollideIsClose(LONG.key, SHORT.key, 8);
    }
  }

  predicate OfTwo(keys: seq<Key>) {
    forall key <- keys :: key == LONG.key || key == SHORT.key
  }

  lemma TwoKeysApart(a: Key, b: Key)
    requires OfTwo([a, b])
    ensures !Collide(a, b, 8)
  {
    KeysApart();
    assert a in [a, b] && b in [a, b];
  }

  lemma PlanKeysAreTwo(plan: PlanRecords)
    requires plan == BOTH_LINES || plan == LONG_LINE
    ensures OfTwo(KeysToTell(plan, None))
  {
    assert forall i :: 0 <= i < |plan.records| ==> plan.records[i].Key() in [LONG.key, SHORT.key];
  }

  /** The format tells the two keys apart. */
  lemma NotConfused(plan: PlanRecords, ledger: Option<Ledger>)
    requires plan == BOTH_LINES || plan == LONG_LINE
    requires ledger.Some? ==> OfTwo(ledger.value.keys)
    ensures !Confused(plan, ledger, FORMAT)
  {
    var keys := KeysToTell(plan, ledger);
    PlanKeysAreTwo(plan);
    assert OfTwo(keys) by {
      assert keys == KeysToTell(plan, None) + if ledger.Some? then ledger.value.keys else [];
    }
    forall a, b | a in keys && b in keys ensures !Collide(a, b, 8) {
      TwoKeysApart(a, b);
    }
  }

  /** No vector is missing, and nothing is past the writer's limits. */
  lemma NotRefused(plan: PlanRecords, ledger: Option<Ledger>, warehouse: Warehouse)
    requires plan == BOTH_LINES || plan == LONG_LINE
    requires HoldsAll(warehouse, plan)
    requires ledger.Some? ==> ledger.value.Valid()
    ensures Release(plan, BOOKS, map[]).Valid()
    ensures Refusal(BuildOf(plan, BOOKS, ledger, warehouse.Score(), THRESHOLD), warehouse.vectors.Keys).None?
  {
    ReleasesValid(map[]);
    var build := BuildOf(plan, BOOKS, ledger, warehouse.Score(), THRESHOLD);
    assert Small(plan);
    SmallPlanTaken(build);
    var ds := Dispositions(build.Split(), |plan.records|);
    AllHeldNoneMissing(plan.records, ds, warehouse, |plan.records|);
  }

  lemma Accepted(plan: PlanRecords, ledger: Option<Ledger>, warehouse: Warehouse, asked: Option<real>)
    requires plan == BOTH_LINES || plan == LONG_LINE
    requires HoldsAll(warehouse, plan)
    requires ledger.Some? ==>
      && ledger.value.Valid() && ledger.value.format == FORMAT
      && OfTwo(ledger.value.keys)
    requires ThresholdFor(ledger, asked) == Success(THRESHOLD)
    ensures Release(plan, BOOKS, map[]).Valid()
    ensures Refused(plan, BOOKS, ledger, asked, FORMAT, warehouse).None?
  {
    NotConfused(plan, ledger);
    NotRefused(plan, ledger, warehouse);
  }

  lemma FirstKeys(ledger: Ledger)
    requires First().Valid() && LeftBy(ledger, First(), THRESHOLD)
    ensures OfTwo(ledger.keys)
  {
    forall key | key in ledger.keys ensures key == LONG.key || key == SHORT.key {
      KeysMeans(First().Against(None), 2, key);
    }
  }

  method PublishFirst() returns (base: Result<(Segment, Ledger), AssembleError>, ghost chain: Chain)
    ensures base.Success? && base.value.1.Valid() && base.value.1.format == FORMAT
    ensures chain.Base? && chain.Valid() && chain.warehouse == BOTH_HELD && chain.threshold == THRESHOLD
    ensures chain.Last() == First() && chain.segment == base.value.0
    ensures LeftBy(base.value.1, First(), THRESHOLD)
  {
    Accepted(BOTH_LINES, None, BOTH_HELD, THRESHOLD);
    base := Publish(None, None, BOTH_LINES, BOOKS, THRESHOLD, FORMAT, BOTH_HELD);
    ghost var build :| ExtendsBy(
      build, None, BOTH_HELD, THRESHOLD, BOTH_LINES, BOOKS, base.value.0, base.value.1);
    chain := Base(BOTH_HELD, THRESHOLD, build, base.value.0);
    ShortIsAlias();
  }

  /** Both are accepted, so such a chain is published. */
  method PublishStale()
    returns (base: Result<(Segment, Ledger), AssembleError>, delta: Result<(Segment, Ledger), AssembleError>)
    ensures base.Success? && delta.Success?
    ensures exists chain :: IsStale(chain) && chain.before.segment == base.value.0 && chain.segment == delta.value.0
  {
    ghost var first;
    base, first := PublishFirst();
    FirstKeys(base.value.1);
    Accepted(LONG_LINE, Some(base.value.1), LONG_HELD, None);
    delta := Publish(Some(first), Some(base.value.1), LONG_LINE, BOOKS, None, FORMAT, LONG_HELD);
    ghost var build :| ExtendsBy(
      build, Some(first), LONG_HELD, THRESHOLD, LONG_LINE, BOOKS, delta.value.0, delta.value.1);
    ghost var chain := Delta(first, LONG_HELD, build, delta.value.0);
    LongIsNone();
    assert IsStale(chain);
  }
}
