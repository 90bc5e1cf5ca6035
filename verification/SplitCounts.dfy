/** What splitting a plan against the release before it counts, and its tombstones. */
module SplitCounts {
  import opened Wrappers
  import opened Sorting
  import opened Plan
  import opened LedgerSplit
  import opened LedgerLaws
  import opened LedgerFiles

  datatype Counts = Counts(
    records: nat,
    books: nat,
    unique: nat,
    reused: nat,
    toShip: nat,
    revived: nat,
    tombstones: nat,
    foreignPairs: nat)

  /** The keys of the release before that the first `n` records hold. */
  ghost function HeldOf(split: Split, n: nat): set<Key>
    requires n <= |split.plan.records|
  {
    Elements(OldKeys(split)) * split.Keys(n)
  }

  /** What is reused is the keys of the release before that the plan still holds. */
  lemma {:induction false} ReusedAreHeld(split: Split, n: nat)
    requires n <= |split.plan.records|
    ensures ReusedCount(split, n) == |HeldOf(split, n)|
  {
    if n > 0 {
      ReusedAreHeld(split, n - 1);
      HeldStep(split, n);
    }
  }

  lemma HeldStep(split: Split, n: nat)
    requires 0 < n <= |split.plan.records|
    ensures var key := split.plan.records[n - 1].Key();
      |HeldOf(split, n)| == |HeldOf(split, n - 1)| +
      if n - 1 !in split.aliased && split.Old(key) && key !in split.Keys(n - 1) then 1 else 0
  {
    var key := split.plan.records[n - 1].Key();
    if n - 1 !in split.aliased && split.Old(key) {
      WithOne(HeldOf(split, n - 1), key);
      assert HeldOf(split, n) == HeldOf(split, n - 1) + {key};
    } else {
      assert HeldOf(split, n) == HeldOf(split, n - 1);
    }
  }

  /** Every key of the release before is reused or tombstoned, and none is both. */
  lemma {:induction false} TombstonesAndReused(split: Split, tombstones: seq<Key>)
    requires split.Valid() && Ascending(tombstones)
    requires forall key :: key in tombstones <==> key in OldKeys(split) && key !in split.Keys(|split.plan.records|)
    ensures |tombstones| + ReusedCount(split, |split.plan.records|) == |OldKeys(split)|
  {
    var n, previous := |split.plan.records|, Elements(OldKeys(split));
    ReusedAreHeld(split, n);
    AscendingCardinality(tombstones);
    AscendingCardinality(OldKeys(split));
    assert Elements(tombstones) == previous - split.Keys(n);
    assert previous == (previous - split.Keys(n)) + HeldOf(split, n);
  }

  /** The slots among the first `n` records whose text the warehouse holds a vector of. */
  function Revived(records: seq<PlanRecord>, dispositions: seq<Disposition>, warehouse: set<Digest>, n: nat): nat
    requires n <= |records| && n <= |dispositions|
  {
    if n == 0 then 0 else
      Revived(records, dispositions, warehouse, n - 1) +
      if dispositions[n - 1].Slot? && records[n - 1].sha256 in warehouse then 1 else 0
  }

  /** The shipped records among the first `n` whose text is in a warehouse. */
  ghost function ShippedOf(split: Split, warehouse: set<Digest>, n: nat): set<nat>
    requires split.Valid() && n <= |split.plan.records|
  {
    set i: nat | i < n && split.Ships(i) && split.plan.records[i].sha256 in warehouse
  }

  lemma ShippedRest(split: Split, warehouse: set<Digest>, m: nat, n: nat)
    requires split.Valid() && n == m + 1 <= |split.plan.records|
    ensures ShippedOf(split, warehouse, n) - {m} == ShippedOf(split, warehouse, m)
  {
  }

  lemma ShippedStep(split: Split, warehouse: set<Digest>, m: nat, n: nat)
    requires split.Valid() && n == m + 1 <= |split.plan.records|
    ensures |ShippedOf(split, warehouse, n)| == |ShippedOf(split, warehouse, m)| +
      if split.Ships(m) && split.plan.records[m].sha256 in warehouse then 1 else 0
  {
    ShippedRest(split, warehouse, m, n);
    Without(ShippedOf(split, warehouse, n), m);
  }

  /** What is revived is the shipped records whose vector the warehouse holds. */
  lemma {:induction false} RevivedAre(split: Split, warehouse: set<Digest>, n: nat, total: nat)
    requires split.Valid() && n <= total <= |split.plan.records|
    ensures Revived(split.plan.records, Dispositions(split, total), warehouse, n) ==
      |ShippedOf(split, warehouse, n)|
  {
    if n > 0 {
      RevivedAre(split, warehouse, n - 1, total);
      DispositionsAt(split, total, n - 1);
      SlotShips(split, n - 1);
      ShippedStep(split, warehouse, n - 1, n);
    }
  }

  method CountRevived(records: seq<PlanRecord>, dispositions: seq<Disposition>,
      warehouse: set<Digest>) returns (revived: nat)
    requires |dispositions| == |records|
    ensures revived == Revived(records, dispositions, warehouse, |records|)
  {
    revived := 0;
    for i := 0 to |records|
      invariant revived == Revived(records, dispositions, warehouse, i)
    {
      if dispositions[i].Slot? && records[i].sha256 in warehouse {
        revived := revived + 1;
      }
    }
  }

  /**
   * Split a plan, with no alias: what it ships, reuses, revives and tombstones. The counts add
   * up: to the distinct keys of the plan, and to the keys of the release before. What is to be
   * shipped is reported in 32 bits, and so adds up exactly below 2^32 new keys.
   */
  method SplitPlan(split: Split, warehouse: set<Digest>) returns (result: Result<(Counts, seq<Key>), LedgerError>)
    requires split.Valid() && split.aliased == {}
    ensures result.Success? <==> |split.NewKeys(|split.plan.records|)| <= SLOT_LIMIT
    ensures result.Success? ==>
      var n, counts, tombstones := |split.plan.records|, result.value.0, result.value.1;
      && Ascending(tombstones)
      && (forall key :: key in tombstones <==> key in OldKeys(split) && key !in split.Keys(n))
      && counts.records == n && counts.books == |split.books|
      && counts.unique == counts.reused + |split.NewKeys(n)| == |split.Keys(n)|
      && counts.toShip == |split.NewKeys(n)| % SLOT_LIMIT
      && (counts.unique == counts.reused + counts.toShip <==> |split.NewKeys(n)| < SLOT_LIMIT)
      && counts.tombstones == |tombstones| && counts.tombstones + counts.reused == |OldKeys(split)|
      && counts.foreignPairs == |split.ForeignPairs(n)|
      && counts.revived == |ShippedOf(split, warehouse, n)|
  {
    var classified, dispositions := Classify(split);
    if classified.Failure? {
      return Failure(classified.error);
    }
    var c := classified.value;
    var revived := CountRevived(split.plan.records, dispositions, warehouse);
    var tombstones := WriteTombstones(OldKeys(split), c.kept, split.Keys(|split.plan.records|));
    TombstonesAndReused(split, tombstones.value);
    Conservation(split, c);
    RevivedAre(split, warehouse, |split.plan.records|, |split.plan.records|);
    return Success((
      Counts(|split.plan.records|, |split.books|, c.unique, c.reused, c.slots, revived, |tombstones.value|, c.foreign),
      tombstones.value));
  }
}
