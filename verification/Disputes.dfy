/**
 * When a delta shows what a rebuild does, in terms of the aliases its warehouse decides
 * otherwise than they were: what a publisher can compare before publishing.
 */
module Disputes {
  import opened Wrappers
  import opened Plan
  import opened Alias
  import opened Assemble
  import opened Segments
  import opened Chain
  import opened Rebuilds

  /** What record `i` is an alias of, if it is one. */
  function TargetKey(release: Release, i: nat): Option<Key> {
    if i in release.targets then Some(release.targets[i].key) else None
  }

  /** A release and the same one decided again: its plan, its books, and maybe other aliases. */
  ghost predicate Twins(one: Release, other: Release) {
    && one.Valid() && other.Valid() && one.plan == other.plan && one.books == other.books
    && AliasesAreFirst(one) && AliasesAreFirst(other)
  }

  ghost predicate AliasesAreFirst(release: Release) {
    forall i :: i in release.targets ==> i < |release.plan.records| && release.plan.records[i].window == 0
  }

  lemma DecidedAreFirst(release: Release, cosine: Cosine, threshold: Option<real>)
    requires release.Valid() && release == ReleaseOf(release.plan, release.books, cosine, threshold)
    ensures AliasesAreFirst(release)
  {
    forall i | i in release.targets ensures i < |release.plan.records| && release.plan.records[i].window == 0 {
      assert release.plan.records[i].short && WellFormed(release.plan.records[i], release.plan.windowed);
    }
  }

  /** A record is located alike exactly where its target is the same. */
  lemma LocatedAlike(one: Release, other: Release, i: nat)
    requires Twins(one, other) && i < |one.plan.records|
    ensures LocationAt(one, i) == LocationAt(other, i) <==> TargetKey(one, i) == TargetKey(other, i)
  {
    assert WellFormed(one.plan.records[i], one.plan.windowed);
  }

  /** A location is of one record, however it was decided. */
  lemma OneRecord(one: Release, other: Release, i: nat, j: nat)
    requires Twins(one, other) && i < |one.plan.records| && j < |one.plan.records|
    requires LocationAt(one, i) == LocationAt(other, j)
    ensures i == j
  {
    var records := one.plan.records;
    assert WellFormed(records[i], one.plan.windowed) && WellFormed(records[j], one.plan.windowed);
    assert records[i].book == records[j].book && records[i].ordinal == records[j].ordinal;
    assert records[i].window == records[j].window;
    assert !records[i].Before(records[j]) && !records[j].Before(records[i]);
  }

  /** Whether the location of record `i` is stored, and of this key. */
  ghost predicate StoredAs(release: Release, i: nat, key: Key)
    requires release.Valid() && i < |release.plan.records|
  {
    LocationAt(release, i).key == key && Stores(release, LocationAt(release, i))
  }

  /** No record with another target is stored under the key, in the one or in the other. */
  ghost predicate Undisputed(one: Release, other: Release, key: Key)
    requires Twins(one, other)
  {
    forall i {:trigger TargetKey(one, i)} :: 0 <= i < |one.plan.records| && TargetKey(one, i) != TargetKey(other, i) ==>
      !StoredAs(one, i, key) && !StoredAs(other, i, key)
  }

  lemma {:induction false} StoredStays(one: Release, other: Release, l: Location)
    requires Twins(one, other) && Undisputed(one, other, l.key) && Stores(one, l)
    ensures Stores(other, l)
  {
    var i :| 0 <= i < |one.plan.records| && LocationAt(one, i) == l;
    assert StoredAs(one, i, l.key);
    LocatedAlike(one, other, i);
    var m := StoredOf(other, l);
    var j :| 0 <= j < |one.plan.records| && LocationAt(other, j) == m;
    assert StoredAs(other, j, l.key);
    LocatedAlike(one, other, j);
    assert HasLocation(one, m);
  }

  lemma UndisputedBothWays(one: Release, other: Release, key: Key)
    requires Twins(one, other)
    ensures Undisputed(one, other, key) <==> Undisputed(other, one, key)
  {
  }

  /** Where nothing stored under a key is disputed, both store the same under it, and the other way round. */
  lemma {:induction false} UndisputedExactly(one: Release, other: Release, key: Key)
    requires Twins(one, other)
    ensures Undisputed(one, other, key) <==>
      forall l: Location {:trigger Stores(one, l)} :: l.key == key ==> (Stores(one, l) <==> Stores(other, l))
  {
    if Undisputed(one, other, key) {
      UndisputedBothWays(one, other, key);
      forall l: Location {:trigger Stores(one, l)} | l.key == key ensures Stores(one, l) <==> Stores(other, l) {
        if Stores(one, l) { StoredStays(one, other, l); }
        if Stores(other, l) { StoredStays(other, one, l); }
      }
    } else {
      var i :| 0 <= i < |one.plan.records| && TargetKey(one, i) != TargetKey(other, i) &&
        (StoredAs(one, i, key) || StoredAs(other, i, key));
      Disagrees(one, other, key, i);
    }
  }

  lemma {:induction false} Disagrees(one: Release, other: Release, key: Key, i: nat)
    requires Twins(one, other) && i < |one.plan.records| && TargetKey(one, i) != TargetKey(other, i)
    requires StoredAs(one, i, key) || StoredAs(other, i, key)
    ensures exists l: Location :: l.key == key && (Stores(one, l) <==> !Stores(other, l))
  {
    LocatedAlike(one, other, i);
    var l := if StoredAs(one, i, key) then LocationAt(one, i) else LocationAt(other, i);
    if Stores(one, l) && Stores(other, l) {
      var a :| 0 <= a < |one.plan.records| && LocationAt(one, a) == l;
      var b :| 0 <= b < |one.plan.records| && LocationAt(other, b) == l;
      if StoredAs(one, i, key) {
        OneRecord(one, other, i, b);
      } else {
        OneRecord(one, other, a, i);
      }
      assert false;
    }
  }

  /** The release before a delta and the same decided again, where the delta compares with it. */
  lemma {:induction false} AgainIsTwin(chain: Chain)
    requires chain.Valid() && chain.Delta? && chain.build.delta.value.occurrences.Some?
    ensures chain.Again().Valid() && Twins(chain.before.Last(), chain.Again())
    ensures chain.before.Last().plan.windowed
  {
    var was, again := chain.before.Last(), chain.Again();
    LedgerOfRelease(chain.build.delta.value, was);
    DecidedAreFirst(was, chain.before.warehouse.Score(), chain.before.Threshold());
    DecidedAreFirst(again, chain.warehouse.Score(), chain.build.delta.value.aliasThreshold);
  }

  /** A key the delta keeps, and leaves out of its snapshot. */
  ghost predicate Alone(chain: Chain, key: Key)
    requires chain.Valid()
  {
    key in ReleaseKeys(chain.Last()) && !chain.build.Snapshots(key)
  }

  /**
   * What a publisher can compare: no record whose alias the delta decides otherwise is stored,
   * as it was or as it is, under a key the delta keeps and leaves out of its snapshot.
   */
  ghost predicate NothingDisputed(chain: Chain)
    requires chain.Valid() && chain.Delta?
  {
    chain.build.delta.value.occurrences.Some? ==>
      && Twins(chain.before.Last(), chain.Again())
      && forall key {:trigger Alone(chain, key)} :: Alone(chain, key) ==>
          Undisputed(chain.before.Last(), chain.Again(), key)
  }

  /** A device that has forgotten the locations of the keys it has forgotten, as after a base. */
  ghost predicate Tidy(device: Device) {
    forall l <- device.locations :: l.key in device.keys
  }

  lemma {:induction false} BaseIsTidy(chain: Chain)
    requires chain.Valid() && chain.Base?
    ensures Tidy(chain.OnDevice())
  {
    ChainHoldsKeys(chain);
    forall l | l in chain.OnDevice().locations ensures l.key in chain.OnDevice().keys {
      LocationsAfter(NOTHING, chain.segment, l);
      SegmentLocations(chain.build, chain.segment, l);
      LocationIsPair(chain.Last(), chain.warehouse.Score(), chain.threshold, l);
    }
  }

  /** A key left alone is one the release before stored the same under, and so held. */
  lemma {:induction false} AloneIsOld(chain: Chain, key: Key)
    requires chain.Valid() && chain.Delta? && chain.Last().plan.windowed && Alone(chain, key)
    requires NothingDisputed(chain)
    ensures key in ReleaseKeys(chain.before.Last())
  {
    var was := chain.before.Last();
    var own := KeyHasLocation(chain.Last(), key);
    UnchangedAgain(chain, own);
    UndisputedExactly(was, chain.Again(), key);
    assert Stores(was, own);
    LocationIsPair(was, chain.before.warehouse.Score(), chain.before.Threshold(), own);
  }

  /**
   * A delta on a device that holds the release before shows what a rebuild does wherever nothing
   * is disputed; and only there, but for what may be left over of a key that was forgotten.
   */
  lemma {:induction false} UndisputedIsRebuild(chain: Chain, device: Device)
    requires chain.Valid() && chain.Delta? && chain.Last().plan.windowed
    requires HoldsBefore(device, chain) && HoldsLocations(device, chain.before.Last())
    ensures NothingDisputed(chain) ==> HoldsLocations(Apply(device, chain.segment), chain.Last())
    ensures Tidy(device) && HoldsLocations(Apply(device, chain.segment), chain.Last()) ==> NothingDisputed(chain)
  {
    DeltaIsRebuild(chain, device);
    if NothingDisputed(chain) {
      forall l: Location {:trigger Untouched(chain, l)} | Untouched(chain, l)
        ensures l in device.locations <==> StoredAgain(chain, l)
      {
        UnchangedAgain(chain, l);
        AgainIsTwin(chain);
        assert Alone(chain, l.key);
        AloneIsOld(chain, l.key);
        UndisputedExactly(chain.before.Last(), chain.Again(), l.key);
      }
    }
    if Tidy(device) && HoldsLocations(Apply(device, chain.segment), chain.Last()) &&
        chain.build.delta.value.occurrences.Some? {
      AgainIsTwin(chain);
      forall key {:trigger Alone(chain, key)} | Alone(chain, key)
        ensures Undisputed(chain.before.Last(), chain.Again(), key)
      {
        RebuildIsUndisputed(chain, device, key);
      }
    }
  }

  lemma {:induction false} RebuildIsUndisputed(chain: Chain, device: Device, key: Key)
    requires chain.Valid() && chain.Delta? && chain.Last().plan.windowed
    requires HoldsBefore(device, chain) && HoldsLocations(device, chain.before.Last())
    requires chain.build.delta.value.occurrences.Some? && Tidy(device) && Alone(chain, key)
    requires Twins(chain.before.Last(), chain.Again()) && chain.before.Last().plan.windowed
    requires forall l: Location {:trigger Untouched(chain, l)} :: Untouched(chain, l) ==>
      (l in device.locations <==> StoredAgain(chain, l))
    ensures Undisputed(chain.before.Last(), chain.Again(), key)
  {
    var was, again := chain.before.Last(), chain.Again();
    forall l: Location {:trigger Stores(was, l)} | l.key == key ensures Stores(was, l) <==> Stores(again, l) {
      assert Untouched(chain, l);
      if Stores(was, l) {
        LocationIsPair(was, chain.before.warehouse.Score(), chain.before.Threshold(), l);
      }
    }
    UndisputedExactly(was, again, key);
  }

  /** Over a base, a delta is a rebuild exactly where nothing is disputed. */
  lemma {:induction false} DeltaOverBase(chain: Chain)
    requires chain.Valid() && chain.Delta? && chain.before.Base? && chain.Last().plan.windowed
    ensures Holds(chain.OnDevice(), chain.Last()) <==> NothingDisputed(chain)
  {
    ChainHolds(chain.before);
    BaseIsTidy(chain.before);
    ChainHoldsKeys(chain);
    UndisputedIsRebuild(chain, chain.before.OnDevice());
  }
}
