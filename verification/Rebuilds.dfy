/**
 * When a delta shows what a rebuild does. A delta compares its locations with those of the
 * release before it, whose aliases it decides again on its own warehouse: where they come out
 * otherwise, the device keeps what they were.
 */
module Rebuilds {
  import opened Wrappers
  import opened Plan
  import opened LedgerSplit
  import opened Segments
  import opened Redecision
  import opened Chain

  /** No two texts of the chain's releases share a key. */
  ghost predicate ChainText(chain: Chain, text: Key -> Digest) {
    OneText(chain.Last().plan, text) && (chain.Delta? ==> ChainText(chain.before, text))
  }

  /** Each delta's warehouse still holds every text of the release before, as it was held. */
  ghost predicate KeepsTexts(chain: Chain) {
    chain.Delta? ==>
      && KeepsTexts(chain.before)
      && Agree(chain.before.warehouse, chain.warehouse) && HoldsAll(chain.warehouse, chain.before.Last().plan)
  }

  /** A text of the release before is one of its plan's. */
  lemma {:induction false} OldTextHeld(chain: Chain, text: Key -> Digest, key: Key)
    requires chain.Valid() && chain.Delta? && ChainText(chain.before, text)
    requires HoldsAll(chain.warehouse, chain.before.Last().plan)
    requires chain.build.Split().Old(key)
    ensures text(key) in chain.warehouse.vectors
  {
    var release := chain.before.Last();
    LedgerOfRelease(chain.build.delta.value, release);
    KeysMeans(release.Against(None), |release.plan.records|, key);
    var i :| 0 <= i < |release.plan.records| && i !in release.targets && release.plan.records[i].Key() == key;
    assert release.plan.records[i].sha256 == text(key);
  }

  /** Then every release was assembled with all its texts held. */
  lemma {:induction false} StepHoldsAll(chain: Chain, text: Key -> Digest)
    requires chain.Valid() && ChainText(chain, text)
    requires chain.Delta? ==> HoldsAll(chain.warehouse, chain.before.Last().plan)
    ensures HoldsAll(chain.warehouse, chain.Last().plan)
  {
    forall key {:trigger chain.build.Split().Old(key)} | chain.build.Split().Old(key)
      ensures text(key) in chain.warehouse.vectors
    {
      OldTextHeld(chain, text, key);
    }
    AssembledHoldsAll(chain.Last(), chain.build.delta, chain.warehouse, chain.Threshold(), text);
  }

  /** The release before decided again is the one before exactly where its aliases' texts are held. */
  lemma {:induction false} AgainIsBefore(chain: Chain, text: Key -> Digest)
    requires chain.Valid() && chain.Delta? && chain.before.Last().plan.windowed
    requires Agree(chain.before.warehouse, chain.warehouse)
    requires HoldsAll(chain.before.warehouse, chain.before.Last().plan) && OneText(chain.before.Last().plan, text)
    ensures chain.build.delta.value.occurrences.Some?
    ensures var was := chain.before.Last();
      chain.Again() == was <==> HoldsAliased(chain.warehouse, was.plan, was.targets, text)
  {
    var was := chain.before.Last();
    LedgerOfRelease(chain.build.delta.value, was);
    DecidedAlike(was.plan, chain.before.warehouse, chain.warehouse, chain.before.Threshold(), text);
  }

  /** So a delta over a settled chain shows what a rebuild does wherever its warehouse has those texts. */
  lemma {:induction false} HeldAliasesHold(chain: Chain, text: Key -> Digest)
    requires chain.Valid() && chain.Delta? && chain.before.Settled()
    requires Agree(chain.before.warehouse, chain.warehouse)
    requires HoldsAll(chain.before.warehouse, chain.before.Last().plan) && OneText(chain.before.Last().plan, text)
    requires HoldsAliased(chain.warehouse, chain.before.Last().plan, chain.before.Last().targets, text)
    ensures chain.Settled() && Holds(chain.OnDevice(), chain.Last())
  {
    LedgerOfRelease(chain.build.delta.value, chain.before.Last());
    if chain.before.Last().plan.windowed {
      AgainIsBefore(chain, text);
    }
    ChainHolds(chain);
  }

  /** Where no text is lost from one release to the next, the aliases are decided as they were. */
  lemma {:induction false} KeptSettles(chain: Chain, text: Key -> Digest)
    requires chain.Valid() && ChainText(chain, text) && KeepsTexts(chain)
    ensures chain.Settled() && HoldsAll(chain.warehouse, chain.Last().plan)
  {
    if chain.Delta? {
      KeptSettles(chain.before, text);
      var was := chain.before.Last();
      LedgerOfRelease(chain.build.delta.value, was);
      if was.plan.windowed {
        AgainIsBefore(chain, text);
        AllHoldsAliased(was.plan, chain.before.warehouse, chain.warehouse, chain.before.Threshold(), text);
      }
    }
    StepHoldsAll(chain, text);
  }

  /** Each delta's warehouse is the one before with vectors added. */
  ghost predicate Grows(chain: Chain) {
    chain.Delta? ==>
      && Grows(chain.before) && chain.before.warehouse.similarity == chain.warehouse.similarity
      && (forall d :: d in chain.before.warehouse.vectors ==>
        d in chain.warehouse.vectors && chain.warehouse.vectors[d] == chain.before.warehouse.vectors[d])
  }

  /** A warehouse that only grows loses no text. */
  lemma {:induction false} GrowingKeeps(chain: Chain, text: Key -> Digest)
    requires chain.Valid() && ChainText(chain, text) && Grows(chain)
    ensures KeepsTexts(chain) && HoldsAll(chain.warehouse, chain.Last().plan)
  {
    if chain.Delta? {
      GrowingKeeps(chain.before, text);
    }
    StepHoldsAll(chain, text);
  }

  /** Over a warehouse that only grows, a device on any chain holds its last release. */
  lemma {:induction false} GrowingHolds(chain: Chain, text: Key -> Digest)
    requires chain.Valid() && ChainText(chain, text) && Grows(chain)
    ensures Holds(chain.OnDevice(), chain.Last())
  {
    GrowingKeeps(chain, text);
    KeptSettles(chain, text);
    ChainHolds(chain);
  }

  /** The locations a delta leaves alone: of a key the release holds and the snapshot has not. */
  ghost predicate Untouched(chain: Chain, l: Location)
    requires chain.Valid()
  {
    l.key in ReleaseKeys(chain.Last()) && !chain.build.Snapshots(l.key)
  }

  /** A location the release before stores, as the delta decided it again. */
  ghost predicate StoredAgain(chain: Chain, l: Location)
    requires chain.Valid() && chain.Delta?
  {
    chain.build.delta.value.occurrences.Some? && chain.Again().Valid() && Stores(chain.Again(), l)
  }

  /**
   * When a delta shows what a rebuild does, whatever its warehouse: exactly where, of the keys
   * it leaves alone, the device's locations are those the release before stores, decided again.
   */
  lemma {:induction false} DeltaIsRebuild(chain: Chain, device: Device)
    requires chain.Valid() && chain.Delta? && chain.Last().plan.windowed && HoldsBefore(device, chain)
    ensures HoldsLocations(Apply(device, chain.segment), chain.Last()) <==>
      forall l: Location {:trigger Untouched(chain, l)} :: Untouched(chain, l) ==>
        (l in device.locations <==> StoredAgain(chain, l))
  {
    StepHoldsKeys(chain, device);
    var after, now := Apply(device, chain.segment), chain.Last();
    forall l: Location {:trigger Untouched(chain, l)} | l.key in after.keys
      ensures !Untouched(chain, l) ==> (l in after.locations <==> Stores(now, l))
      ensures Untouched(chain, l) ==> (l in after.locations <==> l in device.locations)
      ensures Untouched(chain, l) ==> (Stores(now, l) <==> StoredAgain(chain, l))
    {
      if chain.build.Snapshots(l.key) {
        SnapshotLocations(device, chain.build, chain.segment, l);
      } else {
        KeptLocations(device, chain.build, chain.segment, l);
        UnchangedAgain(chain, l);
      }
    }
    RebuildExactly(chain, after, device);
  }

  lemma RebuildExactly(chain: Chain, after: Device, device: Device)
    requires chain.Valid() && chain.Delta? && chain.Last().plan.windowed && after.keys == ReleaseKeys(chain.Last())
    requires forall l: Location {:trigger Untouched(chain, l)} :: l.key in after.keys ==>
      && (!Untouched(chain, l) ==> (l in after.locations <==> Stores(chain.Last(), l)))
      && (Untouched(chain, l) ==> (l in after.locations <==> l in device.locations))
      && (Untouched(chain, l) ==> (Stores(chain.Last(), l) <==> StoredAgain(chain, l)))
    ensures HoldsLocations(after, chain.Last()) <==>
      forall l: Location {:trigger Untouched(chain, l)} :: Untouched(chain, l) ==>
        (l in device.locations <==> StoredAgain(chain, l))
  {
    if forall l: Location {:trigger Untouched(chain, l)} :: Untouched(chain, l) ==>
        (l in device.locations <==> StoredAgain(chain, l))
    {
      forall l: Location | l.key in after.keys ensures l in after.locations <==> Stores(chain.Last(), l) {
        assert Untouched(chain, l) || !Untouched(chain, l);
      }
    } else {
      var l: Location :| Untouched(chain, l) && !(l in device.locations <==> StoredAgain(chain, l));
    }
  }
}
