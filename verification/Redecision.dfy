/**
 * A release's aliases decided again on another warehouse. A ledger keeps no aliases, so a
 * delta decides those of the release before it on the warehouse of the day.
 */
module Redecision {
  import opened Wrappers
  import opened Plan
  import opened Alias
  import opened AliasLaws
  import opened LedgerSplit
  import opened LedgerLaws
  import opened Assemble

  /** What two warehouses of one package have in common: what both hold, they hold alike. */
  ghost predicate Agree(one: Warehouse, other: Warehouse) {
    && one.similarity == other.similarity
    && forall d :: d in one.vectors && d in other.vectors ==> one.vectors[d] == other.vectors[d]
  }

  ghost predicate HoldsAll(warehouse: Warehouse, plan: PlanRecords) {
    forall i {:trigger plan.records[i]} :: 0 <= i < |plan.records| ==> plan.records[i].sha256 in warehouse.vectors
  }

  /** No two texts of the plan share a key. */
  ghost predicate OneText(plan: PlanRecords, text: Key -> Digest) {
    forall i {:trigger plan.records[i]} :: 0 <= i < |plan.records| ==>
      plan.records[i].sha256 == text(plan.records[i].Key())
  }

  ghost function Ask(plan: PlanRecords, warehouse: Warehouse, threshold: real): Question {
    Question(plan, warehouse.Score(), threshold)
  }

  /** The two questions find the same line: a line has one first window. */
  lemma SameLine(plan: PlanRecords, before: Warehouse, after: Warehouse, threshold: real, book: nat, ordinal: int)
    requires plan.Valid()
    ensures Ask(plan, before, threshold).Line(book, ordinal) == Ask(plan, after, threshold).Line(book, ordinal)
  {
    var p, q := Ask(plan, before, threshold), Ask(plan, after, threshold);
    if p.Line(book, ordinal).Some? {
      var j := p.Line(book, ordinal).value;
      assert q.FirstWindow(j, book, ordinal);
      LineUnique(q, j, book, ordinal);
    } else if q.Line(book, ordinal).Some? {
      assert p.FirstWindow(q.Line(book, ordinal).value, book, ordinal);
    }
  }

  /** A score of a warehouse is that of one that agrees with it and holds everything. */
  lemma CandidateKept(plan: PlanRecords, before: Warehouse, after: Warehouse, threshold: real, i: nat, offset: int)
    requires plan.Valid() && i < |plan.records| && HoldsAll(before, plan) && Agree(before, after)
    requires Ask(plan, after, threshold).Candidate(i, offset).Some?
    ensures Ask(plan, before, threshold).Candidate(i, offset) == Ask(plan, after, threshold).Candidate(i, offset)
  {
    SameLine(plan, before, after, threshold, plan.records[i].book, plan.records[i].ordinal + offset);
  }

  /** And one that is held in both is a score of both. */
  lemma CandidateStays(plan: PlanRecords, before: Warehouse, after: Warehouse, threshold: real, i: nat, offset: int,
      text: Key -> Digest)
    requires plan.Valid() && i < |plan.records| && Agree(before, after) && OneText(plan, text)
    requires Ask(plan, before, threshold).Candidate(i, offset).Some?
    requires plan.records[i].sha256 in after.vectors
    requires text(Ask(plan, before, threshold).Candidate(i, offset).value.key) in after.vectors
    ensures Ask(plan, after, threshold).Candidate(i, offset) == Ask(plan, before, threshold).Candidate(i, offset)
  {
    SameLine(plan, before, after, threshold, plan.records[i].book, plan.records[i].ordinal + offset);
    var j := CandidateIsNeighbour(Ask(plan, before, threshold), i, offset);
    assert plan.records[j].sha256 == text(plan.records[j].Key());
  }

  /** Candidates lost, but not the first greatest: the choice is the same. */
  lemma {:induction false} BestStays(before: seq<Option<Target>>, after: seq<Option<Target>>)
    requires |after| == |before| && Best(before).Some?
    requires forall k :: 0 <= k < |after| && after[k].Some? ==> after[k] == before[k]
    requires forall k :: 0 <= k < |after| && before[k] == Best(before) ==> after[k] == before[k]
    ensures Best(after) == Best(before)
  {
    BestIsFirstGreatest(before);
    BestIsFirstGreatest(after);
    var m: nat :| FirstGreatest(before, m) && before[m] == Best(before);
    assert after[m] == before[m];
    var k: nat :| FirstGreatest(after, k) && after[k] == Best(after);
  }

  /** Fewer candidates, so no more is found. */
  lemma {:induction false} FoundBefore(plan: PlanRecords, before: Warehouse, after: Warehouse, threshold: real, i: nat)
    requires plan.Valid() && i < |plan.records| && HoldsAll(before, plan) && Agree(before, after)
    requires Ask(plan, after, threshold).Found(i)
    ensures Ask(plan, before, threshold).Found(i)
  {
    var p, q := Ask(plan, before, threshold), Ask(plan, after, threshold);
    var k := ChosenNeighbour(q, i);
    CandidateKept(plan, before, after, threshold, i, NEIGHBOURS[k]);
    BestIsFirstGreatest(p.Candidates(i));
    assert p.Candidates(i)[k].Some?;
  }

  /** A record whose text and whose target's are held finds the target it found. */
  lemma {:induction false} ChoiceStays(plan: PlanRecords, before: Warehouse, after: Warehouse, threshold: real, i: nat,
      text: Key -> Digest)
    requires plan.Valid() && i < |plan.records| && HoldsAll(before, plan) && Agree(before, after)
    requires OneText(plan, text) && Ask(plan, before, threshold).Choice(i).Some?
    requires plan.records[i].sha256 in after.vectors
    requires text(Ask(plan, before, threshold).Choice(i).value.key) in after.vectors
    ensures Ask(plan, after, threshold).Choice(i) == Ask(plan, before, threshold).Choice(i)
  {
    var p, q := Ask(plan, before, threshold), Ask(plan, after, threshold);
    forall k | 0 <= k < |NEIGHBOURS|
      ensures q.Candidates(i)[k].Some? ==> q.Candidates(i)[k] == p.Candidates(i)[k]
      ensures p.Candidates(i)[k] == p.Choice(i) ==> q.Candidates(i)[k] == p.Candidates(i)[k]
    {
      if q.Candidate(i, NEIGHBOURS[k]).Some? {
        CandidateKept(plan, before, after, threshold, i, NEIGHBOURS[k]);
      }
      if p.Candidate(i, NEIGHBOURS[k]) == p.Choice(i) {
        CandidateStays(plan, before, after, threshold, i, NEIGHBOURS[k], text);
      }
    }
    BestStays(p.Candidates(i), q.Candidates(i));
  }

  /** The warehouse still holds what the release's aliases were decided on: theirs and their targets' texts. */
  ghost predicate HoldsAliased(warehouse: Warehouse, plan: PlanRecords, targets: map<nat, Target>,
                               text: Key -> Digest)
  {
    forall i {:trigger targets[i]} :: i in targets && i < |plan.records| ==>
      && plan.records[i].sha256 in warehouse.vectors && text(targets[i].key) in warehouse.vectors
  }

  lemma {:induction false} AliasedStays(plan: PlanRecords, before: Warehouse, after: Warehouse, threshold: real,
      text: Key -> Digest, i: nat)
    requires plan.Valid() && HoldsAll(before, plan) && Agree(before, after) && OneText(plan, text)
    requires threshold > 0.0 && i < |plan.records| && Ask(plan, before, threshold).Aliased(i)
    requires HoldsAliased(after, plan, TargetsOf(plan, before.Score(), Some(threshold)), text)
    ensures Ask(plan, after, threshold).Aliased(i)
    ensures Ask(plan, after, threshold).Choice(i) == Ask(plan, before, threshold).Choice(i)
  {
    var p, q, n := Ask(plan, before, threshold), Ask(plan, after, threshold), |plan.records|;
    var targets, key := TargetsOf(plan, before.Score(), Some(threshold)), plan.records[i].Key();
    forall j {:trigger plan.records[j]} | 0 <= j < n && plan.records[j].Key() == key
      ensures q.Found(j) && q.Choice(j) == p.Choice(j)
    {
      AliasedWhole(p, i, j);
      assert targets[j] == p.Choice(j).value;
      ChoiceStays(plan, before, after, threshold, j, text);
    }
    WholeMeans(q, n, key);
  }

  lemma {:induction false} AliasedBefore(plan: PlanRecords, before: Warehouse, after: Warehouse, threshold: real,
      i: nat)
    requires plan.Valid() && HoldsAll(before, plan) && Agree(before, after)
    requires i < |plan.records| && Ask(plan, after, threshold).Aliased(i)
    ensures Ask(plan, before, threshold).Aliased(i)
  {
    var p, q, n := Ask(plan, before, threshold), Ask(plan, after, threshold), |plan.records|;
    var key := plan.records[i].Key();
    WholeMeans(q, n, key);
    forall j {:trigger plan.records[j]} | 0 <= j < n && plan.records[j].Key() == key ensures p.Found(j) {
      FoundBefore(plan, before, after, threshold, j);
    }
    WholeMeans(p, n, key);
  }

  /** An alias decided on a warehouse is decided on its text and its target's. */
  lemma {:induction false} AliasIsHeld(plan: PlanRecords, warehouse: Warehouse, threshold: Option<real>,
      text: Key -> Digest)
    requires plan.Valid() && OneText(plan, text)
    ensures HoldsAliased(warehouse, plan, TargetsOf(plan, warehouse.Score(), threshold), text)
  {
    var targets := TargetsOf(plan, warehouse.Score(), threshold);
    forall i {:trigger targets[i]} | i in targets && i < |plan.records|
      ensures plan.records[i].sha256 in warehouse.vectors && text(targets[i].key) in warehouse.vectors
    {
      var j, k := ChoiceIsNeighbour(Ask(plan, warehouse, threshold.value), i);
      assert plan.records[j].sha256 == text(plan.records[j].Key());
    }
  }

  /** A warehouse with all the plan's texts has those its aliases were decided on, wherever they were. */
  lemma {:induction false} AllHoldsAliased(plan: PlanRecords, before: Warehouse, after: Warehouse,
      threshold: Option<real>, text: Key -> Digest)
    requires plan.Valid() && OneText(plan, text) && HoldsAll(after, plan)
    ensures HoldsAliased(after, plan, TargetsOf(plan, before.Score(), threshold), text)
  {
    var targets := TargetsOf(plan, before.Score(), threshold);
    forall i {:trigger targets[i]} | i in targets && i < |plan.records|
      ensures plan.records[i].sha256 in after.vectors && text(targets[i].key) in after.vectors
    {
      var j, k := ChoiceIsNeighbour(Ask(plan, before, threshold.value), i);
      assert plan.records[j].sha256 == text(plan.records[j].Key());
    }
  }

  /**
   * When a release's aliases, decided with all its texts held, are the same on another
   * warehouse: exactly where that one holds every alias's text and its target's.
   */
  lemma {:induction false} DecidedAlike(plan: PlanRecords, before: Warehouse, after: Warehouse, threshold: Option<real>,
      text: Key -> Digest)
    requires plan.Valid() && HoldsAll(before, plan) && Agree(before, after) && OneText(plan, text)
    ensures var targets := TargetsOf(plan, before.Score(), threshold);
      TargetsOf(plan, after.Score(), threshold) == targets <==> HoldsAliased(after, plan, targets, text)
  {
    var targets, again := TargetsOf(plan, before.Score(), threshold), TargetsOf(plan, after.Score(), threshold);
    AliasIsHeld(plan, after, threshold, text);
    if HoldsAliased(after, plan, targets, text) && threshold.Some? && threshold.value > 0.0 {
      forall i: nat ensures i in targets <==> i in again
        ensures i in targets ==> again[i] == targets[i]
      {
        if i in targets {
          AliasedStays(plan, before, after, threshold.value, text, i);
        } else if i in again {
          AliasedBefore(plan, before, after, threshold.value, i);
        }
      }
    }
  }

  lemma {:induction false} NoneMissing(split: Split, warehouse: Warehouse, n: nat, i: nat)
    requires split.Valid() && i < n <= |split.plan.records|
    requires MissingIn(split.plan.records, Dispositions(split, n), warehouse.vectors.Keys, n) == 0
    requires split.DispositionOf(i).Slot?
    ensures split.plan.records[i].sha256 in warehouse.vectors
  {
    var before := Dispositions(split, n - 1);
    assert Dispositions(split, n) == before + [split.DispositionOf(n - 1)];
    if i < n - 1 {
      MissingPrefix(split, before, [split.DispositionOf(n - 1)], warehouse, n - 1);
      NoneMissing(split, warehouse, n - 1, i);
    }
  }

  lemma {:induction false} MissingPrefix(split: Split, ds: seq<Disposition>, more: seq<Disposition>,
      warehouse: Warehouse, n: nat)
    requires n <= |split.plan.records| && n <= |ds|
    ensures MissingIn(split.plan.records, ds + more, warehouse.vectors.Keys, n) ==
      MissingIn(split.plan.records, ds, warehouse.vectors.Keys, n)
  {
    if n > 0 { MissingPrefix(split, ds, more, warehouse, n - 1); }
  }

  /** A warehouse with all the plan's texts misses none of them. */
  lemma {:induction false} AllHeldNoneMissing(records: seq<PlanRecord>, ds: seq<Disposition>, warehouse: Warehouse,
      n: nat)
    requires n <= |records| && n <= |ds|
    requires forall i {:trigger records[i]} :: 0 <= i < n ==> records[i].sha256 in warehouse.vectors
    ensures MissingIn(records, ds, warehouse.vectors.Keys, n) == 0
  {
    if n > 0 { AllHeldNoneMissing(records, ds, warehouse, n - 1); }
  }

  /** The keys of the release before whose text is held. */
  ghost predicate HoldsOld(warehouse: Warehouse, split: Split, text: Key -> Digest) {
    forall key {:trigger split.Old(key)} :: split.Old(key) ==> text(key) in warehouse.vectors
  }

  /**
   * Where no vector was missing, the warehouse holds every text of the plan: the new keys'
   * were shipped, and the aliases' were compared; the old keys' it may lack.
   */
  lemma {:induction false} AssembledHoldsAll(release: Release, previous: Option<Ledger>, warehouse: Warehouse,
      threshold: Option<real>, text: Key -> Digest)
    requires release.Against(previous).Valid() && OneText(release.plan, text)
    requires release.targets == TargetsOf(release.plan, warehouse.Score(), threshold)
    requires Missing(release.Against(previous), warehouse.vectors.Keys) == 0
    requires HoldsOld(warehouse, release.Against(previous), text)
    ensures HoldsAll(warehouse, release.plan)
  {
    var split, n := release.Against(previous), |release.plan.records|;
    AliasIsHeld(release.plan, warehouse, threshold, text);
    forall i {:trigger release.plan.records[i]} | 0 <= i < n
      ensures release.plan.records[i].sha256 in warehouse.vectors
    {
      var key := release.plan.records[i].Key();
      if i in release.targets {
        assert release.targets[i] == release.targets[i];
      } else if !split.Old(key) {
        KeysMeans(split, n, key);
        NewKeysAre(split, n);
        var s := SlotOrigin(split, n, key);
        NoneMissing(split, warehouse, n, s);
        assert release.plan.records[s].sha256 == text(key);
      }
    }
  }
}
