/** Aliases never chain, and what one names is always in the release. */
module AliasLaws {
  import opened Wrappers
  import opened Alias
  import opened LedgerSplit

  /** A candidate is the line that far away, not short, scoring enough. */
  lemma CandidateIsNeighbour(q: Question, i: nat, offset: int) returns (j: nat)
    requires q.Valid() && i < |q.plan.records| && q.Candidate(i, offset).Some?
    ensures q.FirstWindow(j, q.plan.records[i].book, q.plan.records[i].ordinal + offset)
    ensures !q.plan.records[j].short && q.plan.records[j].Key() == q.Candidate(i, offset).value.key
    ensures q.cosine(q.plan.records[i].sha256, q.plan.records[j].sha256) == Some(q.Candidate(i, offset).value.score)
    ensures q.Candidate(i, offset).value.score >= q.threshold
  {
    var r := q.plan.records[i];
    j := q.Line(r.book, r.ordinal + offset).value;
  }

  /** A choice is some neighbour's: the line that far away, not short, scoring enough. */
  lemma ChoiceIsNeighbour(q: Question, i: nat) returns (j: nat, k: nat)
    requires q.Valid() && i < |q.plan.records| && q.Choice(i).Some?
    ensures k < |NEIGHBOURS|
    ensures q.FirstWindow(j, q.plan.records[i].book, q.plan.records[i].ordinal + NEIGHBOURS[k])
    ensures 1 <= q.Distance(i, j) <= 2
    ensures !q.plan.records[j].short && q.plan.records[j].Key() == q.Choice(i).value.key
    ensures q.cosine(q.plan.records[i].sha256, q.plan.records[j].sha256) == Some(q.Choice(i).value.score)
    ensures q.Choice(i).value.score >= q.threshold
  {
    k := ChosenNeighbour(q, i);
    j := CandidateIsNeighbour(q, i, NEIGHBOURS[k]);
  }

  lemma ChosenNeighbour(q: Question, i: nat) returns (k: nat)
    requires q.Valid() && i < |q.plan.records| && q.Choice(i).Some?
    ensures k < |NEIGHBOURS| && q.Candidate(i, NEIGHBOURS[k]) == q.Choice(i)
  {
    var candidates := q.Candidates(i);
    BestIsFirstGreatest(candidates);
    k :| 0 <= k < |candidates| && FirstGreatest(candidates, k) && candidates[k] == Best(candidates);
    assert candidates[k] == q.Candidate(i, NEIGHBOURS[k]);
  }

  /** No record of a target's key is an alias: no chains. */
  lemma {:induction false} NoChains(q: Question, i: nat, other: nat)
    requires q.Valid() && i < |q.plan.records| && other < |q.plan.records|
    requires q.Aliased(i) && q.plan.records[other].Key() == q.Choice(i).value.key
    ensures !q.Aliased(other)
  {
    var j, k := ChoiceIsNeighbour(q, i);
    WholeMeans(q, |q.plan.records|, q.plan.records[other].Key());
    assert !q.Found(j);
  }

  /** A key is aliased by every record of it, or by none. */
  lemma {:induction false} AliasedWhole(q: Question, i: nat, other: nat)
    requires q.Valid() && i < |q.plan.records| && other < |q.plan.records|
    requires q.Aliased(i) && q.plan.records[other].Key() == q.plan.records[i].Key()
    ensures q.Aliased(other)
  {
    WholeMeans(q, |q.plan.records|, q.plan.records[i].Key());
  }

  /**
   * What an alias names is shipped as a slot or kept from the release before, by the same
   * split, in the alias's own book; and an aliased key is itself in neither.
   */
  lemma {:induction false} AliasResolves(q: Question, aliases: Aliases, split: Split, i: nat)
    requires q.Valid() && Decides(q, aliases) && i in aliases.targets
    requires split.plan == q.plan && split.aliased == aliases.targets.Keys
    ensures var n, target := |q.plan.records|, aliases.targets[i].key;
      && (target in split.NewKeys(n) || (split.Old(target) && target in split.Keys(n)))
      && target in split.BookKeys(n, q.plan.records[i].book)
      && target !in (set j | j in aliases.targets && j < n :: q.plan.records[j].Key())
      && q.plan.records[i].Key() !in split.Keys(n)
  {
    var n, target, key := |q.plan.records|, aliases.targets[i].key, q.plan.records[i].Key();
    var j, k := ChoiceIsNeighbour(q, i);
    forall other | other in aliases.targets && other < n ensures q.plan.records[other].Key() != target {
      if q.plan.records[other].Key() == target {
        NoChains(q, i, other);
      }
    }
    assert j !in aliases.targets;
    KeysMeans(split, n, target);
    BookKeysMeans(split, n, q.plan.records[i].book, target);
    NewKeysAre(split, n);
    KeysMeans(split, n, key);
    forall other | 0 <= other < n && q.plan.records[other].Key() == key ensures other in aliases.targets {
      AliasedWhole(q, i, other);
    }
  }
}
