/** What every split conserves, and what its slot numbers mean. */
module LedgerLaws {
  import opened Wrappers
  import opened Sorting
  import opened Plan
  import opened LedgerSplit

  datatype Tally = Tally(slots: nat, extras: nat, foreign: nat, held: nat, repeats: nat, aliases: nat) {
    function Total(): nat {
      slots + extras + foreign + held + repeats + aliases
    }

    function Add(d: Disposition): Tally {
      match d
      case Slot(_) => this.(slots := slots + 1)
      case Extra(_) => this.(extras := extras + 1)
      case Foreign => this.(foreign := foreign + 1)
      case Held => this.(held := held + 1)
      case Repeat => this.(repeats := repeats + 1)
      case Alias => this.(aliases := aliases + 1)
    }
  }

  ghost function TallyOf(split: Split, n: nat): Tally
    requires split.Valid() && n <= |split.plan.records|
  {
    if n == 0 then Tally(0, 0, 0, 0, 0, 0) else TallyOf(split, n - 1).Add(split.DispositionOf(n - 1))
  }

  lemma TallyAdd(t: Tally, d: Disposition)
    ensures t.Add(d).Total() == t.Total() + 1
    ensures t.Add(d).slots == t.slots + if d.Slot? then 1 else 0
    ensures t.Add(d).foreign == t.foreign + if d.Foreign? then 1 else 0
  {
  }

  /** A new key seen for the first time in the plan was not seen in its book either. */
  lemma NotRepeated(split: Split, i: nat)
    requires split.Valid() && i < |split.plan.records|
    ensures split.plan.records[i].Key() !in split.Keys(i) ==>
      split.plan.records[i].Key() !in split.BookKeys(i, split.plan.records[i].book)
  {
    BookKeysMeans(split, i, split.plan.records[i].book, split.plan.records[i].Key());
  }

  /** A slot is given exactly where a new key appears, and is the number of those before. */
  lemma SlotStep(split: Split, i: nat)
    requires split.Valid() && i < |split.plan.records|
    ensures split.NewKeys(i + 1) ==
      split.NewKeys(i) + if split.DispositionOf(i).Slot? then [split.plan.records[i].Key()] else []
    ensures split.DispositionOf(i).Slot? ==> split.DispositionOf(i).slot == |split.NewKeys(i)|
  {
    NewKeysAre(split, i);
    NotRepeated(split, i);
  }

  lemma {:induction false} TallyTotal(split: Split, n: nat)
    requires split.Valid() && n <= |split.plan.records|
    ensures TallyOf(split, n).Total() == n
  {
    if n > 0 {
      TallyTotal(split, n - 1);
      TallyAdd(TallyOf(split, n - 1), split.DispositionOf(n - 1));
    }
  }

  lemma {:induction false} TallySlots(split: Split, n: nat)
    requires split.Valid() && n <= |split.plan.records|
    ensures TallyOf(split, n).slots == |split.NewKeys(n)|
  {
    if n > 0 {
      TallySlots(split, n - 1);
      SlotStep(split, n - 1);
      TallyAdd(TallyOf(split, n - 1), split.DispositionOf(n - 1));
    }
  }

  lemma {:induction false} TallyForeign(split: Split, n: nat)
    requires split.Valid() && n <= |split.plan.records|
    ensures TallyOf(split, n).foreign == ForeignCount(split, n)
  {
    if n > 0 {
      TallyForeign(split, n - 1);
      TallyAdd(TallyOf(split, n - 1), split.DispositionOf(n - 1));
    }
  }

  /**
   * Every record is counted once; the slots given are the keys shipped. The slots reported are
   * their number in 32 bits, so the parts reported add up exactly below 2^32 new keys.
   */
  lemma {:induction false} Conservation(split: Split, c: Classified)
    requires split.Valid() && IsClassified(split, c)
    ensures var n := |split.plan.records|;
      && TallyOf(split, n).Total() == n
      && TallyOf(split, n).slots == |c.newKeys| == |split.NewKeys(n)|
      && TallyOf(split, n).foreign == c.foreign == |split.ForeignPairs(n)|
      && c.unique == c.reused + |c.newKeys| == |split.Keys(n)|
      && (c.unique == c.reused + c.slots <==> |c.newKeys| < SLOT_LIMIT)
      && (c.slots == TallyOf(split, n).slots <==> |c.newKeys| < SLOT_LIMIT)
  {
    var n := |split.plan.records|;
    TallyTotal(split, n);
    TallySlots(split, n);
    TallyForeign(split, n);
    ForeignPairsCounted(split, n);
    UniqueIsReusedAndNew(split, n);
    NewKeysAre(split, n);
    DistinctCardinality(split.NewKeys(n));
    AscendingCardinality(c.newKeys);
    assert Elements(c.newKeys) == Elements(split.NewKeys(n));
    FitsExactly(|split.NewKeys(n)|);
  }

  lemma FitsExactly(count: nat)
    ensures count % SLOT_LIMIT == count <==> count < SLOT_LIMIT
  {
  }

  /** A book of `n` lines, each of its own key. */
  function LinesOf(n: nat): PlanRecords {
    PlanRecords(false, seq(n, i requires 0 <= i < n => PlanRecord(0, i, 0, false, Digest(i, 0))))
  }

  lemma {:induction false} LinesAreNew(split: Split, n: nat)
    requires split.previous.None? && split.aliased == {} && n <= |split.plan.records|
    requires split.plan == LinesOf(|split.plan.records|)
    ensures split.NewKeys(n) == seq(n, i requires 0 <= i < n => i)
  {
    if n > 0 { LinesAreNew(split, n - 1); }
  }

  /** A plan of 2^32 new keys is split, and its slots are reported as none. */
  lemma {:induction false} SlotsReportedWrap(split: Split, c: Classified)
    requires split == Split(LinesOf(SLOT_LIMIT), [0], None, {}) && IsClassified(split, c)
    ensures split.Valid() && |split.NewKeys(SLOT_LIMIT)| <= SLOT_LIMIT
    ensures c.unique == SLOT_LIMIT && c.reused == 0 && c.slots == 0
  {
    LinesAreNew(split, SLOT_LIMIT);
    NothingReused(split, SLOT_LIMIT);
  }

  lemma {:induction false} NothingReused(split: Split, n: nat)
    requires split.previous.None? && n <= |split.plan.records|
    ensures ReusedCount(split, n) == 0
  {
    if n > 0 { NothingReused(split, n - 1); }
  }

  lemma {:induction false} DistinctCardinality(s: seq<nat>)
    requires Distinct(s)
    ensures |Elements(s)| == |s|
  {
    if s != [] {
      var front, x := s[..|s| - 1], s[|s| - 1];
      assert s == front + [x];
      DistinctCardinality(front);
      assert x !in front;
      assert Elements(s) == Elements(front) + {x};
    }
  }

  /** The distinct keys of the plan are the reused ones and the new ones. */
  lemma {:induction false} UniqueIsReusedAndNew(split: Split, n: nat)
    requires n <= |split.plan.records|
    ensures |split.Keys(n)| == ReusedCount(split, n) + |split.NewKeys(n)|
  {
    if n > 0 {
      UniqueIsReusedAndNew(split, n - 1);
      NewKeysAre(split, n - 1);
    }
  }

  /** The record whose first appearance gave `key` its slot. */
  lemma {:induction false} SlotOrigin(split: Split, n: nat, key: Key) returns (i: nat)
    requires split.Valid() && n <= |split.plan.records| && key in split.NewKeys(n)
    ensures i < n && split.plan.records[i].Key() == key && i !in split.aliased
    ensures split.DispositionOf(i) == Slot(IndexOf(split.NewKeys(n), key))
  {
    NewKeysAre(split, n - 1);
    NewKeysAre(split, n);
    if key in split.NewKeys(n - 1) {
      i := SlotOrigin(split, n - 1, key);
      IndexStable(split.NewKeys(n - 1), split.NewKeys(n), key);
    } else {
      i := n - 1;
      NotRepeated(split, i);
    }
  }

  lemma IndexStable(before: seq<Key>, after: seq<Key>, key: Key)
    requires key in before && |before| <= |after| && before == after[..|before|] && Distinct(after)
    ensures key in after && IndexOf(before, key) == IndexOf(after, key)
  {
    var i, j := IndexOf(before, key), IndexOf(after, key);
    assert after[i] == key == after[j];
  }

  /** An extra names the slot of its own key, given in a strictly earlier book. */
  lemma {:induction false} ExtraNamesEarlierBook(split: Split, i: nat) returns (j: nat)
    requires split.Valid() && i < |split.plan.records| && split.DispositionOf(i).Extra?
    ensures j < i && split.DispositionOf(j) == Slot(split.DispositionOf(i).slot)
    ensures split.plan.records[j].Key() == split.plan.records[i].Key()
    ensures split.plan.records[j].book < split.plan.records[i].book
  {
    var records, key := split.plan.records, split.plan.records[i].Key();
    j := SlotOrigin(split, i, key);
    BookKeysMeans(split, i, records[i].book, key);
    assert records[j].Before(records[i]);
  }

  /** Slots are dense, in order of first appearance: the next slot is the number before it. */
  lemma {:induction false} SlotsDense(split: Split, n: nat, slot: nat) returns (i: nat)
    requires split.Valid() && n <= |split.plan.records| && slot < |split.NewKeys(n)|
    ensures i < n && split.DispositionOf(i) == Slot(slot)
    ensures split.plan.records[i].Key() == split.NewKeys(n)[slot]
    ensures forall j :: 0 <= j < n && j != i ==> split.DispositionOf(j) != Slot(slot)
    ensures forall j :: 0 <= j < n && split.DispositionOf(j).Slot? ==>
      (split.DispositionOf(j).slot < slot <==> j < i)
  {
    NewKeysAre(split, n);
    i := SlotOrigin(split, n, split.NewKeys(n)[slot]);
    assert IndexOf(split.NewKeys(n), split.NewKeys(n)[slot]) == slot;
    forall j | 0 <= j < n && j != i && split.DispositionOf(j).Slot?
      ensures split.DispositionOf(j).slot < slot <==> j < i
      ensures split.DispositionOf(j).slot != slot
    {
      SlotsAscend(split, if i < j then i else j, if i < j then j else i);
    }
  }

  lemma SlotsAscend(split: Split, i: nat, j: nat)
    requires split.Valid() && i < j < |split.plan.records|
    requires split.DispositionOf(i).Slot? && split.DispositionOf(j).Slot?
    ensures split.DispositionOf(i).slot < split.DispositionOf(j).slot
  {
    SlotStep(split, i);
    SlotStep(split, j);
    NewKeysPrefix(split, i + 1, j);
  }
}
