/** The files a release leaves for the next one: its keys, its pairs, its tombstones. */
module LedgerFiles {
  import opened Wrappers
  import opened Sorting
  import opened Bits
  import opened Plan
  import opened LedgerSplit

  /** Streams the entries of a sorted file, refusing one that does not ascend. */
  class SortedFileWriter {
    var entries: seq<nat>
    var count: nat
    var last: nat

    ghost predicate Valid()
      reads this
    {
      && count == |entries| && Ascending(entries)
      && (count > 0 ==> last == entries[count - 1])
    }

    constructor ()
      ensures Valid() && entries == []
    {
      entries, count, last := [], 0, 0;
    }

    /** Refused exactly when the entry is not past the last one; then nothing is written. */
    method Push(order: nat) returns (pushed: bool)
      requires Valid()
      modifies this
      ensures Valid()
      ensures pushed <==> Past(old(entries), order)
      ensures entries == if pushed then old(entries) + [order] else old(entries)
    {
      if count > 0 && order <= last {
        return false;
      }
      last := order;
      entries, count := entries + [order], count + 1;
      return true;
    }
  }

  /** Whether `order` may follow `entries`. */
  ghost predicate Past(entries: seq<nat>, order: nat) {
    entries == [] || entries[|entries| - 1] < order
  }

  /** Whether every element of `s` from `from` may follow `entries`: its first one may. */
  ghost predicate AllPast(entries: seq<nat>, s: seq<nat>, from: nat) {
    from < |s| ==> Past(entries, s[from])
  }

  /** What the merge has written: the new keys taken, and the kept ones of the old keys taken. */
  ghost predicate Merged(entries: seq<nat>, newKeys: seq<nat>, taken: nat, oldKeys: seq<nat>, index: nat,
      held: set<nat>)
    requires taken <= |newKeys| && index <= |oldKeys|
  {
    forall key :: key in entries <==> key in newKeys[..taken] || (key in oldKeys[..index] && key in held)
  }

  lemma TakeOne(s: seq<nat>, n: nat)
    requires n < |s|
    ensures forall x :: x in s[..n + 1] <==> x in s[..n] || x == s[n]
  {
    assert s[..n + 1] == s[..n] + [s[n]];
  }

  /** Write the new keys below `bound`. */
  method PushNew(writer: SortedFileWriter, newKeys: seq<nat>, from: nat, bound: Option<nat>,
                   ghost oldKeys: seq<nat>, ghost index: nat, ghost held: set<nat>)
    returns (pushed: bool, taken: nat)
    requires writer.Valid() && Ascending(newKeys) && from <= |newKeys| && index <= |oldKeys|
    requires AllPast(writer.entries, newKeys, from)
    requires bound.Some? ==> Past(writer.entries, bound.value)
    requires Merged(writer.entries, newKeys, from, oldKeys, index, held)
    modifies writer
    ensures writer.Valid() && pushed && from <= taken <= |newKeys|
    ensures taken < |newKeys| ==> bound.Some? && bound.value <= newKeys[taken]
    ensures AllPast(writer.entries, newKeys, taken)
    ensures bound.Some? ==> Past(writer.entries, bound.value)
    ensures Merged(writer.entries, newKeys, taken, oldKeys, index, held)
  {
    taken, pushed := from, true;
    while taken < |newKeys| && (bound.None? || newKeys[taken] < bound.value)
      invariant writer.Valid() && from <= taken <= |newKeys|
      invariant AllPast(writer.entries, newKeys, taken)
      invariant bound.Some? ==> Past(writer.entries, bound.value)
      invariant Merged(writer.entries, newKeys, taken, oldKeys, index, held)
    {
      TakeOne(newKeys, taken);
      pushed := writer.Push(newKeys[taken]);
      if !pushed { return; }
      taken := taken + 1;
    }
  }

  /** The keys file: the kept old keys and the new ones, merged. The writer never refuses. */
  method WriteKeys(oldKeys: seq<nat>, kept: seq<Word>, newKeys: seq<nat>, ghost held: set<nat>)
    returns (result: Result<seq<nat>, LedgerError>)
    requires Ascending(oldKeys) && KeptAre(oldKeys, kept, held)
    requires Ascending(newKeys) && forall key <- newKeys :: key !in oldKeys
    ensures result.Success? && Ascending(result.value)
    ensures forall key :: key in result.value <==> key in newKeys || (key in oldKeys && key in held)
  {
    var writer := new SortedFileWriter();
    var taken := 0;
    for index := 0 to |oldKeys|
      invariant writer.Valid() && taken <= |newKeys|
      invariant AllPast(writer.entries, newKeys, taken) && AllPast(writer.entries, oldKeys, index)
      invariant Merged(writer.entries, newKeys, taken, oldKeys, index, held)
    {
      TakeOne(oldKeys, index);
      if !IsSet(kept, index) {
        continue;
      }
      var key := oldKeys[index];
      var pushed;
      pushed, taken := PushNew(writer, newKeys, taken, Some(key), oldKeys, index, held);
      if !pushed { return Failure(OutOfOrder); }
      assert taken < |newKeys| ==> newKeys[taken] in newKeys;
      pushed := writer.Push(key);
      if !pushed { return Failure(OutOfOrder); }
    }
    var pushed;
    pushed, taken := PushNew(writer, newKeys, taken, None, oldKeys, |oldKeys|, held);
    if !pushed { return Failure(OutOfOrder); }
    assert newKeys[..taken] == newKeys && oldKeys[..|oldKeys|] == oldKeys;
    return Success(writer.entries);
  }

  /** The tombstones file: the old keys the plan does not hold. The writer never refuses. */
  method WriteTombstones(oldKeys: seq<nat>, kept: seq<Word>, ghost held: set<nat>)
    returns (result: Result<seq<nat>, LedgerError>)
    requires Ascending(oldKeys) && KeptAre(oldKeys, kept, held)
    ensures result.Success? && Ascending(result.value)
    ensures forall key :: key in result.value <==> key in oldKeys && key !in held
  {
    var writer := new SortedFileWriter();
    for index := 0 to |oldKeys|
      invariant writer.Valid() && AllPast(writer.entries, oldKeys, index)
      invariant forall key :: key in writer.entries <==> key in oldKeys[..index] && key !in held
    {
      TakeOne(oldKeys, index);
      if !IsSet(kept, index) {
        var pushed := writer.Push(oldKeys[index]);
        if !pushed { return Failure(OutOfOrder); }
      }
    }
    assert oldKeys[..|oldKeys|] == oldKeys;
    return Success(writer.entries);
  }

  /** The pairs of the first `n` records, as they sort. */
  ghost function Pairs(split: Split, n: nat): set<nat>
    requires n <= |split.plan.records|
  {
    if n == 0 then {} else
      var r := split.plan.records[n - 1];
      Pairs(split, n - 1) + if n - 1 in split.aliased then {} else {PairOrder(r.book, r.Key())}
  }

  /** What `Pairs` means: one of the records, not an alias, is of that book and key. */
  lemma {:induction false} PairsMean(split: Split, n: nat, pair: nat)
    requires n <= |split.plan.records|
    ensures pair in Pairs(split, n) <==>
      exists i :: 0 <= i < n && i !in split.aliased &&
        PairOrder(split.plan.records[i].book, split.plan.records[i].Key()) == pair
  {
    if n > 0 { PairsMean(split, n - 1, pair); }
  }

  ghost predicate InBook(book: nat, bookKeys: seq<Key>, pair: nat) {
    exists key :: key in bookKeys && pair == PairOrder(book, key)
  }

  /** Write one book's pairs: its keys sorted, each once. The writer never refuses. */
  method FlushBook(writer: SortedFileWriter, book: nat, bookKeys: seq<Key>) returns (pushed: bool)
    requires writer.Valid() && Past(writer.entries, PairOrder(book, 0))
    requires forall key <- bookKeys :: key < KEY_SPACE
    modifies writer
    ensures writer.Valid() && pushed
    ensures forall pair :: pair in writer.entries <==> pair in old(writer.entries) || InBook(book, bookKeys, pair)
    ensures Past(writer.entries, PairOrder(book + 1, 0))
  {
    var sorted := SortDedup(bookKeys);
    SortDedupAscending(bookKeys);
    pushed := true;
    for i := 0 to |sorted|
      invariant writer.Valid()
      invariant i < |sorted| ==> Past(writer.entries, PairOrder(book, sorted[i]))
      invariant Past(writer.entries, PairOrder(book + 1, 0))
      invariant forall pair :: pair in writer.entries <==>
        pair in old(writer.entries) || InBook(book, sorted[..i], pair)
    {
      assert sorted[i] in sorted && sorted[i] in bookKeys;
      TakeOne(sorted, i);
      InBookOne(book, sorted, i);
      pushed := writer.Push(PairOrder(book, sorted[i]));
      if !pushed { return; }
    }
    assert sorted[..|sorted|] == sorted;
    forall pair ensures InBook(book, sorted, pair) <==> InBook(book, bookKeys, pair) {
    }
  }

  lemma InBookOne(book: nat, keys: seq<Key>, i: nat)
    requires i < |keys|
    ensures forall pair :: InBook(book, keys[..i + 1], pair) <==>
      InBook(book, keys[..i], pair) || pair == PairOrder(book, keys[i])
  {
    TakeOne(keys, i);
    forall pair ensures InBook(book, keys[..i + 1], pair) <==>
      InBook(book, keys[..i], pair) || pair == PairOrder(book, keys[i])
    {
      if pair == PairOrder(book, keys[i]) {
        assert keys[i] in keys[..i + 1];
      }
    }
  }

  /** What is written and what is buffered are together the pairs of the records read. */
  ghost predicate Buffered(split: Split, n: nat, entries: seq<nat>, book: nat, bookKeys: seq<Key>)
    requires n <= |split.plan.records|
  {
    && Past(entries, PairOrder(book, 0))
    && (forall key <- bookKeys :: key < KEY_SPACE)
    && forall pair :: pair in Pairs(split, n) <==> pair in entries || InBook(book, bookKeys, pair)
  }

  lemma BufferRecord(split: Split, n: nat, entries: seq<nat>, bookKeys: seq<Key>)
    requires split.Valid() && n < |split.plan.records|
    requires Buffered(split, n, entries, split.plan.records[n].book, bookKeys)
    ensures Buffered(split, n + 1, entries, split.plan.records[n].book,
      if n in split.aliased then bookKeys else bookKeys + [split.plan.records[n].Key()])
  {
    var book, key := split.plan.records[n].book, split.plan.records[n].Key();
    if n !in split.aliased {
      forall pair ensures InBook(book, bookKeys + [key], pair) <==>
        InBook(book, bookKeys, pair) || pair == PairOrder(book, key)
      {
        if pair == PairOrder(book, key) {
          assert key in bookKeys + [key];
        }
      }
    }
  }

  /** The pairs file: book by book, each book's keys buffered, sorted and written. */
  method WritePairs(split: Split) returns (result: Result<seq<nat>, LedgerError>)
    requires split.Valid()
    ensures result.Success? && Ascending(result.value)
    ensures forall pair :: pair in result.value <==> pair in Pairs(split, |split.plan.records|)
  {
    var records := split.plan.records;
    var writer := new SortedFileWriter();
    var current, bookKeys: seq<Key> := 0, [];
    for i := 0 to |records|
      invariant writer.Valid() && (i > 0 ==> current == records[i - 1].book)
      invariant i == 0 ==> writer.entries == [] && bookKeys == []
      invariant Buffered(split, i, writer.entries, current, bookKeys)
    {
      if i == 0 {
        current := records[i].book;
      } else if records[i].book != current {
        assert records[i - 1].Before(records[i]);
        var pushed := FlushBook(writer, current, bookKeys);
        if !pushed { return Failure(OutOfOrder); }
        bookKeys, current := [], records[i].book;
      }
      BufferRecord(split, i, writer.entries, bookKeys);
      if i !in split.aliased {
        bookKeys := bookKeys + [records[i].Key()];
      }
    }
    if |records| > 0 {
      var pushed := FlushBook(writer, current, bookKeys);
      if !pushed { return Failure(OutOfOrder); }
    }
    return Success(writer.entries);
  }

  /** The ledger of the release a plan describes: it names exactly the plan's keys and pairs. */
  ghost predicate IsLedgerOf(ledger: Ledger, split: Split) {
    var n := |split.plan.records|;
    && ledger.books == split.books
    && Ascending(ledger.keys) && (forall key :: key in ledger.keys <==> key in split.Keys(n))
    && Ascending(ledger.pairs) && (forall pair :: pair in ledger.pairs <==> pair in Pairs(split, n))
    && ledger.occurrences == if split.plan.windowed then Some(split.plan) else None
  }

  lemma HeldKeysFit(split: Split, keys: seq<Key>)
    requires split.Valid() && forall key :: key in keys <==> key in split.Keys(|split.plan.records|)
    ensures forall key <- keys :: key < KEY_SPACE
  {
    forall key | key in keys ensures key < KEY_SPACE {
      KeysMeans(split, |split.plan.records|, key);
    }
  }

  /** Write the ledger of a release on top of the release before it. */
  method WriteLedger(split: Split, classified: Classified, aliasThreshold: Option<real>, format: nat)
    returns (result: Result<Ledger, LedgerError>)
    requires split.Valid() && IsClassified(split, classified)
    ensures result.Success? && result.value.Valid() && IsLedgerOf(result.value, split)
    ensures result.value.aliasThreshold == aliasThreshold && result.value.format == format
  {
    ghost var n := |split.plan.records|;
    NewKeysAre(split, n);
    var keys := WriteKeys(OldKeys(split), classified.kept, classified.newKeys, split.Keys(n));
    if keys.Failure? { return Failure(OutOfOrder); }
    var pairs := WritePairs(split);
    if pairs.Failure? { return Failure(OutOfOrder); }
    HeldKeysFit(split, keys.value);
    return Success(Ledger(
      split.books, keys.value, pairs.value, if split.plan.windowed then Some(split.plan) else None,
      aliasThreshold, format));
  }

  /**
   * Whatever release it was split against, and through whatever chain of deltas, a plan leaves
   * one ledger, but for the threshold and the format it records: the files of a delta's are the
   * files of a base's.
   */
  lemma LedgerIndependentOfPrevious(one: Ledger, a: Split, other: Ledger, b: Split)
    requires a.plan == b.plan && a.books == b.books && a.aliased == b.aliased
    requires IsLedgerOf(one, a) && IsLedgerOf(other, b)
    ensures one.(aliasThreshold := other.aliasThreshold, format := other.format) == other
  {
    var n := |a.plan.records|;
    SameKeys(a, b, n);
    AscendingUnique(one.keys, other.keys);
    AscendingUnique(one.pairs, other.pairs);
  }

  lemma {:induction false} SameKeys(a: Split, b: Split, n: nat)
    requires a.plan == b.plan && a.books == b.books && a.aliased == b.aliased && n <= |a.plan.records|
    ensures a.Keys(n) == b.Keys(n) && Pairs(a, n) == Pairs(b, n)
  {
    if n > 0 { SameKeys(a, b, n - 1); }
  }
}
