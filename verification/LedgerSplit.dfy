/** What a device holds at a library version, and how the next plan splits against it. */
module LedgerSplit {
  import opened Wrappers
  import opened Sorting
  import opened Bits
  import opened Plan

  const SLOT_LIMIT: nat := 0x1_0000_0000

  /** A (book, key) pair as it sorts: the number its twenty bytes spell, book first. */
  function PairOrder(book: nat, key: Key): nat {
    book * KEY_SPACE + key
  }

  lemma PairOrderInjective(b: nat, k: Key, b': nat, k': Key)
    requires k < KEY_SPACE && k' < KEY_SPACE
    ensures PairOrder(b, k) < PairOrder(b', k') <==> b < b' || (b == b' && k < k')
    ensures PairOrder(b, k) == PairOrder(b', k') <==> b == b' && k == k'
  {
  }

  /**
   * The state files a release writes, each strictly ascending; the threshold its aliases were
   * decided at, and the segment format of its codec.
   */
  datatype Ledger = Ledger(
    books: seq<Name>, keys: seq<Key>, pairs: seq<nat>, occurrences: Option<PlanRecords>,
    aliasThreshold: Option<real>, format: nat)
  {
    ghost predicate Valid() {
      && Ascending(books) && Ascending(keys) && Ascending(pairs) && (forall key <- keys :: key < KEY_SPACE)
      && (occurrences.Some? ==>
        && occurrences.value.Valid() && occurrences.value.windowed
        && (forall r <- occurrences.value.records :: r.book < |books|))
    }

    /** Whether the release records `key` in the book called `name`. */
    ghost predicate HasPair(name: Name, key: Key) {
      exists b :: 0 <= b < |books| && books[b] == name && PairOrder(b, key) in pairs
    }
  }

  /** What a record of a plan is, against the previous release. */
  datatype Disposition =
    | Slot(slot: nat)
    | Extra(slot: nat)
    | Foreign
    | Held
    | Repeat
    | Alias

  /** A plan, the release before it, and which of its records share a neighbour's vector. */
  datatype Split = Split(plan: PlanRecords, books: seq<Name>, previous: Option<Ledger>, aliased: set<nat>)
  {
    ghost predicate Valid() {
      && plan.Valid() && Ascending(books)
      && (forall r <- plan.records :: r.book < |books|)
      && (previous.Some? ==> previous.value.Valid())
    }

    /** The book a record is of, by name: what a book is across releases. */
    function NameOf(i: nat): Name
      requires i < |plan.records| && plan.records[i].book < |books|
    {
      books[plan.records[i].book]
    }

    /** The keys the first `n` records hold as their own, and not as aliases of others. */
    function Keys(n: nat): set<Key>
      requires n <= |plan.records|
    {
      if n == 0 then {} else Keys(n - 1) + if n - 1 in aliased then {} else {plan.records[n - 1].Key()}
    }

    /** Of those, the ones a record of `book` holds. */
    function BookKeys(n: nat, book: nat): set<Key>
      requires n <= |plan.records|
    {
      if n == 0 then {} else
        BookKeys(n - 1, book) +
        if n - 1 in aliased || plan.records[n - 1].book != book then {} else {plan.records[n - 1].Key()}
    }

    /** Whether the release before holds `key`. */
    predicate Old(key: Key) {
      previous.Some? && key in previous.value.keys
    }

    ghost predicate OldPair(name: Name, key: Key) {
      previous.Some? && previous.value.HasPair(name, key)
    }

    /** The keys the release before lacks, in order of first appearance among `n` records. */
    function NewKeys(n: nat): seq<Key>
      requires n <= |plan.records|
    {
      if n == 0 then [] else
        var before, key := NewKeys(n - 1), plan.records[n - 1].Key();
        if n - 1 in aliased || Old(key) || key in before then before else before + [key]
    }

    ghost function DispositionOf(i: nat): Disposition
      requires i < |plan.records| && plan.records[i].book < |books|
    {
      var key, before := plan.records[i].Key(), NewKeys(i);
      if i in aliased then Alias
      else if key in BookKeys(i, plan.records[i].book) then Repeat
      else if Old(key) then if OldPair(NameOf(i), key) then Held else Foreign
      else if key in before then Extra(IndexOf(before, key))
      else Slot(|before|)
    }

    /** Whether record `j` holds `key` as its own, and so is no alias. */
    predicate Own(j: nat, key: Key) {
      j < |plan.records| && j !in aliased && plan.records[j].Key() == key
    }

    /** And in `book`. */
    predicate OwnIn(j: nat, book: nat, key: Key) {
      Own(j, key) && plan.records[j].book == book
    }

    ghost predicate Seen(n: nat, key: Key) {
      exists j: nat :: j < n && Own(j, key)
    }

    ghost predicate SeenIn(n: nat, book: nat, key: Key) {
      exists j: nat :: j < n && OwnIn(j, book, key)
    }

    /** Whether record `i` is the first of its own in its book to hold its key. */
    ghost predicate Opens(i: nat)
      requires i < |plan.records|
    {
      i !in aliased && !SeenIn(i, plan.records[i].book, plan.records[i].Key())
    }

    /** What a record is, told by the records before it and the release before. */
    ghost predicate Is(i: nat, d: Disposition)
      requires i < |plan.records| && plan.records[i].book < |books|
    {
      var r := plan.records[i];
      match d
      case Alias => i in aliased
      case Repeat => i !in aliased && SeenIn(i, r.book, r.Key())
      case Held => Opens(i) && Old(r.Key()) && OldPair(NameOf(i), r.Key())
      case Foreign => Opens(i) && Old(r.Key()) && !OldPair(NameOf(i), r.Key())
      case Extra(slot) =>
        Opens(i) && !Old(r.Key()) && Seen(i, r.Key()) && slot < |NewKeys(i)| && NewKeys(i)[slot] == r.Key()
      case Slot(slot) => Opens(i) && !Old(r.Key()) && !Seen(i, r.Key()) && slot == |NewKeys(i)|
    }

    /** Whether record `i` is shipped: the first of its own to hold a key the release before lacks. */
    ghost predicate Ships(i: nat)
      requires i < |plan.records|
    {
      i !in aliased && !Old(plan.records[i].Key()) && !Seen(i, plan.records[i].Key())
    }

    /** The book and key of a record of its own, of a key the release before has, though not in that book. */
    ghost predicate IsForeign(i: nat)
      requires i < |plan.records| && plan.records[i].book < |books|
    {
      i !in aliased && Old(plan.records[i].Key()) && !OldPair(NameOf(i), plan.records[i].Key())
    }

    function PairAt(i: nat): (nat, Key)
      requires i < |plan.records|
    {
      (plan.records[i].book, plan.records[i].Key())
    }

    /** The pairs of those among the first `n` records. */
    ghost function ForeignPairs(n: nat): set<(nat, Key)>
      requires Valid() && n <= |plan.records|
    {
      set i: nat | i < n && IsForeign(i) :: PairAt(i)
    }
  }

  function IndexOf<T(==)>(s: seq<T>, x: T): (i: nat)
    requires x in s
    ensures i < |s| && s[i] == x && x !in s[..i]
  {
    if s[0] == x then 0 else 1 + IndexOf(s[1..], x)
  }

  ghost predicate Distinct<T>(s: seq<T>) {
    forall i, j :: 0 <= i < j < |s| ==> s[i] != s[j]
  }

  /** New keys are distinct, new, and exactly the new ones the records hold. */
  lemma {:induction false} NewKeysAre(split: Split, n: nat)
    requires n <= |split.plan.records|
    ensures Distinct(split.NewKeys(n)) && |split.NewKeys(n)| <= n
    ensures forall key :: key in split.NewKeys(n) <==> key in split.Keys(n) && !split.Old(key)
  {
    if n > 0 {
      NewKeysAre(split, n - 1);
    }
  }

  /** What `Keys` means: `key` is held by one of the records. */
  lemma {:induction false} KeysMeans(split: Split, n: nat, key: Key)
    requires n <= |split.plan.records|
    ensures key in split.Keys(n) <==>
      exists i :: 0 <= i < n && i !in split.aliased && split.plan.records[i].Key() == key
  {
    if n > 0 { KeysMeans(split, n - 1, key); }
  }

  lemma {:induction false} BookKeysMeans(split: Split, n: nat, book: nat, key: Key)
    requires n <= |split.plan.records|
    ensures key in split.BookKeys(n, book) <==>
      exists i :: 0 <= i < n && i !in split.aliased &&
        split.plan.records[i].Key() == key && split.plan.records[i].book == book
    ensures key in split.BookKeys(n, book) ==> key in split.Keys(n)
  {
    if n > 0 { BookKeysMeans(split, n - 1, book, key); }
  }

  lemma {:induction false} SeenMeans(split: Split, n: nat, book: nat, key: Key)
    requires n <= |split.plan.records|
    ensures key in split.Keys(n) <==> split.Seen(n, key)
    ensures key in split.BookKeys(n, book) <==> split.SeenIn(n, book, key)
  {
    KeysMeans(split, n, key);
    BookKeysMeans(split, n, book, key);
    if key in split.Keys(n) {
      var j :| 0 <= j < n && j !in split.aliased && split.plan.records[j].Key() == key;
      assert split.Own(j, key);
    }
    if key in split.BookKeys(n, book) {
      var j :| 0 <= j < n && j !in split.aliased && split.plan.records[j].Key() == key &&
        split.plan.records[j].book == book;
      assert split.OwnIn(j, book, key);
    }
  }

  /** A record is what the records before it and the release before make it, and nothing else. */
  lemma {:induction false} DispositionIs(split: Split, i: nat, d: Disposition)
    requires split.Valid() && i < |split.plan.records|
    ensures split.DispositionOf(i) == d <==> split.Is(i, d)
  {
    var r := split.plan.records[i];
    SeenMeans(split, i, r.book, r.Key());
    NewKeysAre(split, i);
  }

  lemma {:induction false} SlotShips(split: Split, i: nat)
    requires split.Valid() && i < |split.plan.records|
    ensures split.DispositionOf(i).Slot? <==> split.Ships(i)
  {
    var r := split.plan.records[i];
    SeenMeans(split, i, r.book, r.Key());
    NewKeysAre(split, i);
    BookKeysMeans(split, i, r.book, r.Key());
  }

  /** What every record is, in order. */
  ghost predicate AllJudged(split: Split, ds: seq<Disposition>)
    requires split.Valid() && |ds| <= |split.plan.records|
  {
    forall i :: 0 <= i < |ds| ==> split.Is(i, ds[i])
  }

  lemma {:induction false} DispositionsJudged(split: Split, n: nat)
    requires split.Valid() && n <= |split.plan.records|
    ensures AllJudged(split, Dispositions(split, n))
  {
    if n > 0 {
      DispositionsJudged(split, n - 1);
      DispositionIs(split, n - 1, split.DispositionOf(n - 1));
    }
  }

  /** Foreign records are counted once a book and key, however many lines hold the key there. */
  lemma {:induction false} ForeignPairsCounted(split: Split, n: nat)
    requires split.Valid() && n <= |split.plan.records|
    ensures ForeignCount(split, n) == |split.ForeignPairs(n)|
  {
    if n > 0 {
      ForeignPairsCounted(split, n - 1);
      ForeignStep(split, n - 1, n);
    }
  }

  lemma PairsGrow(split: Split, m: nat, n: nat)
    requires split.Valid() && n == m + 1 <= |split.plan.records|
    ensures split.ForeignPairs(n) == split.ForeignPairs(m) + if split.IsForeign(m) then {split.PairAt(m)} else {}
  {
  }

  lemma WithOne<T>(s: set<T>, x: T)
    ensures |s + {x}| == |s| + if x in s then 0 else 1
  {
    if x in s { assert s + {x} == s; }
  }

  lemma Without<T>(s: set<T>, x: T)
    ensures |s| == |s - {x}| + if x in s then 1 else 0
  {
    if x in s {
      assert s == (s - {x}) + {x};
    } else {
      assert s == s - {x};
    }
  }

  lemma ForeignStep(split: Split, m: nat, n: nat)
    requires split.Valid() && n == m + 1 <= |split.plan.records|
    ensures |split.ForeignPairs(n)| == |split.ForeignPairs(m)| + if split.DispositionOf(m).Foreign? then 1 else 0
  {
    PairsGrow(split, m, n);
    DispositionIs(split, m, Foreign);
    if split.IsForeign(m) {
      WithOne(split.ForeignPairs(m), split.PairAt(m));
      PairSeen(split, m);
    } else {
      assert split.ForeignPairs(m) + {} == split.ForeignPairs(m);
    }
  }

  /** A foreign record's pair is counted before it exactly where it opens nothing. */
  lemma PairSeen(split: Split, m: nat)
    requires split.Valid() && m < |split.plan.records| && split.IsForeign(m)
    ensures split.PairAt(m) in split.ForeignPairs(m) <==> !split.Opens(m)
  {
    var r := split.plan.records[m];
    if split.SeenIn(m, r.book, r.Key()) {
      var j: nat :| j < m && split.OwnIn(j, r.book, r.Key());
      assert split.IsForeign(j) && split.PairAt(j) == split.PairAt(m);
    }
    if split.PairAt(m) in split.ForeignPairs(m) {
      var j: nat :| j < m && split.IsForeign(j) && split.PairAt(j) == split.PairAt(m);
      assert split.OwnIn(j, r.book, r.Key());
    }
  }

  lemma {:induction false} NewKeysPrefix(split: Split, m: nat, n: nat)
    requires m <= n <= |split.plan.records|
    ensures |split.NewKeys(m)| <= |split.NewKeys(n)|
    ensures split.NewKeys(m) == split.NewKeys(n)[..|split.NewKeys(m)|]
  {
    if m < n { NewKeysPrefix(split, m, n - 1); }
  }

  /** What `classify` found. */
  datatype Classified = Classified(
    unique: nat, reused: nat, slots: nat, foreign: nat, kept: seq<Word>, newKeys: seq<Key>)

  datatype LedgerError = TooManyKeys | OutOfOrder

  /** The ledger's position of `key`, by binary search. */
  method FindKey(ledger: Ledger, key: Key) returns (at: Option<nat>)
    requires ledger.Valid()
    ensures at.Some? <==> key in ledger.keys
    ensures at.Some? ==> at.value < |ledger.keys| && ledger.keys[at.value] == key
  {
    var found, i := BinarySearch(ledger.keys, key);
    at := if found then Some(i) else None;
  }

  /** Whether the ledger records `key` in the book called `name`: two binary searches. */
  method ContainsPair(ledger: Ledger, name: Name, key: Key) returns (contains: bool)
    requires ledger.Valid()
    ensures contains <==> ledger.HasPair(name, key)
  {
    var found, book := BinarySearch(ledger.books, name);
    if found {
      var at;
      contains, at := BinarySearch(ledger.pairs, PairOrder(book, key));
    } else {
      contains := false;
    }
  }

  ghost function Dispositions(split: Split, n: nat): (ds: seq<Disposition>)
    requires split.Valid() && n <= |split.plan.records|
    ensures |ds| == n
  {
    if n == 0 then [] else Dispositions(split, n - 1) + [split.DispositionOf(n - 1)]
  }

  lemma {:induction false} DispositionsAt(split: Split, n: nat, i: nat)
    requires split.Valid() && i < n <= |split.plan.records|
    ensures Dispositions(split, n)[i] == split.DispositionOf(i)
  {
    var before := Dispositions(split, n - 1);
    assert Dispositions(split, n) == before + [split.DispositionOf(n - 1)];
    if i < n - 1 { DispositionsAt(split, n - 1, i); }
  }

  /** How many of the first `n` records are foreign. */
  ghost function ForeignCount(split: Split, n: nat): nat
    requires split.Valid() && n <= |split.plan.records|
  {
    if n == 0 then 0 else
      ForeignCount(split, n - 1) + if split.DispositionOf(n - 1).Foreign? then 1 else 0
  }

  /** How many keys of the release before the first `n` records hold. */
  ghost function ReusedCount(split: Split, n: nat): nat
    requires n <= |split.plan.records|
  {
    if n == 0 then 0 else
      var key := split.plan.records[n - 1].Key();
      ReusedCount(split, n - 1) +
      if n - 1 !in split.aliased && split.Old(key) && key !in split.Keys(n - 1) then 1 else 0
  }

  /** The slot map holds each new key at its place in the order of first appearance. */
  ghost predicate SlotsAre(slots: map<Key, nat>, order: seq<Key>) {
    && (forall key :: key in slots <==> key in order)
    && (forall slot :: 0 <= slot < |order| ==> slots[order[slot]] == slot)
  }

  /** The bits set are those of the old keys the plan still holds. */
  ghost predicate KeptAre(oldKeys: seq<Key>, kept: seq<Word>, held: set<Key>) {
    && (forall at: nat :: at < |oldKeys| ==> at / 64 < |kept|)
    && (forall at: nat :: IsSet(kept, at) <==> at < |oldKeys| && oldKeys[at] in held)
  }

  lemma SlotsAppend(slots: map<Key, nat>, order: seq<Key>, key: Key)
    requires SlotsAre(slots, order) && key !in order
    ensures SlotsAre(slots[key := |order|], order + [key])
  {
  }

  lemma SlotsIndex(slots: map<Key, nat>, order: seq<Key>, key: Key)
    requires SlotsAre(slots, order) && Distinct(order) && key in order
    ensures slots[key] == IndexOf(order, key)
  {
    var i := IndexOf(order, key);
    assert slots[order[i]] == i;
  }

  /** Note that the plan still holds the old key at `at`. */
  method Keep(oldKeys: seq<Key>, kept: seq<Word>, at: nat, ghost held: set<Key>) returns (after: seq<Word>, first: nat)
    requires Ascending(oldKeys) && KeptAre(oldKeys, kept, held) && at < |oldKeys|
    ensures KeptAre(oldKeys, after, held + {oldKeys[at]})
    ensures PopCount(after) == PopCount(kept) + first
    ensures first == if oldKeys[at] in held then 0 else 1
  {
    if IsSet(kept, at) {
      after, first := kept, 0;
    } else {
      SetCounts(kept, at);
      after, first := Set(kept, at), 1;
      forall other: nat ensures IsSet(after, other) <==> other < |oldKeys| && oldKeys[other] in held + {oldKeys[at]} {
        SetOnly(kept, at, other);
      }
    }
  }

  lemma KeptSkip(oldKeys: seq<Key>, kept: seq<Word>, held: set<Key>, key: Key)
    requires KeptAre(oldKeys, kept, held)
    requires key in held || key !in oldKeys
    ensures KeptAre(oldKeys, kept, held + {key})
  {
    forall at: nat | at < |oldKeys| ensures oldKeys[at] in held <==> oldKeys[at] in held + {key} {
      assert oldKeys[at] in oldKeys;
    }
  }

  /** Books are contiguous: a book that starts at `n` holds nothing before. */
  lemma {:induction false} BookKeysFresh(split: Split, n: nat, book: nat)
    requires n <= |split.plan.records|
    requires forall j :: 0 <= j < n ==> split.plan.records[j].book != book
    ensures split.BookKeys(n, book) == {}
  {
    if n > 0 { BookKeysFresh(split, n - 1, book); }
  }

  lemma BookStarts(split: Split, n: nat)
    requires split.Valid() && n < |split.plan.records|
    requires n > 0 ==> split.plan.records[n - 1].book != split.plan.records[n].book
    ensures split.BookKeys(n, split.plan.records[n].book) == {}
  {
    forall j | 0 <= j < n ensures split.plan.records[j].book != split.plan.records[n].book {
      assert j < n - 1 ==> split.plan.records[j].Before(split.plan.records[n - 1]);
      assert split.plan.records[n - 1].Before(split.plan.records[n]);
    }
    BookKeysFresh(split, n, split.plan.records[n].book);
  }

  /** The loop's variables: the slot map and its keys in slot order, one book's keys, the bits. */
  datatype State = State(
    slots: map<Key, nat>, order: seq<Key>, inBook: set<Key>, kept: seq<Word>, reused: nat, foreign: nat)

  ghost predicate StateIs(split: Split, n: nat, oldKeys: seq<Key>, state: State)
    requires split.Valid() && n <= |split.plan.records|
  {
    && state.order == split.NewKeys(n) && SlotsAre(state.slots, state.order)
    && KeptAre(oldKeys, state.kept, split.Keys(n))
    && state.reused == PopCount(state.kept) == ReusedCount(split, n)
    && state.foreign == ForeignCount(split, n)
    && (n > 0 ==> state.inBook == split.BookKeys(n, split.plan.records[n - 1].book))
  }

  function OldKeys(split: Split): seq<Key> {
    if split.previous.Some? then split.previous.value.keys else []
  }

  /** How many of the first `n` records are decided before one finds no slot left. */
  ghost function Decidable(split: Split, n: nat): (m: nat)
    requires n <= |split.plan.records|
    ensures m <= n
  {
    if n == 0 then 0
    else if Decidable(split, n - 1) < n - 1 then Decidable(split, n - 1)
    else if |split.NewKeys(n)| <= SLOT_LIMIT then n
    else n - 1
  }

  /** The first `m` of `n` records have slots enough: all of them, or one more would have too few. */
  ghost predicate Brink(split: Split, m: nat, n: nat)
    requires m <= n <= |split.plan.records|
  {
    && |split.NewKeys(m)| <= SLOT_LIMIT
    && (m < n ==> SLOT_LIMIT < |split.NewKeys(m + 1)|)
  }

  lemma BrinkNext(split: Split, m: nat, before: nat, n: nat)
    requires n == before + 1 <= |split.plan.records| && m <= before && Brink(split, m, before)
    ensures Brink(split, if m < before || |split.NewKeys(n)| > SLOT_LIMIT then m else n, n)
  {
  }

  /** All of them, or those before the record whose new key is one too many. */
  lemma {:induction false} DecidableMeans(split: Split, n: nat)
    requires n <= |split.plan.records|
    ensures Brink(split, Decidable(split, n), n) == true
  {
    if n > 0 {
      DecidableMeans(split, n - 1);
      BrinkNext(split, Decidable(split, n - 1), n - 1, n);
    }
  }

  lemma {:induction false} DecidableStays(split: Split, m: nat, n: nat)
    requires m < n <= |split.plan.records| && Decidable(split, m + 1) == m
    ensures Decidable(split, n) == m
  {
    if m + 1 < n { DecidableStays(split, m, n - 1); }
  }

  /**
   * Decide every record in order: books in byte order, each book's lines in order. The
   * dispositions are what the callback of each record is handed, up to one that is refused.
   */
  method Classify(split: Split) returns (result: Result<Classified, LedgerError>, dispositions: seq<Disposition>)
    requires split.Valid()
    ensures result.Success? <==> |split.NewKeys(|split.plan.records|)| <= SLOT_LIMIT
    ensures result.Failure? ==> result.error == TooManyKeys
    ensures dispositions == Dispositions(split, Decidable(split, |split.plan.records|))
    ensures result.Success? <==> Decidable(split, |split.plan.records|) == |split.plan.records|
    ensures result.Success? ==> IsClassified(split, result.value)
    ensures AllJudged(split, dispositions)
    ensures result.Success? ==> result.value.foreign == |split.ForeignPairs(|split.plan.records|)|
  {
    var records, oldKeys := split.plan.records, OldKeys(split);
    var state := State(map[], [], {}, Words(|oldKeys|), 0, 0);
    dispositions := [];
    WordsClear(|oldKeys|);
    var i := 0;
    while i < |records|
      invariant i <= |records| && dispositions == Dispositions(split, i)
      invariant StateIs(split, i, oldKeys, state) && |state.order| <= SLOT_LIMIT
      invariant Decidable(split, i) == i
    {
      var disposition;
      disposition, state := ClassifyRecord(split, i, oldKeys, state);
      if |state.order| > SLOT_LIMIT {
        NewKeysPrefix(split, i + 1, |records|);
        DecidableStays(split, i, |records|);
        DispositionsJudged(split, i);
        return Failure(TooManyKeys), dispositions;
      }
      dispositions, i := dispositions + [disposition], i + 1;
    }
    DispositionsJudged(split, i);
    ForeignPairsCounted(split, i);
    result := Success(Summary(split, i, oldKeys, state));
  }

  function Summary(split: Split, ghost n: nat, ghost oldKeys: seq<Key>, state: State): (c: Classified)
    requires split.Valid() && oldKeys == OldKeys(split)
    requires n == |split.plan.records| && StateIs(split, n, oldKeys, state)
    ensures IsClassified(split, c)
  {
    SortDedupAscending(state.order);
    Classified(
      state.reused + |state.order|, state.reused, |state.order| % SLOT_LIMIT, state.foreign, state.kept,
      SortDedup(state.order))
  }

  /** The book's keys so far: none, where a book begins. */
  lemma InBookIs(split: Split, i: nat, oldKeys: seq<Key>, before: State)
    requires split.Valid() && i < |split.plan.records| && StateIs(split, i, oldKeys, before)
    ensures split.BookKeys(i, split.plan.records[i].book) ==
      if i == 0 || split.plan.records[i - 1].book != split.plan.records[i].book then {} else before.inBook
  {
    if i == 0 || split.plan.records[i - 1].book != split.plan.records[i].book { BookStarts(split, i); }
  }

  /** An alias, or a repeat in its book, changes no count. */
  lemma UncountedStep(split: Split, i: nat, oldKeys: seq<Key>, before: State, state: State)
    requires split.Valid() && i < |split.plan.records| && oldKeys == OldKeys(split)
    requires StateIs(split, i, oldKeys, before) && split.DispositionOf(i) in {Alias, Repeat}
    requires state == before.(inBook := split.BookKeys(i + 1, split.plan.records[i].book))
    ensures StateIs(split, i + 1, oldKeys, state)
  {
    NewKeysAre(split, i);
    BookKeysMeans(split, i, split.plan.records[i].book, split.plan.records[i].Key());
  }

  /** A key held already is kept, and its pair is foreign where that is new. */
  lemma OldStep(split: Split, i: nat, oldKeys: seq<Key>, before: State, state: State, kept: seq<Word>, first: nat)
    requires split.Valid() && i < |split.plan.records| && oldKeys == OldKeys(split)
    requires StateIs(split, i, oldKeys, before) && split.DispositionOf(i) in {Held, Foreign}
    requires KeptAre(oldKeys, kept, split.Keys(i) + {split.plan.records[i].Key()})
    requires PopCount(kept) == PopCount(before.kept) + first
    requires first == if split.plan.records[i].Key() in split.Keys(i) then 0 else 1
    requires state == State(
      before.slots, before.order, split.BookKeys(i + 1, split.plan.records[i].book), kept, before.reused + first,
      before.foreign + if split.DispositionOf(i).Foreign? then 1 else 0)
    ensures StateIs(split, i + 1, oldKeys, state)
  {
    NewKeysAre(split, i);
  }

  lemma ExtraStep(split: Split, i: nat, oldKeys: seq<Key>, before: State, state: State)
    requires split.Valid() && i < |split.plan.records| && oldKeys == OldKeys(split)
    requires StateIs(split, i, oldKeys, before) && split.DispositionOf(i).Extra?
    requires state == before.(inBook := split.BookKeys(i + 1, split.plan.records[i].book))
    ensures StateIs(split, i + 1, oldKeys, state)
  {
    NewKeysAre(split, i);
  }

  lemma SlotGiven(split: Split, i: nat, oldKeys: seq<Key>, before: State, state: State)
    requires split.Valid() && i < |split.plan.records| && oldKeys == OldKeys(split)
    requires StateIs(split, i, oldKeys, before) && split.DispositionOf(i).Slot?
    requires var key := split.plan.records[i].Key();
      state == before.(inBook := split.BookKeys(i + 1, split.plan.records[i].book),
                       slots := before.slots[key := |before.order|], order := before.order + [key])
    ensures StateIs(split, i + 1, oldKeys, state)
  {
    var key := split.plan.records[i].Key();
    NewKeysAre(split, i);
    BookKeysMeans(split, i, split.plan.records[i].book, key);
    SlotsAppend(before.slots, before.order, key);
    KeptSkip(oldKeys, before.kept, split.Keys(i), key);
  }

  /** One record of the loop: what it is, and the state after it. */
  method ClassifyRecord(split: Split, i: nat, oldKeys: seq<Key>, before: State)
    returns (disposition: Disposition, state: State)
    requires split.Valid() && i < |split.plan.records| && oldKeys == OldKeys(split)
    requires StateIs(split, i, oldKeys, before) == true
    ensures disposition == split.DispositionOf(i) && split.Is(i, disposition) == true
    ensures StateIs(split, i + 1, oldKeys, state) == true
  {
    var key, name := split.plan.records[i].Key(), split.NameOf(i);
    DispositionIs(split, i, split.DispositionOf(i));
    InBookIs(split, i, oldKeys, before);
    state := before;
    if i == 0 || split.plan.records[i - 1].book != split.plan.records[i].book {
      state := state.(inBook := {});
    }
    if i in split.aliased {
      UncountedStep(split, i, oldKeys, before, state);
      return Alias, state;
    }
    var repeated := key in state.inBook;
    state := state.(inBook := state.inBook + {key});
    if repeated {
      UncountedStep(split, i, oldKeys, before, state);
      return Repeat, state;
    }
    var at := None;
    if split.previous.Some? {
      at := FindKey(split.previous.value, key);
    }
    if at.Some? {
      var kept, first := Keep(oldKeys, before.kept, at.value, split.Keys(i));
      state := state.(kept := kept, reused := before.reused + first);
      var held := ContainsPair(split.previous.value, name, key);
      if held {
        disposition := Held;
      } else {
        state := state.(foreign := before.foreign + 1);
        disposition := Foreign;
      }
      OldStep(split, i, oldKeys, before, state, kept, first);
      return;
    }
    NewKeysAre(split, i);
    if key in before.slots {
      SlotsIndex(before.slots, before.order, key);
      disposition := Extra(before.slots[key]);
      ExtraStep(split, i, oldKeys, before, state);
    } else {
      var slot := |before.order|;
      disposition := Slot(slot);
      state := state.(slots := before.slots[key := slot], order := before.order + [key]);
      SlotGiven(split, i, oldKeys, before, state);
    }
  }

  ghost predicate IsClassified(split: Split, c: Classified)
    requires split.Valid()
  {
    var n := |split.plan.records|;
    && c.slots == |split.NewKeys(n)| % SLOT_LIMIT
    && c.unique == c.reused + |split.NewKeys(n)|
    && c.foreign == ForeignCount(split, n)
    && KeptAre(OldKeys(split), c.kept, split.Keys(n))
    && c.reused == PopCount(c.kept) == ReusedCount(split, n)
    && Ascending(c.newKeys) && SameElements(c.newKeys, split.NewKeys(n))
  }
}
