/** A release's segment, book by book, from a plan split against the release before. */
module Assemble {
  import opened Wrappers
  import opened Sorting
  import opened Plan
  import opened Alias
  import opened LedgerSplit
  import opened LedgerLaws
  import opened OccurrenceRows
  import opened Locations
  import opened Windows

  /** A plan, its books, and which of its records share a neighbour's vector. */
  datatype Release = Release(plan: PlanRecords, books: seq<Name>, targets: map<nat, Target>) {
    ghost predicate Valid() {
      && plan.Valid() && Ascending(books)
      && forall r <- plan.records :: r.book < |books|
    }

    function Against(previous: Option<Ledger>): Split {
      Split(plan, books, previous, targets.Keys)
    }

    /** The occurrence of record `i`: an alias's is its target's key, its own the anchor. */
    ghost function OccurrenceOf(i: nat): Occurrence
      requires Valid() && i < |plan.records|
    {
      var own := OccurrenceAt(plan, i);
      if i in targets then Occurrence(targets[i].key, own.book, own.hint, own.key, ALIAS_WINDOW) else own
    }

    ghost function Rows(n: nat): (rows: seq<Occurrence>)
      requires Valid() && n <= |plan.records|
      ensures |rows| == n
    {
      if n == 0 then [] else Rows(n - 1) + [OccurrenceOf(n - 1)]
    }

    ghost function Located(): Side
      requires Valid()
    {
      Side(books, Rows(|plan.records|))
    }
  }

  lemma {:induction false} RowsAre(release: Release, n: nat, i: nat)
    requires release.Valid() && i < n <= |release.plan.records|
    ensures release.Rows(n)[i] == release.OccurrenceOf(i)
  {
    var before := release.Rows(n - 1);
    assert release.Rows(n) == before + [release.OccurrenceOf(n - 1)];
    if i < n - 1 { RowsAre(release, n - 1, i); }
  }

  lemma LocatedValid(release: Release)
    requires release.Valid()
    ensures release.Located().Valid()
  {
    var rows, records := release.Located().rows, release.plan.records;
    forall i | 0 <= i < |rows| ensures rows[i].book == records[i].book < |release.books| {
      RowsAre(release, |rows|, i);
      assert records[i] in records;
    }
    forall i, j | 0 <= i < j < |rows| ensures rows[i].book <= rows[j].book {
      assert records[i].Before(records[j]);
    }
  }

  method AliasedOccurrences(release: Release) returns (rows: seq<Occurrence>)
    requires release.Valid()
    ensures rows == release.Rows(|release.plan.records|)
  {
    var own := Occurrences(release.plan);
    rows := [];
    for i := 0 to |own|
      invariant rows == release.Rows(i)
    {
      rows := rows + [
        if i in release.targets then
          Occurrence(release.targets[i].key, own[i].book, own[i].hint, own[i].key, ALIAS_WINDOW)
        else own[i]];
    }
  }

  /** What a segment stores of one book. */
  datatype BookRecords = BookRecords(
    book: nat, primary: seq<(Key, nat)>, windows: seq<nat>, extras: seq<(nat, nat)>,
    foreign: seq<(Key, nat)>, occurrences: seq<Occurrence>)

  /**
   * A release to assemble: a delta against the release before, or a base; and the keys whose
   * locations changed, where the plan records locations.
   */
  datatype Build = Build(now: Release, delta: Option<Ledger>, changed: Option<set<Key>>) {
    function Split(): Split {
      now.Against(delta)
    }

    ghost predicate Valid() {
      now.Valid() && Split().Valid()
    }

    /** No snapshot to compare with: every location is written. */
    predicate AllOccurrences() {
      now.plan.windowed && (delta.None? || delta.value.occurrences.None?)
    }

    predicate Snapshots(key: Key) {
      AllOccurrences() || (changed.Some? && key in changed.value)
    }

    /** A record held already whose book is linked anew, because its key's locations changed. */
    ghost predicate Relinks(i: nat)
      requires Valid() && i < |now.plan.records|
    {
      var d, key := Split().DispositionOf(i), now.plan.records[i].Key();
      (d.Held? || d.Repeat?) && Split().Old(key) && Snapshots(key)
    }

    /** Book `b` with record `i` added. */
    ghost function AddRecord(b: BookRecords, i: nat): BookRecords
      requires Valid() && i < |now.plan.records|
    {
      AddAs(b, now.plan.records[i], Split().DispositionOf(i), now.OccurrenceOf(i),
            SlotWindow(now.plan, now.plan.records[i].Key()))
    }

    function AddAs(b: BookRecords, r: PlanRecord, d: Disposition, occurrence: Occurrence, window: nat): BookRecords {
      var located := if Snapshots(occurrence.key) then b.(occurrences := b.occurrences + [occurrence]) else b;
      match d
      case Slot(_) => located.(primary := b.primary + [(r.Key(), r.ordinal)], windows := b.windows + [window])
      case Extra(slot) => located.(extras := b.extras + [(r.ordinal, slot)])
      case Foreign => located.(foreign := b.foreign + [(r.Key(), r.ordinal)])
      case Alias => located
      case _ =>
        if Split().Old(r.Key()) && Snapshots(r.Key()) then located.(foreign := b.foreign + [(r.Key(), r.ordinal)])
        else located
    }

    /** What the first `n` records add to `book`. */
    ghost function Contents(book: nat, n: nat): BookRecords
      requires Valid() && n <= |now.plan.records|
    {
      if n == 0 then Empty(book)
      else if now.plan.records[n - 1].book == book then AddRecord(Contents(book, n - 1), n - 1)
      else Contents(book, n - 1)
    }
  }

  function Empty(book: nat): BookRecords {
    BookRecords(book, [], [], [], [], [])
  }

  /** The foreign records of a book: by key, each key's first line only. */
  function LeastPerKey(foreign: seq<(Key, nat)>): seq<(Key, nat)> {
    if foreign == [] then [] else
      InsertLeast(LeastPerKey(foreign[..|foreign| - 1]), foreign[|foreign| - 1])
  }

  function InsertLeast(s: seq<(Key, nat)>, x: (Key, nat)): seq<(Key, nat)> {
    if s == [] || s[|s| - 1].0 < x.0 then s + [x]
    else if s[|s| - 1].0 == x.0 then s[..|s| - 1] + [(x.0, Min(s[|s| - 1].1, x.1))]
    else InsertLeast(s[..|s| - 1], x) + [s[|s| - 1]]
  }

  /** A book as it is added to the segment. */
  function Finish(b: BookRecords): BookRecords {
    b.(foreign := LeastPerKey(b.foreign))
  }

  /** A segment: its books' records, the keys it forgets, and the location rows it stores. */
  datatype Segment = Segment(
    names: seq<Name>, books: seq<BookRecords>, tombstones: seq<Key>, rows: seq<Occurrence>)

  /** The rows a segment's writer is handed: its books', one book after another. */
  function Handed(books: seq<BookRecords>): seq<Occurrence> {
    if books == [] then [] else Handed(books[..|books| - 1]) + books[|books| - 1].occurrences
  }

  /** The segment's key of each slot: its books' primary keys, one book after another. */
  function SlotKeys(books: seq<BookRecords>): seq<Key> {
    if books == [] then [] else
      SlotKeys(books[..|books| - 1]) + PrimaryKeys(books[|books| - 1].primary)
  }

  function PrimaryKeys(primary: seq<(Key, nat)>): seq<Key> {
    seq(|primary|, i requires 0 <= i < |primary| => primary[i].0)
  }

  /** The segment of a build: its books in order, each with exactly its records, and its rows as they are stored. */
  ghost predicate IsSegment(build: Build, segment: Segment)
    requires build.Valid()
  {
    var n := |build.now.plan.records|;
    && segment.names == build.now.books
    && BooksAre(build, segment.books, n)
    && SlotKeys(segment.books) == build.Split().NewKeys(n)
    && Ascending(segment.tombstones)
    && (forall key :: key in segment.tombstones <==>
        build.Split().Old(key) && key !in build.Split().Keys(n))
    && AreKept(Handed(segment.books), segment.rows)
  }

  /** The books with records, in order, each with exactly its records. */
  ghost predicate BooksAre(build: Build, books: seq<BookRecords>, n: nat)
    requires build.Valid() && n <= |build.now.plan.records|
  {
    && Added(build, n, books, |build.now.books|)
    && forall i {:trigger Listed(books, build.now.plan.records[i].book)} :: 0 <= i < n ==>
      Listed(books, build.now.plan.records[i].book)
  }

  datatype AssembleError =
    | SharedKeys
    | BadThreshold
    | ThresholdChanged
    | AliasFormat
    | BadBook
    | BadLedger(error: LedgerError)
    | MissingVectors(count: nat)
    | BadRows

  /** The greatest hint: bit 31 of a slot's says something else. */
  const HINT_MASK: nat := 0x7FFF_FFFF

  /** How many records of each sort a segment's writer has taken, each counted in 32 bits. */
  datatype Counts = Counts(slots: nat, extras: nat, foreign: nat) {
    function Add(b: BookRecords): Counts {
      Counts(slots + |b.primary|, extras + |b.extras|, foreign + |b.foreign|)
    }

    predicate Fit() {
      slots < SLOT_LIMIT && extras < SLOT_LIMIT && foreign < SLOT_LIMIT
    }
  }

  function CountsOf(books: seq<BookRecords>): Counts {
    if books == [] then Counts(0, 0, 0) else CountsOf(books[..|books| - 1]).Add(books[|books| - 1])
  }

  /** Whether a book has a record: one without is not stored. */
  predicate Recorded(b: BookRecords) {
    b.primary != [] || b.extras != [] || b.foreign != []
  }

  predicate Hinted(b: BookRecords) {
    && (forall r <- b.primary :: r.1 <= HINT_MASK)
    && (forall r <- b.extras :: r.0 <= HINT_MASK)
    && (forall r <- b.foreign :: r.1 <= HINT_MASK)
  }

  /** Whether the writer takes the next book. */
  predicate Takes(before: seq<BookRecords>, b: BookRecords) {
    Recorded(b) ==> Hinted(b) && CountsOf(before).Add(b).Fit()
  }

  predicate TakesAll(books: seq<BookRecords>) {
    books == [] || (TakesAll(books[..|books| - 1]) && Takes(books[..|books| - 1], books[|books| - 1]))
  }

  /** The writer takes all the books exactly where every hint and every count fits. */
  lemma {:induction false} TakesAllMeans(books: seq<BookRecords>)
    ensures TakesAll(books) <==> CountsOf(books).Fit() && forall b <- books :: Hinted(b)
    ensures CountsOf(books).slots == |SlotKeys(books)|
  {
    if books != [] {
      var before, last := books[..|books| - 1], books[|books| - 1];
      assert books == before + [last];
      TakesAllMeans(before);
    }
  }

  lemma TakesNext(books: seq<BookRecords>, b: BookRecords)
    ensures TakesAll(books + [b]) <==> TakesAll(books) && Takes(books, b)
  {
    assert (books + [b])[..|books|] == books;
  }

  /** The books handed to the writer by the time the first `n` records are read. */
  ghost function BooksBegun(build: Build, n: nat): seq<BookRecords>
    requires build.Valid() && n <= |build.now.plan.records|
  {
    if n <= 1 then []
    else if build.now.plan.records[n - 2].book == build.now.plan.records[n - 1].book then BooksBegun(build, n - 1)
    else BooksBegun(build, n - 1) + [Finish(build.Contents(build.now.plan.records[n - 2].book, n - 1))]
  }

  /** And by the end. */
  ghost function AllBooks(build: Build): seq<BookRecords>
    requires build.Valid()
  {
    var n := |build.now.plan.records|;
    if n == 0 then [] else BooksBegun(build, n) + [Finish(build.Contents(build.now.plan.records[n - 1].book, n))]
  }

  lemma BooksBegunStep(build: Build, n: nat) returns (more: seq<BookRecords>)
    requires build.Valid() && n < |build.now.plan.records|
    ensures BooksBegun(build, n + 1) == BooksBegun(build, n) + more && |more| <= 1
  {
    more := if n == 0 || build.now.plan.records[n - 1].book == build.now.plan.records[n].book then []
            else [Finish(build.Contents(build.now.plan.records[n - 1].book, n))];
  }

  lemma TakesMore(books: seq<BookRecords>, more: seq<BookRecords>)
    requires |more| <= 1 && TakesAll(books + more)
    ensures TakesAll(books)
  {
    if more == [] {
      assert books + more == books;
    } else {
      assert more == [more[0]];
      TakesNext(books, more[0]);
    }
  }

  /** A book that is refused stays refused. */
  lemma RefusedStays(build: Build, n: nat)
    requires build.Valid() && n < |build.now.plan.records| && !TakesAll(BooksBegun(build, n))
    ensures !TakesAll(BooksBegun(build, n + 1))
  {
    var more := BooksBegunStep(build, n);
    if TakesAll(BooksBegun(build, n) + more) {
      TakesMore(BooksBegun(build, n), more);
    }
  }

  /** Why a build is refused, if so: a record without a slot, a book the writer refuses, or missing vectors. */
  ghost function Refusal(build: Build, warehouse: set<Digest>): Option<AssembleError>
    requires build.Valid()
  {
    var n, split := |build.now.plan.records|, build.Split();
    var m, missing := Decidable(split, n), Missing(split, warehouse);
    if !TakesAll(BooksBegun(build, m)) then Some(BadBook)
    else if m < n then Some(BadLedger(TooManyKeys))
    else if !TakesAll(AllBooks(build)) then Some(BadBook)
    else if missing > 0 then Some(MissingVectors(missing))
    else None
  }

  /** The loop's state: the books added, and the one being filled. */
  ghost predicate Progress(build: Build, n: nat, books: seq<BookRecords>, book: BookRecords)
    requires build.Valid() && n <= |build.now.plan.records|
  {
    && (n == 0 ==> books == [] && book == Empty(book.book))
    && (n > 0 ==> book.book == build.now.plan.records[n - 1].book && book == build.Contents(book.book, n))
    && Added(build, n, books, book.book)
    && Covered(build, n, books, book.book)
    && SlotKeys(books) + PrimaryKeys(book.primary) == build.Split().NewKeys(n)
  }

  /** The books added are those the writer was handed, and it took them. */
  ghost predicate Taken(build: Build, n: nat, books: seq<BookRecords>)
    requires build.Valid() && n <= |build.now.plan.records|
  {
    books == BooksBegun(build, n) && TakesAll(books)
  }

  /** What the loop carries from record to record. */
  datatype Adding = Adding(books: seq<BookRecords>, book: BookRecords)

  /** After `n` records: none where the writer has refused a book. */
  ghost predicate AddedAre(build: Build, n: nat, added: Option<Adding>)
    requires build.Valid() && n <= |build.now.plan.records|
  {
    if added.None? then !TakesAll(BooksBegun(build, n))
    else Progress(build, n, added.value.books, added.value.book) && Taken(build, n, added.value.books)
  }

  /** Each book added is before `limit`, in order, and holds exactly its records. */
  ghost predicate Added(build: Build, n: nat, books: seq<BookRecords>, limit: nat)
    requires build.Valid() && n <= |build.now.plan.records|
  {
    && (forall x, y :: 0 <= x < y < |books| ==> books[x].book < books[y].book)
    && (forall x :: 0 <= x < |books| ==> books[x].book < limit)
    && (forall x {:trigger Complete(build, n, books[x])} :: 0 <= x < |books| ==> Complete(build, n, books[x]))
  }

  /** A book with exactly its records among the first `n`. */
  ghost predicate Complete(build: Build, n: nat, b: BookRecords)
    requires build.Valid() && n <= |build.now.plan.records|
  {
    b == Finish(build.Contents(b.book, n))
  }

  /** Every record read is of a book added, or of the one being filled. */
  ghost predicate Covered(build: Build, n: nat, books: seq<BookRecords>, book: nat)
    requires n <= |build.now.plan.records|
  {
    forall i {:trigger Listed(books, build.now.plan.records[i].book)} :: 0 <= i < n ==>
      Listed(books, build.now.plan.records[i].book) || build.now.plan.records[i].book == book
  }

  ghost predicate Listed(books: seq<BookRecords>, book: nat) {
    exists x :: 0 <= x < |books| && books[x].book == book
  }

  lemma {:induction false} ContentsFresh(build: Build, book: nat, n: nat)
    requires build.Valid() && n <= |build.now.plan.records|
    requires forall i :: 0 <= i < n ==> build.now.plan.records[i].book != book
    ensures build.Contents(book, n) == Empty(book)
  {
    if n > 0 { ContentsFresh(build, book, n - 1); }
  }

  lemma SlotKeysAppend(books: seq<BookRecords>, b: BookRecords)
    ensures SlotKeys(books + [b]) == SlotKeys(books) + PrimaryKeys(b.primary)
  {
    assert (books + [b])[..|books|] == books;
  }

  lemma StartCovers(build: Build, n: nat, books: seq<BookRecords>, book: BookRecords)
    requires build.Valid() && 0 < n < |build.now.plan.records|
    requires Covered(build, n, books, book.book)
    ensures Covered(build, n, books + [Finish(book)], build.now.plan.records[n].book)
  {
    var records, more := build.now.plan.records, books + [Finish(book)];
    forall i {:trigger Listed(more, records[i].book)} | 0 <= i < n ensures Listed(more, records[i].book) {
      ListedStill(books, Finish(book), records[i].book);
      assert Listed(books, records[i].book) || records[i].book == book.book;
    }
  }

  lemma StartAdds(build: Build, n: nat, books: seq<BookRecords>, book: BookRecords, limit: nat)
    requires build.Valid() && n <= |build.now.plan.records| && Added(build, n, books, book.book)
    requires book == build.Contents(book.book, n) && book.book < limit
    ensures Added(build, n, books + [Finish(book)], limit)
  {
    var more := books + [Finish(book)];
    forall x {:trigger Complete(build, n, more[x])} | 0 <= x < |more| ensures Complete(build, n, more[x]) {
      assert x < |books| ==> Complete(build, n, books[x]);
    }
  }

  lemma NothingOfNext(build: Build, n: nat)
    requires build.Valid() && 0 < n < |build.now.plan.records|
    requires build.now.plan.records[n - 1].book != build.now.plan.records[n].book
    ensures build.now.plan.records[n - 1].book < build.now.plan.records[n].book
    ensures build.Contents(build.now.plan.records[n].book, n) == Empty(build.now.plan.records[n].book)
  {
    var records := build.now.plan.records;
    assert records[n - 1].Before(records[n]);
    forall i | 0 <= i < n ensures records[i].book != records[n].book {
      assert i < n - 1 ==> records[i].Before(records[n - 1]);
    }
    ContentsFresh(build, records[n].book, n);
  }

  /** The book being filled is added, and the next one starts empty. */
  lemma StartBook(build: Build, n: nat, books: seq<BookRecords>, book: BookRecords)
    requires build.Valid() && 0 < n < |build.now.plan.records|
    requires Progress(build, n, books, book) && build.now.plan.records[n].book != book.book
    ensures Filling(build, n, books + [Finish(book)], Empty(build.now.plan.records[n].book))
  {
    NothingOfNext(build, n);
    StartCovers(build, n, books, book);
    StartAdds(build, n, books, book, build.now.plan.records[n].book);
    SlotKeysAppend(books, Finish(book));
  }

  /** Record `n` is next, and `book` is its book so far. */
  ghost predicate Filling(build: Build, n: nat, books: seq<BookRecords>, book: BookRecords)
    requires build.Valid() && n < |build.now.plan.records|
  {
    && book.book == build.now.plan.records[n].book && book == build.Contents(book.book, n)
    && Added(build, n, books, book.book)
    && Covered(build, n, books, book.book)
    && SlotKeys(books) + PrimaryKeys(book.primary) == build.Split().NewKeys(n)
  }

  lemma AddedStep(build: Build, n: nat, books: seq<BookRecords>)
    requires build.Valid() && n < |build.now.plan.records|
    requires Added(build, n, books, build.now.plan.records[n].book)
    ensures Added(build, n + 1, books, build.now.plan.records[n].book)
  {
    forall x {:trigger Complete(build, n + 1, books[x])} | 0 <= x < |books| ensures Complete(build, n + 1, books[x]) {
      assert Complete(build, n, books[x]);
    }
  }

  lemma FillStep(build: Build, n: nat, books: seq<BookRecords>, book: BookRecords)
    requires build.Valid() && n < |build.now.plan.records| && Filling(build, n, books, book)
    ensures Progress(build, n + 1, books, build.AddRecord(book, n))
  {
    AddedStep(build, n, books);
    FillKeys(build, n, books, book);
  }

  lemma FillKeys(build: Build, n: nat, books: seq<BookRecords>, book: BookRecords)
    requires build.Valid() && n < |build.now.plan.records|
    requires SlotKeys(books) + PrimaryKeys(book.primary) == build.Split().NewKeys(n)
    ensures build.AddRecord(book, n).book == book.book
    ensures SlotKeys(books) + PrimaryKeys(build.AddRecord(book, n).primary) == build.Split().NewKeys(n + 1)
  {
    SlotStep(build.Split(), n);
    var keys, after := SlotKeys(books), PrimaryKeys(build.AddRecord(book, n).primary);
    assert after == PrimaryKeys(book.primary) +
      if build.Split().DispositionOf(n).Slot? then [build.now.plan.records[n].Key()] else [];
    assert keys + (PrimaryKeys(book.primary) + [build.now.plan.records[n].Key()]) ==
      (keys + PrimaryKeys(book.primary)) + [build.now.plan.records[n].Key()];
  }

  /** The slots among the first `n` records whose text the warehouse holds no vector of. */
  function MissingIn(records: seq<PlanRecord>, dispositions: seq<Disposition>, warehouse: set<Digest>, n: nat): nat
    requires n <= |records| && n <= |dispositions|
  {
    if n == 0 then 0 else
      MissingIn(records, dispositions, warehouse, n - 1) +
      if dispositions[n - 1].Slot? && records[n - 1].sha256 !in warehouse then 1 else 0
  }

  ghost function Missing(split: Split, warehouse: set<Digest>): nat
    requires split.Valid()
  {
    MissingIn(split.plan.records, Dispositions(split, |split.plan.records|), warehouse, |split.plan.records|)
  }

  /** What the loop is handed: each record's disposition and row, and the slots' windows. */
  ghost predicate Inputs(build: Build, dispositions: seq<Disposition>, rows: seq<Occurrence>, windows: map<Key, nat>)
    requires build.Valid()
  {
    && |dispositions| <= |build.now.plan.records|
    && dispositions == Dispositions(build.Split(), |dispositions|)
    && rows == build.now.Rows(|build.now.plan.records|)
    && forall key :: OrZero(Get(windows, key)) == SlotWindow(build.now.plan, key)
  }

  /**
   * The record-to-segment loop: book by book, each record put where its disposition says, and
   * each book handed to the writer as it ends. The records are those decided: all, or those
   * before one without a slot.
   */
  method AddBooks(build: Build, refused: bool, dispositions: seq<Disposition>, rows: seq<Occurrence>,
                  windows: map<Key, nat>, warehouse: set<Digest>)
    returns (result: Result<seq<BookRecords>, AssembleError>)
    requires build.Valid() && Inputs(build, dispositions, rows, windows)
    requires |dispositions| == Decidable(build.Split(), |build.now.plan.records|)
    requires refused <==> |dispositions| < |build.now.plan.records|
    ensures result.Success? <==> Refusal(build, warehouse).None?
    ensures result.Failure? ==> Some(result.error) == Refusal(build, warehouse)
    ensures result.Success? ==>
      && result.value == AllBooks(build) && BooksAre(build, result.value, |build.now.plan.records|)
      && SlotKeys(result.value) == build.Split().NewKeys(|build.now.plan.records|)
  {
    var added := AddRecords(build, dispositions, rows, windows);
    if added.None? {
      return Failure(BadBook);
    }
    if refused {
      return Failure(BadLedger(TooManyKeys));
    }
    var books := LastBook(build, added.value.books, added.value.book);
    if books.None? {
      return Failure(BadBook);
    }
    var missing := CountMissing(build.now.plan.records, dispositions, warehouse);
    if missing > 0 {
      return Failure(MissingVectors(missing));
    }
    return Success(books.value);
  }

  /** The records one after another; a book refused, the rest are not read. (`== true` keeps a predicate whole.) */
  method AddRecords(build: Build, dispositions: seq<Disposition>, rows: seq<Occurrence>, windows: map<Key, nat>)
    returns (added: Option<Adding>)
    requires build.Valid() && Inputs(build, dispositions, rows, windows)
    ensures AddedAre(build, |dispositions|, added) == true
  {
    added := Some(Adding([], Empty(0)));
    NoRecords(build);
    for n := 0 to |dispositions|
      invariant AddedAre(build, n, added) == true
    {
      added := AddNext(build, n, dispositions, rows, windows, added);
    }
  }

  lemma NoRecords(build: Build)
    requires build.Valid()
    ensures AddedAre(build, 0, Some(Adding([], Empty(0))))
  {
  }

  /** The slots whose vector the warehouse lacks. */
  method CountMissing(records: seq<PlanRecord>, dispositions: seq<Disposition>,
      warehouse: set<Digest>) returns (missing: nat)
    requires |dispositions| == |records|
    ensures missing == MissingIn(records, dispositions, warehouse, |records|)
  {
    missing := 0;
    for n := 0 to |records|
      invariant missing == MissingIn(records, dispositions, warehouse, n)
    {
      if dispositions[n].Slot? && records[n].sha256 !in warehouse {
        missing := missing + 1;
      }
    }
  }

  /** The book of record `n`: the one being filled, or the next, once the writer has taken that one. */
  method TurnTo(build: Build, n: nat, before: Adding) returns (added: Option<Adding>)
    requires build.Valid() && n < |build.now.plan.records| && AddedAre(build, n, Some(before))
    ensures added.None? ==> !TakesAll(BooksBegun(build, n + 1))
    ensures added.Some? ==>
      Filling(build, n, added.value.books, added.value.book) && Taken(build, n + 1, added.value.books)
  {
    var record := build.now.plan.records[n];
    if n == 0 {
      return Some(Adding(before.books, Empty(record.book)));
    }
    if record.book == before.book.book {
      return Some(before);
    }
    TakesNext(before.books, Finish(before.book));
    if !Takes(before.books, Finish(before.book)) {
      return None;
    }
    StartBook(build, n, before.books, before.book);
    return Some(Adding(before.books + [Finish(before.book)], Empty(record.book)));
  }

  /** One record of the loop: its book turned to, and the record added; nothing, once a book is refused. */
  method AddNext(build: Build, n: nat, dispositions: seq<Disposition>, rows: seq<Occurrence>,
                 windows: map<Key, nat>, before: Option<Adding>)
    returns (added: Option<Adding>)
    requires build.Valid() && Inputs(build, dispositions, rows, windows)
    requires n < |dispositions| && AddedAre(build, n, before) == true
    ensures AddedAre(build, n + 1, added)
  {
    if before.None? {
      RefusedStays(build, n);
      return None;
    }
    added := TurnTo(build, n, before.value);
    if added.None? {
      return;
    }
    var books, book := added.value.books, added.value.book;
    FillStep(build, n, books, book);
    DispositionsAt(build.Split(), |dispositions|, n);
    RowsAre(build.now, |build.now.plan.records|, n);
    var record := build.now.plan.records[n];
    var after := build.AddAs(book, record, dispositions[n], rows[n], OrZero(Get(windows, record.Key())));
    return Some(Adding(books, after));
  }

  method LastBook(build: Build, before: seq<BookRecords>, book: BookRecords)
    returns (books: Option<seq<BookRecords>>)
    requires build.Valid() && AddedAre(build, |build.now.plan.records|, Some(Adding(before, book)))
    ensures books.None? <==> !TakesAll(AllBooks(build))
    ensures books.Some? ==>
      && books.value == AllBooks(build) && BooksAre(build, books.value, |build.now.plan.records|)
      && SlotKeys(books.value) == build.Split().NewKeys(|build.now.plan.records|)
  {
    if |build.now.plan.records| == 0 {
      return Some([]);
    }
    TakesNext(before, Finish(book));
    if !Takes(before, Finish(book)) {
      return None;
    }
    BooksComplete(build, before, book);
    return Some(before + [Finish(book)]);
  }

  lemma BooksComplete(build: Build, before: seq<BookRecords>, book: BookRecords)
    requires build.Valid() && |build.now.plan.records| > 0
    requires Progress(build, |build.now.plan.records|, before, book)
    ensures BooksAre(build, before + [Finish(book)], |build.now.plan.records|)
    ensures SlotKeys(before + [Finish(book)]) == build.Split().NewKeys(|build.now.plan.records|)
  {
    var records, books := build.now.plan.records, before + [Finish(book)];
    SlotKeysAppend(before, Finish(book));
    assert records[|records| - 1] in records;
    StartAdds(build, |records|, before, book, |build.now.books|);
    forall i {:trigger Listed(books, records[i].book)} | 0 <= i < |records| ensures Listed(books, records[i].book) {
      ListedStill(before, Finish(book), records[i].book);
      assert Listed(before, records[i].book) || records[i].book == book.book;
    }
  }

  lemma ListedStill(books: seq<BookRecords>, b: BookRecords, book: nat)
    ensures Listed(books + [b], book) <==> Listed(books, book) || b.book == book
  {
    var more := books + [b];
    assert more[|books|] == b;
    forall x | 0 <= x < |books| ensures more[x] == books[x] {
    }
    if Listed(books, book) {
      var x :| 0 <= x < |books| && books[x].book == book;
      assert more[x].book == book;
    }
  }

  /** What the plan, the cosine and the threshold decide, with nothing else. */
  ghost function TargetsOf(plan: PlanRecords, cosine: Cosine, threshold: Option<real>): map<nat, Target> {
    if threshold.None? || threshold.value <= 0.0 then map[] else
      var q := Question(plan, cosine, threshold.value);
      map i: nat | i < |plan.records| && q.Aliased(i) :: q.Choice(i).value
  }

  ghost function ReleaseOf(plan: PlanRecords, books: seq<Name>, cosine: Cosine, threshold: Option<real>): Release {
    Release(plan, books, TargetsOf(plan, cosine, threshold))
  }

  method DecideTargets(plan: PlanRecords, cosine: Cosine, threshold: Option<real>)
    returns (result: Result<map<nat, Target>, AssembleError>)
    requires plan.Valid()
    ensures result.Failure? <==> threshold.Some? && threshold.value > 1.0
    ensures result.Failure? ==> result.error == BadThreshold
    ensures result.Success? ==> result.value == TargetsOf(plan, cosine, threshold)
  {
    var aliases := DecideWith(plan, cosine, threshold);
    if aliases.Failure? {
      return Failure(BadThreshold);
    }
    return Success(aliases.value.targets);
  }

  /** The release before a delta, as its ledger remembers it, with its aliases decided again. */
  ghost function Earlier(ledger: Ledger, cosine: Cosine): Release
    requires ledger.occurrences.Some?
  {
    ReleaseOf(ledger.occurrences.value, ledger.books, cosine, ledger.aliasThreshold)
  }
}
