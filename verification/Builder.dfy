/** The second implementation: a base built straight from a corpus, book by book. */
module Builder {
  import opened Wrappers
  import opened Plan
  import opened LedgerSplit
  import opened LedgerLaws
  import opened Windows
  import opened Assemble

  /** A chunk the recipe makes of a line: what a plan records of it, but the book. */
  datatype Chunk = Chunk(hint: nat, window: nat, short: bool, sha256: Digest)

  function Recorded(chunk: Chunk, book: nat): PlanRecord {
    PlanRecord(book, chunk.hint, chunk.window, chunk.short, chunk.sha256)
  }

  function RecordsOf(chunks: seq<Chunk>, book: nat): seq<PlanRecord> {
    seq(|chunks|, c requires 0 <= c < |chunks| => Recorded(chunks[c], book))
  }

  /** The plan's records of a corpus: each book's chunks in order, one book after another. */
  function Stream(corpus: seq<seq<Chunk>>): seq<PlanRecord> {
    if corpus == [] then [] else
      Stream(corpus[..|corpus| - 1]) + RecordsOf(corpus[|corpus| - 1], |corpus| - 1)
  }

  /** Where book `b` starts in the stream. */
  function StartOf(corpus: seq<seq<Chunk>>, b: nat): nat
    requires b <= |corpus|
  {
    |Stream(corpus[..b])|
  }

  lemma {:induction false} StreamPrefix(corpus: seq<seq<Chunk>>, b: nat)
    requires b <= |corpus|
    ensures StartOf(corpus, b) <= |Stream(corpus)|
    ensures Stream(corpus[..b]) == Stream(corpus)[..StartOf(corpus, b)]
  {
    if b < |corpus| {
      var front := corpus[..|corpus| - 1];
      assert front[..b] == corpus[..b];
      StreamPrefix(front, b);
    } else {
      assert corpus[..b] == corpus;
    }
  }

  /** Where chunk `c` of book `b` is in the stream. */
  lemma StreamAt(corpus: seq<seq<Chunk>>, b: nat, c: nat)
    requires b < |corpus| && c < |corpus[b]|
    ensures StartOf(corpus, b) + c < |Stream(corpus)|
    ensures Stream(corpus)[StartOf(corpus, b) + c] == Recorded(corpus[b][c], b)
  {
    StreamPrefix(corpus, b + 1);
    assert corpus[..b + 1][..b] == corpus[..b];
    assert Stream(corpus[..b + 1])[StartOf(corpus, b) + c] == Recorded(corpus[b][c], b);
  }

  /** One book as the builder assembles it. */
  datatype Book = Book(primary: seq<(Key, nat)>, extras: seq<(nat, nat)>)

  /** The slots so far, their keys in order and each one's window. */
  datatype Table = Table(slots: map<Key, nat>, order: seq<Key>, windows: seq<nat>)

  /** The same release by the other path: a base of the plan, with no alias. */
  function AsBuild(plan: PlanRecords, books: seq<Name>): Build {
    Build(Release(plan, books, map[]), None, if plan.windowed then Some({}) else None)
  }

  /** A slot number as the builder keeps it: in 32 bits, unchecked. */
  function Cast(slot: nat): nat {
    slot % SLOT_LIMIT
  }

  lemma CastFits(slot: nat)
    ensures Cast(slot) <= slot
    ensures slot < SLOT_LIMIT ==> Cast(slot) == slot
    ensures Cast(slot) < SLOT_LIMIT && Cast(slot + SLOT_LIMIT) == Cast(slot)
  {
  }

  ghost predicate SlotIs(slots: map<Key, nat>, order: seq<Key>, slot: nat) {
    slot < |order| && order[slot] in slots && slots[order[slot]] == Cast(slot)
  }

  /** The slot map holds each new key's place in the order of first appearance, cast. */
  ghost predicate CastSlotsAre(slots: map<Key, nat>, order: seq<Key>) {
    && (forall key :: key in slots <==> key in order)
    && (forall slot: nat {:trigger SlotIs(slots, order, slot)} :: slot < |order| ==> SlotIs(slots, order, slot))
  }

  lemma CastSlotsAppend(slots: map<Key, nat>, order: seq<Key>, key: Key)
    requires CastSlotsAre(slots, order) && key !in order
    ensures CastSlotsAre(slots[key := Cast(|order|)], order + [key])
  {
    var after, keys := slots[key := Cast(|order|)], order + [key];
    forall slot: nat | slot < |keys| ensures SlotIs(after, keys, slot) {
      assert slot < |order| ==> SlotIs(slots, order, slot);
    }
  }

  lemma CastSlotsIndex(slots: map<Key, nat>, order: seq<Key>, key: Key)
    requires CastSlotsAre(slots, order) && key in order
    ensures slots[key] == Cast(IndexOf(order, key)) < |order|
    ensures |order| <= SLOT_LIMIT ==> slots[key] == IndexOf(order, key)
  {
    var i := IndexOf(order, key);
    assert SlotIs(slots, order, i);
    CastFits(i);
  }

  ghost predicate StateAgrees(plan: PlanRecords, books: seq<Name>, n: nat, state: Table) {
    && n <= |plan.records|
    && state.order == AsBuild(plan, books).Split().NewKeys(n) && CastSlotsAre(state.slots, state.order)
    && |state.windows| == |state.order|
    && (|state.order| <= SLOT_LIMIT ==> WindowsAre(plan, n, state.order, state.windows))
  }

  ghost predicate WindowsAre(plan: PlanRecords, n: nat, order: seq<Key>, windows: seq<nat>)
    requires n <= |plan.records|
  {
    && |windows| == |order|
    && forall s :: 0 <= s < |order| ==> Some(windows[s]) == LeastWindow(plan, n, order[s], 0)
  }

  ghost predicate BookAgrees(plan: PlanRecords, books: seq<Name>, b: nat, n: nat, book: Book)
    requires AsBuild(plan, books).Valid() && n <= |plan.records|
  {
    var contents := AsBuild(plan, books).Contents(b, n);
    book == Book(contents.primary, CastExtras(contents.extras)) && contents.foreign == []
  }

  function CastExtras(extras: seq<(nat, nat)>): seq<(nat, nat)> {
    seq(|extras|, i requires 0 <= i < |extras| => (extras[i].0, Cast(extras[i].1)))
  }

  lemma CastAppends(extras: seq<(nat, nat)>, hint: nat, slot: nat)
    ensures CastExtras(extras + [(hint, slot)]) == CastExtras(extras) + [(hint, Cast(slot))]
  {
  }

  /** One more record: every slot of its key takes the lesser window. */
  lemma WindowStep(plan: PlanRecords, n: nat, order: seq<Key>, windows: seq<nat>, slot: nat)
    requires n < |plan.records| && Distinct(order) && WindowsAre(plan, n, order, windows)
    requires slot < |order| && order[slot] == plan.records[n].Key()
    ensures WindowsAre(plan, n + 1, order, windows[slot := Min(windows[slot], plan.records[n].window)])
  {
  }

  lemma WindowNew(plan: PlanRecords, n: nat, order: seq<Key>, windows: seq<nat>)
    requires n < |plan.records| && WindowsAre(plan, n, order, windows)
    requires plan.records[n].Key() !in order
    requires forall i :: 0 <= i < n ==> plan.records[i].Key() != plan.records[n].Key()
    ensures WindowsAre(plan, n + 1, order + [plan.records[n].Key()], windows + [plan.records[n].window])
  {
    LeastWindowMeans(plan, n, plan.records[n].Key());
  }

  /** With no release before and no alias, a record is a slot, an extra or a repeat. */
  lemma AddedWithout(plan: PlanRecords, books: seq<Name>, n: nat, contents: BookRecords)
    requires AsBuild(plan, books).Valid() && n < |plan.records|
    ensures var build, r, after := AsBuild(plan, books), plan.records[n], AsBuild(plan, books).AddRecord(contents, n);
      var d := build.Split().DispositionOf(n);
      && (d.Slot? || d.Extra? || d.Repeat?)
      && after.primary == contents.primary + (if d.Slot? then [(r.Key(), r.ordinal)] else [])
      && after.extras == contents.extras + (if d.Extra? then [(r.ordinal, d.slot)] else [])
      && after.occurrences == contents.occurrences + (if plan.windowed then [OccurrenceAt(plan, n)] else [])
      && after.foreign == contents.foreign
  {
  }

  /** The parent in hand is the first window of the last line read of this book. */
  ghost predicate ParentIs(plan: PlanRecords, b: nat, n: nat, parent: Option<(nat, Key)>)
    requires plan.Valid() && n <= |plan.records|
  {
    n > 0 && plan.records[n - 1].book == b ==>
      parent == Some((plan.records[n - 1].ordinal, plan.records[Anchor(plan, n - 1)].Key()))
  }

  /** One chunk's place: its anchor, and its row. A window always follows its line's anchor. */
  method Locate(ghost plan: PlanRecords, ghost n: nat, chunk: Chunk, b: nat, before: Option<(nat, Key)>)
    returns (parent: Option<(nat, Key)>, row: Result<Occurrence, ()>)
    requires plan.Valid() && n < |plan.records| && plan.records[n] == Recorded(chunk, b)
    requires ParentIs(plan, b, n, before)
    ensures row == Success(OccurrenceAt(plan, n))
    ensures ParentIs(plan, b, n + 1, parent)
  {
    assert Begun(plan.records, n);
    parent := if chunk.window == 0 then Some((chunk.hint, chunk.sha256.key)) else before;
    if parent.None? || parent.value.0 != chunk.hint {
      return parent, Failure(());
    }
    row := Success(Occurrence(chunk.sha256.key, b, chunk.hint, parent.value.1, chunk.window));
  }

  /** A record of a key that has a slot: the slot's window is the lesser of the two. */
  lemma SlotAgain(plan: PlanRecords, books: seq<Name>, n: nat, before: Table)
    requires AsBuild(plan, books).Valid() && n < |plan.records| && StateAgrees(plan, books, n, before)
    requires plan.records[n].Key() in before.slots
    ensures before.slots[plan.records[n].Key()] < |before.windows|
    ensures var slot := before.slots[plan.records[n].Key()];
      StateAgrees(plan, books, n + 1,
        before.(windows := before.windows[slot := Min(before.windows[slot], plan.records[n].window)]))
  {
    var split, key := AsBuild(plan, books).Split(), plan.records[n].Key();
    NewKeysAre(split, n);
    CastSlotsIndex(before.slots, before.order, key);
    if |before.order| <= SLOT_LIMIT {
      WindowStep(plan, n, before.order, before.windows, before.slots[key]);
    }
  }

  /** A record of a key that has none: the next slot is the key's. */
  lemma SlotGiven(plan: PlanRecords, books: seq<Name>, n: nat, before: Table)
    requires AsBuild(plan, books).Valid() && n < |plan.records| && StateAgrees(plan, books, n, before)
    requires plan.records[n].Key() !in before.slots
    ensures var key := plan.records[n].Key();
      StateAgrees(plan, books, n + 1, Table(before.slots[key := Cast(|before.order|)], before.order + [key],
        before.windows + [plan.records[n].window]))
  {
    var split, key := AsBuild(plan, books).Split(), plan.records[n].Key();
    KeysMeans(split, n, key);
    NewKeysAre(split, n);
    if |before.order| <= SLOT_LIMIT { WindowNew(plan, n, before.order, before.windows); }
    CastSlotsAppend(before.slots, before.order, key);
  }

  /** A record's disposition, by its key's slot and what its book has recorded. */
  lemma Disposed(plan: PlanRecords, books: seq<Name>, n: nat, before: Table)
    requires AsBuild(plan, books).Valid() && n < |plan.records| && StateAgrees(plan, books, n, before)
    ensures var split, key := AsBuild(plan, books).Split(), plan.records[n].Key();
      && split.BookKeys(n + 1, plan.records[n].book) == split.BookKeys(n, plan.records[n].book) + {key}
      && (split.DispositionOf(n).Repeat? <==> key in split.BookKeys(n, plan.records[n].book))
      && (split.DispositionOf(n).Slot? ==> key !in before.slots)
      && (split.DispositionOf(n).Extra? ==>
        key in before.slots && Cast(split.DispositionOf(n).slot) == before.slots[key])
  {
    var split, key := AsBuild(plan, books).Split(), plan.records[n].Key();
    NewKeysAre(split, n);
    NotRepeated(split, n);
    if key in before.slots { CastSlotsIndex(before.slots, before.order, key); }
  }

  /** One chunk's slot: the window of its key's slot, then its record, unless it repeats. */
  method AddChunk(ghost plan: PlanRecords, ghost books: seq<Name>, ghost n: nat, chunk: Chunk,
                  before: Table, recordedBefore: set<Key>, was: Book)
    returns (state: Table, recorded: set<Key>, book: Book)
    requires AsBuild(plan, books).Valid() && n < |plan.records|
    requires plan.records[n] == Recorded(chunk, plan.records[n].book)
    requires StateAgrees(plan, books, n, before)
    requires recordedBefore == AsBuild(plan, books).Split().BookKeys(n, plan.records[n].book)
    requires BookAgrees(plan, books, plan.records[n].book, n, was)
    ensures StateAgrees(plan, books, n + 1, state)
    ensures recorded == AsBuild(plan, books).Split().BookKeys(n + 1, plan.records[n].book)
    ensures BookAgrees(plan, books, plan.records[n].book, n + 1, book)
  {
    ghost var contents := AsBuild(plan, books).Contents(plan.records[n].book, n);
    var key, hint, window := chunk.sha256.key, chunk.hint, chunk.window;
    AddedWithout(plan, books, n, contents);
    Disposed(plan, books, n, before);
    state, book, recorded := before, was, recordedBefore + {key};
    if key in before.slots {
      SlotAgain(plan, books, n, before);
      var slot := before.slots[key];
      state := state.(windows := before.windows[slot := Min(before.windows[slot], window)]);
    } else {
      SlotGiven(plan, books, n, before);
    }
    if key in recordedBefore {
      RecordedHasSlot(plan, books, n, before);
      return;
    }
    if key in before.slots {
      CastAppends(contents.extras, hint, AsBuild(plan, books).Split().DispositionOf(n).slot);
      book := book.(extras := was.extras + [(hint, before.slots[key])]);
    } else {
      state := Table(before.slots[key := Cast(|before.order|)], before.order + [key], before.windows + [window]);
      book := book.(primary := was.primary + [(key, hint)]);
    }
  }

  /** What a book has recorded already has a slot. */
  lemma RecordedHasSlot(plan: PlanRecords, books: seq<Name>, n: nat, state: Table)
    requires AsBuild(plan, books).Valid() && n < |plan.records| && StateAgrees(plan, books, n, state)
    requires plan.records[n].Key() in AsBuild(plan, books).Split().BookKeys(n, plan.records[n].book)
    ensures plan.records[n].Key() in state.slots
  {
    var split, key := AsBuild(plan, books).Split(), plan.records[n].Key();
    BookKeysMeans(split, n, plan.records[n].book, key);
    KeysMeans(split, n, key);
    NewKeysAre(split, n);
  }

  /** Which book a record of the stream is of. */
  lemma {:induction false} StreamBooks(corpus: seq<seq<Chunk>>, b: nat, i: nat)
    requires b <= |corpus| && i < |Stream(corpus)|
    ensures Stream(corpus)[i].book < b <==> i < StartOf(corpus, b)
    ensures Stream(corpus)[i].book < |corpus|
  {
    StreamPrefix(corpus, b);
    if corpus != [] {
      var front := corpus[..|corpus| - 1];
      if b < |corpus| {
        assert front[..b] == corpus[..b];
        StreamPrefix(front, b);
      } else {
        assert corpus[..b] == corpus;
      }
      if i < |Stream(front)| {
        StreamBooks(front, if b < |corpus| then b else |front|, i);
        assert front[..|front|] == front;
      }
    }
  }

  lemma {:induction false} ContentsAfter(build: Build, book: nat, from: nat, to: nat)
    requires build.Valid() && from <= to <= |build.now.plan.records|
    requires forall i :: from <= i < to ==> build.now.plan.records[i].book != book
    ensures build.Contents(book, to) == build.Contents(book, from)
  {
    if from < to { ContentsAfter(build, book, from, to - 1); }
  }

  ghost predicate IsStream(plan: PlanRecords, books: seq<Name>, corpus: seq<seq<Chunk>>) {
    plan.records == Stream(corpus) && |books| == |corpus| && AsBuild(plan, books).Valid()
  }

  /** Where a book begins, nothing of it is recorded; where it ends, all of it is. */
  lemma BookBounds(plan: PlanRecords, books: seq<Name>, corpus: seq<seq<Chunk>>, b: nat)
    requires IsStream(plan, books, corpus) && b < |corpus|
    ensures var build, lo, hi := AsBuild(plan, books), StartOf(corpus, b), StartOf(corpus, b + 1);
      && lo + |corpus[b]| == hi <= |plan.records|
      && build.Contents(b, lo) == Empty(b) && build.Split().BookKeys(lo, b) == {}
      && build.Contents(b, |plan.records|) == build.Contents(b, hi)
      && (lo > 0 ==> plan.records[lo - 1].book != b)
  {
    var build, lo, hi := AsBuild(plan, books), StartOf(corpus, b), StartOf(corpus, b + 1);
    assert corpus[..b + 1][..b] == corpus[..b];
    StreamPrefix(corpus, b);
    StreamPrefix(corpus, b + 1);
    forall i | 0 <= i < |plan.records| && !(lo <= i < hi) ensures plan.records[i].book != b {
      StreamBooks(corpus, b, i);
      StreamBooks(corpus, b + 1, i);
    }
    ContentsFresh(build, b, lo);
    BookKeysFresh(build.Split(), lo, b);
    ContentsAfter(build, b, hi, |plan.records|);
  }

  /** A book being embedded: its records and rows so far, its keys, and the parent in hand. */
  datatype Progress = Progress(
    table: Table, book: Book, rows: seq<Occurrence>, recorded: set<Key>, parent: Option<(nat, Key)>)

  ghost predicate ProgressAgrees(plan: PlanRecords, books: seq<Name>, b: nat, n: nat, p: Progress)
    requires AsBuild(plan, books).Valid() && n <= |plan.records|
  {
    && StateAgrees(plan, books, n, p.table)
    && BookAgrees(plan, books, b, n, p.book) && p.rows == AsBuild(plan, books).Contents(b, n).occurrences
    && p.recorded == AsBuild(plan, books).Split().BookKeys(n, b)
    && ParentIs(plan, b, n, p.parent)
  }

  /** What is embedded of book `b` after `n` records of the plan. */
  ghost predicate Embedded(plan: PlanRecords, books: seq<Name>, b: nat, n: nat, p: Progress) {
    AsBuild(plan, books).Valid() && n <= |plan.records| && ProgressAgrees(plan, books, b, n, p)
  }

  /** Record `n` is this chunk of book `b`. */
  ghost predicate ChunkIs(plan: PlanRecords, n: nat, chunk: Chunk, b: nat) {
    n < |plan.records| && plan.records[n] == Recorded(chunk, b)
  }

  method EmbedChunk(ghost plan: PlanRecords, ghost books: seq<Name>, ghost n: nat, windowed: bool,
                    chunk: Chunk, b: nat, before: Progress)
    returns (result: Result<Progress, ()>)
    requires ChunkIs(plan, n, chunk, b) && windowed == plan.windowed
    requires Embedded(plan, books, b, n, before) == true
    ensures result.Success? && Embedded(plan, books, b, n + 1, result.value) == true
  {
    AddedWithout(plan, books, n, AsBuild(plan, books).Contents(b, n));
    var parent, row := Locate(plan, n, chunk, b, before.parent);
    if row.Failure? {
      return Failure(());
    }
    var rows := if windowed then before.rows + [row.value] else before.rows;
    var table, recorded, book := AddChunk(plan, books, n, chunk, before.table, before.recorded, before.book);
    return Success(Progress(table, book, rows, recorded, parent));
  }

  /** A book's chunks are the plan's records from `lo` on. */
  ghost predicate ChunksAt(plan: PlanRecords, lo: nat, chunks: seq<Chunk>, b: nat) {
    forall c {:trigger chunks[c]} :: 0 <= c < |chunks| ==> ChunkIs(plan, lo + c, chunks[c], b)
  }

  /** (`== true` keeps a predicate whole.) */
  method EmbedChunks(ghost plan: PlanRecords, ghost books: seq<Name>, ghost lo: nat, windowed: bool,
                     chunks: seq<Chunk>, b: nat, before: Progress)
    returns (result: Result<Progress, ()>)
    requires windowed == plan.windowed && ChunksAt(plan, lo, chunks, b)
    requires Embedded(plan, books, b, lo, before) == true
    ensures result.Success? && Embedded(plan, books, b, lo + |chunks|, result.value) == true
  {
    var progress := before;
    for c := 0 to |chunks|
      invariant Embedded(plan, books, b, lo + c, progress) == true
    {
      var next := EmbedChunk(plan, books, lo + c, windowed, chunks[c], b, progress);
      if next.Failure? {
        return Failure(());
      }
      progress := next.value;
    }
    return Success(progress);
  }

  /** Before a book's first chunk, none of it is recorded and no parent is in hand. */
  lemma BookBegins(plan: PlanRecords, books: seq<Name>, corpus: seq<seq<Chunk>>, b: nat, before: Table)
    requires IsStream(plan, books, corpus) && b < |corpus|
    requires StateAgrees(plan, books, StartOf(corpus, b), before)
    ensures ChunksAt(plan, StartOf(corpus, b), corpus[b], b)
    ensures Embedded(plan, books, b, StartOf(corpus, b), Progress(before, Book([], []), [], {}, None))
  {
    BookBounds(plan, books, corpus, b);
    forall c {:trigger corpus[b][c]} | 0 <= c < |corpus[b]|
      ensures ChunkIs(plan, StartOf(corpus, b) + c, corpus[b][c], b)
    {
      StreamAt(corpus, b, c);
    }
  }

  /** One book: its chunks in order, each located and given its slot. */
  method EmbedBook(ghost plan: PlanRecords, ghost books: seq<Name>, windowed: bool, corpus: seq<seq<Chunk>>,
                   b: nat, before: Table)
    returns (result: Result<Progress, ()>)
    requires IsStream(plan, books, corpus) && b < |corpus| && windowed == plan.windowed
    requires StateAgrees(plan, books, StartOf(corpus, b), before)
    ensures result.Success?
    ensures StateAgrees(plan, books, StartOf(corpus, b + 1), result.value.table)
    ensures BookAgrees(plan, books, b, |plan.records|, result.value.book)
    ensures result.value.rows == AsBuild(plan, books).Contents(b, |plan.records|).occurrences
  {
    BookBegins(plan, books, corpus, b, before);
    result := EmbedChunks(
      plan, books, StartOf(corpus, b), windowed, corpus[b], b, Progress(before, Book([], []), [], {}, None));
    BookBounds(plan, books, corpus, b);
  }

  /** The books embedded so far are the assembly's. */
  ghost predicate BooksAgree(plan: PlanRecords, books: seq<Name>, out: seq<Book>, rows: seq<seq<Occurrence>>)
    requires AsBuild(plan, books).Valid()
  {
    && |out| == |rows|
    && forall a {:trigger AllAgree(plan, books, a, out[a], rows[a])} :: 0 <= a < |out| ==>
      AllAgree(plan, books, a, out[a], rows[a])
  }

  ghost predicate AllAgree(plan: PlanRecords, books: seq<Name>, b: nat, book: Book, rows: seq<Occurrence>)
    requires AsBuild(plan, books).Valid()
  {
    && BookAgrees(plan, books, b, |plan.records|, book)
    && rows == AsBuild(plan, books).Contents(b, |plan.records|).occurrences
  }

  /** Whether a hint can name every line of a book. */
  predicate Nameable(lines: seq<nat>, b: nat)
    requires b < |lines|
  {
    lines[b] <= HINT_MASK
  }

  /**
   * The whole corpus, of whose books `lines` says how long each is: refused exactly where one
   * has more lines than a hint can name. Otherwise the builder's slots, rows and extras are
   * those the split and the assembly give the same records, with no release before and no
   * alias, but for extras' slot numbers, which are cast. So the two agree, windows included,
   * wherever the split accepts the records: up to 2^32 new keys. Past them the builder goes on
   * where the split refuses.
   */
  method EmbedCorpus(ghost plan: PlanRecords, ghost books: seq<Name>, windowed: bool, corpus: seq<seq<Chunk>>,
                     lines: seq<nat>)
    returns (result: Result<(seq<Book>, seq<seq<Occurrence>>, Table), ()>)
    requires IsStream(plan, books, corpus) && windowed == plan.windowed && |lines| == |corpus|
    ensures result.Success? <==> forall b :: 0 <= b < |corpus| ==> Nameable(lines, b)
    ensures result.Success? ==>
      && |result.value.0| == |corpus| && BooksAgree(plan, books, result.value.0, result.value.1)
      && result.value.2.order == AsBuild(plan, books).Split().NewKeys(|plan.records|)
      && |result.value.2.windows| == |result.value.2.order|
    ensures result.Success? && |result.value.2.order| <= SLOT_LIMIT ==>
      && (forall b :: 0 <= b < |corpus| ==>
          result.value.0[b].extras == AsBuild(plan, books).Contents(b, |plan.records|).extras)
      && (forall s :: 0 <= s < |result.value.2.order| ==>
          result.value.2.windows[s] == SlotWindow(plan, result.value.2.order[s]))
  {
    var table, out, rows := Table(map[], [], []), [], [];
    for b := 0 to |corpus|
      invariant StateAgrees(plan, books, StartOf(corpus, b), table) == true
      invariant |out| == b && BooksAgree(plan, books, out, rows) == true
      invariant forall a :: 0 <= a < b ==> Nameable(lines, a)
    {
      if !Nameable(lines, b) {
        return Failure(());
      }
      var next := EmbedBook(plan, books, windowed, corpus, b, table);
      if next.Failure? {
        return Failure(());
      }
      BooksAgreeNext(plan, books, out, rows, next.value.book, next.value.rows);
      table, out, rows := next.value.table, out + [next.value.book], rows + [next.value.rows];
    }
    CorpusEnds(plan, books, corpus, table, out, rows);
    return Success((out, rows, table));
  }

  lemma BooksAgreeNext(plan: PlanRecords, books: seq<Name>, out: seq<Book>, rows: seq<seq<Occurrence>>,
      book: Book, more: seq<Occurrence>)
    requires AsBuild(plan, books).Valid() && BooksAgree(plan, books, out, rows)
    requires AllAgree(plan, books, |out|, book, more) == true
    ensures BooksAgree(plan, books, out + [book], rows + [more]) == true
  {
    var outs, all := out + [book], rows + [more];
    forall a {:trigger AllAgree(plan, books, a, outs[a], all[a])} | 0 <= a < |outs|
      ensures AllAgree(plan, books, a, outs[a], all[a]) == true
    {
      if a < |out| { assert AllAgree(plan, books, a, out[a], rows[a]) == true; }
    }
  }

  /** At the end the table is the split's, and where the slots fit no extra was changed by the cast. */
  lemma CorpusEnds(plan: PlanRecords, books: seq<Name>, corpus: seq<seq<Chunk>>, table: Table, out: seq<Book>,
                   rows: seq<seq<Occurrence>>)
    requires IsStream(plan, books, corpus) && StateAgrees(plan, books, StartOf(corpus, |corpus|), table)
    requires |out| == |corpus| && BooksAgree(plan, books, out, rows)
    ensures table.order == AsBuild(plan, books).Split().NewKeys(|plan.records|)
    ensures |table.windows| == |table.order|
    ensures |table.order| <= SLOT_LIMIT ==>
      && (forall b :: 0 <= b < |corpus| ==>
          out[b].extras == AsBuild(plan, books).Contents(b, |plan.records|).extras)
      && (forall s :: 0 <= s < |table.order| ==> table.windows[s] == SlotWindow(plan, table.order[s]))
  {
    assert corpus[..|corpus|] == corpus;
    if |table.order| <= SLOT_LIMIT {
      forall b | 0 <= b < |corpus| ensures out[b].extras == AsBuild(plan, books).Contents(b, |plan.records|).extras {
        assert AllAgree(plan, books, b, out[b], rows[b]);
        ExtrasFit(plan, books, b, |plan.records|);
      }
    }
  }

  ghost predicate Fits(extras: seq<(nat, nat)>) {
    CastExtras(extras) == extras
  }

  lemma FitsAppend(extras: seq<(nat, nat)>, hint: nat, slot: nat)
    requires Fits(extras) && slot < SLOT_LIMIT
    ensures Fits(extras + [(hint, slot)])
  {
    CastFits(slot);
    CastAppends(extras, hint, slot);
  }

  /** Where the slots fit, the extras' numbers are what they were before they were cast. */
  lemma {:induction false} ExtrasFit(plan: PlanRecords, books: seq<Name>, b: nat, n: nat)
    requires AsBuild(plan, books).Valid() && n <= |plan.records|
    requires |AsBuild(plan, books).Split().NewKeys(|plan.records|)| <= SLOT_LIMIT
    ensures Fits(AsBuild(plan, books).Contents(b, n).extras)
  {
    if n > 0 {
      ExtrasFit(plan, books, b, n - 1);
      ExtraFits(plan, books, b, n - 1);
    }
  }

  lemma ExtraFits(plan: PlanRecords, books: seq<Name>, b: nat, n: nat)
    requires AsBuild(plan, books).Valid() && n < |plan.records|
    requires |AsBuild(plan, books).Split().NewKeys(|plan.records|)| <= SLOT_LIMIT
    requires Fits(AsBuild(plan, books).Contents(b, n).extras)
    ensures Fits(AsBuild(plan, books).Contents(b, n + 1).extras)
  {
    var build := AsBuild(plan, books);
    var split, before := build.Split(), build.Contents(b, n);
    AddedWithout(plan, books, n, before);
    NewKeysPrefix(split, n, |plan.records|);
    var d := split.DispositionOf(n);
    if d.Extra? {
      FitsAppend(before.extras, plan.records[n].ordinal, d.slot);
    }
  }
}
