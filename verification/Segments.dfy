/** What a segment holds, as sets: its book-and-key pairs and its locations. */
module Segments {
  import opened Wrappers
  import opened Plan
  import opened Alias
  import opened AliasLaws
  import opened LedgerSplit
  import opened LedgerLaws
  import opened Locations
  import opened Windows
  import opened OccurrenceRows
  import opened Assemble

  datatype Location = Location(name: Name, key: Key, hint: nat, anchor: Key, window: nat)

  function LocationOf(name: Name, o: Occurrence): Location {
    Location(name, o.key, o.hint, o.anchor, o.window)
  }

  function FirstsOf(s: seq<(Key, nat)>): set<Key> {
    if s == [] then {} else FirstsOf(s[..|s| - 1]) + {s[|s| - 1].0}
  }

  /** The keys of the extras: each names a slot of the segment. */
  function ExtraKeys(extras: seq<(nat, nat)>, slotKeys: seq<Key>): set<Key> {
    if extras == [] then {} else
      var slot := extras[|extras| - 1].1;
      ExtraKeys(extras[..|extras| - 1], slotKeys) + if slot < |slotKeys| then {slotKeys[slot]} else {}
  }

  /** The keys a book records. */
  function RecordedKeys(b: BookRecords, slotKeys: seq<Key>): set<Key> {
    FirstsOf(b.primary) + ExtraKeys(b.extras, slotKeys) + FirstsOf(b.foreign)
  }

  lemma FirstsAppend(s: seq<(Key, nat)>, x: (Key, nat))
    ensures FirstsOf(s + [x]) == FirstsOf(s) + {x.0}
  {
    assert (s + [x])[..|s|] == s;
  }

  lemma ExtraAppend(extras: seq<(nat, nat)>, x: (nat, nat), slotKeys: seq<Key>)
    ensures ExtraKeys(extras + [x], slotKeys) ==
      ExtraKeys(extras, slotKeys) + if x.1 < |slotKeys| then {slotKeys[x.1]} else {}
  {
    assert (extras + [x])[..|extras|] == extras;
  }

  /** The first line a list of records gives `key`. */
  ghost function FirstLine(s: seq<(Key, nat)>, key: Key): Option<nat> {
    if s == [] then None else
      var before, last := FirstLine(s[..|s| - 1], key), s[|s| - 1];
      if last.0 == key then Least(before, last.1) else before
  }

  lemma FirstLineAppend(s: seq<(Key, nat)>, x: (Key, nat), key: Key)
    ensures FirstLine(s + [x], key) == if x.0 == key then Least(FirstLine(s, key), x.1) else FirstLine(s, key)
  {
    assert (s + [x])[..|s|] == s;
  }

  lemma {:induction false} InsertLeastFirstLine(s: seq<(Key, nat)>, x: (Key, nat), key: Key)
    ensures FirstLine(InsertLeast(s, x), key) == FirstLine(s + [x], key)
  {
    FirstLineAppend(s, x, key);
    if s != [] && s[|s| - 1].0 >= x.0 {
      var before, last := s[..|s| - 1], s[|s| - 1];
      if last.0 == x.0 {
        FirstLineAppend(before, (x.0, Min(last.1, x.1)), key);
      } else {
        InsertLeastFirstLine(before, x, key);
        FirstLineAppend(before, x, key);
        FirstLineAppend(InsertLeast(before, x), last, key);
      }
    }
  }

  /** Sorting and deduplicating the foreign records keeps every key, at its first line. */
  lemma {:induction false} LeastPerKeyFirstLine(s: seq<(Key, nat)>, key: Key)
    ensures FirstLine(LeastPerKey(s), key) == FirstLine(s, key)
  {
    if s != [] {
      var before, last := s[..|s| - 1], s[|s| - 1];
      LeastPerKeyFirstLine(before, key);
      InsertLeastFirstLine(LeastPerKey(before), last, key);
      FirstLineAppend(LeastPerKey(before), last, key);
    }
  }

  ghost predicate KeysAscend(s: seq<(Key, nat)>) {
    forall i, j :: 0 <= i < j < |s| ==> s[i].0 < s[j].0
  }

  lemma {:induction false} InsertLeastAscends(s: seq<(Key, nat)>, x: (Key, nat))
    requires KeysAscend(s)
    ensures KeysAscend(InsertLeast(s, x))
    ensures forall i :: 0 <= i < |InsertLeast(s, x)| ==>
      InsertLeast(s, x)[i].0 <= x.0 || (s != [] && InsertLeast(s, x)[i].0 <= s[|s| - 1].0)
  {
    if s != [] && s[|s| - 1].0 > x.0 {
      var before, last := s[..|s| - 1], s[|s| - 1];
      InsertLeastAscends(before, x);
    }
  }

  /** And it leaves each key once. */
  lemma {:induction false} LeastPerKeyAscends(s: seq<(Key, nat)>)
    ensures KeysAscend(LeastPerKey(s))
  {
    if s != [] {
      LeastPerKeyAscends(s[..|s| - 1]);
      InsertLeastAscends(LeastPerKey(s[..|s| - 1]), s[|s| - 1]);
    }
  }

  lemma {:induction false} FirstsAre(s: seq<(Key, nat)>, key: Key)
    ensures key in FirstsOf(s) <==> FirstLine(s, key).Some?
  {
    if s != [] { FirstsAre(s[..|s| - 1], key); }
  }

  lemma {:induction false} FinishKeys(b: BookRecords, slotKeys: seq<Key>)
    ensures RecordedKeys(Finish(b), slotKeys) == RecordedKeys(b, slotKeys)
  {
    forall key ensures key in FirstsOf(LeastPerKey(b.foreign)) <==> key in FirstsOf(b.foreign) {
      FirstsAre(LeastPerKey(b.foreign), key);
      FirstsAre(b.foreign, key);
      LeastPerKeyFirstLine(b.foreign, key);
    }
  }

  /** Whether a delta's segment links record `i`'s book to its key: as new, or again. */
  ghost predicate Links(build: Build, i: nat)
    requires build.Valid() && i < |build.now.plan.records|
  {
    var d := build.Split().DispositionOf(i);
    d.Slot? || d.Extra? || d.Foreign? || build.Relinks(i)
  }

  ghost function LinkedKeys(build: Build, book: nat, n: nat): set<Key>
    requires build.Valid() && n <= |build.now.plan.records|
  {
    if n == 0 then {}
    else if build.now.plan.records[n - 1].book == book then LinkedKeys(build, book, n - 1) + LinkedBy(build, n - 1)
    else LinkedKeys(build, book, n - 1)
  }

  ghost function LinkedBy(build: Build, i: nat): set<Key>
    requires build.Valid() && i < |build.now.plan.records|
  {
    if Links(build, i) then {build.now.plan.records[i].Key()} else {}
  }

  lemma {:induction false} LinkedMeans(build: Build, book: nat, n: nat, key: Key)
    requires build.Valid() && n <= |build.now.plan.records|
    ensures key in LinkedKeys(build, book, n) <==> exists i :: 0 <= i < n && LinksTo(build, i, book, key)
  {
    if n > 0 {
      LinkedMeans(build, book, n - 1, key);
      assert key in LinkedKeys(build, book, n) <==>
        key in LinkedKeys(build, book, n - 1) || LinksTo(build, n - 1, book, key);
    }
  }

  ghost predicate LinksTo(build: Build, i: nat, book: nat, key: Key)
    requires build.Valid() && i < |build.now.plan.records|
  {
    build.now.plan.records[i].book == book && build.now.plan.records[i].Key() == key && Links(build, i)
  }

  /** A book's slots, extras and foreign records are its linked keys, slot numbers and all. */
  lemma {:induction false} ContentsKeys(build: Build, book: nat, n: nat, slotKeys: seq<Key>)
    requires build.Valid() && n <= |build.now.plan.records|
    requires slotKeys == build.Split().NewKeys(|build.now.plan.records|)
    ensures RecordedKeys(build.Contents(book, n), slotKeys) == LinkedKeys(build, book, n)
  {
    if n > 0 {
      ContentsKeys(build, book, n - 1, slotKeys);
      var before := build.Contents(book, n - 1);
      if build.now.plan.records[n - 1].book == book {
        RecordKeys(build, before, n - 1, slotKeys);
        assert build.Contents(book, n) == build.AddRecord(before, n - 1);
      } else {
        assert build.Contents(book, n) == before;
      }
    }
  }

  lemma RecordKeys(build: Build, b: BookRecords, i: nat, slotKeys: seq<Key>)
    requires build.Valid() && i < |build.now.plan.records|
    requires slotKeys == build.Split().NewKeys(|build.now.plan.records|)
    ensures RecordedKeys(build.AddRecord(b, i), slotKeys) == RecordedKeys(b, slotKeys) + LinkedBy(build, i)
  {
    var r, d := build.now.plan.records[i], build.Split().DispositionOf(i);
    if d.Extra? {
      NewKeysPrefix(build.Split(), i, |build.now.plan.records|);
    }
    AddedKeys(build, b, r, d, build.now.OccurrenceOf(i), SlotWindow(build.now.plan, r.Key()), slotKeys);
  }

  /** What one record adds to the keys its book records. */
  lemma AddedKeys(build: Build, b: BookRecords, r: PlanRecord, d: Disposition, o: Occurrence, window: nat,
                  slotKeys: seq<Key>)
    requires d.Extra? ==> d.slot < |slotKeys| && slotKeys[d.slot] == r.Key()
    ensures var linked := d.Slot? || d.Extra? || d.Foreign? ||
        ((d.Held? || d.Repeat?) && build.Split().Old(r.Key()) && build.Snapshots(r.Key()));
      RecordedKeys(build.AddAs(b, r, d, o, window), slotKeys) ==
      RecordedKeys(b, slotKeys) + if linked then {r.Key()} else {}
  {
    FirstsAppend(b.primary, (r.Key(), r.ordinal));
    FirstsAppend(b.foreign, (r.Key(), r.ordinal));
    if d.Extra? {
      ExtraAppend(b.extras, (r.ordinal, d.slot), slotKeys);
    }
  }

  /** A book's rows: those of its records whose key is in the snapshot, in order. */
  ghost function RowsFor(build: Build, book: nat, n: nat): seq<Occurrence>
    requires build.Valid() && n <= |build.now.plan.records|
  {
    if n == 0 then []
    else if build.now.plan.records[n - 1].book == book then RowsFor(build, book, n - 1) + RowsBy(build, n - 1)
    else RowsFor(build, book, n - 1)
  }

  ghost function RowsBy(build: Build, i: nat): seq<Occurrence>
    requires build.Valid() && i < |build.now.plan.records|
  {
    var o := build.now.OccurrenceOf(i);
    if build.Snapshots(o.key) then [o] else []
  }

  lemma AddedRows(build: Build, b: BookRecords, r: PlanRecord, d: Disposition, o: Occurrence, window: nat)
    ensures build.AddAs(b, r, d, o, window).occurrences ==
      b.occurrences + if build.Snapshots(o.key) then [o] else []
    ensures build.AddAs(b, r, d, o, window).book == b.book
  {
  }

  lemma {:induction false} ContentsRows(build: Build, book: nat, n: nat)
    requires build.Valid() && n <= |build.now.plan.records|
    ensures build.Contents(book, n).occurrences == RowsFor(build, book, n)
    ensures build.Contents(book, n).book == book
  {
    if n > 0 {
      ContentsRows(build, book, n - 1);
      var r := build.now.plan.records[n - 1];
      AddedRows(build, build.Contents(book, n - 1), r, build.Split().DispositionOf(n - 1),
                build.now.OccurrenceOf(n - 1), SlotWindow(build.now.plan, r.Key()));
    }
  }

  lemma {:induction false} RowsForMeans(build: Build, book: nat, n: nat, o: Occurrence)
    requires build.Valid() && n <= |build.now.plan.records|
    ensures o in RowsFor(build, book, n) <==> exists i :: 0 <= i < n && RowOf(build, i, book, o)
  {
    if n > 0 {
      RowsForMeans(build, book, n - 1, o);
      assert o in RowsBy(build, n - 1) <==> build.now.OccurrenceOf(n - 1) == o && build.Snapshots(o.key);
      assert RowOf(build, n - 1, book, o) <==>
        build.now.plan.records[n - 1].book == book && o in RowsBy(build, n - 1);
    }
  }

  ghost predicate RowOf(build: Build, i: nat, book: nat, o: Occurrence)
    requires build.Valid() && i < |build.now.plan.records|
  {
    build.now.plan.records[i].book == book && build.now.OccurrenceOf(i) == o && build.Snapshots(o.key)
  }

  ghost predicate WellFormedSegment(segment: Segment) {
    && (forall b <- segment.books :: b.book < |segment.names|)
    && (forall o <- segment.rows :: o.book < |segment.names|)
  }

  ghost function PairsOf(segment: Segment): set<(Name, Key)>
    requires WellFormedSegment(segment)
  {
    set b, key | b in segment.books && key in RecordedKeys(b, SlotKeys(segment.books)) :: (segment.names[b.book], key)
  }

  /** The locations a segment stores. */
  ghost function LocationsOf(segment: Segment): set<Location>
    requires WellFormedSegment(segment)
  {
    set o | o in segment.rows :: LocationOf(segment.names[o.book], o)
  }

  ghost function NameAt(build: Build, i: nat): Name
    requires build.Valid() && i < |build.now.plan.records|
  {
    build.now.books[build.now.plan.records[i].book]
  }

  ghost predicate LinksName(build: Build, i: nat, name: Name, key: Key)
    requires build.Valid() && i < |build.now.plan.records|
  {
    NameAt(build, i) == name && build.now.plan.records[i].Key() == key && Links(build, i)
  }

  lemma RowsFit(build: Build, segment: Segment)
    requires build.Valid() && IsSegment(build, segment)
    ensures forall o <- segment.rows :: o.book < |segment.names|
  {
    forall o | o in segment.rows ensures o.book < |segment.names| {
      assert IsKept(Handed(segment.books), o);
      HandedRows(build, segment.books, o);
      RowIsLocation(build, o);
    }
  }

  /** The segment's pairs are those of the records it links. */
  lemma SegmentPairs(build: Build, segment: Segment, name: Name, key: Key)
    requires build.Valid() && IsSegment(build, segment)
    ensures WellFormedSegment(segment)
    ensures (name, key) in PairsOf(segment) <==>
      exists i :: 0 <= i < |build.now.plan.records| && LinksName(build, i, name, key)
  {
    var n, slotKeys := |build.now.plan.records|, SlotKeys(segment.books);
    RowsFit(build, segment);
    forall b | b in segment.books ensures RecordedKeys(b, slotKeys) == LinkedKeys(build, b.book, n) {
      BookLinks(build, segment.books, b);
    }
    if exists i :: 0 <= i < n && LinksName(build, i, name, key) {
      var i :| 0 <= i < n && LinksName(build, i, name, key);
      var book := build.now.plan.records[i].book;
      assert Listed(segment.books, build.now.plan.records[i].book);
      var x :| 0 <= x < |segment.books| && segment.books[x].book == book;
      assert LinksTo(build, i, book, key);
      LinkedMeans(build, book, n, key);
      assert segment.books[x] in segment.books;
    }
    if (name, key) in PairsOf(segment) {
      var b :| b in segment.books && key in RecordedKeys(b, slotKeys) && segment.names[b.book] == name;
      LinkedMeans(build, b.book, n, key);
      var i :| 0 <= i < n && LinksTo(build, i, b.book, key);
      assert LinksName(build, i, name, key);
    }
  }

  /** All of a build's books, as the writer has them. */
  ghost predicate AllAre(build: Build, books: seq<BookRecords>)
    requires build.Valid()
  {
    var n := |build.now.plan.records|;
    BooksAre(build, books, n) && SlotKeys(books) == build.Split().NewKeys(n)
  }

  lemma BookLinks(build: Build, books: seq<BookRecords>, b: BookRecords)
    requires build.Valid() && AllAre(build, books) && b in books
    ensures RecordedKeys(b, SlotKeys(books)) == LinkedKeys(build, b.book, |build.now.plan.records|)
    ensures b.occurrences == RowsFor(build, b.book, |build.now.plan.records|)
  {
    var n := |build.now.plan.records|;
    var x :| 0 <= x < |books| && books[x] == b;
    assert Complete(build, n, books[x]);
    ContentsKeys(build, b.book, n, SlotKeys(books));
    FinishKeys(build.Contents(b.book, n), SlotKeys(books));
    ContentsRows(build, b.book, n);
  }

  ghost function LocationAt(release: Release, i: nat): Location
    requires release.Valid() && i < |release.plan.records|
  {
    LocationOf(release.books[release.plan.records[i].book], release.OccurrenceOf(i))
  }

  /** Whether the release records this location. */
  ghost predicate HasLocation(release: Release, l: Location)
    requires release.Valid()
  {
    exists i :: 0 <= i < |release.plan.records| && LocationAt(release, i) == l
  }

  /** Whether two locations name one parent: one line's first window, in one window, in one book. */
  predicate OneParent(l: Location, m: Location) {
    l.name == m.name && l.key == m.key && l.anchor == m.anchor && l.window == m.window
  }

  /** Whether a release stores this location: of those that name one parent, the first line's. */
  ghost predicate Stores(release: Release, l: Location)
    requires release.Valid()
  {
    && HasLocation(release, l)
    && forall m: Location {:trigger HasLocation(release, m)} ::
      HasLocation(release, m) && OneParent(m, l) ==> l.hint <= m.hint
  }

  /** What a release has, it stores at the same line or an earlier one. */
  lemma {:induction false} StoredOf(release: Release, l: Location) returns (m: Location)
    requires release.Valid() && HasLocation(release, l)
    ensures Stores(release, m) && OneParent(m, l) && m.hint <= l.hint
    decreases l.hint
  {
    m := l;
    if !Stores(release, l) {
      var earlier: Location :| HasLocation(release, earlier) && OneParent(earlier, l) && earlier.hint < l.hint;
      m := StoredOf(release, earlier);
    }
  }

  /** A text that stands at two lines of a book under one parent is stored at the first of them alone. */
  lemma {:induction false} StoredOnce(release: Release, l: Location, m: Location)
    requires release.Valid() && HasLocation(release, l) && HasLocation(release, m) && OneParent(l, m)
    requires l.hint < m.hint
    ensures !Stores(release, m)
    ensures exists first: Location :: Stores(release, first) && OneParent(first, m) && first.hint <= l.hint
  {
    var first := StoredOf(release, l);
    assert OneParent(first, m);
  }

  lemma {:induction false} HandedMeans(books: seq<BookRecords>, o: Occurrence)
    ensures o in Handed(books) <==> exists b :: b in books && o in b.occurrences
  {
    if books != [] {
      var before, last := books[..|books| - 1], books[|books| - 1];
      assert books == before + [last];
      HandedMeans(before, o);
      assert last in books;
      if o in Handed(before) {
        var b :| b in before && o in b.occurrences;
        assert b in books;
      }
    }
  }

  /** Whether a record of the release, of a key in the snapshot, has this row. */
  ghost predicate HasRow(build: Build, o: Occurrence)
    requires build.Valid()
  {
    build.Snapshots(o.key) && exists i :: 0 <= i < |build.now.plan.records| && build.now.OccurrenceOf(i) == o
  }

  lemma RowIsHanded(build: Build, books: seq<BookRecords>, o: Occurrence)
    requires build.Valid() && AllAre(build, books) && HasRow(build, o)
    ensures o in Handed(books)
  {
    var n := |build.now.plan.records|;
    var i :| 0 <= i < n && build.now.OccurrenceOf(i) == o;
    assert Listed(books, build.now.plan.records[i].book);
    var x :| 0 <= x < |books| && books[x].book == o.book;
    BookLinks(build, books, books[x]);
    assert RowOf(build, i, o.book, o);
    RowsForMeans(build, o.book, n, o);
    assert books[x] in books;
    HandedMeans(books, o);
  }

  /** The rows handed to a segment's writer are those of the release, of the keys in its snapshot. */
  lemma HandedRows(build: Build, books: seq<BookRecords>, o: Occurrence)
    requires build.Valid() && AllAre(build, books)
    ensures o in Handed(books) <==> HasRow(build, o)
  {
    if HasRow(build, o) {
      RowIsHanded(build, books, o);
    }
    if o in Handed(books) {
      HandedMeans(books, o);
      var b :| b in books && o in b.occurrences;
      BookLinks(build, books, b);
      RowsForMeans(build, b.book, |build.now.plan.records|, o);
      var i :| 0 <= i < |build.now.plan.records| && RowOf(build, i, b.book, o);
    }
  }

  /** A row's location is its record's. */
  lemma RowLocation(release: Release, i: nat, o: Occurrence)
    requires release.Valid() && i < |release.plan.records| && release.OccurrenceOf(i) == o
    ensures o.book < |release.books| && LocationOf(release.books[o.book], o) == LocationAt(release, i)
  {
  }

  lemma RowIsLocation(build: Build, o: Occurrence)
    requires build.Valid() && HasRow(build, o)
    ensures o.book < |build.now.books| && HasLocation(build.now, LocationOf(build.now.books[o.book], o))
  {
    var i :| 0 <= i < |build.now.plan.records| && build.now.OccurrenceOf(i) == o;
    RowLocation(build.now, i, o);
  }

  lemma LocationIsRow(build: Build, l: Location) returns (o: Occurrence)
    requires build.Valid() && HasLocation(build.now, l) && build.Snapshots(l.key)
    ensures HasRow(build, o) && o.book < |build.now.books| && LocationOf(build.now.books[o.book], o) == l
  {
    var i :| 0 <= i < |build.now.plan.records| && LocationAt(build.now, i) == l;
    o := build.now.OccurrenceOf(i);
    RowLocation(build.now, i, o);
  }

  /** Rows of one parent are locations of one: a book is its name. */
  lemma ParentsAlike(release: Release, p: Occurrence, o: Occurrence)
    requires release.Valid() && p.book < |release.books| && o.book < |release.books|
    ensures SameParent(p, o) <==>
      OneParent(LocationOf(release.books[p.book], p), LocationOf(release.books[o.book], o))
  {
  }

  /** A row is kept exactly where its location is stored. */
  lemma KeptIsStored(build: Build, segment: Segment, o: Occurrence)
    requires build.Valid() && IsSegment(build, segment) && HasRow(build, o)
    ensures o.book < |build.now.books|
    ensures IsKept(Handed(segment.books), o) <==> Stores(build.now, LocationOf(build.now.books[o.book], o))
  {
    RowIsLocation(build, o);
    HandedRows(build, segment.books, o);
    var l := LocationOf(build.now.books[o.book], o);
    if IsKept(Handed(segment.books), o) {
      forall m: Location | HasLocation(build.now, m) && OneParent(m, l) ensures l.hint <= m.hint {
        var p := LocationIsRow(build, m);
        HandedRows(build, segment.books, p);
        ParentsAlike(build.now, p, o);
      }
    }
    if Stores(build.now, l) {
      forall p | p in Handed(segment.books) && SameParent(p, o) ensures o.hint <= p.hint {
        HandedRows(build, segment.books, p);
        RowIsLocation(build, p);
        ParentsAlike(build.now, p, o);
      }
    }
  }

  /** The locations a segment stores are those the release does, of the keys in its snapshot. */
  lemma SegmentLocations(build: Build, segment: Segment, l: Location)
    requires build.Valid() && IsSegment(build, segment)
    ensures WellFormedSegment(segment)
    ensures l in LocationsOf(segment) <==> Stores(build.now, l) && build.Snapshots(l.key)
  {
    SegmentPairs(build, segment, 0, 0);
    if Stores(build.now, l) && build.Snapshots(l.key) {
      var o := LocationIsRow(build, l);
      KeptIsStored(build, segment, o);
    }
    if l in LocationsOf(segment) {
      var o :| o in segment.rows && LocationOf(segment.names[o.book], o) == l;
      HandedRows(build, segment.books, o);
      KeptIsStored(build, segment, o);
    }
  }

  /** Whether one of the first `n` records is at this location. */
  ghost predicate LocatedBefore(release: Release, n: nat, l: Location)
    requires release.Valid() && n <= |release.plan.records|
  {
    exists i :: 0 <= i < n && LocationAt(release, i) == l
  }

  lemma LocatedStep(release: Release, n: nat, l: Location)
    requires release.Valid() && 0 < n <= |release.plan.records|
    ensures LocatedBefore(release, n, l) <==> LocatedBefore(release, n - 1, l) || LocationAt(release, n - 1) == l
  {
  }

  lemma RowStep(release: Release, n: nat, l: Location)
    requires release.Valid() && release.Located().Valid() && 0 < n <= |release.plan.records|
    ensures var side, row := release.Located(), Row(l.hint, l.anchor, l.window);
      row in side.RowsAt(n, l.name, l.key) <==>
        row in side.RowsAt(n - 1, l.name, l.key) || LocationAt(release, n - 1) == l
  {
    RowsAre(release, |release.plan.records|, n - 1);
    assert release.Located().NameOf(n - 1) == LocationAt(release, n - 1).name;
  }

  /** A release's locations of one key in one book are the rows the comparison reads. */
  lemma {:induction false} LocationsAreRows(release: Release, n: nat, l: Location)
    requires release.Valid() && n <= |release.plan.records|
    requires release.Located().Valid()
    ensures LocatedBefore(release, n, l) <==>
      Row(l.hint, l.anchor, l.window) in release.Located().RowsAt(n, l.name, l.key)
  {
    if n > 0 {
      LocationsAreRows(release, n - 1, l);
      LocatedStep(release, n, l);
      RowStep(release, n, l);
    }
  }

  /** The first record of its key in its book: never a repeat. */
  lemma {:induction false} FirstInBook(split: Split, i: nat) returns (f: nat)
    requires split.Valid() && i < |split.plan.records| && i !in split.aliased
    ensures f <= i && f !in split.aliased
    ensures split.plan.records[f].Key() == split.plan.records[i].Key()
    ensures split.plan.records[f].book == split.plan.records[i].book
    ensures split.plan.records[f].Key() !in split.BookKeys(f, split.plan.records[f].book)
    decreases i
  {
    var key, book := split.plan.records[i].Key(), split.plan.records[i].book;
    if key in split.BookKeys(i, book) {
      BookKeysMeans(split, i, book, key);
      var j :|
        0 <= j < i && j !in split.aliased && split.plan.records[j].Key() == key && split.plan.records[j].book == book;
      f := FirstInBook(split, j);
    } else {
      f := i;
    }
  }

  /** A line's target has a record of its own in the same book, which is no alias. */
  lemma {:induction false} TargetInBook(release: Release, cosine: Cosine, threshold: Option<real>, i: nat)
    returns (j: nat)
    requires release.Valid() && release == ReleaseOf(release.plan, release.books, cosine, threshold)
    requires i in release.targets
    ensures i < |release.plan.records| && j < |release.plan.records| && j !in release.targets
    ensures release.plan.records[j].book == release.plan.records[i].book
    ensures release.plan.records[j].Key() == release.targets[i].key
  {
    var q := Question(release.plan, cosine, threshold.value);
    var k;
    j, k := ChoiceIsNeighbour(q, i);
  }

  /** Whatever has a row is linked in its book: itself, or its target, as new or again for the snapshot. */
  lemma {:induction false} RowIsLinked(build: Build, cosine: Cosine, threshold: Option<real>, i: nat)
    requires build.Valid() && build.now == ReleaseOf(build.now.plan, build.now.books, cosine, threshold)
    requires i < |build.now.plan.records| && build.Snapshots(build.now.OccurrenceOf(i).key)
    ensures build.now.OccurrenceOf(i).key in
      LinkedKeys(build, build.now.plan.records[i].book, |build.now.plan.records|)
  {
    var j := i;
    if i in build.now.targets {
      j := TargetInBook(build.now, cosine, threshold, i);
    }
    var f := FirstInBook(build.Split(), j);
    var book, key := build.now.plan.records[i].book, build.now.OccurrenceOf(i).key;
    assert LinksTo(build, f, book, key);
    LinkedMeans(build, book, |build.now.plan.records|, key);
  }

  /** So every row has a record of its key in its book, and the writer refuses none. */
  lemma {:induction false} RowHasRecord(build: Build, cosine: Cosine, threshold: Option<real>, books: seq<BookRecords>,
      b: BookRecords, o: Occurrence)
    requires build.Valid() && build.now == ReleaseOf(build.now.plan, build.now.books, cosine, threshold)
    requires AllAre(build, books) && b in books && o in b.occurrences
    ensures o.key in RecordedKeys(b, SlotKeys(books))
  {
    var n := |build.now.plan.records|;
    BookLinks(build, books, b);
    RowsForMeans(build, b.book, n, o);
    var i :| 0 <= i < n && RowOf(build, i, b.book, o);
    RowIsLinked(build, cosine, threshold, i);
  }

  /** Every extra names a slot of the segment. */
  lemma {:induction false} ExtrasNameSlots(build: Build, book: nat, n: nat)
    requires build.Valid() && n <= |build.now.plan.records|
    ensures forall e <- build.Contents(book, n).extras :: e.1 < |build.Split().NewKeys(n)|
  {
    if n > 0 {
      ExtrasNameSlots(build, book, n - 1);
      NewKeysPrefix(build.Split(), n - 1, n);
      AddedExtras(build, build.Contents(book, n - 1), n - 1);
    }
  }

  lemma AddedExtras(build: Build, b: BookRecords, i: nat)
    requires build.Valid() && i < |build.now.plan.records|
    ensures forall e <- build.AddRecord(b, i).extras :: e in b.extras || e.1 < |build.Split().NewKeys(i)|
  {
  }

  /** A base has no foreign record: there is no older segment to hold its vector. */
  lemma {:induction false} BaseHasNoForeign(build: Build, book: nat, n: nat)
    requires build.Valid() && n <= |build.now.plan.records| && build.delta.None?
    ensures build.Contents(book, n).foreign == []
  {
    if n > 0 { BaseHasNoForeign(build, book, n - 1); }
  }

  /** Without aliases no row is one: no record's own window is theirs. */
  lemma NoAliasRows(build: Build, books: seq<BookRecords>, o: Occurrence)
    requires build.Valid() && AllAre(build, books) && build.now.targets == map[] && o in Handed(books)
    ensures o.window != ALIAS_WINDOW
  {
    HandedRows(build, books, o);
    var i :| 0 <= i < |build.now.plan.records| && build.now.OccurrenceOf(i) == o;
    assert WellFormed(build.now.plan.records[i], build.now.plan.windowed);
  }

  /** A row is a record's own, or an alias's. */
  lemma RowOwn(build: Build, o: Occurrence) returns (i: nat)
    requires build.Valid() && HasRow(build, o) && o.window != ALIAS_WINDOW
    ensures i < |build.now.plan.records| && i !in build.now.targets && build.now.OccurrenceOf(i) == o
    ensures build.now.plan.records[i].Key() == o.key && build.now.plan.records[i].window == o.window
  {
    i :| 0 <= i < |build.now.plan.records| && build.now.OccurrenceOf(i) == o;
  }

  /** A key that is shipped has no record that is an alias. */
  lemma {:induction false} ShippedHasNoAlias(build: Build, cosine: Cosine, threshold: Option<real>, key: Key, i: nat)
    requires build.Valid() && build.now == ReleaseOf(build.now.plan, build.now.books, cosine, threshold)
    requires key in build.Split().NewKeys(|build.now.plan.records|)
    requires i < |build.now.plan.records| && build.now.plan.records[i].Key() == key
    ensures i !in build.now.targets
  {
    var split, n := build.Split(), |build.now.plan.records|;
    NewKeysAre(split, n);
    KeysMeans(split, n, key);
    var own :| 0 <= own < n && own !in split.aliased && build.now.plan.records[own].Key() == key;
    if i in build.now.targets {
      AliasedWhole(Question(build.now.plan, cosine, threshold.value), i, own);
    }
  }

  /**
   * The window the writer takes for a slot from the rows of its key is the one it was given: the
   * least of the key's records.
   */
  lemma {:induction false} RowsKeepWindow(build: Build, cosine: Cosine, threshold: Option<real>, key: Key)
    requires build.Valid() && build.now == ReleaseOf(build.now.plan, build.now.books, cosine, threshold)
    requires key in build.Split().NewKeys(|build.now.plan.records|) && build.Snapshots(key)
    ensures forall o: Occurrence :: HasRow(build, o) && o.key == key && o.window != ALIAS_WINDOW ==>
      SlotWindow(build.now.plan, key) <= o.window
    ensures exists o: Occurrence :: HasRow(build, o) && o.key == key && o.window == SlotWindow(build.now.plan, key)
  {
    var plan, n := build.now.plan, |build.now.plan.records|;
    LeastWindowMeans(plan, n, key);
    forall o: Occurrence | HasRow(build, o) && o.key == key && o.window != ALIAS_WINDOW
      ensures SlotWindow(plan, key) <= o.window
    {
      var i := RowOwn(build, o);
    }
    var own := SlotOrigin(build.Split(), n, key);
    var i :| 0 <= i < n && plan.records[i].Key() == key && plan.records[i].window == SlotWindow(plan, key);
    ShippedHasNoAlias(build, cosine, threshold, key, i);
    assert HasRow(build, build.now.OccurrenceOf(i));
  }
}
