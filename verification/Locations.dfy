/** Which keys' locations differ between two releases, book by book. */
module Locations {
  import opened Sorting
  import opened Plan

  /** What a location says beyond its book and key. */
  datatype Row = Row(hint: nat, anchor: Key, window: nat)

  /** One release's occurrences, in plan order, and the names of its books. */
  datatype Side = Side(books: seq<Name>, rows: seq<Occurrence>) {
    ghost predicate Valid() {
      && Ascending(books)
      && (forall i :: 0 <= i < |rows| ==> rows[i].book < |books|)
      && (forall i, j :: 0 <= i < j < |rows| ==> rows[i].book <= rows[j].book)
    }

    function NameOf(i: nat): Name
      requires i < |rows| && rows[i].book < |books|
    {
      books[rows[i].book]
    }

    /** The rows of `key` in the book called `name`, among the first `n`, in order. */
    ghost function RowsAt(n: nat, name: Name, key: Key): seq<Row>
      requires n <= |rows| && Valid()
    {
      if n == 0 then [] else
        var r := rows[n - 1];
        RowsAt(n - 1, name, key) +
        if NameOf(n - 1) == name && r.key == key then [Row(r.hint, r.anchor, r.window)] else []
    }

    ghost function All(name: Name, key: Key): seq<Row>
      requires Valid()
    {
      RowsAt(|rows|, name, key)
    }
  }

  lemma {:induction false} RowsAtStable(side: Side, from: nat, to: nat, name: Name, key: Key)
    requires side.Valid() && from <= to <= |side.rows|
    requires forall i :: from <= i < to ==> side.NameOf(i) != name
    ensures side.RowsAt(to, name, key) == side.RowsAt(from, name, key)
  {
    if from < to { RowsAtStable(side, from, to - 1, name, key); }
  }

  function Lookup(rows: map<Key, seq<Row>>, key: Key): seq<Row> {
    if key in rows then rows[key] else []
  }

  /** The map's lists are those of the rows read, and it has no empty list. */
  ghost predicate Collected(side: Side, n: nat, name: Name, rows: map<Key, seq<Row>>)
    requires side.Valid() && n <= |side.rows|
  {
    && (forall key :: Lookup(rows, key) == side.RowsAt(n, name, key))
    && (forall key :: key in rows ==> rows[key] != [])
  }

  /** Drain one book's rows from the cursor, by key. */
  method Collect(side: Side, cursor: nat, name: Name) returns (rows: map<Key, seq<Row>>, next: nat)
    requires side.Valid() && cursor <= |side.rows|
    requires forall i :: 0 <= i < cursor ==> side.NameOf(i) < name
    requires forall i :: cursor <= i < |side.rows| ==> side.NameOf(i) >= name
    ensures cursor <= next <= |side.rows| && Collected(side, |side.rows|, name, rows)
    ensures forall i :: 0 <= i < next ==> side.NameOf(i) <= name
    ensures forall i :: next <= i < |side.rows| ==> side.NameOf(i) > name
  {
    rows, next := map[], cursor;
    NothingYet(side, cursor, name);
    while next < |side.rows| && side.NameOf(next) == name
      invariant cursor <= next <= |side.rows| && Collected(side, next, name, rows)
      invariant forall i :: cursor <= i < next ==> side.NameOf(i) == name
    {
      var r := side.rows[next];
      CollectOne(side, next, name, rows);
      rows := rows[r.key := Lookup(rows, r.key) + [Row(r.hint, r.anchor, r.window)]];
      next := next + 1;
    }
    BookDrained(side, next, name, rows);
  }

  lemma NothingYet(side: Side, cursor: nat, name: Name)
    requires side.Valid() && cursor <= |side.rows|
    requires forall i :: 0 <= i < cursor ==> side.NameOf(i) != name
    ensures Collected(side, cursor, name, map[])
  {
    forall key ensures side.RowsAt(cursor, name, key) == [] {
      RowsAtStable(side, 0, cursor, name, key);
    }
  }

  /** One more row of the book being drained. */
  lemma CollectOne(side: Side, next: nat, name: Name, rows: map<Key, seq<Row>>)
    requires side.Valid() && next < |side.rows| && side.NameOf(next) == name && Collected(side, next, name, rows)
    ensures var r := side.rows[next];
      Collected(side, next + 1, name, rows[r.key := Lookup(rows, r.key) + [Row(r.hint, r.anchor, r.window)]])
  {
    var r := side.rows[next];
    var after := rows[r.key := Lookup(rows, r.key) + [Row(r.hint, r.anchor, r.window)]];
    forall key ensures Lookup(after, key) == side.RowsAt(next + 1, name, key) {
      assert Lookup(rows, key) == side.RowsAt(next, name, key);
    }
  }

  /** Where the next row is of another book, so are all the rows after it. */
  lemma BookDrained(side: Side, next: nat, name: Name, rows: map<Key, seq<Row>>)
    requires side.Valid() && next <= |side.rows| && Collected(side, next, name, rows)
    requires next < |side.rows| ==> side.NameOf(next) > name
    ensures forall i :: next <= i < |side.rows| ==> side.NameOf(i) > name
    ensures Collected(side, |side.rows|, name, rows)
  {
    forall i | next <= i < |side.rows| ensures side.NameOf(i) > name {
      assert side.rows[next].book <= side.rows[i].book;
    }
    forall key ensures side.RowsAt(|side.rows|, name, key) == side.RowsAt(next, name, key) {
      RowsAtStable(side, next, |side.rows|, name, key);
    }
  }

  ghost predicate Differs(now: Side, before: Side, name: Name, key: Key)
    requires now.Valid() && before.Valid()
  {
    now.All(name, key) != before.All(name, key)
  }

  /** The keys whose rows in one book differ. */
  method CompareBook(now: Side, before: Side, name: Name, rows: map<Key, seq<Row>>, was: map<Key, seq<Row>>)
    returns (changed: set<Key>)
    requires now.Valid() && before.Valid()
    requires Collected(now, |now.rows|, name, rows) && Collected(before, |before.rows|, name, was)
    ensures forall key :: key in changed <==> Differs(now, before, name, key)
  {
    changed :=
      (set key | key in rows && (key !in was || was[key] != rows[key])) +
      (set key | key in was && key !in rows);
    forall key ensures key in changed <==> Differs(now, before, name, key) {
      assert Lookup(rows, key) == now.All(name, key) && Lookup(was, key) == before.All(name, key);
    }
  }

  /**
   * Every key whose rows differ in some book, and no other: the two streams merged by book
   * name, each drained once.
   */
  method ChangedKeys(now: Side, before: Side) returns (changed: set<Key>)
    requires now.Valid() && before.Valid()
    ensures forall key :: key in changed <==> exists name :: Differs(now, before, name, key)
    ensures changed == Differing(now, before)
  {
    DifferingMeans(now, before);
    var names := SortDedup(now.books + before.books);
    SortDedupAscending(now.books + before.books);
    var current, earlier := 0, 0;
    changed := {};
    for t := 0 to |names|
      invariant current <= |now.rows| && earlier <= |before.rows|
      invariant Drained(now, current, names, t) && Drained(before, earlier, names, t)
      invariant forall key :: key in changed <==> exists s :: 0 <= s < t && Differs(now, before, names[s], key)
    {
      DrainedBounds(now, current, names, t);
      DrainedBounds(before, earlier, names, t);
      var rows, was;
      rows, current := Collect(now, current, names[t]);
      was, earlier := Collect(before, earlier, names[t]);
      var more := CompareBook(now, before, names[t], rows, was);
      changed := changed + more;
    }
    forall key ensures key in changed <==> exists name :: Differs(now, before, name, key) {
      forall name | name !in names ensures !Differs(now, before, name, key) {
        AbsentBook(now, name, key);
        AbsentBook(before, name, key);
      }
    }
  }

  /** The rows before the cursor are of the names before `t`; the rest are of the rest. */
  ghost predicate Drained(side: Side, cursor: nat, names: seq<Name>, t: nat)
    requires side.Valid() && cursor <= |side.rows| && t <= |names|
  {
    && (forall name <- side.books :: name in names)
    && (forall i :: 0 <= i < cursor ==> t > 0 && side.NameOf(i) <= names[t - 1])
    && (forall i :: cursor <= i < |side.rows| ==> t > 0 ==> side.NameOf(i) > names[t - 1])
  }

  lemma DrainedBounds(side: Side, cursor: nat, names: seq<Name>, t: nat)
    requires side.Valid() && cursor <= |side.rows| && t < |names| && Ascending(names)
    requires Drained(side, cursor, names, t)
    ensures forall i :: 0 <= i < cursor ==> side.NameOf(i) < names[t]
    ensures forall i :: cursor <= i < |side.rows| ==> side.NameOf(i) >= names[t]
  {
    forall i | cursor <= i < |side.rows| ensures side.NameOf(i) >= names[t] {
      assert side.NameOf(i) in side.books;
      var s :| 0 <= s < |names| && names[s] == side.NameOf(i);
    }
  }

  lemma AbsentBook(side: Side, name: Name, key: Key)
    requires side.Valid() && name !in side.books
    ensures side.All(name, key) == []
  {
    forall i | 0 <= i < |side.rows| ensures side.NameOf(i) != name {
      assert side.NameOf(i) in side.books;
    }
    RowsAtStable(side, 0, |side.rows|, name, key);
  }

  function RowKeys(side: Side): set<Key> {
    set o | o in side.rows :: o.key
  }

  lemma {:induction false} AbsentKey(side: Side, n: nat, name: Name, key: Key)
    requires side.Valid() && n <= |side.rows| && key !in RowKeys(side)
    ensures side.RowsAt(n, name, key) == []
  {
    if n > 0 {
      AbsentKey(side, n - 1, name, key);
      assert side.rows[n - 1] in side.rows;
    }
  }

  /** The keys whose rows differ in some book. */
  ghost function Differing(now: Side, before: Side): set<Key>
    requires now.Valid() && before.Valid()
  {
    set key | key in RowKeys(now) + RowKeys(before) && exists name :: Differs(now, before, name, key)
  }

  lemma DifferingMeans(now: Side, before: Side)
    requires now.Valid() && before.Valid()
    ensures forall key :: key in Differing(now, before) <==> exists name :: Differs(now, before, name, key)
  {
    forall key, name | Differs(now, before, name, key) ensures key in RowKeys(now) + RowKeys(before) {
      if key !in RowKeys(now) + RowKeys(before) {
        AbsentKey(now, |now.rows|, name, key);
        AbsentKey(before, |before.rows|, name, key);
      }
    }
  }
}
