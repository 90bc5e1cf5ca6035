/**
 * What a segment stores of a book, told by the plan and the release before alone: each key once,
 * at the first line of the book that holds it.
 */
module StoredBooks {
  import opened Wrappers
  import opened Plan
  import opened LedgerSplit
  import opened Windows
  import opened Assemble
  import opened Segments

  /** The first line of a book whose own record holds a key. */
  ghost predicate LeastOwn(split: Split, book: nat, key: Key, hint: nat) {
    && (exists i: nat :: split.OwnIn(i, book, key) && split.plan.records[i].ordinal == hint)
    && (forall i: nat :: split.OwnIn(i, book, key) ==> hint <= split.plan.records[i].ordinal)
  }

  /** Whether an earlier book holds a key. */
  ghost predicate HeldBefore(split: Split, book: nat, key: Key) {
    exists i: nat :: split.Own(i, key) && split.plan.records[i].book < book
  }

  /** A new key is a slot of the first book that holds it. */
  ghost predicate IsPrimary(build: Build, book: nat, x: (Key, nat)) {
    && !build.Split().Old(x.0) && !HeldBefore(build.Split(), book, x.0)
    && LeastOwn(build.Split(), book, x.0, x.1)
  }

  /** In every later book that holds it, an extra names that slot. */
  ghost predicate IsExtra(build: Build, slotKeys: seq<Key>, book: nat, x: (nat, nat)) {
    && x.1 < |slotKeys| && HeldBefore(build.Split(), book, slotKeys[x.1])
    && LeastOwn(build.Split(), book, slotKeys[x.1], x.0)
  }

  /** A key the release before holds is recorded where its book is new to it, or its locations are stored. */
  ghost predicate IsForeign(build: Build, book: nat, x: (Key, nat)) {
    && build.Split().Old(x.0) && LeastOwn(build.Split(), book, x.0, x.1)
    && book < |build.now.books|
    && (!build.Split().OldPair(build.now.books[book], x.0) || build.Snapshots(x.0))
  }

  /** The least window any record of a key has. */
  ghost predicate LeastOf(plan: PlanRecords, key: Key, window: nat) {
    && (exists i :: 0 <= i < |plan.records| && plan.records[i].Key() == key && plan.records[i].window == window)
    && (forall i :: 0 <= i < |plan.records| && plan.records[i].Key() == key ==> window <= plan.records[i].window)
  }

  /** The row of record `i`: its own, or its target's with its own key for an anchor. */
  ghost predicate IsRow(release: Release, i: nat, o: Occurrence) {
    && i < |release.plan.records|
    && var r := release.plan.records[i];
       && o.book == r.book && o.hint == r.ordinal
       && if i in release.targets then o.key == release.targets[i].key && o.anchor == r.Key() && o.window == 255
          else o.key == r.Key() && Heads(release.plan, i, o.anchor) && o.window == r.window
  }

  /** The key at window 0 of a record's line. */
  ghost predicate Heads(plan: PlanRecords, i: nat, anchor: Key)
    requires i < |plan.records|
  {
    exists a :: 0 <= a < |plan.records| && plan.records[a].window == 0 && plan.records[a].SameLine(plan.records[i]) &&
      plan.records[a].Key() == anchor
  }

  ghost predicate IsRowOf(build: Build, book: nat, o: Occurrence) {
    build.Snapshots(o.key) && o.book == book && exists i: nat :: IsRow(build.now, i, o)
  }

  ghost predicate EachOnce<T>(s: seq<T>) {
    forall i, j :: 0 <= i < j < |s| ==> s[i] != s[j]
  }

  /** A book as a segment stores it. */
  ghost predicate Stored(build: Build, slotKeys: seq<Key>, b: BookRecords) {
    && EachOnce(b.primary) && (forall x :: x in b.primary <==> IsPrimary(build, b.book, x))
    && |b.windows| == |b.primary|
    && (forall s :: 0 <= s < |b.primary| ==> LeastOf(build.now.plan, b.primary[s].0, b.windows[s]))
    && EachOnce(b.extras) && (forall x :: x in b.extras <==> IsExtra(build, slotKeys, b.book, x))
    && KeysAscend(b.foreign) && (forall x :: x in b.foreign <==> IsForeign(build, b.book, x))
    && (forall o :: o in b.occurrences <==> IsRowOf(build, b.book, o))
  }

  // What each record gives its book.

  ghost predicate GivesPrimary(build: Build, i: nat, book: nat, x: (Key, nat)) {
    && i < |build.now.plan.records| && build.now.plan.records[i].book == book && build.Split().Ships(i)
    && x == (build.now.plan.records[i].Key(), build.now.plan.records[i].ordinal)
  }

  ghost predicate GivesExtra(build: Build, i: nat, book: nat, x: (nat, nat)) {
    && i < |build.now.plan.records| && build.now.plan.records[i].book == book < |build.now.books|
    && build.Split().Is(i, Extra(x.1)) && x.0 == build.now.plan.records[i].ordinal
  }

  ghost predicate GivesForeign(build: Build, i: nat, book: nat, x: (Key, nat)) {
    && i < |build.now.plan.records| && build.now.plan.records[i].book == book < |build.now.books|
    && build.Split().Own(i, x.0) && build.Split().Old(x.0) && x.1 == build.now.plan.records[i].ordinal
    && (build.Snapshots(x.0) || (build.Split().Opens(i) && !build.Split().OldPair(build.Split().NameOf(i), x.0)))
  }

  lemma AddedLists(build: Build, b: BookRecords, i: nat)
    requires build.Valid() && i < |build.now.plan.records|
    ensures var after, r, d := build.AddRecord(b, i), build.now.plan.records[i], build.Split().DispositionOf(i);
      && after.primary == b.primary + (if d.Slot? then [(r.Key(), r.ordinal)] else [])
      && after.windows == b.windows + (if d.Slot? then [SlotWindow(build.now.plan, r.Key())] else [])
      && after.extras == b.extras + (if d.Extra? then [(r.ordinal, d.slot)] else [])
      && after.foreign == b.foreign + if d.Foreign? || build.Relinks(i) then [(r.Key(), r.ordinal)] else []
  {
  }

  /** What the record after the first `m` leaves of a book. */
  lemma ContentsNext(build: Build, book: nat, m: nat, n: nat)
    requires build.Valid() && n == m + 1 <= |build.now.plan.records|
    ensures build.Contents(book, n) ==
      if build.now.plan.records[m].book == book then build.AddRecord(build.Contents(book, m), m)
      else build.Contents(book, m)
  {
  }

  lemma PrimaryNext(build: Build, book: nat, m: nat, n: nat, x: (Key, nat))
    requires build.Valid() && n == m + 1 <= |build.now.plan.records|
    ensures x in build.Contents(book, n).primary <==>
      x in build.Contents(book, m).primary || GivesPrimary(build, m, book, x)
  {
    ContentsNext(build, book, m, n);
    AddedLists(build, build.Contents(book, m), m);
    SlotShips(build.Split(), m);
  }

  ghost predicate SomePrimary(build: Build, n: nat, book: nat, x: (Key, nat)) {
    exists i: nat :: i < n && GivesPrimary(build, i, book, x)
  }

  lemma SomePrimaryNext(build: Build, m: nat, n: nat, book: nat, x: (Key, nat))
    requires n == m + 1
    ensures SomePrimary(build, n, book, x) <==> SomePrimary(build, m, book, x) || GivesPrimary(build, m, book, x)
  {
  }

  ghost predicate PrimaryTold(build: Build, n: nat, book: nat, x: (Key, nat))
    requires build.Valid() && n <= |build.now.plan.records|
  {
    x in build.Contents(book, n).primary <==> SomePrimary(build, n, book, x)
  }

  lemma PrimaryToldNext(build: Build, m: nat, n: nat, book: nat, x: (Key, nat))
    requires build.Valid() && n == m + 1 <= |build.now.plan.records| && PrimaryTold(build, m, book, x)
    ensures PrimaryTold(build, n, book, x)
  {
    PrimaryNext(build, book, m, n, x);
    SomePrimaryNext(build, m, n, book, x);
  }

  lemma {:induction false} PrimaryTellsAll(build: Build, n: nat, book: nat, x: (Key, nat))
    requires build.Valid() && n <= |build.now.plan.records|
    ensures PrimaryTold(build, n, book, x) == true
  {
    if n > 0 {
      PrimaryTellsAll(build, n - 1, book, x);
      PrimaryToldNext(build, n - 1, n, book, x);
    }
  }

  lemma {:induction false} PrimaryGiven(build: Build, book: nat, n: nat, x: (Key, nat))
    requires build.Valid() && n <= |build.now.plan.records|
    ensures x in build.Contents(book, n).primary <==> SomePrimary(build, n, book, x)
  {
    PrimaryTellsAll(build, n, book, x);
  }

  lemma ExtraNext(build: Build, book: nat, m: nat, n: nat, x: (nat, nat))
    requires build.Valid() && n == m + 1 <= |build.now.plan.records|
    ensures x in build.Contents(book, n).extras <==>
      x in build.Contents(book, m).extras || GivesExtra(build, m, book, x)
  {
    ContentsNext(build, book, m, n);
    AddedLists(build, build.Contents(book, m), m);
    DispositionIs(build.Split(), m, Extra(x.1));
  }

  ghost predicate SomeExtra(build: Build, n: nat, book: nat, x: (nat, nat)) {
    exists i: nat :: i < n && GivesExtra(build, i, book, x)
  }

  lemma SomeExtraNext(build: Build, m: nat, n: nat, book: nat, x: (nat, nat))
    requires n == m + 1
    ensures SomeExtra(build, n, book, x) <==> SomeExtra(build, m, book, x) || GivesExtra(build, m, book, x)
  {
  }

  ghost predicate ExtraTold(build: Build, n: nat, book: nat, x: (nat, nat))
    requires build.Valid() && n <= |build.now.plan.records|
  {
    x in build.Contents(book, n).extras <==> SomeExtra(build, n, book, x)
  }

  lemma ExtraToldNext(build: Build, m: nat, n: nat, book: nat, x: (nat, nat))
    requires build.Valid() && n == m + 1 <= |build.now.plan.records| && ExtraTold(build, m, book, x)
    ensures ExtraTold(build, n, book, x)
  {
    ExtraNext(build, book, m, n, x);
    SomeExtraNext(build, m, n, book, x);
  }

  lemma {:induction false} ExtraTellsAll(build: Build, n: nat, book: nat, x: (nat, nat))
    requires build.Valid() && n <= |build.now.plan.records|
    ensures ExtraTold(build, n, book, x) == true
  {
    if n > 0 {
      ExtraTellsAll(build, n - 1, book, x);
      ExtraToldNext(build, n - 1, n, book, x);
    }
  }

  lemma {:induction false} ExtraGiven(build: Build, book: nat, n: nat, x: (nat, nat))
    requires build.Valid() && n <= |build.now.plan.records|
    ensures x in build.Contents(book, n).extras <==> SomeExtra(build, n, book, x)
  {
    ExtraTellsAll(build, n, book, x);
  }

  lemma {:induction false} ForeignGivenBy(build: Build, i: nat, x: (Key, nat))
    requires build.Valid() && i < |build.now.plan.records|
    ensures GivesForeign(build, i, build.now.plan.records[i].book, x) <==>
      (build.Split().DispositionOf(i).Foreign? || build.Relinks(i)) &&
      x == (build.now.plan.records[i].Key(), build.now.plan.records[i].ordinal)
  {
    var d := build.Split().DispositionOf(i);
    DispositionIs(build.Split(), i, d);
    DispositionIs(build.Split(), i, Foreign);
  }

  lemma ForeignNext(build: Build, book: nat, m: nat, n: nat, x: (Key, nat))
    requires build.Valid() && n == m + 1 <= |build.now.plan.records|
    ensures x in build.Contents(book, n).foreign <==>
      x in build.Contents(book, m).foreign || GivesForeign(build, m, book, x)
  {
    ContentsNext(build, book, m, n);
    AddedLists(build, build.Contents(book, m), m);
    ForeignGivenBy(build, m, x);
  }

  ghost predicate SomeForeign(build: Build, n: nat, book: nat, x: (Key, nat)) {
    exists i: nat :: i < n && GivesForeign(build, i, book, x)
  }

  lemma SomeForeignNext(build: Build, m: nat, n: nat, book: nat, x: (Key, nat))
    requires n == m + 1
    ensures SomeForeign(build, n, book, x) <==> SomeForeign(build, m, book, x) || GivesForeign(build, m, book, x)
  {
  }

  ghost predicate ForeignTold(build: Build, n: nat, book: nat, x: (Key, nat))
    requires build.Valid() && n <= |build.now.plan.records|
  {
    x in build.Contents(book, n).foreign <==> SomeForeign(build, n, book, x)
  }

  lemma ForeignToldNext(build: Build, m: nat, n: nat, book: nat, x: (Key, nat))
    requires build.Valid() && n == m + 1 <= |build.now.plan.records| && ForeignTold(build, m, book, x)
    ensures ForeignTold(build, n, book, x)
  {
    ForeignNext(build, book, m, n, x);
    SomeForeignNext(build, m, n, book, x);
  }

  lemma {:induction false} ForeignTellsAll(build: Build, n: nat, book: nat, x: (Key, nat))
    requires build.Valid() && n <= |build.now.plan.records|
    ensures ForeignTold(build, n, book, x) == true
  {
    if n > 0 {
      ForeignTellsAll(build, n - 1, book, x);
      ForeignToldNext(build, n - 1, n, book, x);
    }
  }

  lemma {:induction false} ForeignGiven(build: Build, book: nat, n: nat, x: (Key, nat))
    requires build.Valid() && n <= |build.now.plan.records|
    ensures x in build.Contents(book, n).foreign <==> SomeForeign(build, n, book, x)
  {
    ForeignTellsAll(build, n, book, x);
  }

  // The first record of its own in a book.

  /** It stands at the first line that holds its key. */
  lemma OpensLeast(split: Split, f: nat)
    requires split.Valid() && f < |split.plan.records| && split.Opens(f)
    ensures LeastOwn(split, split.plan.records[f].book, split.plan.records[f].Key(), split.plan.records[f].ordinal)
  {
    var r := split.plan.records[f];
    assert split.OwnIn(f, r.book, r.Key());
    forall i: nat | split.OwnIn(i, r.book, r.Key()) ensures r.ordinal <= split.plan.records[i].ordinal {
      assert i == f || r.Before(split.plan.records[i]);
    }
  }

  lemma {:induction false} OpeningOf(split: Split, i: nat, book: nat, key: Key) returns (f: nat)
    requires split.Valid() && split.OwnIn(i, book, key)
    ensures f <= i && split.OwnIn(f, book, key) && split.Opens(f)
  {
    f := FirstInBook(split, i);
    SeenMeans(split, f, book, key);
  }

  /** A key has one first line in a book. */
  lemma LeastOwnIs(split: Split, book: nat, key: Key, hint: nat) returns (f: nat)
    requires split.Valid() && LeastOwn(split, book, key, hint)
    ensures split.OwnIn(f, book, key) && split.Opens(f) && split.plan.records[f].ordinal == hint
  {
    var i: nat :| split.OwnIn(i, book, key) && split.plan.records[i].ordinal == hint;
    f := OpeningOf(split, i, book, key);
    OpensLeast(split, f);
  }

  /** A record holds a key first exactly where it is the first in its book, and no earlier book holds it. */
  lemma FirstOfAll(split: Split, f: nat)
    requires split.Valid() && f < |split.plan.records| && f !in split.aliased
    ensures var r := split.plan.records[f];
      split.Seen(f, r.Key()) <==> split.SeenIn(f, r.book, r.Key()) || HeldBefore(split, r.book, r.Key())
  {
    var records, r := split.plan.records, split.plan.records[f];
    if split.Seen(f, r.Key()) {
      var j: nat :| j < f && split.Own(j, r.Key());
      assert records[j].Before(r);
      if records[j].book == r.book { assert split.OwnIn(j, r.book, r.Key()); }
    }
    if HeldBefore(split, r.book, r.Key()) {
      var j: nat :| split.Own(j, r.Key()) && records[j].book < r.book;
      assert j < f || r.Before(records[j]) || j == f;
    }
    if split.SeenIn(f, r.book, r.Key()) {
      var j: nat :| j < f && split.OwnIn(j, r.book, r.Key());
      assert split.Own(j, r.Key());
    }
  }

  // Exactly what a book stores.

  lemma {:induction false} PrimaryIs(build: Build, book: nat, x: (Key, nat))
    requires build.Valid()
    ensures SomePrimary(build, |build.now.plan.records|, book, x) <==> IsPrimary(build, book, x)
  {
    var n, split := |build.now.plan.records|, build.Split();
    if SomePrimary(build, n, book, x) {
      var i: nat :| i < n && GivesPrimary(build, i, book, x);
      FirstOfAll(split, i);
      OpensLeast(split, i);
    }
    if IsPrimary(build, book, x) {
      var f := LeastOwnIs(split, book, x.0, x.1);
      FirstOfAll(split, f);
      assert GivesPrimary(build, f, book, x);
    }
  }

  lemma {:induction false} ExtraIs(build: Build, slotKeys: seq<Key>, book: nat, x: (nat, nat))
    requires build.Valid() && slotKeys == build.Split().NewKeys(|build.now.plan.records|)
    ensures SomeExtra(build, |build.now.plan.records|, book, x) <==> IsExtra(build, slotKeys, book, x)
  {
    var n, split := |build.now.plan.records|, build.Split();
    if SomeExtra(build, n, book, x) {
      var i: nat :| i < n && GivesExtra(build, i, book, x);
      NewKeysPrefix(split, i, n);
      FirstOfAll(split, i);
      OpensLeast(split, i);
    }
    if IsExtra(build, slotKeys, book, x) {
      var f := LeastOwnIs(split, book, slotKeys[x.1], x.0);
      FirstOfAll(split, f);
      SlotSeen(split, f, x.1);
      assert split.plan.records[f] in split.plan.records;
      assert GivesExtra(build, f, book, x);
    }
  }

  /** A slot whose key is held before a record has its number before it. */
  lemma SlotSeen(split: Split, f: nat, slot: nat)
    requires split.Valid() && f < |split.plan.records| && slot < |split.NewKeys(|split.plan.records|)|
    requires split.NewKeys(|split.plan.records|)[slot] == split.plan.records[f].Key()
    requires split.Seen(f, split.plan.records[f].Key())
    ensures !split.Old(split.plan.records[f].Key())
    ensures slot < |split.NewKeys(f)| && split.NewKeys(f)[slot] == split.plan.records[f].Key()
  {
    var n, key := |split.plan.records|, split.plan.records[f].Key();
    NewKeysAre(split, n);
    NewKeysAre(split, f);
    SeenMeans(split, f, 0, key);
    NewKeysPrefix(split, f, n);
    var at := IndexOf(split.NewKeys(f), key);
    assert split.NewKeys(n)[at] == key;
  }

  lemma {:induction false} ForeignIsGiven(build: Build, book: nat, x: (Key, nat))
    requires build.Valid() && IsForeign(build, book, x)
    ensures SomeForeign(build, |build.now.plan.records|, book, x)
  {
    var f := LeastOwnIs(build.Split(), book, x.0, x.1);
    assert GivesForeign(build, f, book, x);
  }

  /** Whatever a record gives is at the first line or a later one, and the first line is given. */
  lemma {:induction false} GivenIsForeign(build: Build, book: nat, x: (Key, nat)) returns (hint: nat)
    requires build.Valid() && SomeForeign(build, |build.now.plan.records|, book, x)
    ensures hint <= x.1 && IsForeign(build, book, (x.0, hint))
  {
    var split := build.Split();
    var i: nat :| i < |build.now.plan.records| && GivesForeign(build, i, book, x);
    var f := OpeningOf(split, i, book, x.0);
    OpensLeast(split, f);
    hint := split.plan.records[f].ordinal;
  }

  lemma {:induction false} FirstLineMeans(s: seq<(Key, nat)>, key: Key)
    ensures FirstLine(s, key).Some? ==> (key, FirstLine(s, key).value) in s
    ensures forall hint: nat :: (key, hint) in s ==> FirstLine(s, key).Some? && FirstLine(s, key).value <= hint
  {
    if s != [] {
      var before, last := s[..|s| - 1], s[|s| - 1];
      assert s == before + [last];
      FirstLineMeans(before, key);
    }
  }

  /** Of each key, the least line given is kept, and no other. */
  lemma {:induction false} LeastKept(s: seq<(Key, nat)>, x: (Key, nat))
    ensures x in LeastPerKey(s) <==> x in s && forall hint: nat :: (x.0, hint) in s ==> x.1 <= hint
  {
    var kept := LeastPerKey(s);
    LeastPerKeyFirstLine(s, x.0);
    LeastPerKeyAscends(s);
    FirstLineMeans(s, x.0);
    FirstLineMeans(kept, x.0);
    if x in kept {
      var i :| 0 <= i < |kept| && kept[i] == x;
      var y := (x.0, FirstLine(kept, x.0).value);
      var j :| 0 <= j < |kept| && kept[j] == y;
      assert i == j;
    }
  }

  // Each once, and in step.

  lemma PrimaryNew(build: Build, book: nat, m: nat)
    requires build.Valid() && m < |build.now.plan.records| && build.Split().Ships(m)
    ensures !SomePrimary(build, m, book, (build.now.plan.records[m].Key(), build.now.plan.records[m].ordinal))
  {
    var key := build.now.plan.records[m].Key();
    if i: nat :| i < m && GivesPrimary(build, i, book, (key, build.now.plan.records[m].ordinal)) {
      assert build.Split().Own(i, key);
    }
  }

  lemma AppendOnce<T>(s: seq<T>, more: seq<T>)
    requires EachOnce(s) == true && |more| <= 1 && (more != [] ==> more[0] !in s)
    ensures EachOnce(s + more) == true
  {
  }

  /** The slot, and its window, that the record after the first `m` gives a book. */
  lemma SlotsNext(build: Build, book: nat, m: nat, n: nat) returns (more: seq<(Key, nat)>, windows: seq<nat>)
    requires build.Valid() && n == m + 1 <= |build.now.plan.records|
    ensures build.Contents(book, n).primary == build.Contents(book, m).primary + more
    ensures build.Contents(book, n).windows == build.Contents(book, m).windows + windows
    ensures more == [] ==> windows == []
    ensures var r := build.now.plan.records[m];
      more != [] ==>
        build.Split().Ships(m) && more == [(r.Key(), r.ordinal)] && windows == [SlotWindow(build.now.plan, r.Key())]
  {
    var b, r := build.Contents(book, m), build.now.plan.records[m];
    ContentsNext(build, book, m, n);
    AddedLists(build, b, m);
    SlotShips(build.Split(), m);
    if build.Split().DispositionOf(m).Slot? && r.book == book {
      more, windows := [(r.Key(), r.ordinal)], [SlotWindow(build.now.plan, r.Key())];
    } else {
      more, windows := [], [];
      assert b.primary + [] == b.primary && b.windows + [] == b.windows;
    }
  }

  lemma {:induction false} PrimaryFresh(build: Build, book: nat, m: nat, more: seq<(Key, nat)>)
    requires build.Valid() && m < |build.now.plan.records|
    requires var r := build.now.plan.records[m];
      more != [] ==> build.Split().Ships(m) && more == [(r.Key(), r.ordinal)]
    ensures more != [] ==> more[0] !in build.Contents(book, m).primary
  {
    if more != [] {
      PrimaryNew(build, book, m);
      PrimaryGiven(build, book, m, more[0]);
    }
  }

  ghost predicate PrimaryOnceAt(build: Build, n: nat, book: nat)
    requires build.Valid() && n <= |build.now.plan.records|
  {
    EachOnce(build.Contents(book, n).primary)
  }

  lemma PrimaryOnceNext(build: Build, m: nat, n: nat, book: nat)
    requires build.Valid() && n == m + 1 <= |build.now.plan.records| && PrimaryOnceAt(build, m, book) == true
    ensures PrimaryOnceAt(build, n, book)
  {
    var more, windows := SlotsNext(build, book, m, n);
    PrimaryFresh(build, book, m, more);
    AppendOnce(build.Contents(book, m).primary, more);
  }

  lemma {:induction false} PrimaryOnce(build: Build, book: nat, n: nat)
    requires build.Valid() && n <= |build.now.plan.records|
    ensures PrimaryOnceAt(build, n, book) == true
  {
    if n > 0 {
      PrimaryOnce(build, book, n - 1);
      PrimaryOnceNext(build, n - 1, n, book);
    }
  }

  lemma ExtraNew(build: Build, book: nat, m: nat, slot: nat)
    requires build.Valid() && m < |build.now.plan.records| && build.Split().Opens(m)
    requires build.now.plan.records[m].book == book
    requires slot < |build.Split().NewKeys(m)| && build.Split().NewKeys(m)[slot] == build.now.plan.records[m].Key()
    ensures !SomeExtra(build, m, book, (build.now.plan.records[m].ordinal, slot))
  {
    var split, key := build.Split(), build.now.plan.records[m].Key();
    if i: nat :| i < m && GivesExtra(build, i, book, (build.now.plan.records[m].ordinal, slot)) {
      NewKeysPrefix(split, i, m);
      assert split.OwnIn(i, book, key);
    }
  }

  lemma ExtrasNext(build: Build, book: nat, m: nat, n: nat) returns (more: seq<(nat, nat)>)
    requires build.Valid() && n == m + 1 <= |build.now.plan.records|
    ensures build.Contents(book, n).extras == build.Contents(book, m).extras + more
    ensures |more| <= 1 && (more != [] ==> !SomeExtra(build, m, book, more[0]))
  {
    var b, d := build.Contents(book, m), build.Split().DispositionOf(m);
    ContentsNext(build, book, m, n);
    AddedLists(build, b, m);
    if d.Extra? && build.now.plan.records[m].book == book {
      DispositionIs(build.Split(), m, d);
      ExtraNew(build, book, m, d.slot);
      more := [(build.now.plan.records[m].ordinal, d.slot)];
    } else {
      more := [];
      assert b.extras + [] == b.extras;
    }
  }

  lemma {:induction false} ExtrasFresh(build: Build, book: nat, m: nat, more: seq<(nat, nat)>)
    requires build.Valid() && m <= |build.now.plan.records|
    requires more != [] ==> !SomeExtra(build, m, book, more[0])
    ensures more != [] ==> more[0] !in build.Contents(book, m).extras
  {
    if more != [] { ExtraGiven(build, book, m, more[0]); }
  }

  ghost predicate ExtraOnceAt(build: Build, n: nat, book: nat)
    requires build.Valid() && n <= |build.now.plan.records|
  {
    EachOnce(build.Contents(book, n).extras)
  }

  lemma ExtraOnceNext(build: Build, m: nat, n: nat, book: nat)
    requires build.Valid() && n == m + 1 <= |build.now.plan.records| && ExtraOnceAt(build, m, book) == true
    ensures ExtraOnceAt(build, n, book)
  {
    var more := ExtrasNext(build, book, m, n);
    ExtrasFresh(build, book, m, more);
    AppendOnce(build.Contents(book, m).extras, more);
  }

  lemma {:induction false} ExtraOnce(build: Build, book: nat, n: nat)
    requires build.Valid() && n <= |build.now.plan.records|
    ensures ExtraOnceAt(build, n, book) == true
  {
    if n > 0 {
      ExtraOnce(build, book, n - 1);
      ExtraOnceNext(build, n - 1, n, book);
    }
  }

  /** Each slot's window stands where its key does. */
  ghost predicate InStep(plan: PlanRecords, primary: seq<(Key, nat)>, windows: seq<nat>) {
    |windows| == |primary| && forall s :: 0 <= s < |primary| ==> windows[s] == SlotWindow(plan, primary[s].0)
  }

  lemma StepsAppend(plan: PlanRecords, primary: seq<(Key, nat)>, windows: seq<nat>, more: seq<(Key, nat)>,
                    moreWindows: seq<nat>)
    requires InStep(plan, primary, windows) && InStep(plan, more, moreWindows)
    ensures InStep(plan, primary + more, windows + moreWindows)
  {
  }

  lemma {:induction false} WindowsInStep(build: Build, book: nat, n: nat)
    requires build.Valid() && n <= |build.now.plan.records|
    ensures InStep(build.now.plan, build.Contents(book, n).primary, build.Contents(book, n).windows)
  {
    if n > 0 {
      WindowsInStep(build, book, n - 1);
      var b := build.Contents(book, n - 1);
      var more, windows := SlotsNext(build, book, n - 1, n);
      StepsAppend(build.now.plan, b.primary, b.windows, more, windows);
    }
  }

  lemma WindowIsLeast(plan: PlanRecords, key: Key, i: nat)
    requires i < |plan.records| && plan.records[i].Key() == key
    ensures LeastOf(plan, key, SlotWindow(plan, key))
  {
    LeastWindowMeans(plan, |plan.records|, key);
  }

  lemma {:induction false} RowIs(release: Release, i: nat, o: Occurrence)
    requires release.Valid() && i < |release.plan.records|
    ensures release.OccurrenceOf(i) == o <==> IsRow(release, i, o)
  {
    var a := Anchor(release.plan, i);
    if i !in release.targets && IsRow(release, i, o) {
      var b :| 0 <= b < |release.plan.records| && release.plan.records[b].window == 0 &&
        release.plan.records[b].SameLine(release.plan.records[i]) && release.plan.records[b].Key() == o.anchor;
      AnchorUnique(release.plan, i, b);
    }
  }

  lemma {:induction false} RowsAreRows(build: Build, book: nat, o: Occurrence)
    requires build.Valid()
    ensures o in RowsFor(build, book, |build.now.plan.records|) <==> IsRowOf(build, book, o)
  {
    var n := |build.now.plan.records|;
    RowsForMeans(build, book, n, o);
    if o in RowsFor(build, book, n) {
      var i :| 0 <= i < n && RowOf(build, i, book, o);
      RowIs(build.now, i, o);
    }
    if IsRowOf(build, book, o) {
      var i: nat :| IsRow(build.now, i, o);
      RowIs(build.now, i, o);
      assert RowOf(build, i, book, o);
    }
  }

  // And so a whole book.

  lemma {:induction false} PrimaryStored(build: Build, book: nat, b: BookRecords)
    requires build.Valid() && b == build.Contents(book, |build.now.plan.records|)
    ensures EachOnce(b.primary) && (forall x :: x in b.primary <==> IsPrimary(build, book, x))
  {
    PrimaryOnce(build, book, |build.now.plan.records|);
    forall x ensures x in b.primary <==> IsPrimary(build, book, x) {
      PrimaryGiven(build, book, |build.now.plan.records|, x);
      PrimaryIs(build, book, x);
    }
  }

  lemma {:induction false} WindowsStored(build: Build, book: nat, b: BookRecords)
    requires build.Valid() && b == build.Contents(book, |build.now.plan.records|)
    requires forall x :: x in b.primary <==> IsPrimary(build, book, x)
    ensures |b.windows| == |b.primary|
    ensures forall s :: 0 <= s < |b.primary| ==> LeastOf(build.now.plan, b.primary[s].0, b.windows[s])
  {
    WindowsInStep(build, book, |build.now.plan.records|);
    forall s | 0 <= s < |b.primary| ensures LeastOf(build.now.plan, b.primary[s].0, b.windows[s]) {
      assert b.primary[s] in b.primary;
      var i: nat :| build.Split().OwnIn(i, book, b.primary[s].0);
      WindowIsLeast(build.now.plan, b.primary[s].0, i);
    }
  }

  lemma {:induction false} ExtrasStored(build: Build, slotKeys: seq<Key>, book: nat, b: BookRecords)
    requires build.Valid() && b == build.Contents(book, |build.now.plan.records|)
    requires slotKeys == build.Split().NewKeys(|build.now.plan.records|)
    ensures EachOnce(b.extras) && (forall x :: x in b.extras <==> IsExtra(build, slotKeys, book, x))
  {
    ExtraOnce(build, book, |build.now.plan.records|);
    forall x ensures x in b.extras <==> IsExtra(build, slotKeys, book, x) {
      ExtraGiven(build, book, |build.now.plan.records|, x);
      ExtraIs(build, slotKeys, book, x);
    }
  }

  lemma {:induction false} ForeignIs(build: Build, book: nat, b: BookRecords, x: (Key, nat))
    requires build.Valid() && b == build.Contents(book, |build.now.plan.records|)
    ensures x in LeastPerKey(b.foreign) <==> IsForeign(build, book, x)
  {
    var n := |build.now.plan.records|;
    LeastKept(b.foreign, x);
    ForeignGiven(build, book, n, x);
    if x in LeastPerKey(b.foreign) {
      var hint := GivenIsForeign(build, book, x);
      ForeignIsGiven(build, book, (x.0, hint));
      ForeignGiven(build, book, n, (x.0, hint));
    }
    if IsForeign(build, book, x) {
      ForeignIsGiven(build, book, x);
      forall hint: nat | (x.0, hint) in b.foreign ensures x.1 <= hint {
        ForeignGiven(build, book, n, (x.0, hint));
        var i: nat :| i < n && GivesForeign(build, i, book, (x.0, hint));
        assert build.Split().OwnIn(i, book, x.0);
      }
    }
  }

  lemma {:induction false} ForeignStored(build: Build, book: nat, b: BookRecords)
    requires build.Valid() && b == build.Contents(book, |build.now.plan.records|)
    ensures KeysAscend(LeastPerKey(b.foreign))
    ensures forall x :: x in LeastPerKey(b.foreign) <==> IsForeign(build, book, x)
  {
    LeastPerKeyAscends(b.foreign);
    forall x ensures x in LeastPerKey(b.foreign) <==> IsForeign(build, book, x) {
      ForeignIs(build, book, b, x);
    }
  }

  lemma {:induction false} OccurrencesStored(build: Build, book: nat, b: BookRecords)
    requires build.Valid() && b == build.Contents(book, |build.now.plan.records|)
    ensures b.book == book && forall o :: o in b.occurrences <==> IsRowOf(build, book, o)
  {
    ContentsRows(build, book, |build.now.plan.records|);
    forall o ensures o in b.occurrences <==> IsRowOf(build, book, o) {
      RowsAreRows(build, book, o);
    }
  }

  /** Every book of a segment, told by the plan and the release before alone. */
  ghost predicate AllStored(build: Build, books: seq<BookRecords>) {
    forall b <- books :: Stored(build, SlotKeys(books), b)
  }

  lemma {:induction false} ContentsStored(build: Build, slotKeys: seq<Key>, book: nat)
    requires build.Valid() && slotKeys == build.Split().NewKeys(|build.now.plan.records|)
    ensures Stored(build, slotKeys, Finish(build.Contents(book, |build.now.plan.records|)))
  {
    var b := build.Contents(book, |build.now.plan.records|);
    PrimaryStored(build, book, b);
    WindowsStored(build, book, b);
    ExtrasStored(build, slotKeys, book, b);
    ForeignStored(build, book, b);
    OccurrencesStored(build, book, b);
  }

  /**
   * A segment's books: every own record's key stands in its book once, as a slot, an extra or a
   * foreign record, at the book's first line that holds it; a slot has the key's least window.
   */
  lemma {:induction false} BooksStored(build: Build, books: seq<BookRecords>)
    requires build.Valid() && AllAre(build, books)
    ensures AllStored(build, books)
  {
    var n := |build.now.plan.records|;
    forall b | b in books ensures Stored(build, SlotKeys(books), b) {
      var x :| 0 <= x < |books| && books[x] == b;
      assert Complete(build, n, books[x]);
      ContentsStored(build, SlotKeys(books), b.book);
    }
  }

  /** The shipped records among the first `n` whose text a warehouse lacks. */
  ghost function Lacking(split: Split, warehouse: set<Digest>, n: nat): set<nat>
    requires split.Valid() && n <= |split.plan.records|
  {
    set i: nat | i < n && split.Ships(i) && split.plan.records[i].sha256 !in warehouse
  }

  lemma LackingRest(split: Split, warehouse: set<Digest>, m: nat, n: nat)
    requires split.Valid() && n == m + 1 <= |split.plan.records|
    ensures Lacking(split, warehouse, n) - {m} == Lacking(split, warehouse, m)
  {
  }

  lemma LackingNext(split: Split, warehouse: set<Digest>, m: nat, n: nat)
    requires split.Valid() && n == m + 1 <= |split.plan.records|
    ensures |Lacking(split, warehouse, n)| == |Lacking(split, warehouse, m)| +
      if split.Ships(m) && split.plan.records[m].sha256 !in warehouse then 1 else 0
  {
    LackingRest(split, warehouse, m, n);
    Without(Lacking(split, warehouse, n), m);
  }

  ghost predicate CountsLacking(split: Split, warehouse: set<Digest>, n: nat, total: nat)
    requires split.Valid() && n <= total <= |split.plan.records|
  {
    MissingIn(split.plan.records, Dispositions(split, total), warehouse, n) == |Lacking(split, warehouse, n)|
  }

  lemma CountsNext(split: Split, warehouse: set<Digest>, m: nat, n: nat, total: nat)
    requires split.Valid() && n == m + 1 <= total <= |split.plan.records| && CountsLacking(split, warehouse, m, total)
    ensures CountsLacking(split, warehouse, n, total)
  {
    DispositionsAt(split, total, m);
    SlotShips(split, m);
    LackingNext(split, warehouse, m, n);
  }

  lemma {:induction false} MissingIsLacking(split: Split, warehouse: set<Digest>, n: nat, total: nat)
    requires split.Valid() && n <= total <= |split.plan.records|
    ensures CountsLacking(split, warehouse, n, total) == true
  {
    if n > 0 {
      MissingIsLacking(split, warehouse, n - 1, total);
      CountsNext(split, warehouse, n - 1, n, total);
    }
  }

  /** The vectors a build is refused for are those of the shipped records whose text the warehouse lacks. */
  lemma {:induction false} MissingAre(split: Split, warehouse: set<Digest>)
    requires split.Valid()
    ensures Missing(split, warehouse) == |Lacking(split, warehouse, |split.plan.records|)|
  {
    MissingIsLacking(split, warehouse, |split.plan.records|, |split.plan.records|);
  }

  ghost predicate RefusedBy(build: Build, n: nat)
    requires build.Valid() && n <= |build.now.plan.records|
  {
    !TakesAll(BooksBegun(build, n))
  }

  ghost predicate Carries(p: nat -> bool, k: nat) {
    p(k) ==> p(k + 1)
  }

  lemma {:induction false} CarriesOn(p: nat -> bool, m: nat, n: nat)
    requires m <= n && p(m) && forall k {:trigger Carries(p, k)} :: m <= k < n ==> Carries(p, k)
    ensures p(n)
  {
    if m < n {
      CarriesOn(p, m, n - 1);
      assert Carries(p, n - 1);
    }
  }

  ghost function Refuses(build: Build): nat -> bool
    requires build.Valid()
  {
    (k: nat) => k <= |build.now.plan.records| && RefusedBy(build, k)
  }

  lemma RefusesNext(build: Build, k: nat)
    requires build.Valid() && k < |build.now.plan.records|
    ensures Carries(Refuses(build), k)
  {
    if RefusedBy(build, k) { RefusedStays(build, k); }
  }

  /** A book refused on the way is refused in the end. */
  lemma {:induction false} RefusedInTheEnd(build: Build, m: nat, n: nat)
    requires build.Valid() && m <= n <= |build.now.plan.records| && RefusedBy(build, m) == true
    ensures RefusedBy(build, n) == true
  {
    var refuses := Refuses(build);
    forall k | m <= k < n ensures Carries(refuses, k) {
      RefusesNext(build, k);
    }
    CarriesOn(refuses, m, n);
  }

  lemma AllBooksRefused(build: Build)
    requires build.Valid() && !TakesAll(BooksBegun(build, |build.now.plan.records|))
    ensures !TakesAll(AllBooks(build))
  {
    var n := |build.now.plan.records|;
    if n > 0 { TakesNext(BooksBegun(build, n), Finish(build.Contents(build.now.plan.records[n - 1].book, n))); }
  }

  /**
   * A build is accepted exactly where its new keys are no more than 2^32, the writer takes all its
   * books and no shipped text lacks a vector. It is refused for vectors only where nothing else is
   * wrong, and for its keys only where the writer took the books before the first without a slot.
   */
  lemma {:induction false} RefusalMeans(build: Build, warehouse: set<Digest>)
    requires build.Valid()
    ensures var n, refusal := |build.now.plan.records|, Refusal(build, warehouse);
      var fits, taken := |build.Split().NewKeys(n)| <= 0x1_0000_0000, TakesAll(AllBooks(build));
      var lacking := |Lacking(build.Split(), warehouse, n)|;
      && (refusal.None? <==> fits && taken && lacking == 0)
      && (refusal.Some? && refusal.value.MissingVectors? <==> fits && taken && lacking > 0)
      && (refusal == Some(MissingVectors(lacking)) <==> fits && taken && lacking > 0)
      && (refusal == Some(BadLedger(TooManyKeys)) ==>
            !fits && TakesAll(BooksBegun(build, Decidable(build.Split(), n))))
      && (refusal == Some(BadBook) ==> !taken)
  {
    var n, split := |build.now.plan.records|, build.Split();
    MissingAre(split, warehouse);
    DecidableMeans(split, n);
    SlotsBrink(split, n);
    if RefusedBy(build, Decidable(split, n)) {
      RefusedInTheEnd(build, Decidable(split, n), n);
      AllBooksRefused(build);
    }
  }

  lemma SlotsBrink(split: Split, n: nat)
    requires n <= |split.plan.records| && Brink(split, Decidable(split, n), n)
    ensures Decidable(split, n) == n <==> |split.NewKeys(n)| <= SLOT_LIMIT
  {
    var m := Decidable(split, n);
    if m < n { NewKeysPrefix(split, m + 1, n); }
  }
}
