/** How much of a plan a device reaches: the gate every release is measured by. */
module Coverage {
  import opened Wrappers
  import opened Plan
  import opened LedgerSplit
  import opened Assemble
  import opened Segments
  import opened StoredBooks
  import opened Chain
  import opened Rebuilds

  datatype Coverage = Coverage(records: nat, reachable: nat, firstUnreachable: Option<(Name, nat)>) {
    predicate Complete() {
      records == reachable
    }
  }

  /** What a device shows in each book. */
  type Effective = Name -> set<Location>

  /** A book's rows as the check reads them: by key, anchor and window, and the aliases' own keys. */
  function RecordsIn(rows: set<Location>): set<(Key, Key, nat)> {
    set l | l in rows :: (l.key, l.anchor, l.window)
  }

  function AliasedIn(rows: set<Location>): set<Key> {
    set l | l in rows && l.window == ALIAS_WINDOW :: l.anchor
  }

  function KeysIn(rows: set<Location>): set<Key> {
    set l | l in rows :: l.key
  }

  ghost predicate Reached(release: Release, effective: Effective, i: nat)
    requires release.Valid() && i < |release.plan.records|
  {
    var o, rows := OccurrenceAt(release.plan, i), effective(release.books[release.plan.records[i].book]);
    if release.plan.windowed then
      (o.key, o.anchor, o.window) in RecordsIn(rows) || (o.window == 0 && o.key in AliasedIn(rows))
    else o.key in KeysIn(rows)
  }

  /** Whether a device shows record `i`: the row of it, its line and its window, or an alias of it. */
  ghost predicate Shows(release: Release, effective: Effective, i: nat)
    requires release.Valid() && i < |release.plan.records|
  {
    exists l :: l in effective(release.books[release.plan.records[i].book]) && ShowsBy(release, i, l)
  }

  ghost predicate ShowsBy(release: Release, i: nat, l: Location)
    requires release.Valid() && i < |release.plan.records|
  {
    var r := release.plan.records[i];
    if !release.plan.windowed then l.key == r.Key()
    else
      || (l.key == r.Key() && l.window == r.window && Heads(release.plan, i, l.anchor))
      || (r.window == 0 && l.window == 255 && l.anchor == r.Key())
  }

  ghost function ShownAmong(release: Release, effective: Effective, n: nat): set<nat>
    requires release.Valid() && n <= |release.plan.records|
  {
    set i: nat | i < n && Shows(release, effective, i)
  }

  /** The first record not shown, by its book and line. */
  ghost predicate IsFirstHidden(release: Release, effective: Effective, i: nat, at: (Name, nat))
    requires release.Valid() && i < |release.plan.records|
  {
    && at == (release.books[release.plan.records[i].book], release.plan.records[i].ordinal)
    && !Shows(release, effective, i)
    && forall j :: 0 <= j < i ==> Shows(release, effective, j)
  }

  lemma HeadIsAnchor(plan: PlanRecords, i: nat, anchor: Key)
    requires plan.Valid() && i < |plan.records|
    ensures Heads(plan, i, anchor) <==> anchor == OccurrenceAt(plan, i).anchor
  {
    var a := Anchor(plan, i);
    if Heads(plan, i, anchor) {
      var b :| 0 <= b < |plan.records| && plan.records[b].window == 0 && plan.records[b].SameLine(plan.records[i]) &&
        plan.records[b].Key() == anchor;
      AnchorUnique(plan, i, b);
    }
  }

  /** A record is reached by a row of its own, and by nothing else. */
  lemma {:induction false} ReachedIsShown(release: Release, effective: Effective, i: nat)
    requires release.Valid() && i < |release.plan.records|
    ensures Reached(release, effective, i) <==> Shows(release, effective, i)
  {
    var o, rows := OccurrenceAt(release.plan, i), effective(release.books[release.plan.records[i].book]);
    HeadIsAnchor(release.plan, i, o.anchor);
    if l :| l in rows && ShowsBy(release, i, l) {
      HeadIsAnchor(release.plan, i, l.anchor);
    }
    if Reached(release, effective, i) {
      var l := RowReaching(release, rows, i);
    }
  }

  lemma RowReaching(release: Release, rows: set<Location>, i: nat) returns (l: Location)
    requires release.Valid() && i < |release.plan.records|
    requires var o := OccurrenceAt(release.plan, i);
      if release.plan.windowed then
        (o.key, o.anchor, o.window) in RecordsIn(rows) || (o.window == 0 && o.key in AliasedIn(rows))
      else o.key in KeysIn(rows)
    ensures l in rows && ShowsBy(release, i, l)
  {
    var o := OccurrenceAt(release.plan, i);
    HeadIsAnchor(release.plan, i, o.anchor);
    if !release.plan.windowed {
      l :| l in rows && l.key == o.key;
    } else if (o.key, o.anchor, o.window) in RecordsIn(rows) {
      l :| l in rows && (l.key, l.anchor, l.window) == (o.key, o.anchor, o.window);
    } else {
      l :| l in rows && l.window == ALIAS_WINDOW && l.anchor == o.key;
    }
  }

  lemma ShownRest(release: Release, effective: Effective, m: nat, n: nat)
    requires release.Valid() && n == m + 1 <= |release.plan.records|
    ensures ShownAmong(release, effective, n) - {m} == ShownAmong(release, effective, m)
  {
  }

  lemma ShownNext(release: Release, effective: Effective, m: nat, n: nat)
    requires release.Valid() && n == m + 1 <= |release.plan.records|
    ensures |ShownAmong(release, effective, n)| ==
      |ShownAmong(release, effective, m)| + if Shows(release, effective, m) then 1 else 0
  {
    ShownRest(release, effective, m, n);
    Without(ShownAmong(release, effective, n), m);
  }

  lemma {:induction false} ReachedAreShown(release: Release, effective: Effective, n: nat)
    requires release.Valid() && n <= |release.plan.records|
    ensures ReachedCount(release, effective, n) == |ShownAmong(release, effective, n)|
  {
    if n > 0 {
      ReachedAreShown(release, effective, n - 1);
      ReachedIsShown(release, effective, n - 1);
      ShownNext(release, effective, n - 1, n);
    }
  }

  /** How many of the first `n` records a device reaches. */
  ghost function ReachedCount(release: Release, effective: Effective, n: nat): nat
    requires release.Valid() && n <= |release.plan.records|
  {
    if n == 0 then 0
    else ReachedCount(release, effective, n - 1) + if Reached(release, effective, n - 1) then 1 else 0
  }

  /** One book's rows in hand. */
  datatype Hand = Hand(records: set<(Key, Key, nat)>, aliased: set<Key>, keys: set<Key>)

  function Take(rows: set<Location>): Hand {
    Hand(RecordsIn(rows), AliasedIn(rows), KeysIn(rows))
  }

  /** The first record not reached, by its book and line. */
  ghost predicate IsFirst(release: Release, effective: Effective, i: nat, at: (Name, nat))
    requires release.Valid() && i < |release.plan.records|
  {
    && at == LineOf(release, i)
    && !Reached(release, effective, i)
    && forall j :: 0 <= j < i ==> Reached(release, effective, j)
  }

  ghost function LineOf(release: Release, i: nat): (Name, nat)
    requires release.Valid() && i < |release.plan.records|
  {
    (release.books[release.plan.records[i].book], release.plan.records[i].ordinal)
  }

  ghost function FirstOf(release: Release, effective: Effective, n: nat): Option<(Name, nat)>
    requires release.Valid() && n <= |release.plan.records|
  {
    if n == 0 then None else
      var before := FirstOf(release, effective, n - 1);
      if before.Some? || Reached(release, effective, n - 1) then before else Some(LineOf(release, n - 1))
  }

  /** As many are counted as there are, exactly where none is missed. */
  ghost predicate CountsAll(n: nat, count: nat, first: Option<(Name, nat)>) {
    count <= n && (count == n <==> first.None?)
  }

  lemma {:induction false} ReachedCountMeans(release: Release, effective: Effective, n: nat)
    requires release.Valid() && n <= |release.plan.records|
    ensures CountsAll(n, ReachedCount(release, effective, n), FirstOf(release, effective, n)) == true
  {
    if n > 0 { ReachedCountMeans(release, effective, n - 1); }
  }

  lemma {:induction false} FirstOfMeans(release: Release, effective: Effective, n: nat)
    requires release.Valid() && n <= |release.plan.records|
    ensures FirstOf(release, effective, n).None? <==> forall i :: 0 <= i < n ==> Reached(release, effective, i)
    ensures FirstOf(release, effective, n).Some? ==>
      exists i :: 0 <= i < n && IsFirst(release, effective, i, FirstOf(release, effective, n).value)
  {
    if n > 0 {
      FirstOfMeans(release, effective, n - 1);
      if FirstOf(release, effective, n - 1).None? && !Reached(release, effective, n - 1) {
        assert IsFirst(release, effective, n - 1, LineOf(release, n - 1));
      }
    }
  }

  /** Whether a record is among its book's rows. */
  method Finds(release: Release, ghost effective: Effective, ghost i: nat, o: Occurrence, hand: Hand)
    returns (found: bool)
    requires release.Valid() && i < |release.plan.records| && o == OccurrenceAt(release.plan, i)
    requires hand == Take(effective(release.books[o.book]))
    ensures found <==> Reached(release, effective, i)
  {
    found :=
      if release.plan.windowed then
        (o.key, o.anchor, o.window) in hand.records || (o.window == 0 && o.key in hand.aliased)
      else o.key in hand.keys;
  }

  /** Coverage is complete exactly where every record is reached, and else names the first that is not. */
  lemma {:induction false} CoverageMeans(release: Release, effective: Effective, coverage: Coverage)
    requires release.Valid() && coverage.records == |release.plan.records|
    requires coverage.reachable == ReachedCount(release, effective, |release.plan.records|)
    requires coverage.firstUnreachable == FirstOf(release, effective, |release.plan.records|)
    ensures coverage.reachable == |ShownAmong(release, effective, |release.plan.records|)|
    ensures coverage.Complete() <==> forall i :: 0 <= i < |release.plan.records| ==> Shows(release, effective, i)
    ensures coverage.Complete() <==> coverage.firstUnreachable.None?
    ensures coverage.firstUnreachable.Some? ==>
      exists i ::
        0 <= i < |release.plan.records| && IsFirstHidden(release, effective, i, coverage.firstUnreachable.value)
  {
    var n := |release.plan.records|;
    ReachedCountMeans(release, effective, n);
    FirstOfMeans(release, effective, n);
    ReachedAreShown(release, effective, n);
    forall i: nat | i < n ensures Reached(release, effective, i) <==> Shows(release, effective, i) {
      ReachedIsShown(release, effective, i);
    }
    if coverage.firstUnreachable.Some? {
      var i: nat :| i < n && IsFirst(release, effective, i, coverage.firstUnreachable.value);
      assert IsFirstHidden(release, effective, i, coverage.firstUnreachable.value);
    }
  }

  /** Count the plan's records a device reaches, one book's rows in hand at a time. */
  method Count(release: Release, effective: Effective) returns (coverage: Coverage)
    requires release.Valid()
    ensures coverage.records == |release.plan.records|
    ensures coverage.reachable == |ShownAmong(release, effective, |release.plan.records|)|
    ensures coverage.Complete() <==> forall i :: 0 <= i < |release.plan.records| ==> Shows(release, effective, i)
    ensures coverage.Complete() <==> coverage.firstUnreachable.None?
    ensures coverage.firstUnreachable.Some? ==>
      exists i ::
        0 <= i < |release.plan.records| && IsFirstHidden(release, effective, i, coverage.firstUnreachable.value)
  {
    var own := Occurrences(release.plan);
    var reachable, first := 0, None;
    var hand := Hand({}, {}, {});
    for i := 0 to |own|
      invariant reachable == ReachedCount(release, effective, i)
      invariant first == FirstOf(release, effective, i)
      invariant i > 0 ==> hand == Take(effective(release.books[own[i - 1].book]))
    {
      var name := release.books[own[i].book];
      if i == 0 || own[i].book != own[i - 1].book {
        hand := Take(effective(name));
      }
      var found := Finds(release, effective, i, own[i], hand);
      if found {
        reachable := reachable + 1;
      } else if first.None? {
        first := Some((name, own[i].hint));
      }
    }
    coverage := Coverage(|own|, reachable, first);
    CoverageMeans(release, effective, coverage);
  }

  /**
   * A device on a chain whose deltas decided the aliases before them as they were reaches every
   * record of its last plan, aliases included.
   */
  lemma {:induction false} ChainReachesAll(chain: Chain, effective: Effective, i: nat)
    requires chain.Valid() && chain.Settled()
    requires chain.Last().plan.windowed && i < |chain.Last().plan.records|
    requires forall name :: effective(name) == Shown(chain.OnDevice(), name)
    ensures Shows(chain.Last(), effective, i)
  {
    var release, device := chain.Last(), chain.OnDevice();
    ChainHolds(chain);
    var own := LocationAt(release, i);
    var l := StoredOf(release, own);
    ShowsRelease(device, release, chain.warehouse.Score(), chain.Threshold(), l.name, l);
    assert l in effective(l.name);
    if i in release.targets {
      assert release.plan.records[i].short;
      assert l.anchor in AliasedIn(effective(l.name));
    } else {
      assert (l.key, l.anchor, l.window) in RecordsIn(effective(l.name));
    }
    ReachedIsShown(release, effective, i);
  }

  /** And so does one over a warehouse that only grows. */
  lemma {:induction false} GrowingReachesAll(chain: Chain, text: Key -> Digest, effective: Effective, i: nat)
    requires chain.Valid() && ChainText(chain, text) && Grows(chain)
    requires chain.Last().plan.windowed && i < |chain.Last().plan.records|
    requires forall name :: effective(name) == Shown(chain.OnDevice(), name)
    ensures Shows(chain.Last(), effective, i)
  {
    GrowingKeeps(chain, text);
    KeptSettles(chain, text);
    ChainReachesAll(chain, effective, i);
  }
}
