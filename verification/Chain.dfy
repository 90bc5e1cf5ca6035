/**
 * A device on a chain of releases: a base and the deltas after it, each applied over what is
 * there. Whatever the path, it holds the keys a base of the last release does; where each
 * delta decided the aliases before it as they were, it shows what that base does.
 */
module Chain {
  import opened Wrappers
  import opened Sorting
  import opened Plan
  import opened Alias
  import opened LedgerSplit
  import opened LedgerFiles
  import opened Locations
  import opened Assemble
  import opened Segments
  import opened Assembly

  /** The live keys, the books each is linked to, and the newest locations of each. */
  datatype Device = Device(keys: set<Key>, pairs: set<(Name, Key)>, locations: set<Location>)

  const NOTHING := Device({}, {}, {})

  ghost predicate Replaced(more: set<Location>, key: Key) {
    exists m :: m in more && m.key == key
  }

  /**
   * Apply a segment: the tombstones' keys and links go, the segment's come, and a key with
   * locations in the segment has its older ones replaced.
   */
  ghost function Apply(device: Device, segment: Segment): Device
    requires WellFormedSegment(segment)
  {
    var dead, more := Elements(segment.tombstones), LocationsOf(segment);
    Device(
      (device.keys - dead) + Elements(SlotKeys(segment.books)),
      (set p | p in device.pairs && p.1 !in dead) + PairsOf(segment),
      (set l | l in device.locations && !Replaced(more, l.key)) + more)
  }

  /** The locations a device shows in a book: the newest of each key the book is linked to. */
  ghost function Shown(device: Device, name: Name): set<Location> {
    set l | l in device.locations && l.name == name && (name, l.key) in device.pairs
  }

  /** The keys a release holds: its records', but those of aliases. */
  ghost function ReleaseKeys(release: Release): set<Key> {
    release.Against(None).Keys(|release.plan.records|)
  }

  ghost predicate IsPair(release: Release, i: nat, name: Name, key: Key)
    requires release.Valid() && i < |release.plan.records|
  {
    && i !in release.targets && release.plan.records[i].Key() == key
    && release.books[release.plan.records[i].book] == name
  }

  ghost predicate HasPair(release: Release, name: Name, key: Key)
    requires release.Valid()
  {
    exists i :: 0 <= i < |release.plan.records| && IsPair(release, i, name, key)
  }

  /** The device holds the release's keys, at least its pairs, and no pair of another key. */
  ghost predicate HoldsKeys(device: Device, release: Release)
    requires release.Valid()
  {
    && device.keys == ReleaseKeys(release)
    && (forall name: Name, key: Key :: HasPair(release, name, key) ==> (name, key) in device.pairs)
    && (forall p <- device.pairs :: p.1 in device.keys)
  }

  /** Of the keys it holds, the device holds exactly the locations the release stores. */
  ghost predicate HoldsLocations(device: Device, release: Release)
    requires release.Valid()
  {
    release.plan.windowed ==>
      forall l: Location :: l.key in device.keys ==> (l in device.locations <==> Stores(release, l))
  }

  ghost predicate Holds(device: Device, release: Release)
    requires release.Valid()
  {
    HoldsKeys(device, release) && HoldsLocations(device, release)
  }

  /** What a build may rely on of the device it is applied to: it holds the ledger's release. */
  ghost predicate Ready(device: Device, build: Build)
    requires build.Valid()
  {
    && (forall key :: key in device.keys <==> build.Split().Old(key))
    && (forall name: Name, key: Key ::
        key < KEY_SPACE && build.Split().OldPair(name, key) ==> (name, key) in device.pairs)
    && (forall p <- device.pairs :: p.1 in device.keys)
  }

  lemma {:induction false} KeysAre(build: Build)
    requires build.Valid()
    ensures build.Split().Keys(|build.now.plan.records|) == ReleaseKeys(build.now)
  {
    SameKeys(build.Split(), build.now.Against(None), |build.now.plan.records|);
  }

  lemma AppliedKeys(device: Device, build: Build, segment: Segment)
    requires build.Valid() && IsSegment(build, segment) && Ready(device, build)
    ensures WellFormedSegment(segment)
    ensures Apply(device, segment).keys == ReleaseKeys(build.now)
  {
    SegmentPairs(build, segment, 0, 0);
    NewKeysAre(build.Split(), |build.now.plan.records|);
    KeysAre(build);
  }

  lemma {:induction false} AppliedPair(device: Device, build: Build, segment: Segment, i: nat)
    requires build.Valid() && IsSegment(build, segment) && Ready(device, build)
    requires i < |build.now.plan.records| && i !in build.now.targets
    ensures WellFormedSegment(segment)
    ensures (NameAt(build, i), build.now.plan.records[i].Key()) in Apply(device, segment).pairs
  {
    var split, n := build.Split(), |build.now.plan.records|;
    var name, key := NameAt(build, i), build.now.plan.records[i].Key();
    SegmentPairs(build, segment, name, key);
    var f := FirstInBook(split, i);
    if !Links(build, f) {
      assert split.DispositionOf(f) == Held;
      KeysMeans(split, n, key);
      assert key !in Elements(segment.tombstones);
    } else {
      assert LinksName(build, f, name, key);
    }
  }

  lemma PairsAfter(device: Device, segment: Segment, name: Name, key: Key)
    requires WellFormedSegment(segment)
    ensures (name, key) in Apply(device, segment).pairs <==>
      ((name, key) in device.pairs && key !in segment.tombstones) || (name, key) in PairsOf(segment)
  {
  }

  /** The segment's own links are the release's pairs. */
  lemma {:induction false} SegmentPairIsPair(build: Build, segment: Segment, name: Name, key: Key)
    requires build.Valid() && IsSegment(build, segment)
    requires WellFormedSegment(segment) && (name, key) in PairsOf(segment)
    ensures HasPair(build.now, name, key) && key in ReleaseKeys(build.now)
  {
    SegmentPairs(build, segment, name, key);
    var i :| 0 <= i < |build.now.plan.records| && LinksName(build, i, name, key);
    assert IsPair(build.now, i, name, key);
    KeysMeans(build.Split(), |build.now.plan.records|, key);
    KeysAre(build);
  }

  /** Whatever has a location has a record of its own in that book: it is linked, and held. */
  lemma {:induction false} LocationIsPair(release: Release, cosine: Cosine, threshold: Option<real>, l: Location)
    requires release.Valid() && release == ReleaseOf(release.plan, release.books, cosine, threshold)
    requires HasLocation(release, l)
    ensures HasPair(release, l.name, l.key) && l.key in ReleaseKeys(release)
  {
    var n := |release.plan.records|;
    var i :| 0 <= i < n && LocationAt(release, i) == l;
    var j := i;
    if i in release.targets {
      j := TargetInBook(release, cosine, threshold, i);
    }
    assert IsPair(release, j, l.name, l.key);
    KeysMeans(release.Against(None), n, l.key);
  }

  /** Every key held has a location stored. */
  lemma {:induction false} KeyHasLocation(release: Release, key: Key) returns (l: Location)
    requires release.Valid() && key in ReleaseKeys(release)
    ensures Stores(release, l) && l.key == key
  {
    var n := |release.plan.records|;
    KeysMeans(release.Against(None), n, key);
    var i :| 0 <= i < n && i !in release.targets && release.plan.records[i].Key() == key;
    l := StoredOf(release, LocationAt(release, i));
  }

  /** The locations of a key outside the snapshot are the same in both releases. */
  lemma {:induction false} UnchangedLocations(now: Release, earlier: Release, changed: set<Key>, l: Location)
    requires now.Valid() && earlier.Valid() && now.Located().Valid() && earlier.Located().Valid()
    requires changed == Differing(now.Located(), earlier.Located())
    requires l.key !in changed
    ensures HasLocation(now, l) <==> HasLocation(earlier, l)
  {
    DifferingMeans(now.Located(), earlier.Located());
    assert !Differs(now.Located(), earlier.Located(), l.name, l.key);
    LocationsAreRows(now, |now.plan.records|, l);
    LocationsAreRows(earlier, |earlier.plan.records|, l);
  }

  /** Releases with the same locations of a key store the same of it. */
  lemma SameStored(one: Release, other: Release, l: Location)
    requires one.Valid() && other.Valid()
    requires forall m: Location {:trigger HasLocation(one, m)} {:trigger HasLocation(other, m)} ::
      m.key == l.key ==> (HasLocation(one, m) <==> HasLocation(other, m))
    ensures Stores(one, l) <==> Stores(other, l)
  {
  }

  /** One release after another: a base, and deltas, each on the warehouse of its day. */
  datatype Chain =
    | Base(warehouse: Warehouse, threshold: Option<real>, build: Build, segment: Segment)
    | Delta(before: Chain, warehouse: Warehouse, build: Build, segment: Segment)
  {
    function Last(): Release {
      build.now
    }

    /** The threshold of the base: a delta keeps its chain's. */
    function Threshold(): Option<real> {
      match this
      case Base(_, threshold, _, _) => threshold
      case Delta(before, _, _, _) => before.Threshold()
    }

    /** Each step as `AssembleRelease` leaves it, split against the ledger the step before left. */
    ghost predicate Valid() {
      && IsStep(warehouse, Threshold(), build, segment)
      && match this
        case Base(_, _, _, _) => build.delta.None?
        case Delta(before, _, _, _) =>
          before.Valid() && build.delta.Some? && LeftBy(build.delta.value, before.Last(), before.Threshold())
    }

    ghost function OnDevice(): Device
      requires Valid()
    {
      match this
      case Base(_, _, _, _) => Apply(NOTHING, segment)
      case Delta(before, _, _, _) => Apply(before.OnDevice(), segment)
    }

    /** The release before, as the last step decided it again. */
    ghost function Again(): Release
      requires Delta? && build.delta.Some? && build.delta.value.occurrences.Some?
    {
      Earlier(build.delta.value, warehouse.Score())
    }

    /** Each delta decided the aliases of the release before it as they were. */
    ghost predicate Settled()
      requires Valid()
    {
      Delta? ==> before.Settled() && (build.delta.value.occurrences.Some? ==> Again() == before.Last())
    }
  }

  /** A release as it is assembled: its aliases decided, no vector missing, and its segment. */
  ghost predicate IsStep(warehouse: Warehouse, threshold: Option<real>, build: Build, segment: Segment) {
    && IsBuild(build, build.now.plan, build.now.books, build.delta, warehouse.Score(), threshold)
    && Missing(build.Split(), warehouse.vectors.Keys) == 0
    && IsSegment(build, segment) && WellFormedSegment(segment)
  }

  /** The ledger a release leaves, for the next to be split against. */
  ghost predicate LeftBy(ledger: Ledger, release: Release, threshold: Option<real>)
    requires release.Valid()
  {
    IsLedgerOf(ledger, release.Against(None)) && ledger.aliasThreshold == threshold
  }

  /** The locations of a key after a segment: its own if it has any, else those from before. */
  lemma LocationsAfter(device: Device, segment: Segment, l: Location)
    requires WellFormedSegment(segment)
    ensures l in Apply(device, segment).locations <==>
      l in LocationsOf(segment) || (l in device.locations && !Replaced(LocationsOf(segment), l.key))
  {
  }

  /** The locations of a key in the snapshot are replaced by all of the release's. */
  lemma {:induction false} SnapshotLocations(device: Device, build: Build, segment: Segment, l: Location)
    requires build.Valid() && IsSegment(build, segment) && WellFormedSegment(segment)
    requires l.key in ReleaseKeys(build.now) && build.Snapshots(l.key)
    ensures l in Apply(device, segment).locations <==> Stores(build.now, l)
  {
    LocationsAfter(device, segment, l);
    SegmentLocations(build, segment, l);
    var own := KeyHasLocation(build.now, l.key);
    SegmentLocations(build, segment, own);
    assert Replaced(LocationsOf(segment), l.key);
  }

  /** The locations of a key outside it stay as they were. */
  lemma {:induction false} KeptLocations(device: Device, build: Build, segment: Segment, l: Location)
    requires build.Valid() && IsSegment(build, segment) && WellFormedSegment(segment)
    requires !build.Snapshots(l.key)
    ensures l in Apply(device, segment).locations <==> l in device.locations
  {
    LocationsAfter(device, segment, l);
    forall m | m in LocationsOf(segment) ensures m.key != l.key {
      SegmentLocations(build, segment, m);
    }
  }

  /** And they are those of the release before, as it was decided again. */
  lemma {:induction false} UnchangedAgain(chain: Chain, l: Location)
    requires chain.Valid() && chain.Delta? && chain.Last().plan.windowed
    requires !chain.build.Snapshots(l.key)
    ensures chain.build.delta.value.occurrences.Some? && chain.Again().Valid()
    ensures HasLocation(chain.Last(), l) <==> HasLocation(chain.Again(), l)
    ensures Stores(chain.Last(), l) <==> Stores(chain.Again(), l)
  {
    var now, again := chain.Last(), chain.Again();
    LocatedValid(now);
    LocatedValid(again);
    forall m: Location {:trigger HasLocation(now, m)} {:trigger HasLocation(again, m)} | m.key == l.key
      ensures HasLocation(now, m) <==> HasLocation(again, m)
    {
      UnchangedLocations(now, again, chain.build.changed.value, m);
    }
    SameStored(now, again, l);
  }

  /** The ledger a delta is split against is the one its device's release left. */
  lemma {:induction false} LedgerOfRelease(ledger: Ledger, release: Release)
    requires release.Valid() && IsLedgerOf(ledger, release.Against(None))
    ensures forall key :: key in ledger.keys <==> key in ReleaseKeys(release)
    ensures ledger.occurrences == if release.plan.windowed then Some(release.plan) else None
    ensures ledger.books == release.books
    ensures forall name: Name, key: Key :: key < KEY_SPACE && ledger.HasPair(name, key) ==> HasPair(release, name, key)
  {
    forall name: Name, key: Key | key < KEY_SPACE && ledger.HasPair(name, key) ensures HasPair(release, name, key) {
      var b :| 0 <= b < |ledger.books| && ledger.books[b] == name && PairOrder(b, key) in ledger.pairs;
      PairsMean(release.Against(None), |release.plan.records|, PairOrder(b, key));
      var i :| 0 <= i < |release.plan.records| && i !in release.targets &&
        PairOrder(release.plan.records[i].book, release.plan.records[i].Key()) == PairOrder(b, key);
      PairOrderInjective(b, key, release.plan.records[i].book, release.plan.records[i].Key());
      assert IsPair(release, i, name, key);
    }
  }

  /** What a device is before the last step: nothing, or on the release before. */
  ghost predicate HoldsBefore(device: Device, chain: Chain) {
    if chain.Base? then device == NOTHING
    else chain.before.Last().Valid() && HoldsKeys(device, chain.before.Last())
  }

  lemma {:induction false} DeltaReady(device: Device, build: Build, release: Release)
    requires build.Valid() && build.delta.Some? && release.Valid() && HoldsKeys(device, release)
    requires IsLedgerOf(build.delta.value, release.Against(None))
    ensures Ready(device, build)
  {
    LedgerOfRelease(build.delta.value, release);
    forall name: Name, key: Key | key < KEY_SPACE && build.Split().OldPair(name, key)
      ensures (name, key) in device.pairs
    {
      assert build.delta.value.HasPair(name, key);
    }
  }

  /** A step's device is ready for it. */
  lemma {:induction false} ChainReady(chain: Chain, device: Device)
    requires chain.Valid() && HoldsBefore(device, chain)
    ensures Ready(device, chain.build)
  {
    if chain.Delta? {
      DeltaReady(device, chain.build, chain.before.Last());
    }
  }

  /** A link stays exactly where its key does, and the segment's are the release's own. */
  lemma {:induction false} LinkAfter(device: Device, build: Build, segment: Segment, name: Name, key: Key)
    requires build.Valid() && IsSegment(build, segment) && WellFormedSegment(segment) && Ready(device, build)
    ensures (name, key) in Apply(device, segment).pairs <==>
      HasPair(build.now, name, key) || ((name, key) in device.pairs && key in ReleaseKeys(build.now))
  {
    PairsAfter(device, segment, name, key);
    KeysAre(build);
    if (name, key) in PairsOf(segment) {
      SegmentPairIsPair(build, segment, name, key);
    }
    if HasPair(build.now, name, key) {
      var i :| 0 <= i < |build.now.plan.records| && IsPair(build.now, i, name, key);
      AppliedPair(device, build, segment, i);
    }
  }

  lemma {:induction false} PairIsLive(release: Release, name: Name, key: Key)
    requires release.Valid() && HasPair(release, name, key)
    ensures key in ReleaseKeys(release)
  {
    var i :| 0 <= i < |release.plan.records| && IsPair(release, i, name, key);
    KeysMeans(release.Against(None), |release.plan.records|, key);
  }

  /** One step, whatever its warehouse: the release's keys, and links of no other. */
  lemma {:induction false} StepHoldsKeys(chain: Chain, device: Device)
    requires chain.Valid() && HoldsBefore(device, chain)
    ensures HoldsKeys(Apply(device, chain.segment), chain.Last())
  {
    var build, segment := chain.build, chain.segment;
    var after := Apply(device, segment);
    ChainReady(chain, device);
    AppliedKeys(device, build, segment);
    forall name: Name, key: Key
      ensures HasPair(build.now, name, key) ==> (name, key) in after.pairs
      ensures (name, key) in after.pairs ==> key in after.keys
    {
      LinkAfter(device, build, segment, name, key);
      if HasPair(build.now, name, key) { PairIsLive(build.now, name, key); }
    }
  }

  /** A device on any chain holds its last release's keys and links. */
  lemma {:induction false} ChainHoldsKeys(chain: Chain)
    requires chain.Valid()
    ensures HoldsKeys(chain.OnDevice(), chain.Last())
  {
    if chain.Base? {
      StepHoldsKeys(chain, NOTHING);
    } else {
      ChainHoldsKeys(chain.before);
      StepHoldsKeys(chain, chain.before.OnDevice());
    }
  }

  ghost predicate Linked(release: Release, name: Name, key: Key) {
    release.Valid() && HasPair(release, name, key)
  }

  /**
   * The links a device on a chain has: the last release's own, and an older release's where
   * every release since has kept the key.
   */
  ghost predicate Came(chain: Chain, name: Name, key: Key) {
    || Linked(chain.Last(), name, key)
    || (chain.Delta? && key in ReleaseKeys(chain.Last()) && Came(chain.before, name, key))
  }

  lemma {:induction false} LinksCame(chain: Chain, name: Name, key: Key)
    requires chain.Valid()
    ensures (name, key) in chain.OnDevice().pairs <==> Came(chain, name, key)
  {
    var device := if chain.Base? then NOTHING else chain.before.OnDevice();
    if chain.Delta? {
      LinksCame(chain.before, name, key);
      ChainHoldsKeys(chain.before);
    }
    ChainReady(chain, device);
    LinkAfter(device, chain.build, chain.segment, name, key);
  }

  /** The chain as it was `n` releases ago. */
  function Ago(chain: Chain, n: nat): Option<Chain> {
    if n == 0 then Some(chain) else if chain.Delta? then Ago(chain.before, n - 1) else None
  }

  ghost predicate LiveAgo(chain: Chain, n: nat, key: Key) {
    Ago(chain, n).Some? && key in ReleaseKeys(Ago(chain, n).value.Last())
  }

  /** The release `n` ago had the link, and every one since has the key. */
  ghost predicate LinkedAgo(chain: Chain, n: nat, name: Name, key: Key) {
    && Ago(chain, n).Some? && Linked(Ago(chain, n).value.Last(), name, key)
    && forall m: nat {:trigger LiveAgo(chain, m, key)} :: m < n ==> LiveAgo(chain, m, key)
  }

  lemma {:induction false} LinkedAgoStep(chain: Chain, n: nat, name: Name, key: Key)
    requires chain.Delta?
    ensures LinkedAgo(chain, n + 1, name, key) <==>
      key in ReleaseKeys(chain.Last()) && LinkedAgo(chain.before, n, name, key)
  {
    forall m: nat ensures LiveAgo(chain, m + 1, key) <==> LiveAgo(chain.before, m, key) {
      assert Ago(chain, m + 1) == Ago(chain.before, m);
    }
    assert LiveAgo(chain, 0, key) <==> key in ReleaseKeys(chain.Last());
    if LinkedAgo(chain, n + 1, name, key) {
      forall m: nat {:trigger LiveAgo(chain.before, m, key)} | m < n ensures LiveAgo(chain.before, m, key) {
        assert LiveAgo(chain, m + 1, key);
      }
    }
    if key in ReleaseKeys(chain.Last()) && LinkedAgo(chain.before, n, name, key) {
      forall m: nat {:trigger LiveAgo(chain, m, key)} | m < n + 1 ensures LiveAgo(chain, m, key) {
        assert m > 0 ==> LiveAgo(chain.before, m - 1, key);
      }
    }
  }

  lemma {:induction false} CameAgo(chain: Chain, name: Name, key: Key) returns (n: nat)
    requires Came(chain, name, key)
    ensures LinkedAgo(chain, n, name, key)
  {
    if Linked(chain.Last(), name, key) {
      n := 0;
    } else {
      var m := CameAgo(chain.before, name, key);
      LinkedAgoStep(chain, m, name, key);
      n := m + 1;
    }
  }

  lemma {:induction false} AgoCame(chain: Chain, n: nat, name: Name, key: Key)
    requires LinkedAgo(chain, n, name, key)
    ensures Came(chain, name, key)
  {
    if n > 0 {
      LinkedAgoStep(chain, n - 1, name, key);
      AgoCame(chain.before, n - 1, name, key);
    }
  }

  /** A link came from some release, and every release since has kept its key. */
  lemma {:induction false} CameMeans(chain: Chain, name: Name, key: Key)
    ensures Came(chain, name, key) <==> exists n: nat :: LinkedAgo(chain, n, name, key)
  {
    if Came(chain, name, key) {
      var n := CameAgo(chain, name, key);
    }
    if n: nat :| LinkedAgo(chain, n, name, key) {
      AgoCame(chain, n, name, key);
    }
  }

  /** A link an older release had and the last has not, of a key kept since. */
  ghost predicate Lingers(chain: Chain, n: nat, name: Name, key: Key) {
    LinkedAgo(chain, n, name, key) && !Linked(chain.Last(), name, key)
  }

  ghost predicate Leftover(chain: Chain, name: Name, key: Key) {
    exists n: nat :: Lingers(chain, n, name, key)
  }

  lemma {:induction false} OwnOrLeftover(chain: Chain, name: Name, key: Key)
    requires chain.Valid()
    ensures (name, key) in chain.OnDevice().pairs <==>
      Linked(chain.Last(), name, key) || Leftover(chain, name, key)
    ensures chain.Base? ==> !Leftover(chain, name, key)
  {
    LinksCame(chain, name, key);
    CameMeans(chain, name, key);
    if Linked(chain.Last(), name, key) {
      assert LinkedAgo(chain, 0, name, key);
    } else if Came(chain, name, key) {
      var n := CameAgo(chain, name, key);
      assert Lingers(chain, n, name, key);
    }
  }

  /** Two paths to one release leave the same links exactly where they leave the same leftovers. */
  lemma {:induction false} SameLinks(one: Chain, other: Chain)
    requires one.Valid() && other.Valid() && one.Last() == other.Last()
    ensures one.OnDevice().pairs == other.OnDevice().pairs <==>
      forall name: Name, key: Key :: Leftover(one, name, key) <==> Leftover(other, name, key)
    ensures other.Base? ==> other.OnDevice().pairs <= one.OnDevice().pairs
    ensures other.Base? ==>
      (one.OnDevice().pairs == other.OnDevice().pairs <==> forall name: Name, key: Key :: !Leftover(one, name, key))
  {
    forall name: Name, key: Key
      ensures (name, key) in one.OnDevice().pairs <==> Linked(one.Last(), name, key) || Leftover(one, name, key)
      ensures (name, key) in other.OnDevice().pairs <==> Linked(one.Last(), name, key) || Leftover(other, name, key)
      ensures !(Linked(one.Last(), name, key) && Leftover(one, name, key))
      ensures !(Linked(one.Last(), name, key) && Leftover(other, name, key))
      ensures other.Base? ==> !Leftover(other, name, key)
    {
      OwnOrLeftover(one, name, key);
      OwnOrLeftover(other, name, key);
    }
    SameWithLeftovers(one, other, one.OnDevice().pairs, other.OnDevice().pairs);
  }

  lemma {:induction false} SameWithLeftovers(one: Chain, other: Chain, a: set<(Name, Key)>, b: set<(Name, Key)>)
    requires forall name: Name, key: Key ::
      (name, key) in a <==> Linked(one.Last(), name, key) || Leftover(one, name, key)
    requires forall name: Name, key: Key ::
      (name, key) in b <==> Linked(one.Last(), name, key) || Leftover(other, name, key)
    requires forall name: Name, key: Key :: !(Linked(one.Last(), name, key) && Leftover(one, name, key))
    requires forall name: Name, key: Key :: !(Linked(one.Last(), name, key) && Leftover(other, name, key))
    ensures a == b <==> forall name: Name, key: Key :: Leftover(one, name, key) <==> Leftover(other, name, key)
    ensures (forall name: Name, key: Key :: !Leftover(other, name, key)) ==> b <= a
  {
    if a == b {
      forall name: Name, key: Key ensures Leftover(one, name, key) <==> Leftover(other, name, key) {
        assert (name, key) in a <==> (name, key) in b;
      }
    } else if p :| p in a && p !in b {
      assert Leftover(one, p.0, p.1) && !Leftover(other, p.0, p.1);
    } else {
      var p :| p in b && p !in a;
      assert Leftover(other, p.0, p.1) && !Leftover(one, p.0, p.1);
    }
    if forall name: Name, key: Key :: !Leftover(other, name, key) {
      forall p | p in b ensures p in a {
        assert Linked(one.Last(), p.0, p.1);
      }
    }
  }

  /** One step that decided the release before as it was: its locations are the release's. */
  lemma {:induction false} StepHoldsLocations(chain: Chain, device: Device)
    requires chain.Valid() && HoldsBefore(device, chain)
    requires chain.Delta? ==> HoldsLocations(device, chain.before.Last())
    requires chain.Delta? && chain.build.delta.value.occurrences.Some? ==> chain.Again() == chain.before.Last()
    ensures HoldsLocations(Apply(device, chain.segment), chain.Last())
  {
    if chain.Last().plan.windowed {
      StepHoldsKeys(chain, device);
      var after := Apply(device, chain.segment);
      forall l: Location | l.key in after.keys ensures l in after.locations <==> Stores(chain.Last(), l) {
        StepLocations(chain, device, l);
      }
    }
  }

  lemma {:induction false} StepLocations(chain: Chain, device: Device, l: Location)
    requires chain.Valid() && chain.Last().plan.windowed && HoldsBefore(device, chain)
    requires chain.Delta? ==> HoldsLocations(device, chain.before.Last())
    requires chain.Delta? && chain.build.delta.value.occurrences.Some? ==> chain.Again() == chain.before.Last()
    requires l.key in ReleaseKeys(chain.Last())
    ensures l in Apply(device, chain.segment).locations <==> Stores(chain.Last(), l)
  {
    if chain.build.Snapshots(l.key) {
      SnapshotLocations(device, chain.build, chain.segment, l);
    } else {
      LedgerOfRelease(chain.build.delta.value, chain.before.Last());
      KeptLocations(device, chain.build, chain.segment, l);
      UnchangedAgain(chain, l);
      var own := KeyHasLocation(chain.Last(), l.key);
      UnchangedAgain(chain, own);
      LocationIsPair(chain.before.Last(), chain.before.warehouse.Score(), chain.before.Threshold(), own);
    }
  }

  /** A device on a chain whose deltas decided alike holds its last release. */
  lemma {:induction false} ChainHolds(chain: Chain)
    requires chain.Valid() && chain.Settled()
    ensures Holds(chain.OnDevice(), chain.Last())
  {
    ChainHoldsKeys(chain);
    if chain.Base? {
      StepHoldsLocations(chain, NOTHING);
    } else {
      ChainHolds(chain.before);
      StepHoldsLocations(chain, chain.before.OnDevice());
    }
  }

  /**
   * What a device shows in a book is exactly what the last release stores there: of the lines
   * where one text stands under one parent, the first.
   */
  lemma {:induction false} ShowsRelease(
      device: Device, release: Release, cosine: Cosine, threshold: Option<real>, name: Name, l: Location)
    requires release.Valid() && release == ReleaseOf(release.plan, release.books, cosine, threshold)
    requires Holds(device, release) && release.plan.windowed
    ensures l in Shown(device, name) <==> l.name == name && Stores(release, l)
  {
    if Stores(release, l) {
      LocationIsPair(release, cosine, threshold, l);
    }
  }

  /** Two devices on one windowed release show the same. */
  lemma {:induction false} SameShown(
      a: Device, b: Device, release: Release, cosine: Cosine, threshold: Option<real>, name: Name)
    requires release.Valid() && release == ReleaseOf(release.plan, release.books, cosine, threshold)
    requires Holds(a, release) && Holds(b, release) && release.plan.windowed
    ensures Shown(a, name) == Shown(b, name)
  {
    forall l ensures l in Shown(a, name) <==> l in Shown(b, name) {
      ShowsRelease(a, release, cosine, threshold, name, l);
      ShowsRelease(b, release, cosine, threshold, name, l);
    }
  }

  /**
   * Every path gives the same answer: two devices whose chains end in one release, however
   * each came to it, hold the same keys; and where each delta decided the aliases before it
   * as they were, they show the same locations in every book. One of them may be a base
   * alone, so a delta is a rebuild.
   */
  lemma {:induction false} PathIndependent(one: Chain, other: Chain, name: Name)
    requires one.Valid() && other.Valid() && one.Last() == other.Last()
    ensures one.OnDevice().keys == other.OnDevice().keys == ReleaseKeys(one.Last())
    ensures one.Settled() && other.Settled() && one.Last().plan.windowed ==>
      Shown(one.OnDevice(), name) == Shown(other.OnDevice(), name)
  {
    ChainHoldsKeys(one);
    ChainHoldsKeys(other);
    if one.Settled() && other.Settled() && one.Last().plan.windowed {
      ChainHolds(one);
      ChainHolds(other);
      SameShown(one.OnDevice(), other.OnDevice(), one.Last(), one.warehouse.Score(), one.Threshold(), name);
    }
  }

  /** The chain a segment of a build makes, after the one before if there is one. */
  ghost function Extended(before: Option<Chain>, warehouse: Warehouse, threshold: Option<real>, build: Build,
                          segment: Segment): Chain
  {
    if before.Some? then Delta(before.value, warehouse, build, segment) else Base(warehouse, threshold, build, segment)
  }

  /** What a release published after a chain leaves: a longer chain, and its ledger. */
  ghost predicate Extends(before: Option<Chain>, warehouse: Warehouse, threshold: Option<real>, plan: PlanRecords,
                          books: seq<Name>, segment: Segment, ledger: Ledger)
  {
    exists build: Build :: ExtendsBy(build, before, warehouse, threshold, plan, books, segment, ledger)
  }

  ghost predicate ExtendsBy(build: Build, before: Option<Chain>, warehouse: Warehouse, threshold: Option<real>,
                            plan: PlanRecords, books: seq<Name>, segment: Segment, ledger: Ledger)
  {
    var chain := Extended(before, warehouse, threshold, build, segment);
    && chain.Valid() && chain.Last() == ReleaseOf(plan, books, warehouse.Score(), threshold)
    && chain.Threshold() == threshold
    && ledger.Valid() && LeftBy(ledger, chain.Last(), threshold)
  }

  lemma {:induction false} ExtendedValid(before: Option<Chain>, warehouse: Warehouse, threshold: Option<real>,
      build: Build, segment: Segment)
    requires IsBuild(build, build.now.plan, build.now.books, build.delta, warehouse.Score(), threshold)
    requires IsSegment(build, segment) && Missing(build.Split(), warehouse.vectors.Keys) == 0
    requires before.Some? <==> build.delta.Some?
    requires before.Some? ==>
      && before.value.Valid() && before.value.Threshold() == threshold
      && LeftBy(build.delta.value, before.value.Last(), threshold)
    ensures Extended(before, warehouse, threshold, build, segment).Valid() == true
  {
    SegmentPairs(build, segment, 0, 0);
  }

  lemma {:induction false} LedgerForNext(build: Build, ledger: Ledger)
    requires build.Valid() && IsLedgerOf(ledger, build.Split())
    ensures IsLedgerOf(ledger, build.now.Against(None)) == true
  {
    SameKeys(build.Split(), build.now.Against(None), |build.now.plan.records|);
  }

  /** What is assembled after a chain extends it. */
  lemma {:induction false} AssembledExtends(before: Option<Chain>, ledger: Option<Ledger>, plan: PlanRecords,
      books: seq<Name>, threshold: Option<real>, warehouse: Warehouse, segment: Segment, next: Ledger)
    requires before.Some? <==> ledger.Some?
    requires before.Some? ==>
      && before.value.Valid() && before.value.Threshold() == threshold
      && LeftBy(ledger.value, before.value.Last(), threshold)
    requires IsAssembled(plan, books, ledger, threshold, warehouse, segment, next)
    ensures Extends(before, warehouse, threshold, plan, books, segment, next)
  {
    var build :|
      && IsBuild(build, plan, books, ledger, warehouse.Score(), threshold) && Leaves(build, threshold, segment, next)
      && Missing(build.Split(), warehouse.vectors.Keys) == 0;
    ExtendedValid(before, warehouse, threshold, build, segment);
    LedgerForNext(build, next);
    assert ExtendsBy(build, before, warehouse, threshold, plan, books, segment, next);
  }

  /**
   * Publish the next release of a chain, or a first base, on the warehouse of the day: what
   * comes out extends the chain, and is what the next call asks for.
   */
  method Publish(ghost before: Option<Chain>, ledger: Option<Ledger>, plan: PlanRecords, books: seq<Name>,
                 asked: Option<real>, format: nat, warehouse: Warehouse)
    returns (result: Result<(Segment, Ledger), AssembleError>)
    requires Release(plan, books, map[]).Valid()
    requires before.Some? <==> ledger.Some?
    requires before.Some? ==>
      && before.value.Valid() && ledger.value.Valid()
      && LeftBy(ledger.value, before.value.Last(), before.value.Threshold())
    ensures result.Success? <==> Refused(plan, books, ledger, asked, format, warehouse).None?
    ensures result.Success? ==>
      && ThresholdFor(ledger, asked).Success?
      && Extends(before, warehouse, ThresholdFor(ledger, asked).value, plan, books, result.value.0, result.value.1)
      && result.value.1.format == FormatFor(ledger, format)
  {
    result := AssembleRelease(plan, books, ledger, asked, format, warehouse);
    if result.Success? {
      AssembledExtends(before, ledger, plan, books, ThresholdFor(ledger, asked).value, warehouse,
                       result.value.0, result.value.1);
    }
  }
}
