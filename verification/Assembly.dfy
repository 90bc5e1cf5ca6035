/** A release assembled whole: its threshold and format, its aliases, its snapshot, its segment and its ledger. */
module Assembly {
  import opened Wrappers
  import opened Sorting
  import opened Plan
  import opened Alias
  import opened Prefixes
  import opened LedgerSplit
  import opened LedgerFiles
  import opened Locations
  import opened Windows
  import opened OccurrenceRows
  import opened Assemble
  import opened Segments
  import opened StoredBooks

  /** The keys whose locations a delta replaces, where its plan has locations: those that differ. */
  ghost function ChangedOf(now: Release, delta: Option<Ledger>, cosine: Cosine): Option<set<Key>>
    requires now.Valid() && now.Against(delta).Valid()
  {
    if !now.plan.windowed then None
    else if delta.None? || delta.value.occurrences.None? then Some({})
    else
      var earlier := Earlier(delta.value, cosine);
      LocatedValid(now);
      LocatedValid(earlier);
      Some(Differing(now.Located(), earlier.Located()))
  }

  method ChangedOccurrences(now: Release, rows: seq<Occurrence>, delta: Option<Ledger>, cosine: Cosine)
    returns (changed: Option<set<Key>>)
    requires now.Valid() && now.Against(delta).Valid() && rows == now.Rows(|now.plan.records|)
    requires delta.Some? ==> !TooHigh(delta.value.aliasThreshold)
    ensures changed == ChangedOf(now, delta, cosine)
  {
    if !now.plan.windowed {
      return None;
    }
    if delta.None? || delta.value.occurrences.None? {
      return Some({});
    }
    var was := delta.value;
    var targets := DecideTargets(was.occurrences.value, cosine, was.aliasThreshold);
    var earlier := Release(was.occurrences.value, was.books, targets.value);
    LocatedValid(now);
    LocatedValid(earlier);
    var before := AliasedOccurrences(earlier);
    var keys := ChangedKeys(Side(now.books, rows), Side(was.books, before));
    return Some(keys);
  }

  /** A threshold asked for must be in [0, 1]; 0 shares nothing. */
  predicate Askable(asked: Option<real>) {
    asked.Some? ==> 0.0 <= asked.value <= 1.0
  }

  /** A chain keeps the threshold of its base: a delta may ask for that one, or for none. */
  predicate KeepsThreshold(asked: Option<real>, ledger: Ledger) {
    asked.None? || asked == ledger.aliasThreshold || (asked.value == 0.0 && ledger.aliasThreshold.None?)
  }

  predicate TooHigh(threshold: Option<real>) {
    threshold.Some? && threshold.value > 1.0
  }

  /** The threshold a release's aliases are decided at: its chain's, or the one asked for. */
  function ThresholdFor(delta: Option<Ledger>, asked: Option<real>): Result<Option<real>, AssembleError> {
    if !Askable(asked) then Failure(BadThreshold)
    else if delta.Some? then
      if KeepsThreshold(asked, delta.value) then Success(delta.value.aliasThreshold) else Failure(ThresholdChanged)
    else Success(if asked.Some? && asked.value > 0.0 then asked else None)
  }

  /** One is asked for from 0 to 1; a base decides at what it is asked, and a delta at what its chain does. */
  lemma ThresholdMeans(delta: Option<Ledger>, asked: Option<real>)
    ensures ThresholdFor(delta, asked) == Failure(BadThreshold) <==>
      asked.Some? && (asked.value < 0.0 || asked.value > 1.0)
    ensures delta.None? && ThresholdFor(delta, asked).Success? ==>
      ThresholdFor(delta, asked).value == if asked.None? || asked.value == 0.0 then None else asked
    ensures delta.Some? && ThresholdFor(delta, asked).Success? ==>
      ThresholdFor(delta, asked).value == delta.value.aliasThreshold
    ensures ThresholdFor(delta, asked) == Failure(ThresholdChanged) <==>
      && delta.Some? && asked.Some? && 0.0 <= asked.value <= 1.0
      && asked.value != if delta.value.aliasThreshold.Some? then delta.value.aliasThreshold.value else 0.0
    ensures ThresholdFor(delta, asked).Failure? ==> ThresholdFor(delta, asked).error in {BadThreshold, ThresholdChanged}
  {
  }

  /** Whether a key is one of the plan's records, or one the device may hold already. */
  ghost predicate Told(plan: PlanRecords, delta: Option<Ledger>, key: Key) {
    || (exists i :: 0 <= i < |plan.records| && plan.records[i].Key() == key)
    || (delta.Some? && key in delta.value.keys)
  }

  lemma KeysAreTold(plan: PlanRecords, delta: Option<Ledger>, key: Key)
    ensures key in KeysToTell(plan, delta) <==> Told(plan, delta, key)
  {
    var own := KeysToTell(plan, None);
    assert KeysToTell(plan, delta) == own + if delta.Some? then delta.value.keys else [];
    if i :| 0 <= i < |plan.records| && plan.records[i].Key() == key {
      assert own[i] == key;
    }
  }

  /** Keys are stored whole before format 3 and by eight bytes from it on; only then are there aliases. */
  lemma FormatMeans(plan: PlanRecords, books: seq<Name>, delta: Option<Ledger>, asked: Option<real>, format: nat,
                    warehouse: Warehouse)
    requires Release(plan, books, map[]).Valid() && (delta.Some? ==> delta.value.Valid())
    ensures Refused(plan, books, delta, asked, format, warehouse) == Some(AliasFormat) <==>
      && Refused(plan, books, delta, asked, format, warehouse) != Some(SharedKeys)
      && ThresholdFor(delta, asked).Success? && ThresholdFor(delta, asked).value.Some?
      && (if delta.Some? then delta.value.format else format) < 3
    ensures Refused(plan, books, delta, asked, format, warehouse) == Some(SharedKeys) <==>
      && (if delta.Some? then delta.value.format else format) >= 3
      && exists a, b :: Told(plan, delta, a) && Told(plan, delta, b) && Collide(a, b, 8)
  {
    forall key ensures key in KeysToTell(plan, delta) <==> Told(plan, delta, key) {
      KeysAreTold(plan, delta, key);
    }
  }

  /** A build of a plan: its aliases decided, and its snapshot keys found. */
  ghost predicate IsBuild(build: Build, plan: PlanRecords, books: seq<Name>, delta: Option<Ledger>, cosine: Cosine,
                          threshold: Option<real>)
  {
    && build.now == ReleaseOf(plan, books, cosine, threshold) && build.delta == delta && build.Valid()
    && build.changed == ChangedOf(build.now, delta, cosine)
  }

  ghost function BuildOf(plan: PlanRecords, books: seq<Name>, delta: Option<Ledger>, cosine: Cosine,
                         threshold: Option<real>): (build: Build)
    requires Release(plan, books, map[]).Valid() && (delta.Some? ==> delta.value.Valid())
    ensures IsBuild(build, plan, books, delta, cosine, threshold)
  {
    var now := ReleaseOf(plan, books, cosine, threshold);
    Build(now, delta, ChangedOf(now, delta, cosine))
  }

  /** A segment and a ledger as some build of the plan leaves them, with none of its vectors missing. */
  ghost predicate IsAssembled(plan: PlanRecords, books: seq<Name>, delta: Option<Ledger>, threshold: Option<real>,
                              warehouse: Warehouse, segment: Segment, ledger: Ledger)
  {
    exists build ::
      && IsBuild(build, plan, books, delta, warehouse.Score(), threshold) && Leaves(build, threshold, segment, ledger)
      && Missing(build.Split(), warehouse.vectors.Keys) == 0
  }

  /** The segment of a build, and the ledger of its release, which keeps the threshold. */
  ghost predicate Leaves(build: Build, threshold: Option<real>, segment: Segment, ledger: Ledger)
    requires build.Valid()
  {
    && IsSegment(build, segment)
    && ledger.Valid() && IsLedgerOf(ledger, build.Split()) && ledger.aliasThreshold == threshold
  }

  /** The bytes of a key a segment of a format stores. */
  function KeyLength(format: nat): nat {
    if format >= 3 then 8 else KEY_BYTES
  }

  /** The format a release is written in: a delta keeps its ledger's codec, and with it the format. */
  function FormatFor(delta: Option<Ledger>, format: nat): nat {
    if delta.Some? then delta.value.format else format
  }

  /** The keys a release must tell apart: its plan's, and those of the release a delta applies to. */
  function KeysToTell(plan: PlanRecords, delta: Option<Ledger>): seq<Key> {
    seq(|plan.records|, i requires 0 <= i < |plan.records| => plan.records[i].Key()) +
    if delta.Some? then delta.value.keys else []
  }

  /** Whether two of those keys are one to a segment of the format. */
  ghost predicate Confused(plan: PlanRecords, delta: Option<Ledger>, format: nat) {
    && KeyLength(format) < KEY_BYTES
    && exists a, b :: a in KeysToTell(plan, delta) && b in KeysToTell(plan, delta) && Collide(a, b, KeyLength(format))
  }

  lemma KeysFit(plan: PlanRecords, delta: Option<Ledger>)
    requires plan.Valid() && (delta.Some? ==> delta.value.Valid())
    ensures forall key <- KeysToTell(plan, delta) :: key < KEY_SPACE
  {
    var own := KeysToTell(plan, None);
    assert forall i :: 0 <= i < |own| ==> own[i] == plan.records[i].Key() < KEY_SPACE;
    if delta.Some? {
      assert KeysToTell(plan, delta) == own + delta.value.keys;
    }
  }

  method CheckKeyPrefixes(plan: PlanRecords, delta: Option<Ledger>, format: nat) returns (ok: bool)
    requires plan.Valid() && (delta.Some? ==> delta.value.Valid())
    ensures ok <==> !Confused(plan, delta, format)
  {
    if KeyLength(format) >= KEY_BYTES {
      return true;
    }
    var keys := KeysToTell(plan, delta);
    KeysFit(plan, delta);
    var pair := SharedPrefix(keys, KeyLength(format));
    return pair.None?;
  }

  /**
   * Why a release is refused, if it is: keys its format cannot tell apart, its threshold, a
   * format without aliases, and then what its plan asks of the segment and the warehouse.
   */
  ghost function Refused(plan: PlanRecords, books: seq<Name>, delta: Option<Ledger>, asked: Option<real>,
                         format: nat, warehouse: Warehouse): Option<AssembleError>
    requires Release(plan, books, map[]).Valid() && (delta.Some? ==> delta.value.Valid())
  {
    var threshold := ThresholdFor(delta, asked);
    if Confused(plan, delta, FormatFor(delta, format)) then Some(SharedKeys)
    else if threshold.Failure? then Some(threshold.error)
    else if threshold.value.Some? && KeyLength(FormatFor(delta, format)) == KEY_BYTES then Some(AliasFormat)
    else if TooHigh(threshold.value) then Some(BadThreshold)
    else Refusal(BuildOf(plan, books, delta, warehouse.Score(), threshold.value), warehouse.vectors.Keys)
  }

  /** What the writer asks of the books it has taken: it refuses a segment without. */
  ghost predicate Writable(books: seq<BookRecords>, tombstones: seq<Key>, base: bool, keyLength: nat) {
    && (forall b, o {:trigger o in b.occurrences, b in books} :: b in books && o in b.occurrences ==>
        o.key in RecordedKeys(b, SlotKeys(books)))
    && (forall b, e {:trigger e in b.extras, b in books} :: b in books && e in b.extras ==> e.1 < |SlotKeys(books)|)
    && (base ==> tombstones == [] && forall b <- books :: b.foreign == [])
    && (keyLength == KEY_BYTES ==> forall o <- Handed(books) :: o.window != ALIAS_WINDOW)
  }

  /** One book's rows: each needs a record of its key there. */
  method AddOccurrences(b: BookRecords, slotKeys: seq<Key>) returns (ok: bool)
    ensures ok <==> forall o <- b.occurrences :: o.key in RecordedKeys(b, slotKeys)
  {
    var referenced := RecordedKeys(b, slotKeys);
    for r := 0 to |b.occurrences|
      invariant forall s :: 0 <= s < r ==> b.occurrences[s].key in referenced
    {
      if b.occurrences[r].key !in referenced {
        return false;
      }
    }
    return true;
  }

  method AddAllOccurrences(books: seq<BookRecords>, slotKeys: seq<Key>) returns (ok: bool)
    ensures ok <==> forall b, o {:trigger o in b.occurrences, b in books} :: b in books && o in b.occurrences ==>
      o.key in RecordedKeys(b, slotKeys)
  {
    for x := 0 to |books|
      invariant forall y, o {:trigger o in books[y].occurrences} :: 0 <= y < x && o in books[y].occurrences ==>
        o.key in RecordedKeys(books[y], slotKeys)
    {
      var taken := AddOccurrences(books[x], slotKeys);
      if !taken {
        assert books[x] in books;
        return false;
      }
    }
    return true;
  }

  /** Write a segment: its rows are sorted, and of one parent's the first is kept. */
  method WriteSegment(names: seq<Name>, books: seq<BookRecords>, tombstones: seq<Key>, base: bool, keyLength: nat)
    returns (segment: Option<Segment>)
    ensures segment.Some? <==> Writable(books, tombstones, base, keyLength)
    ensures segment.Some? ==>
      && segment.value == Segment(names, books, tombstones, segment.value.rows)
      && AreKept(Handed(books), segment.value.rows)
  {
    var slotKeys := SlotKeys(books);
    var ok := AddAllOccurrences(books, slotKeys);
    if !ok || exists b :: b in books && exists e :: e in b.extras && e.1 >= |slotKeys| {
      return None;
    }
    if base && (tombstones != [] || exists b :: b in books && b.foreign != []) {
      return None;
    }
    var handed := Handed(books);
    var rows := KeepFirst(handed);
    if keyLength == KEY_BYTES && exists o :: o in rows && o.window == ALIAS_WINDOW {
      KeptHasWindow(handed, rows);
      return None;
    }
    KeptHasWindow(handed, rows);
    return Some(Segment(names, books, tombstones, rows));
  }

  /** An alias among the rows handed is one among those kept. */
  lemma KeptHasWindow(handed: seq<Occurrence>, rows: seq<Occurrence>)
    requires AreKept(handed, rows)
    ensures (exists o :: o in rows && o.window == ALIAS_WINDOW) <==>
      (exists o :: o in handed && o.window == ALIAS_WINDOW)
  {
    if o :| o in handed && o.window == ALIAS_WINDOW {
      var first := FirstOfParent(handed, o);
      assert first in rows;
    }
    if o :| o in rows && o.window == ALIAS_WINDOW {
      assert IsKept(handed, o);
    }
  }

  /** The writer refuses no build's segment once it has taken its books. */
  lemma {:induction false} AlwaysWritable(build: Build, cosine: Cosine, threshold: Option<real>,
      books: seq<BookRecords>, tombstones: seq<Key>, keyLength: nat)
    requires build.Valid() && build.now == ReleaseOf(build.now.plan, build.now.books, cosine, threshold)
    requires AllAre(build, books) && (forall key <- tombstones :: build.Split().Old(key))
    requires threshold.Some? ==> keyLength != KEY_BYTES
    ensures Writable(books, tombstones, build.delta.None?, keyLength)
  {
    forall b, o {:trigger o in b.occurrences, b in books} | b in books && o in b.occurrences
      ensures o.key in RecordedKeys(b, SlotKeys(books))
    {
      RowHasRecord(build, cosine, threshold, books, b, o);
    }
    forall b | b in books
      ensures forall e <- b.extras :: e.1 < |SlotKeys(books)|
      ensures build.delta.None? ==> b.foreign == []
    {
      BookAsAdded(build, books, b);
    }
    if keyLength == KEY_BYTES {
      forall o | o in Handed(books) ensures o.window != ALIAS_WINDOW {
        NoAliasRows(build, books, o);
      }
    }
    if build.delta.None? && tombstones != [] {
      assert build.Split().Old(tombstones[0]);
    }
  }

  lemma BookAsAdded(build: Build, books: seq<BookRecords>, b: BookRecords)
    requires build.Valid() && AllAre(build, books) && b in books
    ensures forall e <- b.extras :: e.1 < |SlotKeys(books)|
    ensures build.delta.None? ==> b.foreign == []
  {
    var n := |build.now.plan.records|;
    var x :| 0 <= x < |books| && books[x] == b;
    assert Complete(build, n, books[x]);
    ExtrasNameSlots(build, b.book, n);
    if build.delta.None? { BaseHasNoForeign(build, b.book, n); }
  }

  /** The segment of a build whose books the writer has taken. */
  method WriteBuild(build: Build, ghost cosine: Cosine, ghost threshold: Option<real>, format: nat,
                    books: seq<BookRecords>, tombstones: seq<Key>)
    returns (segment: Option<Segment>)
    requires build.Valid() && build.now == ReleaseOf(build.now.plan, build.now.books, cosine, threshold)
    requires threshold.Some? ==> KeyLength(format) != KEY_BYTES
    requires AllAre(build, books) && Ascending(tombstones)
    requires forall key :: key in tombstones <==>
      build.Split().Old(key) && key !in build.Split().Keys(|build.now.plan.records|)
    ensures segment.Some? && IsSegment(build, segment.value) == true
  {
    AlwaysWritable(build, cosine, threshold, books, tombstones, KeyLength(format));
    segment := WriteSegment(build.now.books, books, tombstones, build.delta.None?, KeyLength(format));
  }

  /** A segment's books are told by the plan and the release before alone. */
  lemma LeavesStored(build: Build, threshold: Option<real>, segment: Segment, ledger: Ledger)
    requires build.Valid() && IsSegment(build, segment)
    requires ledger.Valid() && IsLedgerOf(ledger, build.Split()) && ledger.aliasThreshold == threshold
    ensures Leaves(build, threshold, segment, ledger) && AllStored(build, segment.books)
  {
    BooksStored(build, segment.books);
  }

  method AssembleBuild(build: Build, ghost cosine: Cosine, threshold: Option<real>, format: nat,
                       rows: seq<Occurrence>, warehouse: Warehouse)
    returns (result: Result<(Segment, Ledger), AssembleError>)
    requires build.Valid() && rows == build.now.Rows(|build.now.plan.records|)
    requires build.now == ReleaseOf(build.now.plan, build.now.books, cosine, threshold)
    requires threshold.Some? ==> KeyLength(format) != KEY_BYTES
    ensures result.Success? ==> Leaves(build, threshold, result.value.0, result.value.1) == true
    ensures result.Success? ==> AllStored(build, result.value.0.books) == true
    ensures result.Success? ==> result.value.1.format == format
    ensures result.Success? <==> Refusal(build, warehouse.vectors.Keys).None?
    ensures result.Failure? ==> Some(result.error) == Refusal(build, warehouse.vectors.Keys)
  {
    var split := build.Split();
    var windows := SlotWindows(build.now.plan);
    var classified, dispositions := Classify(split);
    var books := AddBooks(build, classified.Failure?, dispositions, rows, windows, warehouse.vectors.Keys);
    if books.Failure? {
      return Failure(books.error);
    }
    var tombstones := WriteTombstones(OldKeys(split), classified.value.kept, split.Keys(|split.plan.records|));
    var segment := WriteBuild(build, cosine, threshold, format, books.value, tombstones.value);
    if segment.None? {
      return Failure(BadRows);
    }
    var ledger := WriteLedger(split, classified.value, threshold, format);
    LeavesStored(build, threshold, segment.value, ledger.value);
    return Success((segment.value, ledger.value));
  }

  /** The build of a plan at a threshold: its aliases decided, and its snapshot keys found. */
  method DecideBuild(plan: PlanRecords, books: seq<Name>, delta: Option<Ledger>, threshold: Option<real>,
                     warehouse: Warehouse)
    returns (result: Result<(Build, seq<Occurrence>), AssembleError>)
    requires Release(plan, books, map[]).Valid() && (delta.Some? ==> delta.value.Valid())
    requires delta.Some? ==> delta.value.aliasThreshold == threshold
    ensures result.Failure? <==> TooHigh(threshold)
    ensures result.Failure? ==> result.error == BadThreshold
    ensures result.Success? ==>
      && result.value.0 == BuildOf(plan, books, delta, warehouse.Score(), threshold)
      && result.value.1 == result.value.0.now.Rows(|plan.records|)
  {
    var targets := DecideTargets(plan, warehouse.Score(), threshold);
    if targets.Failure? {
      return Failure(targets.error);
    }
    var now := Release(plan, books, targets.value);
    var rows := AliasedOccurrences(now);
    var changed := ChangedOccurrences(now, rows, delta, warehouse.Score());
    return Success((Build(now, delta, changed), rows));
  }

  lemma LeavesAssembled(build: Build, plan: PlanRecords, books: seq<Name>, delta: Option<Ledger>,
      threshold: Option<real>, warehouse: Warehouse, segment: Segment, ledger: Ledger)
    requires IsBuild(build, plan, books, delta, warehouse.Score(), threshold)
    requires Leaves(build, threshold, segment, ledger) && Refusal(build, warehouse.vectors.Keys).None?
    ensures IsAssembled(plan, books, delta, threshold, warehouse, segment, ledger)
  {
  }

  /**
   * Assemble a release: a delta against the release before, or a base. What comes out is the
   * segment of the build, and the ledger the next release is planned against.
   */
  method AssembleRelease(plan: PlanRecords, books: seq<Name>, delta: Option<Ledger>, asked: Option<real>,
                         format: nat, warehouse: Warehouse)
    returns (result: Result<(Segment, Ledger), AssembleError>)
    requires Release(plan, books, map[]).Valid() && (delta.Some? ==> delta.value.Valid())
    ensures result.Success? <==> Refused(plan, books, delta, asked, format, warehouse).None?
    ensures result.Failure? ==> Some(result.error) == Refused(plan, books, delta, asked, format, warehouse)
    ensures result.Success? ==>
      && IsAssembled(plan, books, delta, ThresholdFor(delta, asked).value, warehouse, result.value.0, result.value.1)
      && result.value.1.format == FormatFor(delta, format)
    ensures result.Success? ==>
      AllStored(BuildOf(plan, books, delta, warehouse.Score(), ThresholdFor(delta, asked).value),
                result.value.0.books) == true
  {
    var apart := CheckKeyPrefixes(plan, delta, FormatFor(delta, format));
    if !apart {
      return Failure(SharedKeys);
    }
    var threshold := ThresholdFor(delta, asked);
    if threshold.Failure? {
      return Failure(threshold.error);
    }
    if threshold.value.Some? && KeyLength(FormatFor(delta, format)) == KEY_BYTES {
      return Failure(AliasFormat);
    }
    var build := DecideBuild(plan, books, delta, threshold.value, warehouse);
    if build.Failure? {
      return Failure(build.error);
    }
    result := AssembleBuild(build.value.0, warehouse.Score(), threshold.value, FormatFor(delta, format),
                            build.value.1, warehouse);
    if result.Success? {
      LeavesAssembled(build.value.0, plan, books, delta, threshold.value, warehouse, result.value.0, result.value.1);
    }
  }
}
