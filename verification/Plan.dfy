/**
 * The plan of a release: which line of which book holds which key.
 *
 * A key is the first sixteen bytes of a text's SHA-256. Keys are only compared, and sixteen
 * bytes compare as the number they spell big-endian (`Bytes.BigEndianIsLexicographic`), so a
 * key here is that number. Book names are only compared too, and a name is its rank in byte
 * order.
 */
module Plan {
  import opened Wrappers

  const KEY_SPACE: nat := 0x1_0000_0000_0000_0000_0000_0000_0000_0000
  const ALIAS_WINDOW: nat := 255

  type Key = nat
  type Name = nat

  /** A SHA-256: the sixteen bytes that are the key, and the sixteen that follow. */
  datatype Digest = Digest(key: Key, rest: Key)

  datatype PlanRecord = PlanRecord(book: nat, ordinal: nat, window: nat, short: bool, sha256: Digest) {
    function Key(): Key {
      sha256.key
    }

    predicate SameLine(other: PlanRecord) {
      book == other.book && ordinal == other.ordinal
    }

    /** Strictly before `other` by (book, ordinal, window). */
    predicate Before(other: PlanRecord) {
      || book < other.book
      || (book == other.book && ordinal < other.ordinal)
      || (book == other.book && ordinal == other.ordinal && window < other.window)
    }
  }

  /** Whether every field fits the bytes a record gives it. */
  predicate Fits(record: PlanRecord) {
    && record.book < 0x1_0000_0000 && record.ordinal < 0x1_0000_0000 && record.window < 0x100
    && record.sha256.key < KEY_SPACE && record.sha256.rest < KEY_SPACE
  }

  /** What a record must be on its own to be part of a plan. */
  predicate WellFormed(record: PlanRecord, windowed: bool) {
    && Fits(record)
    && record.window != ALIAS_WINDOW
    && (record.window != 0 ==> windowed)
    && (record.short ==> windowed && record.window == 0)
  }

  /** A further window follows a record of its own line, so every line begins with window 0. */
  predicate Begun(records: seq<PlanRecord>, i: nat)
    requires i < |records|
  {
    records[i].window > 0 ==> i > 0 && records[i - 1].SameLine(records[i])
  }

  datatype PlanRecords = PlanRecords(windowed: bool, records: seq<PlanRecord>) {
    /** What `open` accepts: see `PlanFile`. */
    ghost predicate Valid() {
      && (forall i :: 0 <= i < |records| ==> WellFormed(records[i], windowed))
      && (forall i, j :: 0 <= i < j < |records| ==> records[i].Before(records[j]))
      && (forall i {:trigger Begun(records, i)} :: 0 <= i < |records| ==> Begun(records, i))
    }
  }

  /** A location, as a segment stores it. `anchor` is the key of its line's first window. */
  datatype Occurrence = Occurrence(key: Key, book: nat, hint: nat, anchor: Key, window: nat)

  /** The index of the first window of record `i`'s line. */
  ghost function Anchor(plan: PlanRecords, i: nat): (a: nat)
    requires plan.Valid() && i < |plan.records|
    ensures a <= i
    ensures plan.records[a].window == 0 && plan.records[a].SameLine(plan.records[i])
  {
    if plan.records[i].window == 0 then i else
      assert Begun(plan.records, i);
      Anchor(plan, i - 1)
  }

  ghost function OccurrenceAt(plan: PlanRecords, i: nat): Occurrence
    requires plan.Valid() && i < |plan.records|
  {
    var r := plan.records[i];
    Occurrence(r.Key(), r.book, r.ordinal, plan.records[Anchor(plan, i)].Key(), r.window)
  }

  /** Every line has one first window: the anchor is the record at (book, ordinal, 0). */
  lemma {:induction false} AnchorUnique(plan: PlanRecords, i: nat, j: nat)
    requires plan.Valid() && i < |plan.records| && j < |plan.records|
    requires plan.records[j].window == 0 && plan.records[j].SameLine(plan.records[i])
    ensures Anchor(plan, i) == j
  {
    var a := Anchor(plan, i);
    assert !plan.records[a].Before(plan.records[j]) && !plan.records[j].Before(plan.records[a]);
  }

  /**
   * Every location with its line's first-window anchor, streamed with one parent in hand. The
   * fallback for a window without a parent is never taken in a plan that was accepted.
   */
  method Occurrences(plan: PlanRecords) returns (out: seq<Occurrence>)
    requires plan.Valid()
    ensures |out| == |plan.records|
    ensures forall i :: 0 <= i < |out| ==> out[i] == OccurrenceAt(plan, i)
  {
    out := [];
    var parent: Option<(nat, nat, Key)> := None;
    for i := 0 to |plan.records|
      invariant |out| == i
      invariant forall j :: 0 <= j < i ==> out[j] == OccurrenceAt(plan, j)
      invariant i > 0 ==>
        var last := plan.records[i - 1];
        parent == Some((last.book, last.ordinal, plan.records[Anchor(plan, i - 1)].Key()))
    {
      var record := plan.records[i];
      if record.window == 0 {
        parent := Some((record.book, record.ordinal, record.Key()));
      } else {
        assert Begun(plan.records, i);
      }
      var anchor :=
        if parent.Some? && parent.value.0 == record.book && parent.value.1 == record.ordinal
        then parent.value.2
        else record.Key();
      out := out + [Occurrence(record.Key(), record.book, record.ordinal, anchor, record.window)];
    }
  }
}
