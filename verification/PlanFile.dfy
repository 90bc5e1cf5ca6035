/** `records.bin`: a plan's records as bytes, written and opened. */
module PlanFile {
  import opened Wrappers
  import opened Bytes
  import opened Plan

  const RECORDS_MAGIC: seq<byte> := [79, 88, 86, 82, 69, 67, 49, 10]
  const WINDOWED_RECORDS_MAGIC: seq<byte> := [79, 88, 86, 82, 69, 67, 50, 10]
  const RECORDS_HEADER: nat := 16
  const RECORD_LEN: nat := 40
  const WINDOWED_RECORD_LEN: nat := 44
  const FILE_SPACE: nat := 0x1_0000_0000_0000_0000

  function RecordLen(windowed: bool): nat {
    if windowed then WINDOWED_RECORD_LEN else RECORD_LEN
  }

  function Magic(windowed: bool): seq<byte> {
    if windowed then WINDOWED_RECORDS_MAGIC else RECORDS_MAGIC
  }

  function Flags(record: PlanRecord): seq<byte>
    requires Fits(record)
  {
    [record.window, if record.short then 1 else 0, 0, 0]
  }

  function DigestBytes(digest: Digest): seq<byte> {
    BigEndian(digest.key, 16) + BigEndian(digest.rest, 16)
  }

  function Encode(record: PlanRecord, windowed: bool): seq<byte>
    requires Fits(record)
  {
    LittleEndian(record.book, 4) + LittleEndian(record.ordinal, 4)
    + (if windowed then Flags(record) else []) + DigestBytes(record.sha256)
  }

  function Decode(bytes: seq<byte>): PlanRecord
    requires |bytes| == RECORD_LEN || |bytes| == WINDOWED_RECORD_LEN
  {
    var windowed := |bytes| == WINDOWED_RECORD_LEN;
    var digest := if windowed then 12 else 8;
    PlanRecord(
      FromLittleEndian(bytes[..4]),
      FromLittleEndian(bytes[4..8]),
      if windowed then bytes[8] else 0,
      windowed && bytes[9] % 2 == 1,
      Digest(FromBigEndian(bytes[digest..digest + 16]), FromBigEndian(bytes[digest + 16..digest + 32])))
  }

  /** What a format keeps of a record: an `OXVREC1` one has no window and no short mark. */
  function Kept(record: PlanRecord, windowed: bool): PlanRecord {
    if windowed then record else record.(window := 0, short := false)
  }

  lemma Spaces()
    ensures Space(4) == 0x1_0000_0000 && Space(8) == FILE_SPACE && Space(16) == KEY_SPACE
  {
  }

  lemma {:induction false} EncodedLength(record: PlanRecord, windowed: bool)
    requires Fits(record)
    ensures |Encode(record, windowed)| == RecordLen(windowed)
    ensures |LittleEndian(record.book, 4)| == |LittleEndian(record.ordinal, 4)| == 4
    ensures |BigEndian(record.sha256.key, 16)| == |BigEndian(record.sha256.rest, 16)| == 16
    ensures FromLittleEndian(LittleEndian(record.book, 4)) == record.book
    ensures FromLittleEndian(LittleEndian(record.ordinal, 4)) == record.ordinal
    ensures FromBigEndian(BigEndian(record.sha256.key, 16)) == record.sha256.key
    ensures FromBigEndian(BigEndian(record.sha256.rest, 16)) == record.sha256.rest
  {
    Spaces();
    LittleEndianInverts(record.book, 4);
    LittleEndianInverts(record.ordinal, 4);
    BigEndianInverts(record.sha256.key, 16);
    BigEndianInverts(record.sha256.rest, 16);
  }

  lemma Slices(a: seq<byte>, b: seq<byte>, f: seq<byte>, c: seq<byte>, d: seq<byte>)
    requires |a| == |b| == 4 && |c| == |d| == 16
    ensures var s := a + b + f + (c + d);
      var digest := 8 + |f|;
      && s[..4] == a && s[4..8] == b && s[8..digest] == f
      && s[digest..digest + 16] == c && s[digest + 16..digest + 32] == d
  {
  }

  /** Decoding inverts encoding, but for what the format does not keep. */
  lemma {:induction false} RecordRoundTrip(record: PlanRecord, windowed: bool)
    requires Fits(record)
    ensures |Encode(record, windowed)| == RecordLen(windowed)
    ensures Decode(Encode(record, windowed)) == Kept(record, windowed)
  {
    EncodedLength(record, windowed);
    var f := if windowed then Flags(record) else [];
    var a, b := LittleEndian(record.book, 4), LittleEndian(record.ordinal, 4);
    var c, d := BigEndian(record.sha256.key, 16), BigEndian(record.sha256.rest, 16);
    Slices(a, b, f, c, d);
    var s := Encode(record, windowed);
    if windowed {
      assert s[8] == s[8..12][0] && s[9] == s[8..12][1];
    }
  }

  /** Four bytes, the first the least. */
  function Word(a: nat, b: nat, c: nat, d: nat): nat {
    a + 0x100 * b + 0x1_0000 * c + 0x100_0000 * d
  }

  lemma FourBytes(s: seq<byte>)
    requires |s| == 4
    ensures FromLittleEndian(s) == Word(s[0], s[1], s[2], s[3])
  {
    var one, two, three := s[1..], s[2..], s[3..];
    assert one[1..] == two && two[1..] == three && three[1..] == [];
    assert FromLittleEndian(three) == s[3];
    assert FromLittleEndian(two) == s[2] + 256 * FromLittleEndian(three);
    assert FromLittleEndian(one) == s[1] + 256 * FromLittleEndian(two);
  }

  lemma WordAt(s: seq<byte>, at: nat)
    requires at + 4 <= |s|
    ensures FromLittleEndian(s[at..at + 4]) == Word(s[at], s[at + 1], s[at + 2], s[at + 3])
  {
    FourBytes(s[at..at + 4]);
  }

  /** Byte by byte: book and ordinal least byte first, window and mark, and the digest as it is. */
  lemma {:induction false} RecordLayout(record: PlanRecord, windowed: bool)
    requires Fits(record)
    ensures var s, digest := Encode(record, windowed), if windowed then 12 else 8;
      && |s| == (if windowed then 44 else 40)
      && record.book == Word(s[0], s[1], s[2], s[3])
      && record.ordinal == Word(s[4], s[5], s[6], s[7])
      && (windowed ==> s[8] == record.window && s[9] == (if record.short then 1 else 0) && s[10] == s[11] == 0)
      && s[digest..digest + 16] == BigEndian(record.sha256.key, 16)
      && s[digest + 16..] == BigEndian(record.sha256.rest, 16)
  {
    EncodedLength(record, windowed);
    var s := Encode(record, windowed);
    Slices(LittleEndian(record.book, 4), LittleEndian(record.ordinal, 4), if windowed then Flags(record) else [],
           BigEndian(record.sha256.key, 16), BigEndian(record.sha256.rest, 16));
    WordAt(s, 0);
    WordAt(s, 4);
    FlagsAt(record, windowed);
  }

  lemma FlagsAt(record: PlanRecord, windowed: bool)
    requires Fits(record)
    ensures windowed ==> |Encode(record, windowed)| == 44 && Encode(record, windowed)[8..12] == Flags(record)
    ensures windowed ==> var s := Encode(record, windowed); forall i :: 0 <= i < 4 ==> s[8 + i] == Flags(record)[i]
  {
    EncodedLength(record, windowed);
  }

  lemma {:induction false} DecodedFits(bytes: seq<byte>)
    requires |bytes| == RECORD_LEN || |bytes| == WINDOWED_RECORD_LEN
    ensures Fits(Decode(bytes))
  {
    Spaces();
    var digest := if |bytes| == WINDOWED_RECORD_LEN then 12 else 8;
    FromLittleEndianInverts(bytes[..4]);
    FromLittleEndianInverts(bytes[4..8]);
    FromBigEndianInverts(bytes[digest..digest + 16]);
    FromBigEndianInverts(bytes[digest + 16..digest + 32]);
  }

  lemma Joined(s: seq<byte>, digest: nat)
    requires digest in {8, 12} && |s| == digest + 32
    ensures s == s[..4] + s[4..8] + s[8..digest] + (s[digest..digest + 16] + s[digest + 16..digest + 32])
  {
  }

  /** A record's bytes are the ones it would be written as, except where reserved bits are set. */
  lemma {:induction false} ReservedBits(s: seq<byte>, windowed: bool)
    requires |s| == RecordLen(windowed)
    ensures Fits(Decode(s))
    ensures Encode(Decode(s), windowed) == s <==> windowed ==> s[9] < 2 && s[10] == s[11] == 0
  {
    DecodedFits(s);
    var digest := if windowed then 12 else 8;
    Joined(s, digest);
    FromLittleEndianInverts(s[..4]);
    FromLittleEndianInverts(s[4..8]);
    FromBigEndianInverts(s[digest..digest + 16]);
    FromBigEndianInverts(s[digest + 16..digest + 32]);
    var record := Decode(s);
    assert DigestBytes(record.sha256) == s[digest..digest + 16] + s[digest + 16..digest + 32];
    if windowed {
      assert s[8..12] == [s[8], s[9], s[10], s[11]];
      Slices(s[..4], s[4..8], Flags(record), s[12..28], s[28..44]);
    } else {
      assert s[8..8] == [];
    }
  }

  /** The records of a file's body, a chunk at a time. */
  function DecodeAll(body: seq<byte>, windowed: bool): (records: seq<PlanRecord>) {
    if |body| < RecordLen(windowed) then []
    else [Decode(body[..RecordLen(windowed)])] + DecodeAll(body[RecordLen(windowed)..], windowed)
  }

  function EncodeAll(records: seq<PlanRecord>, windowed: bool): seq<byte>
    requires forall i :: 0 <= i < |records| ==> Fits(records[i])
  {
    if records == [] then []
    else EncodeAll(records[..|records| - 1], windowed) + Encode(records[|records| - 1], windowed)
  }

  function KeptAll(records: seq<PlanRecord>, windowed: bool): (kept: seq<PlanRecord>)
    ensures |kept| == |records|
    ensures forall i :: 0 <= i < |kept| ==> kept[i] == Kept(records[i], windowed)
  {
    if records == [] then []
    else KeptAll(records[..|records| - 1], windowed) + [Kept(records[|records| - 1], windowed)]
  }

  lemma {:induction false} DecodeAllAppends(body: seq<byte>, chunk: seq<byte>, windowed: bool)
    requires |body| % RecordLen(windowed) == 0 && |chunk| == RecordLen(windowed)
    ensures DecodeAll(body + chunk, windowed) == DecodeAll(body, windowed) + [Decode(chunk)]
    decreases |body|
  {
    var len := RecordLen(windowed);
    if |body| == 0 {
      assert body + chunk == chunk && chunk[..len] == chunk && chunk[len..] == [];
    } else {
      assert (body + chunk)[..len] == body[..len] && (body + chunk)[len..] == body[len..] + chunk;
      DecodeAllAppends(body[len..], chunk, windowed);
    }
  }

  /** What was written is what is read. */
  lemma {:induction false} BodyRoundTrip(records: seq<PlanRecord>, windowed: bool)
    requires forall i :: 0 <= i < |records| ==> Fits(records[i])
    ensures |EncodeAll(records, windowed)| == |records| * RecordLen(windowed)
    ensures DecodeAll(EncodeAll(records, windowed), windowed) == KeptAll(records, windowed)
  {
    if records != [] {
      var front, last := records[..|records| - 1], records[|records| - 1];
      BodyRoundTrip(front, windowed);
      RecordRoundTrip(last, windowed);
      WholeChunks(EncodeAll(front, windowed), |front|, windowed);
      DecodeAllAppends(EncodeAll(front, windowed), Encode(last, windowed), windowed);
    }
  }

  lemma WholeChunks(body: seq<byte>, count: nat, windowed: bool)
    requires |body| == count * RecordLen(windowed)
    ensures |body| % RecordLen(windowed) == 0
    ensures |body| + RecordLen(windowed) == (count + 1) * RecordLen(windowed)
  {
  }

  /** One record at an index is that record of the stream. */
  lemma {:induction false} GetIsIter(body: seq<byte>, windowed: bool, count: nat, index: nat)
    requires |body| == count * RecordLen(windowed) && index < count
    ensures |DecodeAll(body, windowed)| == count
    ensures index * RecordLen(windowed) + RecordLen(windowed) <= |body|
    ensures DecodeAll(body, windowed)[index] ==
      Decode(body[index * RecordLen(windowed)..index * RecordLen(windowed) + RecordLen(windowed)])
    decreases count
  {
    var len := RecordLen(windowed);
    assert count * len == (count - 1) * len + len;
    var rest := body[len..];
    if count == 1 {
      assert |rest| == 0 && DecodeAll(rest, windowed) == [];
      assert body[..len] == body[0..len];
    } else if index == 0 {
      GetIsIter(rest, windowed, count - 1, 0);
    } else {
      GetIsIter(rest, windowed, count - 1, index - 1);
      SliceOfRest(body, len, (index - 1) * len);
      assert index * len == (index - 1) * len + len;
    }
  }

  lemma SliceOfRest(body: seq<byte>, len: nat, at: nat)
    requires at + 2 * len <= |body|
    ensures body[len..][at..at + len] == body[at + len..at + len + len]
  {
  }

  type Position = (nat, nat, nat)

  function PositionOf(record: PlanRecord): Position {
    (record.book, record.ordinal, record.window)
  }

  /** At or before, by (book, ordinal, window). */
  predicate AtOrBefore(a: Position, b: Position) {
    || a.0 < b.0
    || (a.0 == b.0 && a.1 < b.1)
    || (a.0 == b.0 && a.1 == b.1 && a.2 <= b.2)
  }

  predicate Ascend(records: seq<PlanRecord>) {
    forall i, j :: 0 <= i < j < |records| ==> records[i].Before(records[j])
  }

  /** What a writer asks of a record on its own. It lets a short mark into an `OXVREC1` file, which drops it. */
  predicate Writable(record: PlanRecord, windowed: bool) {
    && record.window != ALIAS_WINDOW
    && (record.window != 0 ==> windowed)
    && (record.short ==> record.window == 0)
  }

  /** What a writer asks of everything it is given. */
  predicate Pushable(records: seq<PlanRecord>, windowed: bool) {
    && (forall i :: 0 <= i < |records| ==> Fits(records[i]) && Writable(records[i], windowed))
    && Ascend(records)
  }

  predicate MayFollow(records: seq<PlanRecord>, record: PlanRecord) {
    records == [] || records[|records| - 1].Before(record)
  }

  lemma Appends(records: seq<PlanRecord>, record: PlanRecord)
    requires Ascend(records)
    ensures Ascend(records + [record]) <==> MayFollow(records, record)
  {
    var all := records + [record];
    if Ascend(all) && records != [] {
      assert all[|records| - 1].Before(all[|records|]);
    }
  }

  function LastPosition(records: seq<PlanRecord>): Option<Position> {
    if records == [] then None else Some(PositionOf(records[|records| - 1]))
  }

  lemma PositionsOrder(records: seq<PlanRecord>, record: PlanRecord)
    ensures MayFollow(records, record) <==>
      !(LastPosition(records).Some? && AtOrBefore(PositionOf(record), LastPosition(records).value))
  {
  }

  datatype PushError = FurtherWindow | AliasesWindow | ShortFurtherWindow | NotAscending

  function FileOf(records: seq<PlanRecord>, windowed: bool, count: nat): seq<byte>
    requires forall i :: 0 <= i < |records| ==> Fits(records[i])
  {
    Magic(windowed) + LittleEndian(count, 8) + EncodeAll(records, windowed)
  }

  /** Which refusal a record meets first. */
  ghost predicate Explains(refused: Option<PushError>, record: PlanRecord, windowed: bool, pushed: seq<PlanRecord>) {
    && (refused == Some(FurtherWindow) <==> record.window != 0 && !windowed)
    && (refused == Some(NotAscending) <==> Writable(record, windowed) && !MayFollow(pushed, record))
    && (refused == Some(AliasesWindow) <==> record.window == ALIAS_WINDOW && windowed)
    && (refused.None? <==> Writable(record, windowed) && MayFollow(pushed, record))
  }

  method Refusal(record: PlanRecord, windowed: bool, last: Option<Position>, ghost pushed: seq<PlanRecord>)
    returns (refused: Option<PushError>)
    requires last == LastPosition(pushed)
    ensures Explains(refused, record, windowed, pushed)
  {
    if record.window != 0 && !windowed {
      return Some(FurtherWindow);
    }
    if record.window == ALIAS_WINDOW {
      return Some(AliasesWindow);
    }
    if record.short && record.window != 0 {
      return Some(ShortFurtherWindow);
    }
    PositionsOrder(pushed, record);
    if last.Some? && AtOrBefore(PositionOf(record), last.value) {
      return Some(NotAscending);
    }
    return None;
  }

  lemma {:induction false} PushableAppends(records: seq<PlanRecord>, record: PlanRecord, windowed: bool)
    requires Pushable(records, windowed) && Fits(record)
    ensures Pushable(records + [record], windowed) <==> Writable(record, windowed) && MayFollow(records, record)
  {
    Appends(records, record);
    assert (records + [record])[|records|] == record;
  }

  class RecordsWriter {
    var out: seq<byte>
    var count: nat
    var last: Option<Position>
    const windowed: bool
    ghost var pushed: seq<PlanRecord>

    ghost predicate Valid()
      reads this
    {
      && Pushable(pushed, windowed)
      && out == FileOf(pushed, windowed, 0)
      && count == |pushed| && last == LastPosition(pushed)
    }

    constructor (windowed: bool)
      ensures Valid() && this.windowed == windowed && pushed == []
    {
      this.windowed := windowed;
      out, count, last, pushed := Magic(windowed) + LittleEndian(0, 8), 0, None, [];
    }

    /** Taken exactly when everything pushed, with it, is still what a writer asks. */
    method Push(record: PlanRecord) returns (refused: Option<PushError>)
      requires Valid() && Fits(record)
      modifies this
      ensures Valid()
      ensures refused.None? <==> Pushable(old(pushed) + [record], windowed)
      ensures pushed == if refused.None? then old(pushed) + [record] else old(pushed)
      ensures Explains(refused, record, windowed, old(pushed))
    {
      refused := Refusal(record, windowed, last, pushed);
      PushableAppends(pushed, record, windowed);
      if refused.Some? {
        return;
      }
      last := Some(PositionOf(record));
      out := out + Encode(record, windowed);
      count := count + 1;
      EncodeAppends(pushed, record, windowed);
      pushed := pushed + [record];
    }

    /** The count over the zero written in its place. */
    method Finish() returns (total: nat)
      requires Valid()
      modifies this
      ensures total == |pushed| && pushed == old(pushed)
      ensures out == FileOf(pushed, windowed, total)
    {
      HeaderOf(pushed, windowed, 0);
      HeaderOf(pushed, windowed, count);
      out := out[..8] + LittleEndian(count, 8) + out[16..];
      return count;
    }
  }

  lemma EncodeAppends(records: seq<PlanRecord>, record: PlanRecord, windowed: bool)
    requires (forall i :: 0 <= i < |records| ==> Fits(records[i])) && Fits(record)
    ensures forall i :: 0 <= i < |records + [record]| ==> Fits((records + [record])[i])
    ensures FileOf(records + [record], windowed, 0) == FileOf(records, windowed, 0) + Encode(record, windowed)
  {
    var all := records + [record];
    assert all[..|all| - 1] == records;
  }

  lemma {:induction false} LittleEndianLength(n: nat, width: nat)
    ensures |LittleEndian(n, width)| == width
  {
    if width > 0 { LittleEndianLength(n / 256, width - 1); }
  }

  lemma {:induction false} HeaderOf(records: seq<PlanRecord>, windowed: bool, count: nat)
    requires forall i :: 0 <= i < |records| ==> Fits(records[i])
    ensures var file := FileOf(records, windowed, count);
      && |file| == RECORDS_HEADER + |EncodeAll(records, windowed)|
      && file[..8] == Magic(windowed) && file[8..16] == LittleEndian(count, 8)
      && file[16..] == EncodeAll(records, windowed)
  {
    LittleEndianLength(count, 8);
  }

  lemma EightBytes(s: seq<byte>)
    requires |s| == 8
    ensures FromLittleEndian(s) == Word(s[0], s[1], s[2], s[3]) +
      0x1_0000_0000 * FromLittleEndian(s[4..])
  {
    var one, two, three := s[1..], s[2..], s[3..];
    assert one[1..] == two && two[1..] == three && three[1..] == s[4..];
  }

  /** A file's first bytes: its format's name, a line end, and the count, least byte first. */
  lemma {:induction false} FileLayout(records: seq<PlanRecord>, windowed: bool, count: nat)
    requires forall i :: 0 <= i < |records| ==> Fits(records[i])
    requires count < FILE_SPACE
    ensures var file := FileOf(records, windowed, count);
      && |file| == 16 + |EncodeAll(records, windowed)|
      && (forall i :: 0 <= i < 8 ==> file[i] == (if windowed then "OXVREC2\n" else "OXVREC1\n")[i] as int)
      && count == Word(file[8], file[9], file[10], file[11]) +
           0x1_0000_0000 * FromLittleEndian(file[12..16])
      && file[16..] == EncodeAll(records, windowed)
  {
    var file := FileOf(records, windowed, count);
    HeaderOf(records, windowed, count);
    Spaces();
    LittleEndianInverts(count, 8);
    EightBytes(file[8..16]);
    assert file[8..16][4..] == file[12..16];
  }

  /** The format a file's magic names, if it is long enough to have one. */
  function Format(file: seq<byte>): Option<bool> {
    if |file| < RECORDS_HEADER then None
    else if file[..8] == RECORDS_MAGIC then Some(false)
    else if file[..8] == WINDOWED_RECORDS_MAGIC then Some(true)
    else None
  }

  /** Whether the count a file declares is the one its length holds. */
  predicate LengthAgrees(file: seq<byte>, windowed: bool) {
    |file| >= RECORDS_HEADER && |file| == RECORDS_HEADER + FromLittleEndian(file[8..16]) * RecordLen(windowed)
  }

  /** The records a file is laid out to hold, in order or not. */
  function Layout(file: seq<byte>): Option<PlanRecords> {
    if Format(file).None? || !LengthAgrees(file, Format(file).value) then None
    else Some(PlanRecords(Format(file).value, DecodeAll(file[16..], Format(file).value)))
  }

  datatype OpenError = NotARecordsFile | WrongLength | LineNotBegun | ShortAfterFirst | WindowOfAliases | OutOfOrder

  predicate BegunAfter(last: Option<Position>, record: PlanRecord) {
    record.window > 0 ==> last.Some? && last.value.0 == record.book && last.value.1 == record.ordinal
  }

  /** What a file's records are whatever their values: decoded ones fit, and an `OXVREC1` file holds no windows. */
  predicate Decoded(records: seq<PlanRecord>, windowed: bool) {
    forall i :: 0 <= i < |records| ==> Fits(records[i]) && (!windowed ==> records[i].window == 0 && !records[i].short)
  }

  lemma {:induction false} AllDecoded(body: seq<byte>, windowed: bool)
    ensures Decoded(DecodeAll(body, windowed), windowed)
    decreases |body|
  {
    var len := RecordLen(windowed);
    if |body| >= len {
      DecodedFits(body[..len]);
      AllDecoded(body[len..], windowed);
    }
  }

  /** What opening asks of the next record. */
  predicate Admits(records: seq<PlanRecord>, windowed: bool, record: PlanRecord) {
    && BegunAfter(LastPosition(records), record)
    && !(record.short && record.window != 0)
    && record.window != ALIAS_WINDOW
    && MayFollow(records, record)
  }

  lemma {:induction false} ValidPrefix(plan: PlanRecords, n: nat)
    requires plan.Valid() && n <= |plan.records|
    ensures PlanRecords(plan.windowed, plan.records[..n]).Valid()
  {
    var prefix := plan.records[..n];
    forall i {:trigger Begun(prefix, i)} | 0 <= i < n ensures Begun(prefix, i) {
      assert Begun(plan.records, i);
    }
  }

  lemma {:induction false} BegunExtends(records: seq<PlanRecord>, record: PlanRecord, i: nat)
    requires i < |records|
    ensures Begun(records + [record], i) == Begun(records, i)
  {
  }

  lemma {:induction false} BegunLast(records: seq<PlanRecord>, record: PlanRecord)
    ensures Begun(records + [record], |records|) <==> BegunAfter(LastPosition(records), record)
  {
  }

  /** A record is admitted exactly when the records with it are a plan. */
  lemma {:induction false} AdmitsExtends(records: seq<PlanRecord>, windowed: bool, record: PlanRecord)
    requires PlanRecords(windowed, records).Valid() && Fits(record)
    requires !windowed ==> record.window == 0 && !record.short
    ensures PlanRecords(windowed, records + [record]).Valid() <==> Admits(records, windowed, record)
  {
    var all := records + [record];
    Appends(records, record);
    BegunLast(records, record);
    assert all[|records|] == record;
    if Admits(records, windowed, record) {
      forall i {:trigger Begun(all, i)} | 0 <= i < |all| ensures Begun(all, i) {
        if i < |records| { BegunExtends(records, record, i); assert Begun(records, i); }
      }
    }
  }

  /** The first thing wrong with the next record. */
  method Wrong(record: PlanRecord, last: Option<Position>, ghost records: seq<PlanRecord>, ghost windowed: bool)
    returns (wrong: Option<OpenError>)
    requires last == LastPosition(records)
    ensures wrong.None? <==> Admits(records, windowed, record)
    ensures wrong.Some? ==> wrong.value !in {NotARecordsFile, WrongLength}
  {
    if record.window > 0 &&
       !(last.Some? && last.value.0 == record.book && last.value.1 == record.ordinal) {
      return Some(LineNotBegun);
    }
    if record.short && record.window != 0 {
      return Some(ShortAfterFirst);
    }
    if record.window == ALIAS_WINDOW {
      return Some(WindowOfAliases);
    }
    PositionsOrder(records, record);
    if last.Some? && AtOrBefore(PositionOf(record), last.value) {
      return Some(OutOfOrder);
    }
    return None;
  }

  method CheckRecords(windowed: bool, records: seq<PlanRecord>) returns (wrong: Option<OpenError>)
    requires Decoded(records, windowed)
    ensures wrong.None? <==> PlanRecords(windowed, records).Valid()
    ensures wrong.Some? ==> wrong.value !in {NotARecordsFile, WrongLength}
  {
    var last: Option<Position> := None;
    for i := 0 to |records|
      invariant last == LastPosition(records[..i])
      invariant PlanRecords(windowed, records[..i]).Valid()
    {
      wrong := Wrong(records[i], last, records[..i], windowed);
      assert records[..i + 1] == records[..i] + [records[i]];
      AdmitsExtends(records[..i], windowed, records[i]);
      if wrong.Some? {
        if PlanRecords(windowed, records).Valid() { ValidPrefix(PlanRecords(windowed, records), i + 1); }
        return;
      }
      last := Some(PositionOf(records[i]));
    }
    assert records[..|records|] == records;
    return None;
  }

  /**
   * A file is opened exactly when it is laid out as records of a plan. The checked product of
   * the declared count and the record length has no overflow to tell apart: no file is so long.
   */
  method Open(file: seq<byte>) returns (r: Result<PlanRecords, OpenError>)
    requires |file| < FILE_SPACE
    ensures r.Success? <==> Layout(file).Some? && Layout(file).value.Valid()
    ensures r.Success? ==> r.value == Layout(file).value
    ensures r == Failure(NotARecordsFile) <==> Format(file).None?
    ensures r == Failure(WrongLength) <==> Format(file).Some? && !LengthAgrees(file, Format(file).value)
  {
    var format := Format(file);
    if format.None? {
      return Failure(NotARecordsFile);
    }
    var windowed := format.value;
    var count := FromLittleEndian(file[8..16]);
    var bytes := count * RecordLen(windowed);
    var expected :=
      if bytes < FILE_SPACE && bytes + RECORDS_HEADER < FILE_SPACE then Some(bytes + RECORDS_HEADER) else None;
    if expected != Some(|file|) {
      return Failure(WrongLength);
    }
    var records := DecodeAll(file[16..], windowed);
    AllDecoded(file[16..], windowed);
    var wrong := CheckRecords(windowed, records);
    return if wrong.Some? then Failure(wrong.value) else Success(PlanRecords(windowed, records));
  }

  /** A written file is laid out as the records it was written from. */
  lemma {:induction false} FileRoundTrip(records: seq<PlanRecord>, windowed: bool)
    requires Pushable(records, windowed)
    requires |FileOf(records, windowed, |records|)| < FILE_SPACE
    ensures Layout(FileOf(records, windowed, |records|)) == Some(PlanRecords(windowed, KeptAll(records, windowed)))
  {
    var file := FileOf(records, windowed, |records|);
    HeaderOf(records, windowed, |records|);
    BodyRoundTrip(records, windowed);
    CountFits(|records|, windowed, |file|);
    LittleEndianInverts(|records|, 8);
    assert Magic(windowed)[6] == if windowed then 50 else 49;
  }

  lemma CountFits(count: nat, windowed: bool, length: nat)
    requires length == RECORDS_HEADER + count * RecordLen(windowed) < FILE_SPACE
    ensures count < Space(8)
  {
    Spaces();
  }

  /**
   * The writer does not ask that a line begin with window 0 and opening does: what was written
   * opens, as what was written, exactly when every line began.
   */
  lemma {:induction false} WrittenOpensExactly(records: seq<PlanRecord>, windowed: bool)
    requires Pushable(records, windowed)
    requires |FileOf(records, windowed, |records|)| < FILE_SPACE
    ensures Layout(FileOf(records, windowed, |records|)).Some?
    ensures Layout(FileOf(records, windowed, |records|)).value.Valid() <==>
      forall i {:trigger Begun(records, i)} :: 0 <= i < |records| ==> Begun(records, i)
  {
    FileRoundTrip(records, windowed);
    var kept := KeptAll(records, windowed);
    KeptWellFormed(records, windowed);
    forall i: nat {:trigger Begun(records, i)} {:trigger Begun(kept, i)} | i < |records|
      ensures Begun(kept, i) == Begun(records, i)
    {
      KeptBegins(records, windowed, i);
    }
  }

  lemma KeptBegins(records: seq<PlanRecord>, windowed: bool, i: nat)
    requires Pushable(records, windowed) && i < |records|
    ensures Begun(KeptAll(records, windowed), i) == Begun(records, i)
  {
  }

  lemma KeptWellFormed(records: seq<PlanRecord>, windowed: bool)
    requires Pushable(records, windowed)
    ensures var kept := KeptAll(records, windowed);
      Ascend(kept) && forall i :: 0 <= i < |kept| ==> WellFormed(kept[i], windowed)
  {
    var kept := KeptAll(records, windowed);
    forall i, j | 0 <= i < j < |kept| ensures kept[i].Before(kept[j]) {
      assert records[i].Before(records[j]);
    }
  }

  /** A writer takes a line's second window first; the file is refused. */
  lemma LineMayNotBegin()
    ensures var records := [PlanRecord(0, 0, 1, false, Digest(0, 0))];
      && Pushable(records, true)
      && |FileOf(records, true, 1)| < FILE_SPACE
      && Layout(FileOf(records, true, 1)).Some?
      && !Layout(FileOf(records, true, 1)).value.Valid()
  {
    var records := [PlanRecord(0, 0, 1, false, Digest(0, 0))];
    HeaderOf(records, true, 1);
    BodyRoundTrip(records, true);
    WrittenOpensExactly(records, true);
    assert !Begun(records, 0);
  }
}
