/**
 * The bounded reads of the protobuf walk (Protocol Buffers Encoding, "Base 128 Varints" and
 * "Message Structure"). Every read is bounded by the end of the message it belongs to. Only the
 * outermost message is bounded by the end of the file, so only there is a read past its bound
 * a truncated file.
 */
module Wire {
  import opened Wrappers
  import opened Bytes

  const U64_SPACE: nat := 0x1_0000_0000_0000_0000
  const TAG_SPACE: nat := 0x1_0000_0000

  const VARINT: nat := 0
  const FIXED64: nat := 1
  const LEN: nat := 2
  const START_GROUP: nat := 3
  const END_GROUP: nat := 4
  const FIXED32: nat := 5

  /** `Truncated`: the read at byte `at` needs the file to reach byte `needs`. */
  datatype WalkError = Truncated(at: nat, needs: nat) | Malformed | Limit

  /** A message of a file, as far as its reads are concerned: `nested` if another holds it. */
  datatype Message = Message(file: seq<byte>, end: nat, nested: bool)

  type Region = r: Message | r.end <= |r.file| < U64_SPACE witness Message([], 0, false)

  datatype Read = Read(value: nat, pos: nat)

  datatype Tag = Tag(field: nat, wire: nat, pos: nat)

  function Within(r: Region, at: nat, n: nat): Option<WalkError> {
    if at + n >= U64_SPACE then Some(Malformed)
    else if at + n <= r.end then None
    else if r.nested then Some(Malformed)
    else Some(Truncated(at, at + n))
  }

  function ReadByte(r: Region, pos: nat): Result<Read, WalkError> {
    var refused := Within(r, pos, 1);
    if refused.Some? then Failure(refused.value) else Success(Read(r.file[pos], pos + 1))
  }

  /** `v << 7 * index`. */
  function Shifted(v: nat, index: nat): nat {
    if index == 0 then v else 128 * Shifted(v, index - 1)
  }

  /** The rest of a varint whose first `index` bytes gave `value`. */
  function VarintFrom(r: Region, pos: nat, index: nat, value: nat): (read: Result<Read, WalkError>)
    requires index <= 9
    ensures read.Success? ==> pos < read.value.pos <= r.end
    decreases 9 - index
  {
    var read := ReadByte(r, pos);
    if read.Failure? then read
    else
      var b := read.value.value;
      if index == 9 && b > 1 then Failure(Malformed)
      else if b < 128 then Success(Read(value + Shifted(b, index), pos + 1))
      else VarintFrom(r, pos + 1, index + 1, value + Shifted(b - 128, index))
  }

  function Varint(r: Region, pos: nat): (read: Result<Read, WalkError>)
    ensures read.Success? ==> pos < read.value.pos <= r.end
  {
    VarintFrom(r, pos, 0, 0)
  }

  function ReadTag(r: Region, pos: nat): (tag: Result<Tag, WalkError>)
    ensures tag.Success? ==> pos < tag.value.pos <= r.end
  {
    var raw := Varint(r, pos);
    if raw.Failure? then Failure(raw.error) else TagOf(raw.value)
  }

  function TagOf(raw: Read): (tag: Result<Tag, WalkError>)
    ensures tag.Success? ==> tag.value.pos == raw.pos
  {
    if raw.value >= TAG_SPACE || raw.value / 8 == 0 || raw.value % 8 > FIXED32 then Failure(Malformed)
    else Success(Tag(raw.value / 8, raw.value % 8, raw.pos))
  }

  /** A length prefix: `value` is where the value it announces ends. */
  function ValueEnd(r: Region, pos: nat): (stop: Result<Read, WalkError>)
    ensures stop.Success? ==> pos < stop.value.pos <= stop.value.value <= r.end
  {
    var n := Varint(r, pos);
    if n.Failure? then n
    else
      var refused := Within(r, n.value.pos, n.value.value);
      if refused.Some? then Failure(refused.value)
      else Success(Read(n.value.pos + n.value.value, n.value.pos))
  }

  function Skip(r: Region, pos: nat, n: nat): (after: Result<nat, WalkError>)
    ensures after.Success? ==> after.value == pos + n <= r.end
  {
    var refused := Within(r, pos, n);
    if refused.Some? then Failure(refused.value) else Success(pos + n)
  }

  /** A varint as an encoder writes it. */
  function EncodeVarint(v: nat): seq<byte> {
    if v < 128 then [v] else [128 + v % 128] + EncodeVarint(v / 128)
  }

  /** What is left for the rest of a 64-bit varint after `index` bytes. */
  function Room(index: nat): nat
    decreases 9 - index
  {
    if index >= 9 then 2 else 128 * Room(index + 1)
  }

  /** Some bytes stand at a place, before the end. */
  predicate At(r: Region, pos: nat, s: seq<byte>)
    decreases |s|
  {
    pos + |s| <= r.end && (s != [] ==> r.file[pos] == s[0] && At(r, pos + 1, s[1..]))
  }

  lemma {:induction false} AtSplits(r: Region, pos: nat, a: seq<byte>, b: seq<byte>)
    requires At(r, pos, a + b)
    ensures At(r, pos, a) && At(r, pos + |a|, b)
    decreases |a|
  {
    if a == [] {
      assert a + b == b;
    } else {
      assert (a + b)[1..] == a[1..] + b;
      AtSplits(r, pos + 1, a[1..], b);
    }
  }

  lemma {:induction false} AtIsSlice(r: Region, pos: nat, s: seq<byte>)
    ensures At(r, pos, s) <==> pos + |s| <= r.end && r.file[pos..pos + |s|] == s
    decreases |s|
  {
    if s != [] && pos + |s| <= r.end {
      AtIsSlice(r, pos + 1, s[1..]);
      var slice := r.file[pos..pos + |s|];
      assert slice[1..] == r.file[pos + 1..pos + |s|];
      assert s == [s[0]] + s[1..] && slice == [slice[0]] + slice[1..];
    }
  }

  lemma {:induction false} ShiftAdds(a: nat, b: nat, index: nat)
    ensures Shifted(a + b, index) == Shifted(a, index) + Shifted(b, index)
  {
    if index > 0 { ShiftAdds(a, b, index - 1); }
  }

  lemma {:induction false} ShiftsOn(v: nat, index: nat)
    ensures Shifted(128 * v, index) == Shifted(v, index + 1)
  {
    if index > 0 { ShiftsOn(v, index - 1); }
  }

  lemma ShiftSplits(v: nat, index: nat)
    ensures Shifted(v, index) == Shifted(v % 128, index) + Shifted(v / 128, index + 1)
  {
    ShiftAdds(v % 128, 128 * (v / 128), index);
    ShiftsOn(v / 128, index);
  }

  lemma VarintEnds(r: Region, pos: nat, index: nat, value: nat)
    requires pos < r.end && index <= 9
    requires r.file[pos] < 128 && (index == 9 ==> r.file[pos] <= 1)
    ensures VarintFrom(r, pos, index, value) == Success(Read(value + Shifted(r.file[pos], index), pos + 1))
  {
  }

  lemma VarintGoesOn(r: Region, pos: nat, index: nat, value: nat)
    requires pos < r.end && index < 9 && r.file[pos] >= 128
    ensures VarintFrom(r, pos, index, value) ==
      VarintFrom(r, pos + 1, index + 1, value + Shifted(r.file[pos] - 128, index))
  {
  }

  lemma VarintUnread(r: Region, pos: nat, index: nat, value: nat)
    requires index <= 9 && ReadByte(r, pos).Failure?
    ensures VarintFrom(r, pos, index, value) == ReadByte(r, pos)
  {
  }

  lemma VarintTooWide(r: Region, pos: nat, value: nat)
    requires pos < r.end && r.file[pos] > 1
    ensures VarintFrom(r, pos, 9, value) == Failure(Malformed)
  {
  }

  lemma VarintFails(r: Region, pos: nat, index: nat, value: nat)
    requires index <= 9 && (pos >= r.end || (index == 9 && r.file[pos] > 1))
    ensures VarintFrom(r, pos, index, value).Failure?
  {
  }

  lemma {:induction false} VarintFromInverts(r: Region, pos: nat, index: nat, value: nat, v: nat)
    requires index <= 9 && v < Room(index) && At(r, pos, EncodeVarint(v))
    ensures VarintFrom(r, pos, index, value) == Success(Read(value + Shifted(v, index), pos + |EncodeVarint(v)|))
    decreases 9 - index
  {
    if v >= 128 {
      VarintSplits(r, pos, v);
      VarintGoesOn(r, pos, index, value);
      VarintFromInverts(r, pos + 1, index + 1, value + Shifted(v % 128, index), v / 128);
      ShiftSplits(v, index);
    } else {
      VarintEnds(r, pos, index, value);
    }
  }

  lemma VarintSplits(r: Region, pos: nat, v: nat)
    requires v >= 128 && At(r, pos, EncodeVarint(v))
    ensures At(r, pos + 1, EncodeVarint(v / 128)) && |EncodeVarint(v)| == 1 + |EncodeVarint(v / 128)|
    ensures r.file[pos] == 128 + v % 128
  {
    AtSplits(r, pos, [(128 + v % 128) as byte], EncodeVarint(v / 128));
  }

  /** Decoding inverts encoding for every 64-bit value, wherever it stands and whatever follows. */
  lemma {:induction false} VarintInverts(r: Region, pos: nat, v: nat)
    requires v < U64_SPACE && At(r, pos, EncodeVarint(v))
    ensures Varint(r, pos) == Success(Read(v, pos + |EncodeVarint(v)|))
  {
    assert Room(0) == U64_SPACE;
    VarintFromInverts(r, pos, 0, 0, v);
  }

  lemma {:induction false} ShiftMonotone(a: nat, b: nat, index: nat)
    requires a <= b
    ensures Shifted(a, index) <= Shifted(b, index)
  {
    if index > 0 { ShiftMonotone(a, b, index - 1); }
  }

  /** A digit put above a value that fits below it leaves a value that fits. */
  lemma DigitFits(index: nat, value: nat, digit: nat, room: nat)
    requires value < Shifted(1, index) && digit < room
    ensures value + Shifted(digit, index) < Shifted(room, index)
  {
    ShiftMonotone(digit + 1, room, index);
    ShiftAdds(digit, 1, index);
  }

  lemma Last()
    ensures Shifted(2, 9) == U64_SPACE && Shifted(1, 9) == U64_SPACE / 2
  {
  }

  lemma {:induction false} SmallShift(index: nat)
    requires index <= 9
    ensures Shifted(1, index) <= U64_SPACE
    decreases 9 - index
  {
    if index == 9 { Last(); } else { SmallShift(index + 1); }
  }

  /** Adding a digit at `index` to what the bytes before gave. */
  lemma DigitBounds(index: nat, value: nat, digit: nat)
    requires index <= 9 && value < Shifted(1, index) && digit < 128 && (index == 9 ==> digit <= 1)
    ensures value + Shifted(digit, index) < U64_SPACE
    ensures index < 9 ==> value + Shifted(digit, index) < Shifted(1, index + 1)
  {
    if index == 9 {
      DigitFits(9, value, digit, 2);
      Last();
    } else {
      DigitFits(index, value, digit, 128);
      ShiftsOn(1, index);
      SmallShift(index + 1);
    }
  }

  ghost predicate ReadFits(read: Result<Read, WalkError>, bound: int) {
    read.Success? ==> read.value.value < U64_SPACE && read.value.pos <= bound
  }

  lemma {:induction false} VarintFromFits(r: Region, pos: nat, index: nat, value: nat, bound: nat)
    requires index <= 9 && value < Shifted(1, index) && bound == pos + 10 - index
    ensures ReadFits(VarintFrom(r, pos, index, value), bound)
    decreases 9 - index
  {
    if pos >= r.end || (index == 9 && r.file[pos] > 1) {
      VarintFails(r, pos, index, value);
    } else if r.file[pos] < 128 {
      DigitBounds(index, value, r.file[pos]);
      VarintEnds(r, pos, index, value);
    } else {
      VarintOnFits(r, pos, index, value, r.file[pos] - 128, bound);
    }
  }

  lemma {:induction false} VarintOnFits(r: Region, pos: nat, index: nat, value: nat, digit: nat, bound: nat)
    requires index < 9 && value < Shifted(1, index) && bound == pos + 10 - index
    requires pos < r.end && r.file[pos] == 128 + digit
    ensures ReadFits(VarintFrom(r, pos, index, value), bound)
    decreases 9 - index, 0
  {
    DigitBounds(index, value, digit);
    VarintGoesOn(r, pos, index, value);
    VarintFromFits(r, pos + 1, index + 1, value + Shifted(digit, index), bound);
  }

  /** No varint is worth 2^64 or more, nor longer than ten bytes. */
  lemma {:induction false} VarintFits(r: Region, pos: nat)
    ensures ReadFits(Varint(r, pos), pos + 10)
  {
    VarintFromFits(r, pos, 0, 0, pos + 10);
  }
}
