/** What the walk's visitors do with the messages of an ONNX model. */
module Onnx {
  import opened Wrappers
  import opened Bytes
  import opened Wire
  import opened WalkTypes

  const MAX_EXTERNAL_TENSORS: nat := 0x10_0000
  const MAX_EXTERNAL_DATA_ENTRY_BYTES: nat := 4096
  const MAX_EXTERNAL_DATA_ENTRIES: nat := 64
  const MAX_KEPT_NAME_BYTES: nat := 256
  const MAX_TENSOR_DIMS: nat := 256

  const DATA_LOCATION_EXTERNAL: nat := 1
  const DATA_TYPE_UNDEFINED: int := 0
  const DATA_TYPE_STRING: int := 8

  /** The ASCII bytes of "location", "offset" and "length". */
  const LOCATION: seq<byte> := [108, 111, 99, 97, 116, 105, 111, 110]
  const OFFSET: seq<byte> := [111, 102, 102, 115, 101, 116]
  const LENGTH: seq<byte> := [108, 101, 110, 103, 116, 104]

  /** The wire types a declared field may arrive in; none for a field that is not declared. */
  function Allowed(kind: Kind, field: nat): set<nat> {
    match kind
    case ModelProto =>
      if field in {1, 5} then {VARINT} else if field in {2, 3, 4, 6, 7, 8, 14, 20, 25, 26} then {LEN} else {}
    case GraphProto(_) => if field in {1, 2, 5, 10, 11, 12, 13, 14, 15, 16} then {LEN} else {}
    case NodeProto => if 1 <= field <= 10 then {LEN} else {}
    case AttributeProto =>
      if field == 2 then {FIXED32}
      else if field in {3, 20} then {VARINT}
      else if field == 7 then {FIXED32, LEN}
      else if field == 8 then {VARINT, LEN}
      else if field in {1, 4, 5, 6, 9, 10, 11, 13, 14, 15, 21, 22, 23} then {LEN}
      else {}
    case TensorProto(_) =>
      if field in {1, 5, 7, 11} then {VARINT, LEN}
      else if field in {2, 14} then {VARINT}
      else if field == 4 then {FIXED32, LEN}
      else if field == 10 then {FIXED64, LEN}
      else if field in {3, 6, 8, 9, 12, 13, 16} then {LEN}
      else {}
    case SparseTensorProto(_) => if field in {1, 2} then {LEN} else if field == 3 then {VARINT, LEN} else {}
    case TrainingInfoProto => if 1 <= field <= 4 then {LEN} else {}
    case FunctionProto => if field == 1 || 4 <= field <= 14 then {LEN} else {}
    case OperatorSetIdProto => if field == 1 then {LEN} else if field == 2 then {VARINT} else {}
    case StringStringEntryProto => if field in {1, 2} then {LEN} else {}
  }

  predicate Fits(kind: Kind, field: nat, wire: nat) {
    Allowed(kind, field) == {} || wire in Allowed(kind, field)
  }

  function ActionOf(kind: Kind, field: nat): Action {
    match kind
    case ModelProto =>
      if field == 1 then Reads
      else if field == 7 then Enters(GraphProto(true))
      else if field == 8 then Enters(OperatorSetIdProto)
      else if field == 20 then Enters(TrainingInfoProto)
      else if field == 25 then Enters(FunctionProto)
      else Pass
    case GraphProto(_) =>
      if field == 1 then Enters(NodeProto)
      else if field == 5 then Enters(TensorProto(Initializer))
      else if field == 15 then Enters(SparseTensorProto(SparseInitializer))
      else Pass
    case NodeProto => if field == 5 then Enters(AttributeProto) else Pass
    case AttributeProto =>
      if field in {5, 10} then Enters(TensorProto(AttributeTensor))
      else if field in {6, 11} then Enters(GraphProto(false))
      else if field in {22, 23} then Enters(SparseTensorProto(AttributeSparseTensor))
      else Pass
    case SparseTensorProto(role) => if field in {1, 2} then Enters(TensorProto(role)) else Pass
    case TrainingInfoProto => if field in {1, 2} then Enters(GraphProto(false)) else Pass
    case FunctionProto =>
      if field == 7 then Enters(NodeProto) else if field == 11 then Enters(AttributeProto) else Pass
    case OperatorSetIdProto => if field == 2 then Reads else Pass
    case TensorProto(_) =>
      if field == 1 then ReadsMany
      else if field in {2, 14} then Reads
      else if field == 8 then Takes
      else if field == 13 then Enters(StringStringEntryProto)
      else Pass
    case StringStringEntryProto => if field in {1, 2} then Takes else Pass
  }

  /**
   * A file's first field must be one ModelProto has; the main graph's inputs and outputs are
   * counted; a tensor may carry so many external_data entries and no more.
   */
  function Meet(kind: Kind, field: nat, state: State): Verdict {
    match kind
    case ModelProto =>
      if !state.scratch.begun && Allowed(ModelProto, field) == {} then Refused
      else Taken(state.(scratch := state.scratch.(begun := true)))
    case GraphProto(true) =>
      if field == 11 then Taken(state.(gathered := state.gathered.(graphInputs := state.gathered.graphInputs + 1)))
      else if field == 12 then
        Taken(state.(gathered := state.gathered.(graphOutputs := state.gathered.graphOutputs + 1)))
      else Taken(state)
    case TensorProto(_) =>
      if field == 13 && |state.scratch.entries| >= MAX_EXTERNAL_DATA_ENTRIES then Excess else Taken(state)
    case _ => Taken(state)
  }

  function AsI64(value: nat): int {
    if value >= U64_SPACE / 2 then value - U64_SPACE else value
  }

  function AsI32(value: nat): int {
    var low := value % 0x1_0000_0000;
    if low >= 0x8000_0000 then low - 0x1_0000_0000 else low
  }

  function NumberOf(kind: Kind, field: nat, value: nat, state: State): Verdict {
    match kind
    case ModelProto => Taken(state.(gathered := state.gathered.(irVersion := Some(AsI64(value)))))
    case OperatorSetIdProto => Taken(state.(scratch := state.scratch.(version := AsI64(value))))
    case TensorProto(_) => TensorNumber(field, value, state)
    case _ => Taken(state)
  }

  function TensorNumber(field: nat, value: nat, state: State): Verdict {
    if field == 1 then
      if |state.scratch.dims| >= MAX_TENSOR_DIMS then Excess
      else Taken(state.(scratch := state.scratch.(dims := state.scratch.dims + [AsI64(value)])))
    else if field == 2 then Taken(state.(scratch := state.scratch.(dataType := AsI32(value))))
    else Taken(state.(scratch := state.scratch.(location := value)))
  }

  /** A name, as much of it as is kept for messages. */
  function KeptName(bytes: seq<byte>): Name {
    if |bytes| <= MAX_KEPT_NAME_BYTES then Name(bytes, false) else Name(bytes[..MAX_KEPT_NAME_BYTES], true)
  }

  function TextOf(utf8: seq<byte> -> bool, kind: Kind, field: nat, bytes: seq<byte>, state: State): Verdict {
    if kind.TensorProto? then Taken(state.(scratch := state.scratch.(name := KeptName(bytes))))
    else if |bytes| > MAX_EXTERNAL_DATA_ENTRY_BYTES then Excess
    else if !utf8(bytes) then Refused
    else if field == 1 then Taken(state.(scratch := state.scratch.(entry := state.scratch.entry.(key := Some(bytes)))))
    else Taken(state.(scratch := state.scratch.(entry := state.scratch.entry.(value := Some(bytes)))))
  }

  const FRESH: Scratch := Scratch(false, 0, Name([], false), DATA_TYPE_UNDEFINED, 0, [], [], Entry(None, None))

  function Begin(kind: Kind, state: State): State {
    if kind == GraphProto(true) then State(state.gathered.(graphs := state.gathered.graphs + 1), FRESH)
    else State(state.gathered, FRESH)
  }

  function Finish(inner: Kind, kind: Kind, holder: State, child: State): Verdict {
    match inner
    case OperatorSetIdProto => Taken(State(WithOpset(child.gathered, child.scratch.version), holder.scratch))
    case TensorProto(role) => WithTensor(role, child.gathered, child.scratch, holder.scratch)
    case StringStringEntryProto =>
      Taken(State(child.gathered, holder.scratch.(entries := holder.scratch.entries + [child.scratch.entry])))
    case _ => Taken(State(child.gathered, holder.scratch))
  }

  function WithOpset(gathered: Gathered, version: int): Gathered {
    var invalid := gathered.invalidOpsetVersion;
    gathered.(opsetImports := gathered.opsetImports + 1,
              invalidOpsetVersion := if version < 1 && invalid.None? then Some(version) else invalid)
  }

  /** A tensor is kept only if its data lives elsewhere. */
  function WithTensor(role: Role, gathered: Gathered, tensor: Scratch, holder: Scratch): Verdict {
    if tensor.location == 0 then Taken(State(gathered, holder))
    else if tensor.location != DATA_LOCATION_EXTERNAL then Refused
    else
      var reference := Reference(role, tensor.name, tensor.entries, tensor.dims, tensor.dataType);
      if reference.None? then Refused
      else if |gathered.external| >= MAX_EXTERNAL_TENSORS then Excess
      else Taken(State(gathered.(external := gathered.external + [reference.value]), holder))
  }

  /** The values a key is given, in order; an entry without a value gives the empty one. */
  function Given(entries: seq<Entry>, key: seq<byte>): seq<seq<byte>> {
    if entries == [] then []
    else
      var last := entries[|entries| - 1];
      var before := Given(entries[..|entries| - 1], key);
      if last.key == Some(key) then before + [if last.value.Some? then last.value.value else []] else before
  }

  predicate IsNumber(text: seq<byte>) {
    text != [] && forall i :: 0 <= i < |text| ==> 48 <= text[i] <= 57
  }

  /** What digits spell. */
  function Spelled(digits: seq<byte>): nat
    requires forall i :: 0 <= i < |digits| ==> 48 <= digits[i] <= 57
  {
    if digits == [] then 0 else 10 * Spelled(digits[..|digits| - 1]) + (digits[|digits| - 1] - 48)
  }

  predicate NoNegative(dims: seq<int>) {
    forall i :: 0 <= i < |dims| ==> dims[i] >= 0
  }

  function Product(dims: seq<int>): nat
    requires NoNegative(dims)
  {
    if dims == [] then 1 else Product(dims[..|dims| - 1]) * dims[|dims| - 1]
  }

  function Capped(n: nat): nat {
    if n < U64_SPACE then n else U64_SPACE - 1
  }

  /** A number of an entry that may be given: refused, absent, or what it spells. */
  function GivenNumber(values: seq<seq<byte>>): Option<Option<nat>> {
    if values == [] then Some(None)
    else if IsNumber(values[0]) && Spelled(values[0]) < U64_SPACE then Some(Some(Spelled(values[0])))
    else None
  }

  /** The bytes a tensor's elements take at the least, a bit each; none if it cannot be told. */
  function Payload(dims: seq<int>, dataType: int): Option<nat> {
    if dataType == DATA_TYPE_STRING || dataType == DATA_TYPE_UNDEFINED then Some(0)
    else if !NoNegative(dims) then None
    else Some((Capped(Product(dims)) + 7) / 8)
  }

  /**
   * What an external tensor needs of the package: each key given once at most, a location, and
   * numbers that a file can reach. None if it is refused.
   */
  function Reference(role: Role, name: Name, entries: seq<Entry>, dims: seq<int>, dataType: int): Option<External> {
    var locations, offsets, lengths := Given(entries, LOCATION), Given(entries, OFFSET), Given(entries, LENGTH);
    if |locations| != 1 || |offsets| > 1 || |lengths| > 1 then None
    else Placed(role, name, locations[0], GivenNumber(offsets), GivenNumber(lengths), dims, dataType)
  }

  function Placed(role: Role, name: Name, location: seq<byte>, offset: Option<Option<nat>>, length: Option<Option<nat>>,
                  dims: seq<int>, dataType: int): Option<External> {
    if offset.None? || length.None? then None
    else
      var start := if offset.value.Some? then offset.value.value else 0;
      var payload := if length.value.Some? then length.value else Payload(dims, dataType);
      if payload.None? || start + payload.value >= U64_SPACE then None
      else Some(External(role, name, location, start + payload.value))
  }

  /** The visitors, over what UTF-8 is. */
  function Visitors(utf8: seq<byte> -> bool): Schema {
    Schema(
      Fits, ActionOf, Meet, NumberOf,
      (kind: Kind, field: nat, bytes: seq<byte>, state: State) => TextOf(utf8, kind, field, bytes, state),
      Begin, Finish)
  }

  lemma CapOfCapped(n: nat, dim: nat)
    ensures Capped(Capped(n) * dim) == Capped(n * dim)
  {
    if n >= U64_SPACE && dim > 0 {
      assert n * dim >= n;
      assert (U64_SPACE - 1) * dim >= U64_SPACE - 1;
    }
  }

  /** Capping the product at every step is capping it once: a later zero still makes it zero. */
  method CountElements(dims: seq<int>) returns (elements: Option<nat>)
    ensures elements.Some? <==> NoNegative(dims)
    ensures elements.Some? ==> elements.value == Capped(Product(dims))
  {
    var count: nat := 1;
    for i := 0 to |dims|
      invariant NoNegative(dims[..i]) && count == Capped(Product(dims[..i]))
    {
      if dims[i] < 0 {
        return None;
      }
      assert dims[..i + 1][..i] == dims[..i];
      CapOfCapped(Product(dims[..i]), dims[i]);
      count := Capped(count * dims[i]);
    }
    assert dims[..|dims|] == dims;
    return Some(count);
  }

  /** What the three keys the specification names are given, each once at most. */
  method Slots(entries: seq<Entry>) returns (slots: Option<map<seq<byte>, seq<byte>>>)
    ensures slots.Some? <==>
      forall key {:trigger Given(entries, key)} :: key in {LOCATION, OFFSET, LENGTH} ==> |Given(entries, key)| <= 1
    ensures slots.Some? ==> forall key {:trigger Given(entries, key)} :: key in {LOCATION, OFFSET, LENGTH} ==>
      Given(entries, key) == if key in slots.value then [slots.value[key]] else []
  {
    var found: map<seq<byte>, seq<byte>> := map[];
    for i := 0 to |entries|
      invariant forall key {:trigger Given(entries[..i], key)} :: key in {LOCATION, OFFSET, LENGTH} ==>
        Given(entries[..i], key) == if key in found then [found[key]] else []
    {
      var entry := entries[i];
      assert entries[..i + 1][..i] == entries[..i];
      if entry.key.Some? && entry.key.value in {LOCATION, OFFSET, LENGTH} {
        if entry.key.value in found {
          GivenTwice(entries, i, entry.key.value);
          return None;
        }
        found := found[entry.key.value := if entry.value.Some? then entry.value.value else []];
      }
    }
    assert entries[..|entries|] == entries;
    return Some(found);
  }

  lemma {:induction false} GivenTwice(entries: seq<Entry>, i: nat, key: seq<byte>)
    requires i < |entries| && entries[i].key == Some(key) && |Given(entries[..i], key)| >= 1
    ensures |Given(entries, key)| >= 2
  {
    if i == |entries| - 1 {
      assert entries[..|entries| - 1] == entries[..i];
    } else {
      assert entries[..|entries| - 1][..i] == entries[..i];
      GivenTwice(entries[..|entries| - 1], i, key);
    }
  }

  method ReadNumber(slots: map<seq<byte>, seq<byte>>, key: seq<byte>) returns (number: Option<Option<nat>>)
    ensures number == GivenNumber(if key in slots then [slots[key]] else [])
  {
    if key !in slots {
      return Some(None);
    }
    if !IsNumber(slots[key]) || Spelled(slots[key]) >= U64_SPACE {
      return None;
    }
    return Some(Some(Spelled(slots[key])));
  }

  method ReadPayload(dims: seq<int>, dataType: int) returns (payload: Option<nat>)
    ensures payload == Payload(dims, dataType)
  {
    if dataType == DATA_TYPE_STRING || dataType == DATA_TYPE_UNDEFINED {
      return Some(0);
    }
    var elements := CountElements(dims);
    return if elements.None? then None else Some((elements.value + 7) / 8);
  }

  /** Resolves one external tensor's entries, in the program's order. */
  method ExternalReference(role: Role, name: Name, entries: seq<Entry>, dims: seq<int>,
      dataType: int) returns (r: Option<External>)
    ensures r == Reference(role, name, entries, dims, dataType)
  {
    ghost var locations, offsets, lengths := Given(entries, LOCATION), Given(entries, OFFSET), Given(entries, LENGTH);
    var slots := Slots(entries);
    if slots.None? || LOCATION !in slots.value {
      return None;
    }
    var offset := ReadNumber(slots.value, OFFSET);
    var length := ReadNumber(slots.value, LENGTH);
    if offset.None? || length.None? {
      return None;
    }
    var payload := length.value;
    if length.value.None? {
      payload := ReadPayload(dims, dataType);
    }
    var start := if offset.value.Some? then offset.value.value else 0;
    if payload.None? || start + payload.value >= U64_SPACE {
      return None;
    }
    return Some(External(role, name, slots.value[LOCATION], start + payload.value));
  }

  /** Two's complement: the number in range that leaves the same remainder. */
  lemma SignedReadings(value: nat)
    ensures value < U64_SPACE ==>
      -0x8000_0000_0000_0000 <= AsI64(value) < 0x8000_0000_0000_0000 && (AsI64(value) - value) % U64_SPACE == 0
    ensures -0x8000_0000 <= AsI32(value) < 0x8000_0000 && (AsI32(value) - value) % 0x1_0000_0000 == 0
  {
  }

  /** The bytes told for a tensor hold a bit for each of its elements, and no byte to spare. */
  lemma PayloadMeans(dims: seq<int>, dataType: int)
    ensures Payload(dims, dataType).None? <==>
      dataType !in {0, 8} && exists i :: 0 <= i < |dims| && dims[i] < 0
    ensures Payload(dims, dataType).Some? ==>
      if dataType in {0, 8} then Payload(dims, dataType) == Some(0)
      else if Product(dims) >= U64_SPACE then 8 * Payload(dims, dataType).value >= U64_SPACE - 1
      else 8 * (Payload(dims, dataType).value - 1) < Product(dims) <= 8 * Payload(dims, dataType).value
  {
  }

  /** A name is kept as far as 256 bytes of it, and marked where there were more. */
  lemma KeptNameMeans(bytes: seq<byte>)
    ensures |KeptName(bytes).bytes| == if |bytes| <= 256 then |bytes| else 256
    ensures KeptName(bytes).bytes <= bytes && (KeptName(bytes).cut <==> KeptName(bytes).bytes != bytes)
  {
  }

  /** Whether entry `i` gives a key its value. */
  predicate Gives(entries: seq<Entry>, i: nat, key: seq<byte>) {
    i < |entries| && entries[i].key == Some(key)
  }

  lemma {:induction false} NoneGiven(entries: seq<Entry>, key: seq<byte>)
    ensures Given(entries, key) == [] <==> forall i: nat :: !Gives(entries, i, key)
  {
    if entries != [] {
      var before := entries[..|entries| - 1];
      assert Gives(entries, |entries| - 1, key) <==> entries[|entries| - 1].key == Some(key);
      assert forall i: nat :: i < |before| ==> (Gives(before, i, key) <==> Gives(entries, i, key));
      NoneGiven(before, key);
    }
  }

  /** A key given once has that entry's value, or the empty one where the entry has none. */
  lemma {:induction false} GivenOnce(entries: seq<Entry>, key: seq<byte>, i: nat)
    requires Gives(entries, i, key) && forall j: nat :: Gives(entries, j, key) ==> j == i
    ensures Given(entries, key) == [if entries[i].value.Some? then entries[i].value.value else []]
  {
    var before := entries[..|entries| - 1];
    assert forall j: nat :: j < |before| ==> (Gives(before, j, key) <==> Gives(entries, j, key));
    if i < |before| {
      assert !Gives(entries, |before|, key);
      GivenOnce(before, key, i);
    } else {
      NoneGiven(before, key);
    }
  }
}
