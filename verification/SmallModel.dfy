/** A model of a few bytes, written out: one initializer kept in a file named "w". */
module SmallModel {
  import opened Wrappers
  import opened Bytes
  import opened Wire
  import opened WalkTypes
  import opened GraphWalk
  import opened MessageTree
  import opened Onnx
  import opened ExternalTensors
  import opened ModelPlaces
  import opened ModelWalk

  function Ascii(text: string): seq<byte>
    requires forall i :: 0 <= i < |text| ==> text[i] as int < 128
  {
    seq(|text|, i requires 0 <= i < |text| => text[i] as int)
  }

  const KEY: seq<byte> := Ascii("location")
  const PLACE: seq<byte> := Ascii("w")
  const START_KEY: seq<byte> := Ascii("offset")
  const START: seq<byte> := Ascii("64")

  /** Each message's bytes: tags, lengths and values. */
  const ENTRY_BYTES: seq<byte> := [0x0a, 8] + KEY + [0x12, 1] + PLACE
  const START_BYTES: seq<byte> := [0x0a, 6] + START_KEY + [0x12, 2] + START
  const LAST_BYTES: seq<byte> := [0x6a, 12] + START_BYTES + [0x70, 1]
  const NAMED_BYTES: seq<byte> := [0x42, 1, 97] + ([0x6a, 13] + ENTRY_BYTES + LAST_BYTES)
  const TENSOR_BYTES: seq<byte> := [0x08, 9] + ([0x10, 1] + NAMED_BYTES)
  const GRAPH_BYTES: seq<byte> := [0x2a, 38] + TENSOR_BYTES
  const MODEL_BYTES: seq<byte> := [0x08, 0xac, 0x02] + ([0x3a, 40] + GRAPH_BYTES)

  function Pair(key: seq<byte>, value: seq<byte>): Tree {
    Then(1, Chunk(key), Then(2, Chunk(value), NoMore))
  }

  const TENSOR: Tree :=
    Then(1, Whole(9), Then(2, Whole(1), Then(8, Chunk([97]),
      Then(13, Held(Pair(KEY, PLACE)), Then(13, Held(Pair(START_KEY, START)), Then(14, Whole(1), NoMore))))))
  const GRAPH: Tree := Then(5, Held(TENSOR), NoMore)
  const MODEL: Tree := Then(1, Whole(300), Then(7, Held(GRAPH), NoMore))

  lemma Lengths()
    ensures KEY == LOCATION && START_KEY == OFFSET && |KEY| == 8 && |START_KEY| == 6
    ensures PLACE == [119] && START == [54, 52]
  {
  }

  lemma OneByte(v: nat)
    requires v < 128
    ensures EncodeVarint(v) == [v]
  {
  }

  lemma TwoBytes()
    ensures EncodeVarint(300) == [0xac, 0x02]
  {
    OneByte(2);
  }

  /** A field of a few bytes: its tag, its length, and what it holds. */
  lemma ShortField(number: nat, v: Value, rest: Tree, bytes: seq<byte>)
    requires v.Chunk? || v.Held?
    requires bytes == if v.Chunk? then v.bytes else Encode(EncodeVarint, v.fields)
    requires 8 * number + LEN < 128 && |bytes| < 128
    ensures Encode(EncodeVarint, Then(number, v, rest)) ==
      [8 * number + LEN, |bytes|] + bytes + Encode(EncodeVarint, rest)
  {
    OneByte(8 * number + LEN);
    OneByte(|bytes|);
  }

  lemma ShortNumber(number: nat, n: nat, rest: Tree)
    requires 8 * number < 128
    ensures Encode(EncodeVarint, Then(number, Whole(n), rest)) ==
      [8 * number] + EncodeVarint(n) + Encode(EncodeVarint, rest)
  {
    OneByte(8 * number);
  }

  lemma PairEncoded(key: seq<byte>, value: seq<byte>)
    requires |key| < 128 && |value| < 128
    ensures Encode(EncodeVarint, Pair(key, value)) == [0x0a, |key|] + key + [0x12, |value|] + value
  {
    ShortField(2, Chunk(value), NoMore, value);
    ShortField(1, Chunk(key), Then(2, Chunk(value), NoMore), key);
  }

  const LAST: Tree := Then(13, Held(Pair(START_KEY, START)), Then(14, Whole(1), NoMore))
  const NAMED: Tree := Then(8, Chunk([97]), Then(13, Held(Pair(KEY, PLACE)), LAST))

  lemma LastEncoded()
    ensures Encode(EncodeVarint, LAST) == LAST_BYTES && |LAST_BYTES| == 16
    ensures Encode(EncodeVarint, Pair(KEY, PLACE)) == ENTRY_BYTES && |ENTRY_BYTES| == 13 && |START_BYTES| == 12
  {
    Lengths();
    OneByte(1);
    ShortNumber(14, 1, NoMore);
    PairEncoded(START_KEY, START);
    PairEncoded(KEY, PLACE);
    ShortField(13, Held(Pair(START_KEY, START)), Then(14, Whole(1), NoMore), START_BYTES);
  }

  lemma NamedEncoded()
    ensures Encode(EncodeVarint, NAMED) == NAMED_BYTES && |NAMED_BYTES| == 34
  {
    LastEncoded();
    ShortField(13, Held(Pair(KEY, PLACE)), LAST, ENTRY_BYTES);
    ShortField(8, Chunk([97]), Then(13, Held(Pair(KEY, PLACE)), LAST), [97]);
  }

  lemma TensorEncoded()
    ensures Encode(EncodeVarint, TENSOR) == TENSOR_BYTES && |TENSOR_BYTES| == 38
  {
    NamedEncoded();
    OneByte(1);
    OneByte(9);
    var typed := Then(2, Whole(1), NAMED);
    ShortNumber(2, 1, NAMED);
    assert Encode(EncodeVarint, typed) == [0x10, 1] + NAMED_BYTES;
    ShortNumber(1, 9, typed);
  }

  lemma ModelEncoded()
    ensures Encode(EncodeVarint, MODEL) == MODEL_BYTES && |MODEL_BYTES| == 45
  {
    TensorEncoded();
    ShortField(5, Held(TENSOR), NoMore, TENSOR_BYTES);
    ShortField(7, Held(GRAPH), NoMore, GRAPH_BYTES);
    TwoBytes();
    ShortNumber(1, 300, Then(7, Held(GRAPH), NoMore));
  }

  lemma PairTyped(utf8: seq<byte> -> bool, key: seq<byte>, value: seq<byte>, depth: nat)
    ensures Typed(Visitors(utf8), StringStringEntryProto, Pair(key, value), depth)
  {
    var s := Visitors(utf8);
    assert s.fits(StringStringEntryProto, 1, LEN) && s.fits(StringStringEntryProto, 2, LEN);
    assert s.action(StringStringEntryProto, 1) == Takes && s.action(StringStringEntryProto, 2) == Takes;
    assert Typed(s, StringStringEntryProto, NoMore, depth);
    assert Typed(s, StringStringEntryProto, Then(2, Chunk(value), NoMore), depth);
  }

  lemma EntryTyped(utf8: seq<byte> -> bool, v: Value, depth: nat)
    requires v.Held? && Typed(Visitors(utf8), StringStringEntryProto, v.fields, depth + 1) && depth < MAX_MESSAGE_DEPTH
    ensures TypedValue(Visitors(utf8), TensorProto(Initializer), 13, v, depth)
  {
    var s := Visitors(utf8);
    assert s.fits(TensorProto(Initializer), 13, LEN);
    assert s.action(TensorProto(Initializer), 13) == Enters(StringStringEntryProto);
  }

  lemma ScalarTyped(utf8: seq<byte> -> bool, n: nat, v: Value, depth: nat)
    requires (n in {1, 2, 14} && v.Whole? && v.n < U64_SPACE) || (n == 8 && v.Chunk?)
    ensures TypedValue(Visitors(utf8), TensorProto(Initializer), n, v, depth)
  {
    var s := Visitors(utf8);
    assert s.fits(TensorProto(Initializer), n, WireOf(v)) == Fits(TensorProto(Initializer), n, WireOf(v));
    assert s.action(TensorProto(Initializer), n) == ActionOf(TensorProto(Initializer), n);
  }

  lemma TensorTyped(utf8: seq<byte> -> bool)
    ensures Typed(Visitors(utf8), TensorProto(Initializer), TENSOR, 2)
  {
    var s, k := Visitors(utf8), TensorProto(Initializer);
    PairTyped(utf8, KEY, PLACE, 3);
    PairTyped(utf8, START_KEY, START, 3);
    EntryTyped(utf8, Held(Pair(KEY, PLACE)), 2);
    EntryTyped(utf8, Held(Pair(START_KEY, START)), 2);
    ScalarTyped(utf8, 1, Whole(9), 2);
    ScalarTyped(utf8, 2, Whole(1), 2);
    ScalarTyped(utf8, 8, Chunk([97]), 2);
    ScalarTyped(utf8, 14, Whole(1), 2);
    assert Typed(s, k, NoMore, 2);
    assert Typed(s, k, LAST, 2);
    assert Typed(s, k, NAMED, 2);
  }

  lemma ModelTyped(utf8: seq<byte> -> bool)
    ensures Typed(Visitors(utf8), ModelProto, MODEL, 0)
  {
    var s := Visitors(utf8);
    TensorTyped(utf8);
    assert s.fits(GraphProto(true), 5, LEN) && s.action(GraphProto(true), 5) == Enters(TensorProto(Initializer));
    assert Typed(s, GraphProto(true), NoMore, 1) && Typed(s, ModelProto, NoMore, 0);
    assert Typed(s, GraphProto(true), GRAPH, 1);
    assert s.fits(ModelProto, 7, LEN) && s.action(ModelProto, 7) == Enters(GraphProto(true));
    assert s.fits(ModelProto, 1, VARINT) && s.action(ModelProto, 1) == Reads;
    assert Typed(s, ModelProto, Then(7, Held(GRAPH), NoMore), 0);
  }

  lemma CountStep(number: nat, v: Value, rest: Tree)
    ensures Count(Then(number, v, rest)) == Count(rest) + if v.Held? then 1 + Count(v.fields) else CountValue(v)
  {
  }

  lemma PairCount(key: seq<byte>, value: seq<byte>)
    ensures Count(Pair(key, value)) == 0
  {
    CountStep(2, Chunk(value), NoMore);
    CountStep(1, Chunk(key), Then(2, Chunk(value), NoMore));
  }

  lemma Counts()
    ensures Count(MODEL) == 4
  {
    PairCount(KEY, PLACE);
    PairCount(START_KEY, START);
    CountStep(14, Whole(1), NoMore);
    CountStep(13, Held(Pair(START_KEY, START)), Then(14, Whole(1), NoMore));
    CountStep(13, Held(Pair(KEY, PLACE)), LAST);
    assert Count(NAMED) == 2;
    CountStep(5, Held(TENSOR), NoMore);
    CountStep(7, Held(GRAPH), NoMore);
  }

  const EXPECTED: External := External(Initializer, Name([97], false), PLACE, 66)

  lemma Digits()
    ensures IsNumber(START) && Spelled(START) == 64
  {
    Lengths();
    assert START[..1] == [54] && START[..1][..0] == [];
    assert Spelled([54]) == 6;
  }

  lemma Resolves()
    ensures Reference(Initializer, Name([97], false),
                      [Entry(Some(KEY), Some(PLACE)), Entry(Some(START_KEY), Some(START))], [9], 1) == Some(EXPECTED)
  {
    Lengths();
    Digits();
    var first := Entry(Some(KEY), Some(PLACE));
    var both := [first, Entry(Some(START_KEY), Some(START))];
    assert both[..1] == [first] && [first][..0] == [];
    assert Given([], LOCATION) == [] && Given([], OFFSET) == [] && Given([], LENGTH) == [];
    assert Given([first], LOCATION) == [PLACE] && Given([first], OFFSET) == [] && Given([first], LENGTH) == [];
    assert Given(both, LOCATION) == [PLACE] && Given(both, OFFSET) == [START] && Given(both, LENGTH) == [];
    assert [9][..0] == [] && Product([]) == 1 && Product([9]) == 9;
  }

  lemma PairRead(key: seq<byte>, value: seq<byte>)
    ensures LastChunk(Pair(key, value), 1) == Some(key) && LastChunk(Pair(key, value), 2) == Some(value)
  {
    assert LastChunk(NoMore, 1) == None && LastChunk(NoMore, 2) == None;
    assert LastChunk(Then(2, Chunk(value), NoMore), 1) == None;
  }

  lemma TensorRead()
    ensures LastWhole(TENSOR, 14) == Some(1) && LastWhole(TENSOR, 2) == Some(1) && LastChunk(TENSOR, 8) == Some([97])
    ensures DimsOf(TENSOR) == [9]
    ensures EntriesOf(TENSOR) == [Entry(Some(KEY), Some(PLACE)), Entry(Some(START_KEY), Some(START))]
  {
    PairRead(KEY, PLACE);
    PairRead(START_KEY, START);
    assert LastWhole(LAST, 14) == Some(1) && LastWhole(LAST, 2) == None && LastChunk(LAST, 8) == None;
    assert LastWhole(NAMED, 14) == Some(1) && LastWhole(NAMED, 2) == None && LastChunk(NAMED, 8) == Some([97]);
    assert DimsOf(LAST) == [] && DimsOf(NAMED) == [];
    assert EntriesOf(LAST) == [Entry(Some(START_KEY), Some(START))];
    assert EntriesOf(NAMED) == [Entry(Some(KEY), Some(PLACE))] + EntriesOf(LAST);
  }

  lemma TensorGives()
    ensures TensorExternal(Initializer, TENSOR) == [EXPECTED]
  {
    TensorRead();
    Resolves();
    var tensor := Described(TENSOR, FRESH);
    assert tensor.dims == [9] && tensor.dataType == 1 && tensor.name == Name([97], false);
    assert tensor.entries == [Entry(Some(KEY), Some(PLACE)), Entry(Some(START_KEY), Some(START))];
  }

  lemma PlaceOfTensor()
    ensures KindAt([7]) == Some(GraphProto(true)) && KindAt([7, 5]) == Some(TensorProto(Initializer))
    ensures RoleAt([7]) == None && RoleAt([7, 5]) == Some(Initializer)
  {
    KindBelow([], 7);
    KindBelow([7], 5);
    RoleIs([7]);
    RoleIs([7, 5]);
    assert [] + [7] == [7] && [7] + [5] == [7, 5];
  }

  lemma TextsFine(utf8: seq<byte> -> bool)
    requires utf8(KEY) && utf8(PLACE) && utf8(START_KEY) && utf8(START)
    ensures TensorFine(utf8, Initializer, TENSOR)
  {
    Lengths();
    TensorRead();
    TensorGives();
    assert EntryFine(utf8, NoMore) && EntriesFine(utf8, NoMore);
    assert EntryFine(utf8, Pair(KEY, PLACE)) && EntryFine(utf8, Pair(START_KEY, START));
    assert EntriesFine(utf8, LAST);
    assert EntriesFine(utf8, NAMED);
  }

  lemma GraphRead(utf8: seq<byte> -> bool)
    requires utf8(KEY) && utf8(PLACE) && utf8(START_KEY) && utf8(START)
    ensures FineAt(utf8, [7], GRAPH) && TensorsAt([7], GRAPH) == [EXPECTED]
  {
    PlaceOfTensor();
    TensorGives();
    TextsFine(utf8);
    BarrenFine(utf8, [7, 5], TENSOR);
    assert [7] + [5] == [7, 5];
    assert FineAt(utf8, [7], NoMore) && FineIn(utf8, [7, 5], TENSOR);
  }

  lemma ModelRead(utf8: seq<byte> -> bool)
    requires utf8(KEY) && utf8(PLACE) && utf8(START_KEY) && utf8(START)
    ensures TensorsAt([], MODEL) == [EXPECTED] && ModelFine(utf8, MODEL)
  {
    PlaceOfTensor();
    GraphRead(utf8);
    assert [] + [7] == [7];
    var held := Then(7, Held(GRAPH), NoMore);
    assert FineAt(utf8, [], NoMore) && FineIn(utf8, [7], GRAPH);
    assert FineAt(utf8, [], held) && TensorsAt([], held) == [EXPECTED];
  }

  lemma Gathers()
    requires TensorsAt([], MODEL) == [EXPECTED]
    ensures GatheredOf(MODEL) == Gathered(Some(300), 0, None, 1, 0, 0, [EXPECTED])
  {
    var held := Then(7, Held(GRAPH), NoMore);
    assert LastWhole(held, 1) == None && LastWhole(MODEL, 1) == Some(300);
    assert Numbered(held, 7) == 1 && Numbered(held, 8) == 0;
    assert Numbered(GRAPH, 11) == 0 && Numbered(GRAPH, 12) == 0 && OfGraphs(held, 11) == 0 && OfGraphs(held, 12) == 0;
    assert FirstInvalid(held) == None;
  }

  /**
   * Forty-five bytes walked: one initializer named "a" of nine elements, kept in the file "w" from
   * byte 64 on, so that "w" must reach byte 66; and an ir_version of 300.
   */
  lemma {:induction false} SmallModelWalked(utf8: seq<byte> -> bool)
    requires utf8(Ascii("location")) && utf8(Ascii("w")) && utf8(Ascii("offset")) && utf8(Ascii("64"))
    ensures |MODEL_BYTES| == 45 && Walk(Visitors(utf8), MODEL_BYTES, ModelProto, NOTHING).Success?
    ensures Walk(Visitors(utf8), MODEL_BYTES, ModelProto, NOTHING).value.state.gathered ==
      Gathered(Some(300), 0, None, 1, 0, 0, [External(Initializer, Name(Ascii("a"), false), Ascii("w"), 66)])
  {
    ModelEncoded();
    ModelTyped(utf8);
    Counts();
    ModelRead(utf8);
    Gathers();
    WalkCollectsExternals(utf8, MODEL);
    assert Ascii("a") == [97];
  }
}
