/** Walking the bytes of a message tree gives what the tree means. */
module TreeWalk {
  import opened Wrappers
  import opened Bytes
  import opened Wire
  import opened WalkTypes
  import opened GraphWalk
  import opened MessageTree

  lemma {:induction false} PassReads(enc: Varints, r: Region, number: nat, v: Value, depth: nat, w: Walked,
      after: Cursor)
    requires ReadBack(enc) && SkippableValue(number, v, depth)
    requires At(r, w.pos, EncodeValue(enc, number, v)) && w.pos <= r.end
    requires after == PastValue(enc, number, v, Cursor(w.pos, w.messages)) && after.messages <= MAX_MESSAGES
    ensures Passed(r, Tag(number, WireOf(v), w.pos), depth, w) == Success(Walked(after.pos, after.messages, w.state))
  {
    SkipValueReads(enc, r, number, v, depth, Cursor(w.pos, w.messages), after);
  }

  lemma {:induction false} NumberReads(enc: Varints, s: Schema, r: Region, kind: Kind, number: nat, n: nat, w: Walked)
    requires ReadBack(enc) && n < U64_SPACE && At(r, w.pos, enc(n)) && w.pos <= r.end
    ensures Number(s, r, kind, number, w) == Judged(s.number(kind, number, n, w.state), w.pos + |enc(n)|, w.messages)
  {
    assert Varint(r, w.pos) == Success(Read(n, w.pos + |enc(n)|));
  }

  lemma {:induction false} NumbersRead(enc: Varints, s: Schema, r: Region, kind: Kind, number: nat,
      ns: seq<nat>, w: Walked)
    requires ReadBack(enc) && (forall i :: 0 <= i < |ns| ==> ns[i] < U64_SPACE)
    requires At(r, w.pos, EncodeNumbers(enc, ns)) && w.pos + NumbersSize(enc, ns) == r.end
    ensures Numbers(s, r, kind, number, w) == Judged(NumbersMeaning(s, kind, number, ns, w.state), r.end, w.messages)
    decreases |ns|
  {
    if ns != [] {
      AtSplits(r, w.pos, enc(ns[0]), EncodeNumbers(enc, ns[1..]));
      NumberReads(enc, s, r, kind, number, ns[0], w);
      var taken := s.number(kind, number, ns[0], w.state);
      if taken.Taken? {
        NumbersRead(enc, s, r, kind, number, ns[1..], Walked(w.pos + |enc(ns[0])|, w.messages, taken.state));
      }
    }
  }

  lemma {:induction false} ManyReads(enc: Varints, s: Schema, r: Region, kind: Kind, number: nat, ns: seq<nat>,
      w: Walked)
    requires ReadBack(enc) && (forall i :: 0 <= i < |ns| ==> ns[i] < U64_SPACE)
    requires At(r, w.pos, Announced(enc, EncodeNumbers(enc, ns))) && w.pos <= r.end
    ensures Packed(s, r, kind, number, w) ==
      Judged(NumbersMeaning(s, kind, number, ns, w.state), w.pos + AnnouncedSize(enc, NumbersSize(enc, ns)), w.messages)
  {
    NumbersSized(enc, ns);
    var stop := Opened(enc, r, r.nested, w.pos, EncodeNumbers(enc, ns));
    NumbersRead(enc, s, Until(r, stop.value), kind, number, ns, w.(pos := stop.pos));
  }

  lemma {:induction false} ChunkReads(enc: Varints, s: Schema, r: Region, kind: Kind, number: nat,
      bytes: seq<byte>, w: Walked)
    requires ReadBack(enc) && At(r, w.pos, Announced(enc, bytes)) && w.pos <= r.end
    ensures Text(s, r, kind, number, w) ==
      Judged(s.text(kind, number, bytes, w.state), w.pos + AnnouncedSize(enc, |bytes|), w.messages)
  {
    var stop := Opened(enc, r, r.nested, w.pos, bytes);
    AtIsSlice(Message(r.file, stop.value, r.nested), stop.pos, bytes);
  }

  lemma {:induction false} HeldReads(enc: Varints, s: Schema, r: Region, kind: Kind, inner: Kind, t: Tree,
      depth: nat, w: Walked, after: Cursor)
    requires ReadBack(enc) && depth < MAX_MESSAGE_DEPTH && Typed(s, inner, t, depth + 1)
    requires At(r, w.pos, Announced(enc, Encode(enc, t))) && w.pos <= r.end
    requires after == Cursor(w.pos + AnnouncedSize(enc, Size(enc, t)), w.messages + 1 + Count(t))
    requires after.messages <= MAX_MESSAGES
    ensures Inner(s, r, kind, inner, depth, w) ==
      Judged(HeldMeaning(s, kind, inner, t, w.state), after.pos, after.messages)
    decreases t, 3
  {
    var stop := HeldAt(enc, r, t, w.pos, after.pos);
    ChildReads(enc, s, r.file, kind, inner, t, depth + 1, w.(pos := stop.pos), after);
  }

  lemma {:induction false} ChildReads(enc: Varints, s: Schema, file: seq<byte>, kind: Kind, inner: Kind,
      t: Tree, depth: nat, w: Walked, after: Cursor)
    requires ReadBack(enc) && depth <= MAX_MESSAGE_DEPTH && Typed(s, inner, t, depth) && after.pos <= |file| < U64_SPACE
    requires At(Message(file, after.pos, true), w.pos, Encode(enc, t)) && w.pos + Size(enc, t) == after.pos
    requires after.messages == w.messages + 1 + Count(t) <= MAX_MESSAGES
    ensures Child(s, file, kind, inner, depth, w, after.pos) ==
      Judged(HeldMeaning(s, kind, inner, t, w.state), after.pos, after.messages)
    decreases t, 2
  {
    var first := Walked(w.pos, w.messages + 1, s.begin(inner, w.state));
    FieldsRead(enc, s, Message(file, after.pos, true), inner, t, depth, first, after);
  }

  lemma {:induction false} HeldAt(enc: Varints, r: Region, t: Tree, pos: nat, end: nat) returns (stop: Read)
    requires ReadBack(enc) && At(r, pos, Announced(enc, Encode(enc, t)))
    requires end == pos + AnnouncedSize(enc, Size(enc, t))
    ensures end == stop.value <= r.end && stop.pos + Size(enc, t) == end && ValueEnd(r, pos) == Success(stop)
    ensures At(Message(r.file, end, true), stop.pos, Encode(enc, t))
  {
    Sized(enc, t);
    stop := Opened(enc, r, true, pos, Encode(enc, t));
  }

  lemma {:induction false} FieldReads(enc: Varints, s: Schema, r: Region, kind: Kind, number: nat, v: Value,
      depth: nat, w: Walked, after: Cursor)
    requires ReadBack(enc) && TypedValue(s, kind, number, v, depth)
    requires At(r, w.pos, EncodeValue(enc, number, v)) && w.pos <= r.end
    requires after == PastValue(enc, number, v, Cursor(w.pos, w.messages)) && after.messages <= MAX_MESSAGES
    ensures Visit(s, r, kind, Tag(number, WireOf(v), w.pos), depth, w) ==
      Judged(FieldMeaning(s, kind, number, v, w.state), after.pos, after.messages)
    decreases v, 4
  {
    var met := s.meet(kind, number, w.state);
    if met.Taken? { ValueReads(enc, s, r, kind, number, v, depth, w.(state := met.state), after); }
  }

  lemma {:induction false} ValueReads(enc: Varints, s: Schema, r: Region, kind: Kind, number: nat, v: Value,
      depth: nat, w: Walked, after: Cursor)
    requires ReadBack(enc) && TypedValue(s, kind, number, v, depth)
    requires At(r, w.pos, EncodeValue(enc, number, v)) && w.pos <= r.end
    requires after == PastValue(enc, number, v, Cursor(w.pos, w.messages)) && after.messages <= MAX_MESSAGES
    ensures Consume(s, r, kind, Tag(number, WireOf(v), w.pos), depth, w) ==
      Judged(ValueMeaning(s, kind, number, v, w.state), after.pos, after.messages)
    decreases v, 3
  {
    match s.action(kind, number) {
      case Pass => PassReads(enc, r, number, v, depth, w, after);
      case Enters(inner) => EntersReads(enc, s, r, kind, number, inner, v, depth, w, after);
      case _ => ScalarReads(enc, s, r, kind, number, v, depth, w);
    }
  }

  lemma {:induction false} EntersReads(enc: Varints, s: Schema, r: Region, kind: Kind, number: nat, inner: Kind,
      v: Value, depth: nat,
                                       w: Walked, after: Cursor)
    requires ReadBack(enc) && s.action(kind, number) == Enters(inner) && v.Held?
    requires depth < MAX_MESSAGE_DEPTH && Typed(s, inner, v.fields, depth + 1)
    requires At(r, w.pos, EncodeValue(enc, number, v)) && w.pos <= r.end
    requires after == PastValue(enc, number, v, Cursor(w.pos, w.messages)) && after.messages <= MAX_MESSAGES
    ensures Consume(s, r, kind, Tag(number, WireOf(v), w.pos), depth, w) ==
      Judged(ValueMeaning(s, kind, number, v, w.state), after.pos, after.messages)
    decreases v, 2
  {
    HeldReads(enc, s, r, kind, inner, v.fields, depth, w, after);
  }

  /** A value a visitor consumes whole. */
  lemma {:induction false} ScalarReads(enc: Varints, s: Schema, r: Region, kind: Kind, number: nat, v: Value,
      depth: nat, w: Walked)
    requires ReadBack(enc) && TypedValue(s, kind, number, v, depth)
    requires At(r, w.pos, EncodeValue(enc, number, v)) && w.pos <= r.end
    requires !s.action(kind, number).Pass? && !s.action(kind, number).Enters?
    ensures Consume(s, r, kind, Tag(number, WireOf(v), w.pos), depth, w) ==
      Judged(ValueMeaning(s, kind, number, v, w.state), w.pos + ValueSize(enc, number, v), w.messages)
    ensures CountValue(v) == 0
  {
    match v {
      case Whole(n) => NumberReads(enc, s, r, kind, number, n, w);
      case Many(ns) => ManyReads(enc, s, r, kind, number, ns, w);
      case Chunk(bytes) => ChunkReads(enc, s, r, kind, number, bytes, w);
    }
  }

  lemma FieldsOn(s: Schema, r: Region, kind: Kind, depth: nat, w: Walked, tag: Tag, after: Result<Walked, WalkError>)
    requires w.pos < r.end && ReadTag(r, w.pos) == Success(tag) && Declared(s, kind, tag)
    requires after == Visit(s, r, kind, tag, depth, w.(pos := tag.pos))
    ensures Fields(s, r, kind, depth, w) == if after.Failure? then after else Fields(s, r, kind, depth, after.value)
  {
  }

  lemma {:induction false} FieldTag(enc: Varints, s: Schema, r: Region, kind: Kind, number: nat, v: Value,
      depth: nat, pos: nat) returns (tag: Tag)
    requires ReadBack(enc) && TypedValue(s, kind, number, v, depth) && At(r, pos, EncodeTag(enc, number, WireOf(v)))
    ensures tag == Tag(number, WireOf(v), pos + TagSize(enc, number, v)) && Declared(s, kind, tag)
    ensures pos < r.end && ReadTag(r, pos) == Success(tag)
  {
    TagRead(enc, r, pos, number, WireOf(v));
    tag := Tag(number, WireOf(v), pos + TagSize(enc, number, v));
  }

  /** The first field, and what is left. */
  lemma {:induction false} FirstReads(enc: Varints, s: Schema, r: Region, kind: Kind, number: nat, v: Value,
      depth: nat, w: Walked,
                                      value: Cursor, after: Cursor, one: Result<Walked, WalkError>)
    requires ReadBack(enc) && TypedValue(s, kind, number, v, depth) && after.pos <= r.end
    requires w.pos <= r.end && At(r, w.pos, EncodeTag(enc, number, WireOf(v)))
    requires At(r, value.pos, EncodeValue(enc, number, v))
    requires value == PastTag(enc, number, v, Cursor(w.pos, w.messages))
    requires after == PastValue(enc, number, v, value) && after.messages <= MAX_MESSAGES
    requires one == Judged(FieldMeaning(s, kind, number, v, w.state), after.pos, after.messages)
    ensures Fields(s, r, kind, depth, w) == if one.Failure? then one else Fields(s, r, kind, depth, one.value)
    decreases v, 5
  {
    var tag := FieldTag(enc, s, r, kind, number, v, depth, w.pos);
    FieldReads(enc, s, r, kind, number, v, depth, w.(pos := value.pos), after);
    FieldsOn(s, r, kind, depth, w, tag, one);
  }

  /** Walking a tree's bytes stops where they end, and gives what the tree means. */
  lemma {:induction false} FieldsRead(enc: Varints, s: Schema, r: Region, kind: Kind, t: Tree, depth: nat,
      w: Walked, final: Cursor)
    requires ReadBack(enc) && Typed(s, kind, t, depth) && At(r, w.pos, Encode(enc, t)) && w.pos <= r.end
    requires final == Past(enc, t, Cursor(w.pos, w.messages)) && final.pos == r.end && final.messages <= MAX_MESSAGES
    ensures Fields(s, r, kind, depth, w) == Judged(Meaning(s, kind, t, w.state), final.pos, final.messages)
    decreases t, 1
  {
    if t.Then? {
      var value, after := FirstOf(enc, r, t, Cursor(w.pos, w.messages));
      var one := FieldMeaning(s, kind, t.number, t.value, w.state);
      FirstReads(enc, s, r, kind, t.number, t.value, depth, w, value, after, Judged(one, after.pos, after.messages));
      if one.Taken? {
        FieldsRead(enc, s, r, kind, t.rest, depth, Walked(after.pos, after.messages, one.state), final);
      }
    }
  }

  lemma {:induction false} VarintReadsAt(enc: Varints, r: Region, pos: nat, v: nat)
    requires enc(v) == EncodeVarint(v)
    ensures ReadsAt(enc, r, pos, v)
  {
    if v < U64_SPACE && At(r, pos, enc(v)) {
      VarintInverts(r, pos, v);
    }
  }

  lemma {:induction false} VarintsReadBack(enc: Varints)
    requires forall v :: enc(v) == EncodeVarint(v)
    ensures ReadBack(enc)
  {
    forall r: Region, pos: nat, v: nat {:trigger ReadsAt(enc, r, pos, v)} {:trigger At(r, pos, enc(v))}
      ensures ReadsAt(enc, r, pos, v)
    {
      VarintReadsAt(enc, r, pos, v);
    }
  }

  lemma WholeAt(r: Region, s: seq<byte>)
    requires r.file == s && r.end == |s|
    ensures At(r, 0, s)
  {
    AtIsSlice(r, 0, s);
  }

  /**
   * For every message tree within the limits, the walk of its bytes ends where they do, counts its
   * messages, and gives what the tree means to the visitors, or refuses what they refuse.
   */
  lemma {:induction false} WalkInvertsEncoding(s: Schema, t: Tree, kind: Kind, state: State)
    requires Typed(s, kind, t, 0) && 1 + Count(t) <= MAX_MESSAGES && |Encode(EncodeVarint, t)| < U64_SPACE
    ensures Walk(s, Encode(EncodeVarint, t), kind, state) ==
      Judged(Meaning(s, kind, t, state), |Encode(EncodeVarint, t)|, 1 + Count(t))
  {
    var file := Encode(EncodeVarint, t);
    var r := Message(file, |file|, false);
    VarintsReadBack(EncodeVarint);
    WholeAt(r, file);
    Sized(EncodeVarint, t);
    FieldsRead(EncodeVarint, s, r, kind, t, 0, Walked(0, 1, state), Cursor(|file|, 1 + Count(t)));
  }
}
