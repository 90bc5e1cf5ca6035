/** Messages as trees, how a tree is encoded, and that walking the bytes gives what the tree means. */
module MessageTree {
  import opened Wrappers
  import opened Bytes
  import opened Wire
  import opened WalkTypes
  import opened GraphWalk

  datatype Value =
    | Whole(n: nat)
    | Fixed(bytes: seq<byte>)
    | Chunk(bytes: seq<byte>)
    | Many(ns: seq<nat>)
    | Held(fields: Tree)
    | Group(fields: Tree)

  /** The fields of a message, in order. */
  datatype Tree = NoMore | Then(number: nat, value: Value, rest: Tree)

  /** How varints are written: any way that reads back. */
  type Varints = nat -> seq<byte>

  ghost predicate ReadBack(enc: Varints) {
    forall r: Region, pos: nat, v: nat {:trigger At(r, pos, enc(v))} :: ReadsAt(enc, r, pos, v)
  }

  predicate ReadsAt(enc: Varints, r: Region, pos: nat, v: nat) {
    v < U64_SPACE && At(r, pos, enc(v)) ==> Varint(r, pos) == Success(Read(v, pos + |enc(v)|))
  }

  function WireOf(v: Value): nat {
    match v
    case Whole(_) => VARINT
    case Fixed(bytes) => if |bytes| == 8 then FIXED64 else FIXED32
    case Group(_) => START_GROUP
    case _ => LEN
  }

  function EncodeTag(enc: Varints, number: nat, wire: nat): seq<byte> {
    enc(8 * number + wire)
  }

  function EncodeNumbers(enc: Varints, ns: seq<nat>): seq<byte> {
    if ns == [] then [] else enc(ns[0]) + EncodeNumbers(enc, ns[1..])
  }

  function Announced(enc: Varints, bytes: seq<byte>): seq<byte> {
    enc(|bytes|) + bytes
  }

  function EncodeValue(enc: Varints, number: nat, v: Value): seq<byte>
    decreases v
  {
    match v
    case Whole(n) => enc(n)
    case Fixed(bytes) => bytes
    case Chunk(bytes) => Announced(enc, bytes)
    case Many(ns) => Announced(enc, EncodeNumbers(enc, ns))
    case Held(fields) => Announced(enc, Encode(enc, fields))
    case Group(fields) => Encode(enc, fields) + EncodeTag(enc, number, END_GROUP)
  }

  function Encode(enc: Varints, t: Tree): seq<byte>
    decreases t
  {
    match t
    case NoMore => []
    case Then(number, v, rest) => EncodeTag(enc, number, WireOf(v)) + (EncodeValue(enc, number, v) + Encode(enc, rest))
  }

  /** A field's number, and values that fit sixty-four bits. */
  predicate Plain(number: nat, v: Value) {
    && 1 <= number < TAG_SPACE / 8
    && (v.Whole? ==> v.n < U64_SPACE)
    && (v.Fixed? ==> |v.bytes| in {4, 8})
    && (v.Many? ==> forall i :: 0 <= i < |v.ns| ==> v.ns[i] < U64_SPACE)
  }

  /** Whether every value of a group, however deep, can be skipped. */
  predicate Skippable(t: Tree, depth: nat)
    decreases t
  {
    match t
    case NoMore => true
    case Then(number, v, rest) => SkippableValue(number, v, depth) && Skippable(rest, depth)
  }

  predicate SkippableValue(number: nat, v: Value, depth: nat)
    decreases v
  {
    && Plain(number, v) && !v.Held?
    && (v.Group? ==> depth < MAX_MESSAGE_DEPTH && Skippable(v.fields, depth + 1))
  }

  /** Whether a message's fields are of the shapes its visitors ask for, and nest no deeper than allowed. */
  predicate Typed(s: Schema, kind: Kind, t: Tree, depth: nat)
    decreases t
  {
    match t
    case NoMore => true
    case Then(number, v, rest) => TypedValue(s, kind, number, v, depth) && Typed(s, kind, rest, depth)
  }

  predicate TypedValue(s: Schema, kind: Kind, number: nat, v: Value, depth: nat)
    decreases v
  {
    && Plain(number, v) && s.fits(kind, number, WireOf(v))
    && match s.action(kind, number)
       case Pass => SkippableValue(number, v, depth)
       case Reads => v.Whole?
       case ReadsMany => v.Whole? || v.Many?
       case Takes => v.Chunk?
       case Enters(inner) => v.Held? && depth < MAX_MESSAGE_DEPTH && Typed(s, inner, v.fields, depth + 1)
  }

  /** The messages and groups a message holds. */
  function Count(t: Tree): nat
    decreases t
  {
    match t
    case NoMore => 0
    case Then(_, v, rest) => CountValue(v) + Count(rest)
  }

  function CountValue(v: Value): nat
    decreases v
  {
    if v.Held? || v.Group? then 1 + Count(v.fields) else 0
  }

  /** What a message's fields make of the state, read off the tree. */
  function Meaning(s: Schema, kind: Kind, t: Tree, state: State): Verdict
    decreases t, 1
  {
    match t
    case NoMore => Taken(state)
    case Then(number, v, rest) =>
      var after := FieldMeaning(s, kind, number, v, state);
      if after.Taken? then Meaning(s, kind, rest, after.state) else after
  }

  function FieldMeaning(s: Schema, kind: Kind, number: nat, v: Value, state: State): Verdict
    decreases v, 1
  {
    var met := s.meet(kind, number, state);
    if met.Taken? then ValueMeaning(s, kind, number, v, met.state) else met
  }

  function ValueMeaning(s: Schema, kind: Kind, number: nat, v: Value, state: State): Verdict
    decreases v, 0
  {
    match s.action(kind, number)
    case Pass => Taken(state)
    case Reads => if v.Whole? then s.number(kind, number, v.n, state) else Refused
    case ReadsMany =>
      if v.Whole? then s.number(kind, number, v.n, state)
      else if v.Many? then NumbersMeaning(s, kind, number, v.ns, state) else Refused
    case Takes => if v.Chunk? then s.text(kind, number, v.bytes, state) else Refused
    case Enters(inner) => if v.Held? then HeldMeaning(s, kind, inner, v.fields, state) else Refused
  }

  function HeldMeaning(s: Schema, kind: Kind, inner: Kind, t: Tree, state: State): Verdict
    decreases t, 2
  {
    var child := Meaning(s, inner, t, s.begin(inner, state));
    if child.Taken? then s.finish(inner, kind, state, child.state) else child
  }

  function NumbersMeaning(s: Schema, kind: Kind, number: nat, ns: seq<nat>, state: State): Verdict {
    if ns == [] then Taken(state)
    else
      var after := s.number(kind, number, ns[0], state);
      if after.Taken? then NumbersMeaning(s, kind, number, ns[1..], after.state) else after
  }

  /** How long encodings are. */
  function TagSize(enc: Varints, number: nat, v: Value): nat {
    |EncodeTag(enc, number, WireOf(v))|
  }

  function AnnouncedSize(enc: Varints, size: nat): nat {
    |enc(size)| + size
  }

  function NumbersSize(enc: Varints, ns: seq<nat>): nat {
    if ns == [] then 0 else |enc(ns[0])| + NumbersSize(enc, ns[1..])
  }

  function ValueSize(enc: Varints, number: nat, v: Value): nat
    decreases v
  {
    match v
    case Whole(n) => |enc(n)|
    case Fixed(bytes) => |bytes|
    case Chunk(bytes) => AnnouncedSize(enc, |bytes|)
    case Many(ns) => AnnouncedSize(enc, NumbersSize(enc, ns))
    case Held(fields) => AnnouncedSize(enc, Size(enc, fields))
    case Group(fields) => Size(enc, fields) + |EncodeTag(enc, number, END_GROUP)|
  }

  function Size(enc: Varints, t: Tree): nat
    decreases t
  {
    match t
    case NoMore => 0
    case Then(number, v, rest) => TagSize(enc, number, v) + ValueSize(enc, number, v) + Size(enc, rest)
  }

  lemma {:induction false} NumbersSized(enc: Varints, ns: seq<nat>)
    ensures |EncodeNumbers(enc, ns)| == NumbersSize(enc, ns)
  {
    if ns != [] { NumbersSized(enc, ns[1..]); }
  }

  lemma {:induction false} Sized(enc: Varints, t: Tree)
    ensures |Encode(enc, t)| == Size(enc, t)
    decreases t
  {
    if t.Then? {
      ValueSized(enc, t.number, t.value);
      Sized(enc, t.rest);
    }
  }

  lemma {:induction false} ValueSized(enc: Varints, number: nat, v: Value)
    ensures |EncodeValue(enc, number, v)| == ValueSize(enc, number, v)
    decreases v
  {
    match v {
      case Many(ns) => NumbersSized(enc, ns);
      case Held(fields) => Sized(enc, fields);
      case Group(fields) => Sized(enc, fields);
      case _ =>
    }
  }

  /** A length prefix that announces a value of `size` bytes. */
  predicate Announces(enc: Varints, r: Region, pos: nat, size: nat) {
    ValueEnd(r, pos) == Success(Read(pos + AnnouncedSize(enc, size), pos + AnnouncedSize(enc, size) - size))
  }

  lemma {:induction false} TagRead(enc: Varints, r: Region, pos: nat, number: nat, wire: nat)
    requires ReadBack(enc)
    requires 1 <= number < TAG_SPACE / 8 && wire <= FIXED32 && At(r, pos, EncodeTag(enc, number, wire))
    ensures ReadTag(r, pos) == Success(Tag(number, wire, pos + |EncodeTag(enc, number, wire)|))
  {
    assert Varint(r, pos) == Success(Read(8 * number + wire, pos + |enc(8 * number + wire)|));
    assert (8 * number + wire) / 8 == number && (8 * number + wire) % 8 == wire;
  }

  lemma {:induction false} LengthRead(enc: Varints, r: Region, pos: nat, size: nat)
    requires ReadBack(enc)
    requires At(r, pos, enc(size)) && pos + AnnouncedSize(enc, size) <= r.end
    ensures Announces(enc, r, pos, size)
  {
    assert Varint(r, pos) == Success(Read(size, pos + |enc(size)|));
    LengthIsEnd(r, pos, size, |enc(size)|);
  }

  lemma LengthIsEnd(r: Region, pos: nat, size: nat, width: nat)
    requires Varint(r, pos) == Success(Read(size, pos + width)) && pos + width + size <= r.end
    ensures ValueEnd(r, pos) == Success(Read(pos + (width + size), pos + (width + size) - size))
  {
  }

  /** The bytes after a length prefix, in a message of their own. */
  lemma {:induction false} AnnouncedSplits(enc: Varints, r: Region, inner: Region, pos: nat, bytes: seq<byte>)
    requires At(r, pos, Announced(enc, bytes)) && inner.file == r.file
    requires inner.end == pos + AnnouncedSize(enc, |bytes|)
    ensures inner.end <= r.end && At(r, pos, enc(|bytes|)) && At(inner, inner.end - |bytes|, bytes)
  {
    AtSplits(r, pos, enc(|bytes|), bytes);
    AtIsSlice(r, inner.end - |bytes|, bytes);
    AtIsSlice(inner, inner.end - |bytes|, bytes);
  }

  lemma {:induction false} AtEnd(r: Region, pos: nat, s: seq<byte>)
    requires At(r, pos, s)
    ensures pos + |s| <= r.end
  {
  }

  /** Encoded bytes, field by field. */
  lemma {:induction false} EncodedSplits(enc: Varints, r: Region, pos: nat, t: Tree)
    requires t.Then? && At(r, pos, Encode(enc, t))
    ensures pos + Size(enc, t) <= r.end && At(r, pos, EncodeTag(enc, t.number, WireOf(t.value)))
    ensures At(r, pos + TagSize(enc, t.number, t.value), EncodeValue(enc, t.number, t.value))
    ensures At(r, pos + TagSize(enc, t.number, t.value) + ValueSize(enc, t.number, t.value), Encode(enc, t.rest))
  {
    Sized(enc, t);
    AtEnd(r, pos, Encode(enc, t));
    var tag := EncodeTag(enc, t.number, WireOf(t.value));
    var value, rest := EncodeValue(enc, t.number, t.value), Encode(enc, t.rest);
    ValueSized(enc, t.number, t.value);
    AtSplits(r, pos, tag, value + rest);
    AtSplits(r, pos + |tag|, value, rest);
  }

  /** Where a walk is past a tree. */
  function Past(enc: Varints, t: Tree, c: Cursor): Cursor {
    Cursor(c.pos + Size(enc, t), c.messages + Count(t))
  }

  function PastValue(enc: Varints, number: nat, v: Value, c: Cursor): Cursor {
    Cursor(c.pos + ValueSize(enc, number, v), c.messages + CountValue(v))
  }

  function PastTag(enc: Varints, number: nat, v: Value, c: Cursor): Cursor {
    c.(pos := c.pos + TagSize(enc, number, v))
  }

  lemma PastRest(enc: Varints, number: nat, v: Value, rest: Tree, c: Cursor)
    ensures Past(enc, Then(number, v, rest), c) ==
      Past(enc, rest, PastValue(enc, number, v, PastTag(enc, number, v, c)))
  {
  }

  /** Bytes announced by a length, as a message or a value of their own. */
  lemma {:induction false} AnnouncedRead(enc: Varints, r: Region, pos: nat, bytes: seq<byte>)
    requires ReadBack(enc) && At(r, pos, Announced(enc, bytes))
    ensures pos + AnnouncedSize(enc, |bytes|) <= r.end && Announces(enc, r, pos, |bytes|)
  {
    AtEnd(r, pos, Announced(enc, bytes));
    AnnouncedSplits(enc, r, Until(r, pos + AnnouncedSize(enc, |bytes|)), pos, bytes);
    LengthRead(enc, r, pos, |bytes|);
  }

  /** Where an announced value begins and ends, and that its bytes stand there. */
  lemma {:induction false} Opened(enc: Varints, r: Region, nested: bool, pos: nat,
      bytes: seq<byte>) returns (stop: Read)
    requires ReadBack(enc) && At(r, pos, Announced(enc, bytes))
    ensures stop.value <= r.end && ValueEnd(r, pos) == Success(stop)
    ensures stop.value == pos + AnnouncedSize(enc, |bytes|) == stop.pos + |bytes|
    ensures At(Message(r.file, stop.value, nested), stop.pos, bytes)
  {
    var end := pos + AnnouncedSize(enc, |bytes|);
    AnnouncedRead(enc, r, pos, bytes);
    AnnouncedSplits(enc, r, Message(r.file, end, nested), pos, bytes);
    stop := Read(end, end - |bytes|);
  }

  lemma {:induction false} ChunkSkips(enc: Varints, r: Region, bytes: seq<byte>, c: Cursor)
    requires ReadBack(enc) && At(r, c.pos, Announced(enc, bytes))
    ensures SkipPlain(r, LEN, c) == Success(c.(pos := c.pos + AnnouncedSize(enc, |bytes|)))
  {
    AnnouncedRead(enc, r, c.pos, bytes);
  }

  lemma {:induction false} SkipPlainReads(enc: Varints, r: Region, number: nat, v: Value, c: Cursor)
    requires ReadBack(enc) && Plain(number, v) && !v.Group? && !v.Held? && At(r, c.pos, EncodeValue(enc, number, v))
    ensures SkipPlain(r, WireOf(v), c) == Success(c.(pos := c.pos + ValueSize(enc, number, v)))
  {
    match v {
      case Whole(n) => assert Varint(r, c.pos) == Success(Read(n, c.pos + |enc(n)|));
      case Fixed(bytes) => AtEnd(r, c.pos, bytes);
      case Chunk(bytes) => ChunkSkips(enc, r, bytes, c);
      case Many(ns) =>
        NumbersSized(enc, ns);
        ChunkSkips(enc, r, EncodeNumbers(enc, ns), c);
    }
  }

  lemma {:induction false} SkipValueReads(enc: Varints, r: Region, number: nat, v: Value, depth: nat, c: Cursor,
      after: Cursor)
    requires ReadBack(enc) && SkippableValue(number, v, depth) && At(r, c.pos, EncodeValue(enc, number, v))
    requires after == PastValue(enc, number, v, c) && after.messages <= MAX_MESSAGES
    ensures SkipValue(r, number, WireOf(v), depth, c) == Success(after)
    decreases v, 1
  {
    if v.Group? {
      GroupSkips(enc, r, number, v.fields, depth, c, Past(enc, v.fields, c.(messages := c.messages + 1)));
    } else {
      SkipPlainReads(enc, r, number, v, c);
    }
  }

  lemma {:induction false} GroupSkips(enc: Varints, r: Region, number: nat, t: Tree, depth: nat, c: Cursor,
      last: Cursor)
    requires ReadBack(enc) && 1 <= number < TAG_SPACE / 8 && depth < MAX_MESSAGE_DEPTH && Skippable(t, depth + 1)
    requires At(r, c.pos, Encode(enc, t) + EncodeTag(enc, number, END_GROUP))
    requires last == Past(enc, t, c.(messages := c.messages + 1)) && last.messages <= MAX_MESSAGES
    ensures SkipValue(r, number, START_GROUP, depth, c) ==
      Success(last.(pos := last.pos + |EncodeTag(enc, number, END_GROUP)|))
    decreases t, 2
  {
    var first := c.(messages := c.messages + 1);
    GroupSplits(enc, r, c.pos, number, t);
    GroupReads(enc, r, number, t, depth + 1, first, last);
    GroupEnds(enc, r, number, depth + 1, last);
    GroupEntered(r, number, depth, c, first, last);
  }

  lemma {:induction false} GroupSplits(enc: Varints, r: Region, pos: nat, number: nat, fields: Tree)
    requires At(r, pos, Encode(enc, fields) + EncodeTag(enc, number, END_GROUP))
    ensures At(r, pos, Encode(enc, fields)) && At(r, pos + Size(enc, fields), EncodeTag(enc, number, END_GROUP))
    ensures pos + Size(enc, fields) + |EncodeTag(enc, number, END_GROUP)| <= r.end
  {
    Sized(enc, fields);
    AtSplits(r, pos, Encode(enc, fields), EncodeTag(enc, number, END_GROUP));
    AtEnd(r, pos + Size(enc, fields), EncodeTag(enc, number, END_GROUP));
  }

  lemma GroupEntered(r: Region, number: nat, depth: nat, c: Cursor, first: Cursor, last: Cursor)
    requires c.pos <= r.end && depth < MAX_MESSAGE_DEPTH && c.messages < MAX_MESSAGES
    requires first == c.(messages := c.messages + 1) && last.pos <= r.end
    requires GroupFields(r, number, depth + 1, first) == GroupFields(r, number, depth + 1, last)
    ensures SkipValue(r, number, START_GROUP, depth, c) == GroupFields(r, number, depth + 1, last)
  {
  }

  lemma GroupOn(r: Region, number: nat, depth: nat, c: Cursor, tag: Tag, after: Cursor)
    requires c.pos <= r.end && ReadTag(r, c.pos) == Success(tag) && tag.wire != END_GROUP
    requires SkipValue(r, tag.field, tag.wire, depth, c.(pos := tag.pos)) == Success(after)
    ensures after.pos <= r.end && GroupFields(r, number, depth, c) == GroupFields(r, number, depth, after)
  {
  }

  lemma GroupEnds(enc: Varints, r: Region, number: nat, depth: nat, c: Cursor)
    requires ReadBack(enc) && 1 <= number < TAG_SPACE / 8 && c.pos <= r.end
    requires At(r, c.pos, EncodeTag(enc, number, END_GROUP))
    ensures GroupFields(r, number, depth, c) == Success(c.(pos := c.pos + |EncodeTag(enc, number, END_GROUP)|))
  {
    TagRead(enc, r, c.pos, number, END_GROUP);
  }

  /** A field of a group is skipped to the field after it. */
  lemma GroupFieldReads(enc: Varints, r: Region, number: nat, n: nat, v: Value, depth: nat, c: Cursor,
      value: Cursor, after: Cursor)
    requires ReadBack(enc) && SkippableValue(n, v, depth)
    requires c.pos <= r.end && At(r, c.pos, EncodeTag(enc, n, WireOf(v))) && At(r, value.pos, EncodeValue(enc, n, v))
    requires value == PastTag(enc, n, v, c) && after == PastValue(enc, n, v, value) && after.messages <= MAX_MESSAGES
    ensures after.pos <= r.end && GroupFields(r, number, depth, c) == GroupFields(r, number, depth, after)
    decreases v, 2
  {
    TagRead(enc, r, c.pos, n, WireOf(v));
    AtEnd(r, value.pos, EncodeValue(enc, n, v));
    SkipValueReads(enc, r, n, v, depth, value, after);
    GroupOn(r, number, depth, c, Tag(n, WireOf(v), value.pos), after);
  }

  /** A tree's first field, and the places of its value and of what follows. */
  lemma {:induction false} FirstOf(enc: Varints, r: Region, t: Tree, c: Cursor) returns (value: Cursor, after: Cursor)
    requires t.Then? && At(r, c.pos, Encode(enc, t))
    ensures c.pos <= r.end && after.pos <= r.end && At(r, c.pos, EncodeTag(enc, t.number, WireOf(t.value)))
    ensures At(r, value.pos, EncodeValue(enc, t.number, t.value)) && At(r, after.pos, Encode(enc, t.rest))
    ensures value == PastTag(enc, t.number, t.value, c) && after == PastValue(enc, t.number, t.value, value)
    ensures Past(enc, t, c) == Past(enc, t.rest, after)
  {
    EncodedSplits(enc, r, c.pos, t);
    PastRest(enc, t.number, t.value, t.rest, c);
    value := PastTag(enc, t.number, t.value, c);
    after := PastValue(enc, t.number, t.value, value);
  }

  /** The fields of a group are skipped, down to its end marker. */
  lemma {:induction false} GroupReads(enc: Varints, r: Region, number: nat, t: Tree, depth: nat, c: Cursor,
      final: Cursor)
    requires ReadBack(enc) && Skippable(t, depth) && c.pos <= r.end && At(r, c.pos, Encode(enc, t))
    requires final == Past(enc, t, c) && final.messages <= MAX_MESSAGES
    ensures final.pos <= r.end && GroupFields(r, number, depth, c) == GroupFields(r, number, depth, final)
    decreases t, 1
  {
    if t.Then? {
      var value, after := FirstOf(enc, r, t, c);
      GroupFieldReads(enc, r, number, t.number, t.value, depth, c, value, after);
      GroupReads(enc, r, number, t.rest, depth, after, final);
    }
  }
}
