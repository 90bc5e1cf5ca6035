/** The forward-only protobuf walk over a graph file, for any visitors. */
module GraphWalk {
  import opened Wrappers
  import opened Bytes
  import opened Wire
  import opened WalkTypes

  const MAX_MESSAGE_DEPTH: nat := 64
  const MAX_MESSAGES: nat := 0x100_0000

  datatype Cursor = Cursor(pos: nat, messages: nat)

  datatype Walked = Walked(pos: nat, messages: nat, state: State)

  function Enter(depth: nat, messages: nat): Option<WalkError> {
    if depth > MAX_MESSAGE_DEPTH || messages + 1 > MAX_MESSAGES then Some(Limit) else None
  }

  function Judged(verdict: Verdict, pos: nat, messages: nat): (walked: Result<Walked, WalkError>)
    ensures walked.Success? ==> walked.value.pos == pos
  {
    match verdict
    case Taken(state) => Success(Walked(pos, messages, state))
    case Refused => Failure(Malformed)
    case Excess => Failure(Limit)
  }

  function SkipValue(r: Region, field: nat, wire: nat, depth: nat, c: Cursor): (after: Result<Cursor, WalkError>)
    requires c.pos <= r.end
    ensures after.Success? ==> c.pos <= after.value.pos <= r.end
    decreases r.end - c.pos, 2
  {
    if wire == START_GROUP then SkipGroup(r, field, depth + 1, c) else SkipPlain(r, wire, c)
  }

  /** A value that is no group. */
  function SkipPlain(r: Region, wire: nat, c: Cursor): (after: Result<Cursor, WalkError>)
    requires c.pos <= r.end
    ensures after.Success? ==> c.pos <= after.value.pos <= r.end
  {
    if wire == VARINT then
      var read := Varint(r, c.pos);
      if read.Failure? then Failure(read.error) else Success(c.(pos := read.value.pos))
    else if wire == FIXED64 || wire == FIXED32 then
      var past := Skip(r, c.pos, if wire == FIXED64 then 8 else 4);
      if past.Failure? then Failure(past.error) else Success(c.(pos := past.value))
    else if wire == LEN then
      var stop := ValueEnd(r, c.pos);
      if stop.Failure? then Failure(stop.error) else Success(c.(pos := stop.value.value))
    else Failure(Malformed)
  }

  /** The wire types by number: a varint, eight bytes, a length and that many, and four bytes; no other. */
  lemma WiresSkip(r: Region, c: Cursor)
    requires c.pos <= r.end
    ensures SkipPlain(r, 0, c).Success? <==> Varint(r, c.pos).Success?
    ensures SkipPlain(r, 1, c).Success? ==> SkipPlain(r, 1, c).value == c.(pos := c.pos + 8)
    ensures SkipPlain(r, 5, c).Success? ==> SkipPlain(r, 5, c).value == c.(pos := c.pos + 4)
    ensures SkipPlain(r, 2, c).Success? ==> Varint(r, c.pos).Success?
    ensures SkipPlain(r, 2, c).Success? ==>
      SkipPlain(r, 2, c).value.pos == Varint(r, c.pos).value.pos + Varint(r, c.pos).value.value
    ensures SkipPlain(r, 4, c).Failure? && SkipPlain(r, 3, c).Failure?
    ensures SkipValue(r, 7, 3, 63, c) == SkipGroup(r, 7, 64, c)
  {
  }

  function SkipGroup(r: Region, field: nat, depth: nat, c: Cursor): (after: Result<Cursor, WalkError>)
    requires c.pos <= r.end
    ensures after.Success? ==> c.pos <= after.value.pos <= r.end
    decreases r.end - c.pos, 1
  {
    var refused := Enter(depth, c.messages);
    if refused.Some? then Failure(refused.value) else GroupFields(r, field, depth, c.(messages := c.messages + 1))
  }

  /** A group's fields, up to the end marker of its field. */
  function GroupFields(r: Region, field: nat, depth: nat, c: Cursor): (after: Result<Cursor, WalkError>)
    requires c.pos <= r.end
    ensures after.Success? ==> c.pos <= after.value.pos <= r.end
    decreases r.end - c.pos, 0
  {
    var tag := ReadTag(r, c.pos);
    if tag.Failure? then Failure(tag.error)
    else if tag.value.wire == END_GROUP then
      if tag.value.field == field then Success(c.(pos := tag.value.pos)) else Failure(Malformed)
    else
      var after := SkipValue(r, tag.value.field, tag.value.wire, depth, c.(pos := tag.value.pos));
      if after.Failure? then after else GroupFields(r, field, depth, after.value)
  }

  /** The fields of a message that runs to `r.end`. */
  function Fields(s: Schema, r: Region, kind: Kind, depth: nat, w: Walked): (after: Result<Walked, WalkError>)
    requires w.pos <= r.end
    ensures after.Success? ==> after.value.pos == r.end
    decreases r.end - w.pos, 0
  {
    if w.pos == r.end then Success(w)
    else
      var tag := ReadTag(r, w.pos);
      if tag.Failure? then Failure(tag.error)
      else if !Declared(s, kind, tag.value) then Failure(Malformed)
      else
        var after := Visit(s, r, kind, tag.value, depth, w.(pos := tag.value.pos));
        if after.Failure? then after else Fields(s, r, kind, depth, after.value)
  }

  /** No stray end of a group, and no declared field in a wire type it never has. */
  predicate Declared(s: Schema, kind: Kind, tag: Tag) {
    tag.wire != END_GROUP && s.fits(kind, tag.field, tag.wire)
  }

  /** A field's value, from the byte after its tag. */
  function Visit(s: Schema, r: Region, kind: Kind, tag: Tag, depth: nat, w: Walked): (after: Result<Walked, WalkError>)
    requires w.pos <= r.end
    ensures after.Success? ==> w.pos <= after.value.pos <= r.end
    decreases r.end - w.pos, 3
  {
    match s.meet(kind, tag.field, w.state)
    case Refused => Failure(Malformed)
    case Excess => Failure(Limit)
    case Taken(state) => Consume(s, r, kind, tag, depth, w.(state := state))
  }

  function Consume(s: Schema, r: Region, kind: Kind, tag: Tag, depth: nat, w: Walked): (after: Result<Walked,
      WalkError>)
    requires w.pos <= r.end
    ensures after.Success? ==> w.pos <= after.value.pos <= r.end
    decreases r.end - w.pos, 2
  {
    match s.action(kind, tag.field)
    case Enters(inner) => Inner(s, r, kind, inner, depth, w)
    case Pass => Passed(r, tag, depth, w)
    case Reads => Number(s, r, kind, tag.field, w)
    case ReadsMany =>
      if tag.wire == VARINT then Number(s, r, kind, tag.field, w)
      else if tag.wire == LEN then Packed(s, r, kind, tag.field, w)
      else Failure(Malformed)
    case Takes => Text(s, r, kind, tag.field, w)
  }

  function Passed(r: Region, tag: Tag, depth: nat, w: Walked): (after: Result<Walked, WalkError>)
    requires w.pos <= r.end
    ensures after.Success? ==> w.pos <= after.value.pos <= r.end
  {
    var after := SkipValue(r, tag.field, tag.wire, depth, Cursor(w.pos, w.messages));
    if after.Failure? then Failure(after.error) else Success(Walked(after.value.pos, after.value.messages, w.state))
  }

  function Number(s: Schema, r: Region, kind: Kind, field: nat, w: Walked): (after: Result<Walked, WalkError>)
    requires w.pos <= r.end
    ensures after.Success? ==> w.pos < after.value.pos <= r.end
  {
    var read := Varint(r, w.pos);
    if read.Failure? then Failure(read.error)
    else Judged(s.number(kind, field, read.value.value, w.state), read.value.pos, w.messages)
  }

  /** Where a value announced by a length prefix lies. */
  function Until(r: Region, stop: nat): Region
    requires stop <= r.end
  {
    r.(end := stop)
  }

  function Packed(s: Schema, r: Region, kind: Kind, field: nat, w: Walked): (after: Result<Walked, WalkError>)
    requires w.pos <= r.end
    ensures after.Success? ==> w.pos <= after.value.pos <= r.end
  {
    var stop := ValueEnd(r, w.pos);
    if stop.Failure? then Failure(stop.error)
    else Numbers(s, Until(r, stop.value.value), kind, field, w.(pos := stop.value.pos))
  }

  /** Numbers one after another, to the end of the value they are packed in. */
  function Numbers(s: Schema, r: Region, kind: Kind, field: nat, w: Walked): (after: Result<Walked, WalkError>)
    requires w.pos <= r.end
    ensures after.Success? ==> after.value.pos == r.end
    decreases r.end - w.pos
  {
    if w.pos == r.end then Success(w)
    else
      var after := Number(s, r, kind, field, w);
      if after.Failure? then after else Numbers(s, r, kind, field, after.value)
  }

  function Text(s: Schema, r: Region, kind: Kind, field: nat, w: Walked): (after: Result<Walked, WalkError>)
    requires w.pos <= r.end
    ensures after.Success? ==> w.pos <= after.value.pos <= r.end
  {
    var stop := ValueEnd(r, w.pos);
    if stop.Failure? then Failure(stop.error)
    else
      var bytes := r.file[stop.value.pos..stop.value.value];
      Judged(s.text(kind, field, bytes, w.state), stop.value.value, w.messages)
  }

  /** A message another one holds. */
  function Inner(s: Schema, r: Region, kind: Kind, inner: Kind, depth: nat, w: Walked): (after: Result<Walked,
      WalkError>)
    requires w.pos <= r.end
    ensures after.Success? ==> w.pos <= after.value.pos <= r.end
    decreases r.end - w.pos, 1
  {
    var stop := ValueEnd(r, w.pos);
    if stop.Failure? then Failure(stop.error)
    else Child(s, r.file, kind, inner, depth + 1, w.(pos := stop.value.pos), stop.value.value)
  }

  /** Its fields, which start from a state of their own, and what they make of the holder's. */
  function Child(s: Schema, file: seq<byte>, kind: Kind, inner: Kind, depth: nat, w: Walked,
      end: nat): (after: Result<Walked, WalkError>)
    requires w.pos <= end <= |file| < U64_SPACE
    ensures after.Success? ==> after.value.pos == end
    decreases end - w.pos, 1
  {
    var refused := Enter(depth, w.messages);
    if refused.Some? then Failure(refused.value)
    else
      var first := Walked(w.pos, w.messages + 1, s.begin(inner, w.state));
      var child := Fields(s, Message(file, end, true), inner, depth, first);
      if child.Failure? then child
      else Judged(s.finish(inner, kind, w.state, child.value.state), child.value.pos, child.value.messages)
  }

  /** The file: one message, running to the end. */
  function Walk(s: Schema, file: seq<byte>, kind: Kind, state: State): (after: Result<Walked, WalkError>)
    requires |file| < U64_SPACE
    ensures after.Success? ==> after.value.pos == |file|
  {
    Fields(s, Message(file, |file|, false), kind, 0, Walked(0, 1, state))
  }

  /** No more messages and groups than the walk may enter. */
  predicate Few(after: Result<Cursor, WalkError>) {
    after.Success? ==> after.value.messages <= 0x100_0000
  }

  predicate FewWalked(after: Result<Walked, WalkError>) {
    after.Success? ==> after.value.messages <= 0x100_0000
  }

  lemma {:induction false} SkipValueFew(r: Region, field: nat, wire: nat, depth: nat, c: Cursor)
    requires c.pos <= r.end && c.messages <= 0x100_0000
    ensures Few(SkipValue(r, field, wire, depth, c))
    decreases r.end - c.pos, 2
  {
    if wire == START_GROUP { SkipGroupFew(r, field, depth + 1, c); }
  }

  lemma {:induction false} SkipGroupFew(r: Region, field: nat, depth: nat, c: Cursor)
    requires c.pos <= r.end && c.messages <= 0x100_0000
    ensures Few(SkipGroup(r, field, depth, c))
    decreases r.end - c.pos, 1
  {
    if Enter(depth, c.messages).None? { GroupFieldsFew(r, field, depth, c.(messages := c.messages + 1)); }
  }

  lemma {:induction false} GroupFieldsFew(r: Region, field: nat, depth: nat, c: Cursor)
    requires c.pos <= r.end && c.messages <= 0x100_0000
    ensures Few(GroupFields(r, field, depth, c))
    decreases r.end - c.pos, 0
  {
    var tag := ReadTag(r, c.pos);
    if tag.Success? && tag.value.wire != END_GROUP {
      var at := c.(pos := tag.value.pos);
      SkipValueFew(r, tag.value.field, tag.value.wire, depth, at);
      var after := SkipValue(r, tag.value.field, tag.value.wire, depth, at);
      if after.Success? { GroupFieldsFew(r, field, depth, after.value); }
    }
  }

  lemma {:induction false} NumbersFew(s: Schema, r: Region, kind: Kind, field: nat, w: Walked)
    requires w.pos <= r.end && w.messages <= 0x100_0000
    ensures FewWalked(Numbers(s, r, kind, field, w))
    decreases r.end - w.pos
  {
    if w.pos < r.end {
      var after := Number(s, r, kind, field, w);
      if after.Success? { NumbersFew(s, r, kind, field, after.value); }
    }
  }

  lemma {:induction false} ConsumeFew(s: Schema, r: Region, kind: Kind, tag: Tag, depth: nat, w: Walked)
    requires w.pos <= r.end && w.messages <= 0x100_0000
    ensures FewWalked(Consume(s, r, kind, tag, depth, w))
    decreases r.end - w.pos, 2
  {
    var stop := ValueEnd(r, w.pos);
    match s.action(kind, tag.field) {
      case Pass => SkipValueFew(r, tag.field, tag.wire, depth, Cursor(w.pos, w.messages));
      case Enters(inner) =>
        if stop.Success? { ChildFew(s, r.file, kind, inner, depth + 1, w.(pos := stop.value.pos), stop.value.value); }
      case ReadsMany =>
        if stop.Success? { NumbersFew(s, Until(r, stop.value.value), kind, tag.field, w.(pos := stop.value.pos)); }
      case _ =>
    }
  }

  lemma {:induction false} ChildFew(s: Schema, file: seq<byte>, kind: Kind, inner: Kind, depth: nat, w: Walked,
      end: nat)
    requires w.pos <= end <= |file| < U64_SPACE && w.messages <= 0x100_0000
    ensures FewWalked(Child(s, file, kind, inner, depth, w, end))
    decreases end - w.pos, 1
  {
    if Enter(depth, w.messages).None? {
      FieldsFew(s, Message(file, end, true), inner, depth,
                Walked(w.pos, w.messages + 1, s.begin(inner, w.state)));
    }
  }

  lemma {:induction false} FieldsFew(s: Schema, r: Region, kind: Kind, depth: nat, w: Walked)
    requires w.pos <= r.end && w.messages <= 0x100_0000
    ensures FewWalked(Fields(s, r, kind, depth, w))
    decreases r.end - w.pos, 0
  {
    if w.pos < r.end {
      var tag := ReadTag(r, w.pos);
      if tag.Success? && Declared(s, kind, tag.value) {
        var at := w.(pos := tag.value.pos);
        var met := s.meet(kind, tag.value.field, w.state);
        if met.Taken? { ConsumeFew(s, r, kind, tag.value, depth, at.(state := met.state)); }
        var after := Visit(s, r, kind, tag.value, depth, at);
        if after.Success? { FieldsFew(s, r, kind, depth, after.value); }
      }
    }
  }

  /** An accepted file has at most 2^24 messages and groups, whatever its bytes. */
  lemma {:induction false} WalkFew(s: Schema, file: seq<byte>, kind: Kind, state: State)
    requires |file| < U64_SPACE
    ensures FewWalked(Walk(s, file, kind, state))
  {
    FieldsFew(s, Message(file, |file|, false), kind, 0, Walked(0, 1, state));
  }
}
