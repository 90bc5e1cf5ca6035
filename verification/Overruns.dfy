/** When the walk says that a file was cut short: only of its outermost message. */
module Overruns {
  import opened Wrappers
  import opened Bytes
  import opened Wire
  import opened WalkTypes
  import opened GraphWalk

  /** A refusal as truncated is of the outermost message, and of bytes past its end. */
  predicate Sound<T>(r: Region, result: Result<T, WalkError>) {
    result.Failure? && result.error.Truncated? ==> !r.nested && result.error.at <= r.end < result.error.needs
  }

  lemma {:induction false} VarintFromSound(r: Region, pos: nat, index: nat, value: nat)
    requires pos <= r.end && index <= 9
    ensures Sound(r, VarintFrom(r, pos, index, value))
    decreases 9 - index
  {
    if pos < r.end && index < 9 && r.file[pos] >= 128 {
      VarintGoesOn(r, pos, index, value);
      VarintFromSound(r, pos + 1, index + 1, value + Shifted(r.file[pos] - 128, index));
    } else if pos < r.end && (index == 9 ==> r.file[pos] <= 1) {
      VarintEnds(r, pos, index, value);
    }
  }

  lemma {:induction false} TagSound(r: Region, pos: nat)
    requires pos <= r.end
    ensures Sound(r, ReadTag(r, pos))
  {
    VarintFromSound(r, pos, 0, 0);
  }

  lemma {:induction false} ValueEndSound(r: Region, pos: nat)
    requires pos <= r.end
    ensures Sound(r, ValueEnd(r, pos))
  {
    VarintFromSound(r, pos, 0, 0);
  }

  lemma {:induction false} SkipValueSound(r: Region, field: nat, wire: nat, depth: nat, c: Cursor)
    requires c.pos <= r.end
    ensures Sound(r, SkipValue(r, field, wire, depth, c))
    decreases r.end - c.pos, 2
  {
    if wire == START_GROUP {
      GroupFieldsSound(r, field, depth + 1, c.(messages := c.messages + 1));
    } else {
      SkipPlainSound(r, wire, c);
    }
  }

  lemma {:induction false} SkipPlainSound(r: Region, wire: nat, c: Cursor)
    requires c.pos <= r.end
    ensures Sound(r, SkipPlain(r, wire, c))
  {
    if wire == VARINT {
      VarintFromSound(r, c.pos, 0, 0);
    } else if wire == LEN {
      ValueEndSound(r, c.pos);
    }
  }

  lemma {:induction false} GroupFieldsSound(r: Region, field: nat, depth: nat, c: Cursor)
    requires c.pos <= r.end
    ensures Sound(r, GroupFields(r, field, depth, c))
    decreases r.end - c.pos, 0
  {
    TagSound(r, c.pos);
    var tag := ReadTag(r, c.pos);
    if tag.Success? && tag.value.wire != END_GROUP {
      var next := c.(pos := tag.value.pos);
      SkipValueSound(r, tag.value.field, tag.value.wire, depth, next);
      var after := SkipValue(r, tag.value.field, tag.value.wire, depth, next);
      if after.Success? { GroupFieldsSound(r, field, depth, after.value); }
    }
  }

  lemma {:induction false} NumberSound(s: Schema, r: Region, kind: Kind, field: nat, w: Walked)
    requires w.pos <= r.end
    ensures Sound(r, Number(s, r, kind, field, w))
  {
    VarintFromSound(r, w.pos, 0, 0);
    assert Varint(r, w.pos) == VarintFrom(r, w.pos, 0, 0);
  }

  lemma {:induction false} NumbersSound(s: Schema, r: Region, kind: Kind, field: nat, w: Walked)
    requires w.pos <= r.end
    ensures Sound(r, Numbers(s, r, kind, field, w))
    decreases r.end - w.pos
  {
    if w.pos < r.end {
      NumberSound(s, r, kind, field, w);
      var after := Number(s, r, kind, field, w);
      if after.Success? { NumbersSound(s, r, kind, field, after.value); }
    }
  }

  /** Nothing packed in the outermost message: what is packed ends before the file does. */
  ghost predicate Unpacked(s: Schema, r: Region, kind: Kind) {
    r.nested || forall field :: s.action(kind, field) != ReadsMany
  }

  lemma {:induction false} PackedSound(s: Schema, r: Region, kind: Kind, field: nat, w: Walked)
    requires w.pos <= r.end && r.nested
    ensures Sound(r, Packed(s, r, kind, field, w))
  {
    ValueEndSound(r, w.pos);
    var stop := ValueEnd(r, w.pos);
    if stop.Success? { NumbersSound(s, Until(r, stop.value.value), kind, field, w.(pos := stop.value.pos)); }
  }

  lemma {:induction false} TextSound(s: Schema, r: Region, kind: Kind, field: nat, w: Walked)
    requires w.pos <= r.end
    ensures Sound(r, Text(s, r, kind, field, w))
  {
    ValueEndSound(r, w.pos);
  }

  lemma {:induction false} InnerSound(s: Schema, r: Region, kind: Kind, inner: Kind, depth: nat, w: Walked)
    requires w.pos <= r.end
    ensures Sound(r, Inner(s, r, kind, inner, depth, w))
    decreases r.end - w.pos, 1
  {
    ValueEndSound(r, w.pos);
    var stop := ValueEnd(r, w.pos);
    if stop.Success? { ChildSound(s, r.file, kind, inner, depth + 1, w.(pos := stop.value.pos), stop.value.value); }
  }

  lemma {:induction false} ChildSound(s: Schema, file: seq<byte>, kind: Kind, inner: Kind, depth: nat,
      w: Walked, end: nat)
    requires w.pos <= end <= |file| < U64_SPACE
    ensures var child := Child(s, file, kind, inner, depth, w, end); child.Failure? ==> !child.error.Truncated?
    decreases end - w.pos, 1
  {
    var first := Walked(w.pos, w.messages + 1, s.begin(inner, w.state));
    FieldsSound(s, Message(file, end, true), inner, depth, first);
  }

  lemma {:induction false} VisitSound(s: Schema, r: Region, kind: Kind, tag: Tag, depth: nat, w: Walked)
    requires w.pos <= r.end && Unpacked(s, r, kind)
    ensures Sound(r, Visit(s, r, kind, tag, depth, w))
    decreases r.end - w.pos, 3
  {
    var met := s.meet(kind, tag.field, w.state);
    if met.Taken? { ConsumeSound(s, r, kind, tag, depth, w.(state := met.state)); }
  }

  lemma {:induction false} ConsumeSound(s: Schema, r: Region, kind: Kind, tag: Tag, depth: nat, w: Walked)
    requires w.pos <= r.end && Unpacked(s, r, kind)
    ensures Sound(r, Consume(s, r, kind, tag, depth, w))
    decreases r.end - w.pos, 2
  {
    match s.action(kind, tag.field) {
      case Enters(inner) => InnerSound(s, r, kind, inner, depth, w);
      case Pass => SkipValueSound(r, tag.field, tag.wire, depth, Cursor(w.pos, w.messages));
      case Reads => NumberSound(s, r, kind, tag.field, w);
      case ReadsMany =>
        if tag.wire == VARINT {
          NumberSound(s, r, kind, tag.field, w);
        } else if tag.wire == LEN {
          PackedSound(s, r, kind, tag.field, w);
        }
      case Takes => TextSound(s, r, kind, tag.field, w);
    }
  }

  /** A message is refused as truncated only if it is the outermost, and for bytes past its end. */
  lemma {:induction false} FieldsSound(s: Schema, r: Region, kind: Kind, depth: nat, w: Walked)
    requires w.pos <= r.end && Unpacked(s, r, kind)
    ensures Sound(r, Fields(s, r, kind, depth, w))
    decreases r.end - w.pos, 0
  {
    if w.pos < r.end {
      TagSound(r, w.pos);
      var tag := ReadTag(r, w.pos);
      if tag.Success? && Declared(s, kind, tag.value) {
        var next := w.(pos := tag.value.pos);
        VisitSound(s, r, kind, tag.value, depth, next);
        var after := Visit(s, r, kind, tag.value, depth, next);
        if after.Success? { FieldsSound(s, r, kind, depth, after.value); }
      }
    }
  }

  /** A message another one holds is never refused as truncated, even where it ends with the file. */
  lemma {:induction false} NestedNeverTruncated(s: Schema, file: seq<byte>, end: nat, kind: Kind,
      depth: nat, w: Walked)
    requires w.pos <= end <= |file| < U64_SPACE
    ensures var walked := Fields(s, Message(file, end, true), kind, depth, w);
      walked.Failure? ==> walked.error.Malformed? || walked.error.Limit?
  {
    FieldsSound(s, Message(file, end, true), kind, depth, w);
  }

  lemma {:induction false} VarintFromNested(r: Region, pos: nat, index: nat, value: nat)
    requires r.nested && index <= 9
    ensures var read := VarintFrom(r, pos, index, value); read.Failure? ==> read.error == Malformed
    decreases 9 - index
  {
    if ReadByte(r, pos).Success? && index < 9 && r.file[pos] >= 128 {
      VarintGoesOn(r, pos, index, value);
      VarintFromNested(r, pos + 1, index + 1, value + Shifted(r.file[pos] - 128, index));
    } else if ReadByte(r, pos).Success? && r.file[pos] < 128 && (index == 9 ==> r.file[pos] <= 1) {
      VarintEnds(r, pos, index, value);
    }
  }

  /** Every read of a message another one holds fails one way. */
  lemma {:induction false} NestedReads(r: Region, pos: nat, n: nat)
    requires r.nested
    ensures Varint(r, pos).Failure? ==> Varint(r, pos) == Failure(Malformed)
    ensures ReadTag(r, pos).Failure? ==> ReadTag(r, pos) == Failure(Malformed)
    ensures ValueEnd(r, pos).Failure? ==> ValueEnd(r, pos) == Failure(Malformed)
    ensures Skip(r, pos, n).Failure? ==> Skip(r, pos, n) == Failure(Malformed)
  {
    VarintFromNested(r, pos, 0, 0);
  }

  /** A value that does not end within the message holding it. A group is read field by field. */
  predicate Overruns(r: Region, wire: nat, pos: nat) {
    if wire == VARINT then Varint(r, pos).Failure?
    else if wire == FIXED64 then pos + 8 > r.end
    else if wire == FIXED32 then pos + 4 > r.end
    else wire == LEN && ValueEnd(r, pos).Failure?
  }

  /** What a visitor consumes it consumes in the wire type it is declared in. */
  ghost predicate Typed(s: Schema) {
    forall kind, field, wire {:trigger s.fits(kind, field, wire)} :: s.fits(kind, field, wire) ==>
      match s.action(kind, field)
      case Pass => true
      case Reads => wire == VARINT
      case ReadsMany => wire == VARINT || wire == LEN
      case Takes => wire == LEN
      case Enters(_) => wire == LEN
  }

  lemma {:induction false} ValueOverrun(s: Schema, r: Region, kind: Kind, tag: Tag, depth: nat, w: Walked)
    requires r.nested && w.pos <= r.end && Typed(s) && Declared(s, kind, tag)
    requires Overruns(r, tag.wire, w.pos)
    ensures Consume(s, r, kind, tag, depth, w) == Failure(Malformed)
  {
    NestedReads(r, w.pos, if tag.wire == FIXED64 then 8 else 4);
    assert s.fits(kind, tag.field, tag.wire);
  }

  /**
   * A field that runs past the message holding it is malformed, wherever that message ends: its
   * tag or its value, unless its visitor refuses it before the value is read.
   */
  lemma {:induction false} NestedOverrunIsMalformed(s: Schema, r: Region, kind: Kind, depth: nat, w: Walked)
    requires r.nested && w.pos < r.end && Typed(s)
    requires var tag := ReadTag(r, w.pos);
      tag.Success? && Declared(s, kind, tag.value) ==>
        s.meet(kind, tag.value.field, w.state).Taken? && Overruns(r, tag.value.wire, tag.value.pos)
    ensures Fields(s, r, kind, depth, w) == Failure(Malformed)
  {
    NestedReads(r, w.pos, 0);
    var tag := ReadTag(r, w.pos);
    if tag.Success? && Declared(s, kind, tag.value) {
      var state := s.meet(kind, tag.value.field, w.state).state;
      ValueOverrun(s, r, kind, tag.value, depth, Walked(tag.value.pos, w.messages, state));
    }
  }

  /** So is a field of a group, and a group whose end marker the message does not hold. */
  lemma {:induction false} NestedGroupOverrun(r: Region, field: nat, depth: nat, c: Cursor)
    requires r.nested && c.pos <= r.end
    requires var tag := ReadTag(r, c.pos); tag.Success? ==> Overruns(r, tag.value.wire, tag.value.pos)
    ensures GroupFields(r, field, depth, c) == Failure(Malformed)
    ensures c.pos == r.end ==> ReadTag(r, c.pos).Failure?
  {
    NestedReads(r, c.pos, 0);
    var tag := ReadTag(r, c.pos);
    if tag.Success? {
      NestedReads(r, tag.value.pos, if tag.value.wire == FIXED64 then 8 else 4);
    }
  }

  /** The file is refused as truncated only for bytes it does not have. */
  lemma {:induction false} TruncatedNeedsMore(s: Schema, file: seq<byte>, kind: Kind, state: State)
    requires |file| < U64_SPACE && forall field :: s.action(kind, field) != ReadsMany
    ensures var walked := Walk(s, file, kind, state);
      walked.Failure? && walked.error.Truncated? ==> walked.error.at <= |file| < walked.error.needs
  {
    FieldsSound(s, Message(file, |file|, false), kind, 0, Walked(0, 1, state));
  }
}
