/** What the walk says of a file that was cut short: that it was, and nothing worse. */
module Truncation {
  import opened Wrappers
  import opened Bytes
  import opened Wire
  import opened WalkTypes
  import opened GraphWalk

  /** The same message, in a file cut somewhere past its end. */
  predicate Same(p: Region, r: Region) {
    p.file <= r.file && p.end == r.end && p.nested == r.nested
  }

  /** The outermost message of a file cut short, and of the file. */
  predicate Cut(p: Region, r: Region) {
    p.file < r.file && p.end == |p.file| && r.end == |r.file| && !p.nested && !r.nested
  }

  predicate Related(p: Region, r: Region) {
    Same(p, r) || Cut(p, r)
  }

  /**
   * What is found in `p` is what is found in `r`; or `p` is the file cut short, and the walk says
   * so. The byte it says it needs is past the cut and, if the file itself is sound, in the file.
   */
  predicate Agree<T(==)>(p: Region, r: Region, onP: Result<T, WalkError>, onR: Result<T, WalkError>) {
    || onP == onR
    || (Cut(p, r) && onP.Failure? && onP.error.Truncated? && Honest(p, r, onP.error, onR.Success?))
  }

  predicate Honest(p: Region, r: Region, error: WalkError, sound: bool)
    requires error.Truncated?
  {
    error.at <= p.end < error.needs && (sound ==> error.needs <= r.end)
  }

  lemma WithinAgrees(p: Region, r: Region, at: nat, n: nat)
    requires Related(p, r) && at <= p.end
    ensures Within(p, at, n) == Within(r, at, n) ||
      (Cut(p, r) && Within(p, at, n) == Some(Truncated(at, at + n)) && at + n > p.end &&
       (Within(r, at, n).None? ==> at + n <= r.end))
  {
  }

  lemma {:induction false} VarintFromAgrees(p: Region, r: Region, pos: nat, index: nat, value: nat)
    requires Related(p, r) && pos <= p.end && index <= 9
    ensures Agree(p, r, VarintFrom(p, pos, index, value), VarintFrom(r, pos, index, value))
    decreases 9 - index
  {
    if pos < p.end {
      assert p.file[pos] == r.file[pos];
      if index == 9 {
        LastByteAgrees(p, r, pos, value);
      } else if p.file[pos] < 128 {
        VarintEnds(p, pos, index, value);
        VarintEnds(r, pos, index, value);
      } else {
        VarintGoesOn(p, pos, index, value);
        VarintGoesOn(r, pos, index, value);
        VarintFromAgrees(p, r, pos + 1, index + 1, value + Shifted(p.file[pos] - 128, index));
      }
    } else {
      VarintAtEnd(p, r, pos, index, value);
    }
  }

  lemma LastByteAgrees(p: Region, r: Region, pos: nat, value: nat)
    requires Related(p, r) && pos < p.end
    ensures VarintFrom(p, pos, 9, value) == VarintFrom(r, pos, 9, value)
  {
    assert p.file[pos] == r.file[pos];
  }

  lemma VarintAtEnd(p: Region, r: Region, pos: nat, index: nat, value: nat)
    requires Related(p, r) && pos == p.end && index <= 9
    ensures Agree(p, r, VarintFrom(p, pos, index, value), VarintFrom(r, pos, index, value))
  {
    VarintPast(p, pos, index, value);
    if r.end == pos {
      VarintPast(r, pos, index, value);
    }
  }

  lemma VarintPast(r: Region, pos: nat, index: nat, value: nat)
    requires pos == r.end && index <= 9
    ensures VarintFrom(r, pos, index, value) ==
      if pos + 1 < U64_SPACE && !r.nested then Failure(Truncated(pos, pos + 1)) else Failure(Malformed)
  {
  }

  lemma VarintAgrees(p: Region, r: Region, pos: nat)
    requires Related(p, r) && pos <= p.end
    ensures Agree(p, r, Varint(p, pos), Varint(r, pos))
  {
    VarintFromAgrees(p, r, pos, 0, 0);
  }

  lemma {:induction false} TagAgrees(p: Region, r: Region, pos: nat)
    requires Related(p, r) && pos <= p.end
    ensures Agree(p, r, ReadTag(p, pos), ReadTag(r, pos))
  {
    VarintAgrees(p, r, pos);
  }

  lemma {:induction false} ValueEndAgrees(p: Region, r: Region, pos: nat)
    requires Related(p, r) && pos <= p.end
    ensures Agree(p, r, ValueEnd(p, pos), ValueEnd(r, pos))
  {
    VarintAgrees(p, r, pos);
    var n := Varint(p, pos);
    if n.Success? {
      WithinAgrees(p, r, n.value.pos, n.value.value);
    }
  }

  lemma {:induction false} SkipPlainAgrees(p: Region, r: Region, wire: nat, c: Cursor)
    requires Related(p, r) && c.pos <= p.end
    ensures Agree(p, r, SkipPlain(p, wire, c), SkipPlain(r, wire, c))
  {
    if wire == VARINT {
      VarintAgrees(p, r, c.pos);
    } else if wire == LEN {
      ValueEndAgrees(p, r, c.pos);
    } else {
      WithinAgrees(p, r, c.pos, if wire == FIXED64 then 8 else 4);
    }
  }

  lemma {:induction false} SkipValueAgrees(p: Region, r: Region, field: nat, wire: nat, depth: nat, c: Cursor)
    requires Related(p, r) && c.pos <= p.end
    ensures Agree(p, r, SkipValue(p, field, wire, depth, c), SkipValue(r, field, wire, depth, c))
    decreases p.end - c.pos, 2
  {
    if wire == START_GROUP {
      SkipGroupAgrees(p, r, field, depth + 1, c);
    } else {
      SkipPlainAgrees(p, r, wire, c);
    }
  }

  lemma {:induction false} SkipGroupAgrees(p: Region, r: Region, field: nat, depth: nat, c: Cursor)
    requires Related(p, r) && c.pos <= p.end
    ensures Agree(p, r, SkipGroup(p, field, depth, c), SkipGroup(r, field, depth, c))
    decreases p.end - c.pos, 1
  {
    if Enter(depth, c.messages).None? {
      var first := c.(messages := c.messages + 1);
      GroupFieldsAgree(p, r, field, depth, first);
      GroupEnters(p, field, depth, c, first);
      GroupEnters(r, field, depth, c, first);
    }
  }

  lemma GroupEnters(r: Region, field: nat, depth: nat, c: Cursor, first: Cursor)
    requires c.pos <= r.end && Enter(depth, c.messages).None? && first == c.(messages := c.messages + 1)
    ensures SkipGroup(r, field, depth, c) == GroupFields(r, field, depth, first)
  {
  }

  lemma {:induction false} GroupFieldsAgree(p: Region, r: Region, field: nat, depth: nat, c: Cursor)
    requires Related(p, r) && c.pos <= p.end
    ensures Agree(p, r, GroupFields(p, field, depth, c), GroupFields(r, field, depth, c))
    decreases p.end - c.pos, 0
  {
    TagAgrees(p, r, c.pos);
    var tag := ReadTag(p, c.pos);
    if tag.Success? && tag.value.wire != END_GROUP {
      var next := c.(pos := tag.value.pos);
      SkipValueAgrees(p, r, tag.value.field, tag.value.wire, depth, next);
      var after := SkipValue(p, tag.value.field, tag.value.wire, depth, next);
      if after.Success? {
        GroupFieldsAgree(p, r, field, depth, after.value);
      }
    }
  }

  lemma {:induction false} PassedAgrees(p: Region, r: Region, tag: Tag, depth: nat, w: Walked)
    requires Related(p, r) && w.pos <= p.end
    ensures Agree(p, r, Passed(p, tag, depth, w), Passed(r, tag, depth, w))
  {
    SkipValueAgrees(p, r, tag.field, tag.wire, depth, Cursor(w.pos, w.messages));
  }

  lemma {:induction false} NumberAgrees(s: Schema, p: Region, r: Region, kind: Kind, field: nat, w: Walked)
    requires Related(p, r) && w.pos <= p.end
    ensures Agree(p, r, Number(s, p, kind, field, w), Number(s, r, kind, field, w))
  {
    VarintAgrees(p, r, w.pos);
    var read := Varint(r, w.pos);
    if read.Success? { VerdictIsNoCut(s.number(kind, field, read.value.value, w.state), read.value.pos, w.messages); }
  }

  lemma VerdictIsNoCut(verdict: Verdict, pos: nat, messages: nat)
    ensures var judged := Judged(verdict, pos, messages); judged.Failure? ==> !judged.error.Truncated?
  {
  }

  lemma {:induction false} NumbersAgree(s: Schema, p: Region, r: Region, kind: Kind, field: nat, w: Walked)
    requires Same(p, r) && w.pos <= p.end
    ensures Numbers(s, p, kind, field, w) == Numbers(s, r, kind, field, w)
    decreases p.end - w.pos
  {
    if w.pos < p.end {
      NumberAgrees(s, p, r, kind, field, w);
      var after := Number(s, p, kind, field, w);
      if after.Success? { NumbersAgree(s, p, r, kind, field, after.value); }
    }
  }

  lemma {:induction false} PackedAgrees(s: Schema, p: Region, r: Region, kind: Kind, field: nat, w: Walked)
    requires Related(p, r) && w.pos <= p.end
    ensures Agree(p, r, Packed(s, p, kind, field, w), Packed(s, r, kind, field, w))
  {
    ValueEndAgrees(p, r, w.pos);
    var stop := ValueEnd(p, w.pos);
    if stop.Success? {
      NumbersAgree(s, Until(p, stop.value.value), Until(r, stop.value.value), kind, field, w.(pos := stop.value.pos));
    }
  }

  lemma {:induction false} TextAgrees(s: Schema, p: Region, r: Region, kind: Kind, field: nat, w: Walked)
    requires Related(p, r) && w.pos <= p.end
    ensures Agree(p, r, Text(s, p, kind, field, w), Text(s, r, kind, field, w))
  {
    ValueEndAgrees(p, r, w.pos);
    var stop := ValueEnd(p, w.pos);
    if stop.Success? {
      assert p.file[stop.value.pos..stop.value.value] == r.file[stop.value.pos..stop.value.value];
    } else if Text(s, r, kind, field, w).Success? {
      TextStops(s, r, kind, field, w);
    }
  }

  lemma TextStops(s: Schema, r: Region, kind: Kind, field: nat, w: Walked)
    requires w.pos <= r.end && Text(s, r, kind, field, w).Success?
    ensures ValueEnd(r, w.pos).Success?
  {
  }

  /** Inside a message that is the same, all is. */
  lemma {:induction false} FieldsSame(s: Schema, p: Region, r: Region, kind: Kind, depth: nat, w: Walked)
    requires Same(p, r) && w.pos <= p.end
    ensures Fields(s, p, kind, depth, w) == Fields(s, r, kind, depth, w)
    decreases p.end - w.pos, 0
  {
    if w.pos < p.end {
      TagAgrees(p, r, w.pos);
      var tag := ReadTag(p, w.pos);
      if tag.Success? && Declared(s, kind, tag.value) {
        var next := w.(pos := tag.value.pos);
        VisitAgrees(s, p, r, kind, tag.value, depth, next);
        var after := Visit(s, p, kind, tag.value, depth, next);
        if after.Success? { FieldsSame(s, p, r, kind, depth, after.value); }
      }
    }
  }

  lemma {:induction false} InnerAgrees(s: Schema, p: Region, r: Region, kind: Kind, inner: Kind, depth: nat, w: Walked)
    requires Related(p, r) && w.pos <= p.end
    ensures Agree(p, r, Inner(s, p, kind, inner, depth, w), Inner(s, r, kind, inner, depth, w))
    decreases p.end - w.pos, 1
  {
    ValueEndAgrees(p, r, w.pos);
    var stop := ValueEnd(p, w.pos);
    if stop.Success? {
      ChildSame(s, p.file, r.file, kind, inner, depth + 1, w.(pos := stop.value.pos), stop.value.value);
    }
  }

  lemma {:induction false} ChildSame(s: Schema, p: seq<byte>, r: seq<byte>, kind: Kind, inner: Kind, depth: nat,
      w: Walked, end: nat)
    requires p <= r && |r| < U64_SPACE && w.pos <= end <= |p|
    ensures Child(s, p, kind, inner, depth, w, end) == Child(s, r, kind, inner, depth, w, end)
    decreases end - w.pos, 1
  {
    var first := Walked(w.pos, w.messages + 1, s.begin(inner, w.state));
    var onP, onR := Message(p, end, true), Message(r, end, true);
    FieldsSame(s, onP, onR, inner, depth, first);
    ChildFrom(s, p, kind, inner, depth, w, end, Fields(s, onP, inner, depth, first));
    ChildFrom(s, r, kind, inner, depth, w, end, Fields(s, onP, inner, depth, first));
  }

  lemma ChildFrom(s: Schema, file: seq<byte>, kind: Kind, inner: Kind, depth: nat, w: Walked, end: nat,
      child: Result<Walked, WalkError>)
    requires w.pos <= end <= |file| < U64_SPACE
    requires child ==
      Fields(s, Message(file, end, true), inner, depth, Walked(w.pos, w.messages + 1, s.begin(inner, w.state)))
    ensures Child(s, file, kind, inner, depth, w, end) == Concluded(s, kind, inner, depth, w, child)
  {
  }

  /** What a message comes to, from what its fields come to. */
  function Concluded(s: Schema, kind: Kind, inner: Kind, depth: nat, w: Walked, child: Result<Walked,
      WalkError>): Result<Walked, WalkError> {
    if Enter(depth, w.messages).Some? then Failure(Limit)
    else if child.Failure? then child
    else Judged(s.finish(inner, kind, w.state, child.value.state), child.value.pos, child.value.messages)
  }

  lemma {:induction false} VisitAgrees(s: Schema, p: Region, r: Region, kind: Kind, tag: Tag, depth: nat, w: Walked)
    requires Related(p, r) && w.pos <= p.end
    ensures Agree(p, r, Visit(s, p, kind, tag, depth, w), Visit(s, r, kind, tag, depth, w))
    decreases p.end - w.pos, 3
  {
    var met := s.meet(kind, tag.field, w.state);
    if met.Taken? { ConsumeAgrees(s, p, r, kind, tag, depth, w.(state := met.state)); }
  }

  lemma {:induction false} ConsumeAgrees(s: Schema, p: Region, r: Region, kind: Kind, tag: Tag, depth: nat, w: Walked)
    requires Related(p, r) && w.pos <= p.end
    ensures Agree(p, r, Consume(s, p, kind, tag, depth, w), Consume(s, r, kind, tag, depth, w))
    decreases p.end - w.pos, 2
  {
    match s.action(kind, tag.field) {
      case Enters(inner) => InnerAgrees(s, p, r, kind, inner, depth, w);
      case Pass => PassedAgrees(p, r, tag, depth, w);
      case Reads => NumberAgrees(s, p, r, kind, tag.field, w);
      case ReadsMany =>
        if tag.wire == VARINT {
          NumberAgrees(s, p, r, kind, tag.field, w);
        } else if tag.wire == LEN {
          PackedAgrees(s, p, r, kind, tag.field, w);
        }
      case Takes => TextAgrees(s, p, r, kind, tag.field, w);
    }
  }

  /** Of a file cut short, the walk either stops at a field's end or says that it was cut, or fails as the file does. */
  predicate CutFields(p: Region, r: Region, onP: Result<Walked, WalkError>, onR: Result<Walked, WalkError>) {
    onP.Success? || Agree(p, r, onP, onR)
  }

  lemma {:induction false} FieldsCut(s: Schema, p: Region, r: Region, kind: Kind, depth: nat, w: Walked)
    requires Cut(p, r) && w.pos <= p.end
    ensures CutFields(p, r, Fields(s, p, kind, depth, w), Fields(s, r, kind, depth, w))
    decreases p.end - w.pos
  {
    if w.pos < p.end {
      TagAgrees(p, r, w.pos);
      var tag := ReadTag(p, w.pos);
      if tag.Success? && Declared(s, kind, tag.value) {
        var next := w.(pos := tag.value.pos);
        VisitAgrees(s, p, r, kind, tag.value, depth, next);
        var after := Visit(s, p, kind, tag.value, depth, next);
        if after.Success? { FieldsCut(s, p, r, kind, depth, after.value); }
      }
    }
  }

  /**
   * A file the walk accepts, cut anywhere, is accepted or refused as truncated, never as malformed
   * or over a limit; and the byte the refusal says is missing is one the whole file has.
   */
  lemma {:induction false} PrefixIsTruncated(s: Schema, file: seq<byte>, k: nat, kind: Kind, state: State)
    requires k < |file| < U64_SPACE && Walk(s, file, kind, state).Success?
    ensures var cut := Walk(s, file[..k], kind, state);
      || cut.Success?
      || (cut.error.Truncated? && cut.error.at <= k < cut.error.needs <= |file|)
  {
    var p, r := Message(file[..k], k, false), Message(file, |file|, false);
    FieldsCut(s, p, r, kind, 0, Walked(0, 1, state));
  }

  /** And a file it refuses fails, cut anywhere, in no other way. */
  lemma {:induction false} PrefixFailsAlike(s: Schema, file: seq<byte>, k: nat, kind: Kind, state: State)
    requires k < |file| < U64_SPACE
    ensures var cut := Walk(s, file[..k], kind, state);
      cut.Failure? ==> (cut.error.Truncated? && k < cut.error.needs) || cut == Walk(s, file, kind, state)
  {
    var p, r := Message(file[..k], k, false), Message(file, |file|, false);
    FieldsCut(s, p, r, kind, 0, Walked(0, 1, state));
  }
}
