/** The walk as the program makes it: one object that reads forward, in step with `GraphWalk`. */
module Walker {
  import opened Wrappers
  import opened Bytes
  import W = Wire
  import opened WalkTypes
  import G = GraphWalk

  /** What a read gives, and where it leaves the reader. */
  ghost predicate Did(spec: Result<W.Read, W.WalkError>, r: Result<nat, W.WalkError>, consumed: nat) {
    if spec.Success? then r == Success(spec.value.value) && consumed == spec.value.pos else r == Failure(spec.error)
  }

  class GraphWalker {
    const file: seq<byte>
    const schema: Schema
    var consumed: nat
    var messages: nat
    var regions: nat
    var state: State

    constructor (file: seq<byte>, schema: Schema, state: State)
      ensures this.file == file && this.schema == schema && this.state == state
      ensures consumed == 0 && messages == 0 && regions == 0
    {
      this.file, this.schema, this.state := file, schema, state;
      consumed, messages, regions := 0, 0, 0;
    }

    /** A read bound by `end` may be made here. */
    ghost predicate Inside(end: nat)
      reads this
    {
      consumed <= end <= |file| < W.U64_SPACE
    }

    /** The message the walk is in, that runs to `end`. */
    ghost function Here(end: nat): W.Region
      reads this
      requires end <= |file| < W.U64_SPACE
    {
      W.Message(file, end, regions > 1)
    }

    method Within(n: nat, end: nat) returns (refused: Option<W.WalkError>)
      requires Inside(end)
      ensures refused == W.Within(Here(end), consumed, n)
    {
      var needs := consumed + n;
      if needs >= W.U64_SPACE {
        return Some(W.Malformed);
      }
      if needs <= end {
        return None;
      }
      if regions <= 1 {
        return Some(W.Truncated(consumed, needs));
      }
      return Some(W.Malformed);
    }

    method Byte(end: nat) returns (r: Result<nat, W.WalkError>)
      requires Inside(end)
      modifies this`consumed
      ensures Did(W.ReadByte(Here(end), old(consumed)), r, consumed)
      ensures r.Success? ==> consumed == old(consumed) + 1 <= end && r.value == file[old(consumed)]
    {
      var refused := Within(1, end);
      if refused.Some? {
        return Failure(refused.value);
      }
      r := Success(file[consumed]);
      consumed := consumed + 1;
    }

    /** Seven bits more, and whether there are more to come: the tenth byte carries one bit alone. */
    method Septet(end: nat, index: nat, value: nat) returns (r: Result<nat, W.WalkError>, more: bool)
      requires Inside(end) && index <= 9
      modifies this`consumed
      ensures r.Success? ==> old(consumed) < consumed <= end && (more ==> index < 9)
      ensures W.VarintFrom(Here(end), old(consumed), index, value) ==
        if r.Failure? then Failure(r.error)
        else if more then W.VarintFrom(Here(end), consumed, index + 1, r.value)
        else Success(W.Read(r.value, consumed))
    {
      ghost var at := consumed;
      more := false;
      r := Byte(end);
      if r.Failure? {
        W.VarintUnread(Here(end), at, index, value);
        return;
      }
      var b := r.value;
      if index == 9 && b > 1 {
        W.VarintTooWide(Here(end), at, value);
        return Failure(W.Malformed), false;
      }
      if b < 128 {
        W.VarintEnds(Here(end), at, index, value);
        return Success(value + W.Shifted(b, index)), false;
      }
      W.VarintGoesOn(Here(end), at, index, value);
      return Success(value + W.Shifted(b - 128, index)), true;
    }

    /** At most ten bytes of seven bits each, the least significant first. */
    method Varint(end: nat) returns (r: Result<nat, W.WalkError>)
      requires Inside(end)
      modifies this`consumed
      ensures Did(W.Varint(Here(end), old(consumed)), r, consumed)
      ensures r.Success? ==> old(consumed) < consumed <= end
    {
      var value: nat, index: nat := 0, 0;
      while index < 10
        invariant index <= 9 && old(consumed) <= consumed <= end
        invariant W.Varint(Here(end), old(consumed)) == W.VarintFrom(Here(end), consumed, index, value)
      {
        var more;
        r, more := Septet(end, index, value);
        if r.Failure? || !more {
          return;
        }
        value, index := r.value, index + 1;
      }
      assert false;
    }

    method Tag(end: nat) returns (r: Result<W.Tag, W.WalkError>)
      requires Inside(end)
      modifies this`consumed
      ensures r == W.ReadTag(Here(end), old(consumed))
      ensures r.Success? ==> consumed == r.value.pos
    {
      var raw := Varint(end);
      if raw.Failure? {
        return Failure(raw.error);
      }
      if raw.value >= W.TAG_SPACE {
        return Failure(W.Malformed);
      }
      var field, wire := raw.value / 8, raw.value % 8;
      if field == 0 || wire > W.FIXED32 {
        return Failure(W.Malformed);
      }
      return Success(W.Tag(field, wire, consumed));
    }

    /** Reads a length prefix; where the value it announces ends. */
    method ValueEnd(end: nat) returns (r: Result<nat, W.WalkError>)
      requires Inside(end)
      modifies this`consumed
      ensures Did(W.ValueEnd(Here(end), old(consumed)), r, consumed)
      ensures r.Success? ==> old(consumed) < consumed <= r.value <= end
    {
      r := Varint(end);
      if r.Success? {
        var refused := Within(r.value, end);
        r := if refused.Some? then Failure(refused.value) else Success(consumed + r.value);
      }
    }

    method Skip(n: nat, end: nat) returns (refused: Option<W.WalkError>)
      requires Inside(end)
      modifies this`consumed
      ensures var spec := W.Skip(Here(end), old(consumed), n);
        if spec.Success? then refused.None? && consumed == spec.value else refused == Some(spec.error)
    {
      refused := Within(n, end);
      if refused.None? {
        consumed := consumed + n;
      }
    }

    /** Counts a message, unless it is one too many or too deep. */
    method Enter(depth: nat) returns (refused: Option<W.WalkError>)
      modifies this`messages
      ensures refused == G.Enter(depth, old(messages)) && messages <= old(messages) + 1
      ensures refused.None? ==> messages == old(messages) + 1
      ensures refused.None? <==> depth <= 64 && old(messages) < 0x100_0000
    {
      if depth > G.MAX_MESSAGE_DEPTH {
        return Some(W.Limit);
      }
      messages := messages + 1;
      return if messages > G.MAX_MESSAGES then Some(W.Limit) else None;
    }

    ghost predicate Skipped(spec: Result<G.Cursor, W.WalkError>, refused: Option<W.WalkError>)
      reads this
    {
      if spec.Success? then refused.None? && G.Cursor(consumed, messages) == spec.value else refused == Some(spec.error)
    }

    method SkipValue(field: nat, wire: nat, end: nat, depth: nat) returns (refused: Option<W.WalkError>)
      requires Inside(end)
      modifies this`consumed, this`messages
      ensures Skipped(G.SkipValue(Here(end), field, wire, depth, old(G.Cursor(consumed, messages))), refused)
      decreases end - consumed, 2
    {
      if wire == W.START_GROUP {
        refused := SkipGroup(field, end, depth + 1);
      } else {
        refused := SkipPlain(wire, end);
      }
    }

    method SkipPlain(wire: nat, end: nat) returns (refused: Option<W.WalkError>)
      requires Inside(end)
      modifies this`consumed
      ensures Skipped(G.SkipPlain(Here(end), wire, old(G.Cursor(consumed, messages))), refused)
    {
      refused := Some(W.Malformed);
      if wire == W.VARINT {
        var read := Varint(end);
        refused := if read.Failure? then Some(read.error) else None;
      } else if wire == W.FIXED64 {
        refused := Skip(8, end);
      } else if wire == W.FIXED32 {
        refused := Skip(4, end);
      } else if wire == W.LEN {
        var stop := ValueEnd(end);
        if stop.Failure? {
          return Some(stop.error);
        }
        refused := Skip(stop.value - consumed, stop.value);
      }
    }

    /** Skips a group up to the end marker of its field. */
    method SkipGroup(field: nat, end: nat, depth: nat) returns (refused: Option<W.WalkError>)
      requires Inside(end)
      modifies this`consumed, this`messages
      ensures Skipped(G.SkipGroup(Here(end), field, depth, old(G.Cursor(consumed, messages))), refused)
      decreases end - consumed, 1
    {
      refused := Enter(depth);
      if refused.Some? {
        return;
      }
      ghost var spec := G.GroupFields(Here(end), field, depth, G.Cursor(consumed, messages));
      while true
        invariant old(consumed) <= consumed && Inside(end) && regions == old(regions)
        invariant G.GroupFields(Here(end), field, depth, G.Cursor(consumed, messages)) == spec
        decreases end - consumed
      {
        var tag := Tag(end);
        if tag.Failure? {
          return Some(tag.error);
        }
        if tag.value.wire == W.END_GROUP {
          return if tag.value.field == field then None else Some(W.Malformed);
        }
        refused := SkipValue(tag.value.field, tag.value.wire, end, depth);
        if refused.Some? {
          return;
        }
      }
    }

    /** Where the walk stands. */
    ghost function Now(): G.Walked
      reads this
    {
      G.Walked(consumed, messages, state)
    }

    ghost predicate Went(spec: Result<G.Walked, W.WalkError>, refused: Option<W.WalkError>)
      reads this
    {
      if spec.Success? then refused.None? && Now() == spec.value else refused == Some(spec.error)
    }

    /** Takes a visitor's verdict. */
    method Judge(verdict: Verdict) returns (refused: Option<W.WalkError>)
      modifies this`state
      ensures Went(G.Judged(verdict, consumed, messages), refused)
    {
      match verdict {
        case Taken(taken) => state := taken; refused := None;
        case Refused => refused := Some(W.Malformed);
        case Excess => refused := Some(W.Limit);
      }
    }

    method Number(kind: Kind, field: nat, end: nat) returns (refused: Option<W.WalkError>)
      requires Inside(end)
      modifies this`consumed, this`state
      ensures Went(G.Number(schema, Here(end), kind, field, old(Now())), refused)
      ensures refused.None? ==> old(consumed) < consumed <= end
    {
      var read := Varint(end);
      if read.Failure? {
        return Some(read.error);
      }
      refused := Judge(schema.number(kind, field, read.value, state));
    }

    method Packed(kind: Kind, field: nat, end: nat) returns (refused: Option<W.WalkError>)
      requires Inside(end)
      modifies this`consumed, this`state
      ensures Went(G.Packed(schema, Here(end), kind, field, old(Now())), refused)
    {
      var read := ValueEnd(end);
      if read.Failure? {
        return Some(read.error);
      }
      var stop := read.value;
      ghost var spec := G.Numbers(schema, Here(stop), kind, field, Now());
      while consumed < stop
        invariant consumed <= stop <= end
        invariant G.Numbers(schema, Here(stop), kind, field, Now()) == spec
      {
        refused := Number(kind, field, stop);
        if refused.Some? {
          return;
        }
      }
      return None;
    }

    method Text(kind: Kind, field: nat, end: nat) returns (refused: Option<W.WalkError>)
      requires Inside(end)
      modifies this`consumed, this`state
      ensures Went(G.Text(schema, Here(end), kind, field, old(Now())), refused)
    {
      var stop := ValueEnd(end);
      if stop.Failure? {
        return Some(stop.error);
      }
      var bytes := file[consumed..stop.value];
      consumed := stop.value;
      refused := Judge(schema.text(kind, field, bytes, state));
    }

    /** Enters a message and walks its fields to `end`; left inside it on an error. */
    method Fields(kind: Kind, end: nat, depth: nat) returns (refused: Option<W.WalkError>)
      requires Inside(end)
      modifies this`consumed, this`messages, this`regions, this`state
      ensures var first := old(Now()).(messages := old(messages) + 1);
        if G.Enter(depth, old(messages)).Some? then refused == G.Enter(depth, old(messages))
        else Went(G.Fields(schema, W.Message(file, end, old(regions) > 0), kind, depth, first), refused)
      ensures refused.None? ==> regions == old(regions)
      decreases end - consumed, 6
    {
      refused := Enter(depth);
      if refused.Some? {
        return;
      }
      regions := regions + 1;
      ghost var spec := G.Fields(schema, Here(end), kind, depth, Now());
      while consumed < end
        invariant old(consumed) <= consumed && Inside(end) && regions == old(regions) + 1
        invariant G.Fields(schema, Here(end), kind, depth, Now()) == spec
      {
        refused := Field(kind, end, depth);
        if refused.Some? {
          return;
        }
      }
      regions := regions - 1;
      return None;
    }

    /** One field: what is left to walk of the message is as before. */
    method Field(kind: Kind, end: nat, depth: nat) returns (refused: Option<W.WalkError>)
      requires Inside(end) && consumed < end && regions >= 1
      modifies this`consumed, this`messages, this`regions, this`state
      ensures refused.None? ==>
        && regions == old(regions) && old(consumed) < consumed <= end
        && G.Fields(schema, Here(end), kind, depth, Now()) == old(G.Fields(schema, Here(end), kind, depth, Now()))
      ensures refused.Some? ==> old(G.Fields(schema, Here(end), kind, depth, Now())) == Failure(refused.value)
      decreases end - consumed, 5
    {
      var tag := Tag(end);
      if tag.Failure? {
        return Some(tag.error);
      }
      if tag.value.wire == W.END_GROUP || !schema.fits(kind, tag.value.field, tag.value.wire) {
        return Some(W.Malformed);
      }
      refused := Visit(kind, tag.value, end, depth);
    }

    method Visit(kind: Kind, tag: W.Tag, end: nat, depth: nat) returns (refused: Option<W.WalkError>)
      requires Inside(end) && regions >= 1
      modifies this`consumed, this`messages, this`regions, this`state
      ensures Went(G.Visit(schema, old(Here(end)), kind, tag, depth, old(Now())), refused)
      ensures refused.None? ==> regions == old(regions)
      decreases end - consumed, 4
    {
      refused := Judge(schema.meet(kind, tag.field, state));
      if refused.None? {
        refused := Consume(kind, tag, end, depth);
      }
    }

    method Consume(kind: Kind, tag: W.Tag, end: nat, depth: nat) returns (refused: Option<W.WalkError>)
      requires Inside(end) && regions >= 1
      modifies this`consumed, this`messages, this`regions, this`state
      ensures Went(G.Consume(schema, old(Here(end)), kind, tag, depth, old(Now())), refused)
      ensures refused.None? ==> regions == old(regions)
      decreases end - consumed, 3
    {
      match schema.action(kind, tag.field) {
        case Pass => refused := SkipValue(tag.field, tag.wire, end, depth);
        case Reads => refused := Number(kind, tag.field, end);
        case ReadsMany =>
          if tag.wire == W.VARINT {
            refused := Number(kind, tag.field, end);
          } else if tag.wire == W.LEN {
            refused := Packed(kind, tag.field, end);
          } else {
            refused := Some(W.Malformed);
          }
        case Takes => refused := Text(kind, tag.field, end);
        case Enters(inner) => refused := Inner(kind, inner, end, depth);
      }
    }

    /** A message another one holds. */
    method Inner(kind: Kind, inner: Kind, end: nat, depth: nat) returns (refused: Option<W.WalkError>)
      requires Inside(end) && regions >= 1
      modifies this`consumed, this`messages, this`regions, this`state
      ensures Went(G.Inner(schema, old(Here(end)), kind, inner, depth, old(Now())), refused)
      ensures refused.None? ==> regions == old(regions)
      decreases end - consumed, 2
    {
      var stop := ValueEnd(end);
      if stop.Failure? {
        return Some(stop.error);
      }
      refused := Child(kind, inner, stop.value, depth + 1);
    }

    method Child(kind: Kind, inner: Kind, stop: nat, depth: nat) returns (refused: Option<W.WalkError>)
      requires Inside(stop) && regions >= 1
      modifies this`consumed, this`messages, this`regions, this`state
      ensures Went(G.Child(schema, file, kind, inner, depth, old(Now()), stop), refused)
      ensures refused.None? ==> regions == old(regions)
      decreases stop - consumed, 7
    {
      var holder := state;
      state := schema.begin(inner, state);
      refused := Fields(inner, stop, depth);
      if refused.None? {
        refused := Judge(schema.finish(inner, kind, holder, state));
      }
    }

    /** The file: one message, running to its end. */
    method Model(kind: Kind) returns (refused: Option<W.WalkError>)
      requires |file| < W.U64_SPACE && consumed == messages == regions == 0
      modifies this`consumed, this`messages, this`regions, this`state
      ensures Went(G.Walk(schema, file, kind, old(state)), refused)
    {
      refused := Fields(kind, |file|, 0);
    }
  }
}
