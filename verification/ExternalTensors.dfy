/** The tensors of a model that keep their data elsewhere, read off its tree; and that the walk collects them. */
module ExternalTensors {
  import opened Wrappers
  import opened Bytes
  import opened Wire
  import opened WalkTypes
  import opened GraphWalk
  import opened MessageTree
  import opened Onnx
  import O = Overruns

  /** The last number a field is given: of several, a parser keeps the last. */
  function LastWhole(t: Tree, number: nat): Option<nat> {
    match t
    case NoMore => None
    case Then(n, v, rest) =>
      var later := LastWhole(rest, number);
      if later.None? && n == number && v.Whole? then Some(v.n) else later
  }

  function LastChunk(t: Tree, number: nat): Option<seq<byte>> {
    match t
    case NoMore => None
    case Then(n, v, rest) =>
      var later := LastChunk(rest, number);
      if later.None? && n == number && v.Chunk? then Some(v.bytes) else later
  }

  function Signed(ns: seq<nat>): seq<int> {
    if ns == [] then [] else [AsI64(ns[0])] + Signed(ns[1..])
  }

  /** A tensor's dimensions, packed or not. */
  function DimsOf(t: Tree): seq<int> {
    if t.NoMore? then [] else FieldDims(t.number, t.value) + DimsOf(t.rest)
  }

  function FieldDims(n: nat, v: Value): seq<int> {
    if n == 1 && v.Whole? then [AsI64(v.n)] else if n == 1 && v.Many? then Signed(v.ns) else []
  }

  function EntriesOf(t: Tree): seq<Entry> {
    if t.NoMore? then [] else FieldEntries(t.number, t.value) + EntriesOf(t.rest)
  }

  function FieldEntries(n: nat, v: Value): seq<Entry> {
    if n == 13 && v.Held? then [Entry(LastChunk(v.fields, 1), LastChunk(v.fields, 2))] else []
  }

  function Or<X>(given: Option<X>, otherwise: X): X {
    if given.Some? then given.value else otherwise
  }

  /** What a tensor's own fields say of it, over what was said before. */
  function Described(t: Tree, before: Scratch): Scratch {
    before.(name := if LastChunk(t, 8).Some? then KeptName(LastChunk(t, 8).value) else before.name,
            dataType := if LastWhole(t, 2).Some? then AsI32(LastWhole(t, 2).value) else before.dataType,
            location := Or(LastWhole(t, 14), before.location),
            dims := before.dims + DimsOf(t),
            entries := before.entries + EntriesOf(t))
  }

  /** A tensor marked EXTERNAL, resolved. */
  function TensorExternal(role: Role, t: Tree): seq<External> {
    var tensor := Described(t, FRESH);
    var reference := Reference(role, tensor.name, tensor.entries, tensor.dims, tensor.dataType);
    if LastWhole(t, 14) == Some(DATA_LOCATION_EXTERNAL) && reference.Some? then [reference.value] else []
  }

  /** The external tensors a message holds, in the order its fields stand. */
  function Externals(kind: Kind, t: Tree): seq<External>
    decreases t, 0
  {
    match t
    case NoMore => []
    case Then(n, v, rest) => ValueExternals(ActionOf(kind, n), v) + Externals(kind, rest)
  }

  function ValueExternals(action: Action, v: Value): seq<External>
    decreases v, 1
  {
    if action.Enters? && v.Held? then MessageExternals(action.kind, v.fields) else []
  }

  function MessageExternals(kind: Kind, t: Tree): seq<External>
    decreases t, 1
  {
    Externals(kind, t) + if kind.TensorProto? then TensorExternal(kind.role, t) else []
  }

  /** An external_data entry: its last key and its last value. */
  function EntryRead(t: Tree, before: Entry): Entry {
    Entry(if LastChunk(t, 1).Some? then LastChunk(t, 1) else before.key,
          if LastChunk(t, 2).Some? then LastChunk(t, 2) else before.value)
  }

  /** Whether a field's, or a message's, reading leaves what was gathered and gives this scratch. */
  predicate Leaves(before: State, after: Verdict, scratch: Scratch) {
    after.Taken? ==> (after.state.gathered == before.gathered && after.state.scratch == scratch)
  }

  lemma One(n: nat, v: Value, number: nat)
    ensures LastWhole(Then(n, v, NoMore), number) == if n == number && v.Whole? then Some(v.n) else None
    ensures LastChunk(Then(n, v, NoMore), number) == if n == number && v.Chunk? then Some(v.bytes) else None
  {
    assert LastWhole(NoMore, number) == None && LastChunk(NoMore, number) == None;
  }

  lemma {:induction false} EntryField(utf8: seq<byte> -> bool, n: nat, v: Value, state: State)
    ensures Leaves(state, FieldMeaning(Visitors(utf8), StringStringEntryProto, n, v, state),
                   state.scratch.(entry := EntryRead(Then(n, v, NoMore), state.scratch.entry)))
  {
    var s := Visitors(utf8);
    assert s.meet(StringStringEntryProto, n, state) == Taken(state);
    assert FieldMeaning(s, StringStringEntryProto, n, v, state) == ValueMeaning(s, StringStringEntryProto, n, v, state);
    One(n, v, 1);
    One(n, v, 2);
    if n in {1, 2} && v.Chunk? {
      assert s.text(StringStringEntryProto, n, v.bytes, state) ==
        TextOf(utf8, StringStringEntryProto, n, v.bytes, state);
    }
  }

  lemma {:induction false} EntryMeans(utf8: seq<byte> -> bool, t: Tree, state: State)
    ensures Leaves(state, Meaning(Visitors(utf8), StringStringEntryProto, t, state),
                   state.scratch.(entry := EntryRead(t, state.scratch.entry)))
  {
    if t.Then? {
      One(t.number, t.value, 1);
      One(t.number, t.value, 2);
      EntryField(utf8, t.number, t.value, state);
      var one := FieldMeaning(Visitors(utf8), StringStringEntryProto, t.number, t.value, state);
      if one.Taken? { EntryMeans(utf8, t.rest, one.state); }
    }
  }

  lemma DimensionMeans(utf8: seq<byte> -> bool, role: Role, n: nat, state: State)
    ensures Leaves(state, Visitors(utf8).number(TensorProto(role), 1, n, state),
                   state.scratch.(dims := state.scratch.dims + [AsI64(n)]))
  {
    assert Visitors(utf8).number(TensorProto(role), 1, n, state) == TensorNumber(1, n, state);
  }

  lemma SignedFirst(dims: seq<int>, ns: seq<nat>)
    requires ns != []
    ensures (dims + [AsI64(ns[0])]) + Signed(ns[1..]) == dims + Signed(ns)
  {
  }

  lemma {:induction false} DimensionsMean(utf8: seq<byte> -> bool, role: Role, ns: seq<nat>, state: State)
    ensures Leaves(state, NumbersMeaning(Visitors(utf8), TensorProto(role), 1, ns, state),
                   state.scratch.(dims := state.scratch.dims + Signed(ns)))
    decreases |ns|
  {
    var dims := state.scratch.dims;
    if ns == [] {
      assert dims + [] == dims;
    } else {
      DimensionMeans(utf8, role, ns[0], state);
      var one := Visitors(utf8).number(TensorProto(role), 1, ns[0], state);
      if one.Taken? {
        DimensionsMean(utf8, role, ns[1..], one.state);
        SignedFirst(dims, ns);
      }
    }
  }

  lemma {:induction false} EntryHeld(utf8: seq<byte> -> bool, role: Role, t: Tree, state: State)
    ensures Leaves(state, HeldMeaning(Visitors(utf8), TensorProto(role), StringStringEntryProto, t, state),
                   state.scratch.(entries := state.scratch.entries + [Entry(LastChunk(t, 1), LastChunk(t, 2))]))
  {
    var s := Visitors(utf8);
    var first := s.begin(StringStringEntryProto, state);
    assert first == Begin(StringStringEntryProto, state) == State(state.gathered, FRESH);
    EntryMeans(utf8, t, first);
    var child := Meaning(s, StringStringEntryProto, t, first);
    if child.Taken? {
      assert s.finish(StringStringEntryProto, TensorProto(role), state, child.state) ==
        Finish(StringStringEntryProto, TensorProto(role), state, child.state);
    }
  }

  /** What one field adds to a tensor's description. */
  function WithField(n: nat, v: Value, before: Scratch): Scratch {
    if n == 1 && v.Whole? then before.(dims := before.dims + [AsI64(v.n)])
    else if n == 1 && v.Many? then before.(dims := before.dims + Signed(v.ns))
    else if n == 2 && v.Whole? then before.(dataType := AsI32(v.n))
    else if n == 8 && v.Chunk? then before.(name := KeptName(v.bytes))
    else if n == 13 && v.Held? then
      before.(entries := before.entries + [Entry(LastChunk(v.fields, 1), LastChunk(v.fields, 2))])
    else if n == 14 && v.Whole? then before.(location := v.n)
    else before
  }

  lemma Associates<T>(a: seq<T>, b: seq<T>, c: seq<T>)
    ensures a + (b + c) == (a + b) + c
  {
  }

  lemma WithFieldLists(n: nat, v: Value, before: Scratch)
    ensures WithField(n, v, before).dims == before.dims + FieldDims(n, v)
    ensures WithField(n, v, before).entries == before.entries + FieldEntries(n, v)
  {
    assert before.dims + [] == before.dims && before.entries + [] == before.entries;
  }

  lemma ListsStep(n: nat, v: Value, rest: Tree, before: Scratch)
    ensures before.dims + DimsOf(Then(n, v, rest)) == WithField(n, v, before).dims + DimsOf(rest)
    ensures before.entries + EntriesOf(Then(n, v, rest)) == WithField(n, v, before).entries + EntriesOf(rest)
  {
    WithFieldLists(n, v, before);
    Associates(before.dims, FieldDims(n, v), DimsOf(rest));
    Associates(before.entries, FieldEntries(n, v), EntriesOf(rest));
  }

  lemma DescribedStep(n: nat, v: Value, rest: Tree, before: Scratch)
    ensures Described(Then(n, v, rest), before) == Described(rest, WithField(n, v, before))
  {
    ListsStep(n, v, rest, before);
  }

  lemma {:induction false} TensorScalar(utf8: seq<byte> -> bool, role: Role, n: nat, v: Value, state: State)
    requires n != 13
    ensures Leaves(state, ValueMeaning(Visitors(utf8), TensorProto(role), n, v, state), WithField(n, v, state.scratch))
  {
    var s := Visitors(utf8);
    if v.Whole? {
      assert s.number(TensorProto(role), n, v.n, state) == TensorNumber(n, v.n, state);
    } else if v.Many? {
      if n == 1 { DimensionsMean(utf8, role, v.ns, state); }
    } else if v.Chunk? {
      assert s.text(TensorProto(role), n, v.bytes, state) == TextOf(utf8, TensorProto(role), n, v.bytes, state);
    }
  }

  lemma {:induction false} TensorField(utf8: seq<byte> -> bool, role: Role, n: nat, v: Value, state: State)
    ensures Leaves(state, FieldMeaning(Visitors(utf8), TensorProto(role), n, v, state), WithField(n, v, state.scratch))
  {
    var s := Visitors(utf8);
    var met := s.meet(TensorProto(role), n, state);
    assert met == Meet(TensorProto(role), n, state);
    if met.Taken? {
      assert met.state == state;
      if n == 13 {
        if v.Held? { EntryHeld(utf8, role, v.fields, state); }
      } else {
        TensorScalar(utf8, role, n, v, state);
      }
    }
  }

  /** Walked, a tensor's fields leave what they say of it. */
  lemma {:induction false} TensorMeans(utf8: seq<byte> -> bool, role: Role, t: Tree, state: State)
    ensures Leaves(state, Meaning(Visitors(utf8), TensorProto(role), t, state), Described(t, state.scratch))
  {
    if t.NoMore? {
      assert state.scratch.dims + [] == state.scratch.dims && state.scratch.entries + [] == state.scratch.entries;
    } else {
      TensorField(utf8, role, t.number, t.value, state);
      DescribedStep(t.number, t.value, t.rest, state.scratch);
      var one := FieldMeaning(Visitors(utf8), TensorProto(role), t.number, t.value, state);
      if one.Taken? { TensorMeans(utf8, role, t.rest, one.state); }
    }
  }

  /** Whether a reading adds these tensors, and no others, to what was gathered. */
  predicate Adds(before: State, after: Verdict, external: seq<External>) {
    after.Taken? ==> after.state.gathered.external == before.gathered.external + external
  }

  lemma {:induction false} ScalarAdds(utf8: seq<byte> -> bool, kind: Kind, n: nat, v: Value, state: State)
    requires !ActionOf(kind, n).Enters?
    ensures Adds(state, ValueMeaning(Visitors(utf8), kind, n, v, state), [])
  {
    var s := Visitors(utf8);
    assert state.gathered.external + [] == state.gathered.external;
    match ActionOf(kind, n) {
      case Pass =>
      case Reads => if v.Whole? { assert s.number(kind, n, v.n, state) == NumberOf(kind, n, v.n, state); }
      case ReadsMany => TensorScalar(utf8, kind.role, n, v, state);
      case Takes => if v.Chunk? { assert s.text(kind, n, v.bytes, state) == TextOf(utf8, kind, n, v.bytes, state); }
    }
  }

  lemma MeetAdds(kind: Kind, n: nat, state: State)
    ensures Adds(state, Meet(kind, n, state), [])
  {
    assert state.gathered.external + [] == state.gathered.external;
  }

  /** What finishing a message adds, from what its fields say. */
  lemma FinishAdds(inner: Kind, kind: Kind, holder: State, child: State, t: Tree)
    requires inner.TensorProto? ==> child.scratch == Described(t, FRESH)
    ensures Adds(child, Finish(inner, kind, holder, child),
                 if inner.TensorProto? then TensorExternal(inner.role, t) else [])
  {
    assert child.gathered.external + [] == child.gathered.external;
  }

  lemma {:induction false} HeldAdds(utf8: seq<byte> -> bool, kind: Kind, inner: Kind, t: Tree, state: State)
    ensures Adds(state, HeldMeaning(Visitors(utf8), kind, inner, t, state), MessageExternals(inner, t))
    decreases t, 1
  {
    var s := Visitors(utf8);
    var first := s.begin(inner, state);
    assert first == Begin(inner, state);
    assert first.scratch == FRESH && first.gathered.external == state.gathered.external;
    var child := Meaning(s, inner, t, first);
    if child.Taken? {
      FieldsAdd(utf8, inner, t, first);
      if inner.TensorProto? { TensorMeans(utf8, inner.role, t, first); }
      FinishAdds(inner, kind, state, child.state, t);
      assert s.finish(inner, kind, state, child.state) == Finish(inner, kind, state, child.state);
    }
  }

  lemma {:induction false} FieldAdds(utf8: seq<byte> -> bool, kind: Kind, n: nat, v: Value, state: State)
    ensures Adds(state, FieldMeaning(Visitors(utf8), kind, n, v, state), ValueExternals(ActionOf(kind, n), v))
    decreases v, 2
  {
    var s := Visitors(utf8);
    var met := s.meet(kind, n, state);
    assert met == Meet(kind, n, state);
    MeetAdds(kind, n, state);
    if met.Taken? {
      var action := ActionOf(kind, n);
      assert s.action(kind, n) == action;
      if action.Enters? {
        if v.Held? { HeldAdds(utf8, kind, action.kind, v.fields, met.state); }
      } else {
        ScalarAdds(utf8, kind, n, v, met.state);
      }
    }
  }

  /** A message's fields add exactly the external tensors it holds, in order. */
  lemma {:induction false} FieldsAdd(utf8: seq<byte> -> bool, kind: Kind, t: Tree, state: State)
    ensures Adds(state, Meaning(Visitors(utf8), kind, t, state), Externals(kind, t))
    decreases t, 0
  {
    if t.NoMore? {
      assert state.gathered.external + [] == state.gathered.external;
    } else {
      FieldAdds(utf8, kind, t.number, t.value, state);
      var one := FieldMeaning(Visitors(utf8), kind, t.number, t.value, state);
      if one.Taken? {
        FieldsAdd(utf8, kind, t.rest, one.state);
        var before := state.gathered.external;
        var first, rest := ValueExternals(ActionOf(kind, t.number), t.value), Externals(kind, t.rest);
        assert before + first + rest == before + (first + rest);
      }
    }
  }

  const NOTHING: State := State(Gathered(None, 0, None, 0, 0, 0, []), FRESH)

  /** A model file is refused as truncated only for bytes past its end. */
  lemma {:induction false} ModelTruncatedNeedsMore(utf8: seq<byte> -> bool, file: seq<byte>)
    requires |file| < U64_SPACE
    ensures var walked := Walk(Visitors(utf8), file, ModelProto, NOTHING);
      walked.Failure? && walked.error.Truncated? ==> walked.error.at <= |file| < walked.error.needs
  {
    var s := Visitors(utf8);
    forall field: nat ensures s.action(ModelProto, field) != ReadsMany {
      assert s.action(ModelProto, field) == ActionOf(ModelProto, field);
    }
    O.TruncatedNeedsMore(s, file, ModelProto, NOTHING);
  }

  /** A model's visitors consume each field in the wire types it is declared in. */
  lemma VisitorsTyped(utf8: seq<byte> -> bool)
    ensures O.Typed(Visitors(utf8))
  {
    var s := Visitors(utf8);
    forall kind, field, wire {:trigger s.fits(kind, field, wire)} | s.fits(kind, field, wire)
      ensures match s.action(kind, field)
        case Pass => true
        case Reads => wire == VARINT
        case ReadsMany => wire == VARINT || wire == LEN
        case Takes => wire == LEN
        case Enters(_) => wire == LEN
    {
      assert s.fits(kind, field, wire) == Fits(kind, field, wire) && s.action(kind, field) == ActionOf(kind, field);
      DeclaredAs(kind, field, wire);
    }
  }

  lemma DeclaredAs(kind: Kind, field: nat, wire: nat)
    requires Fits(kind, field, wire)
    ensures match ActionOf(kind, field)
      case Pass => true
      case Reads => wire == VARINT
      case ReadsMany => wire == VARINT || wire == LEN
      case Takes => wire == LEN
      case Enters(_) => wire == LEN
  {
  }
}
