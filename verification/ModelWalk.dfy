/** When the walk accepts a model, and everything it gathers of one, told by field numbers. */
module ModelWalk {
  import opened Wrappers
  import opened Bytes
  import opened Wire
  import opened WalkTypes
  import opened GraphWalk
  import opened MessageTree
  import opened Onnx
  import opened ExternalTensors
  import opened ModelPlaces
  import T = TreeWalk

  predicate TextFine(utf8: seq<byte> -> bool, bytes: seq<byte>) {
    |bytes| <= MAX_EXTERNAL_DATA_ENTRY_BYTES && utf8(bytes)
  }

  /** Every key and value an entry is given, the overridden ones too. */
  predicate EntryFine(utf8: seq<byte> -> bool, t: Tree) {
    t.Then? ==>
      (t.number in {1, 2} && t.value.Chunk? ==> TextFine(utf8, t.value.bytes)) && EntryFine(utf8, t.rest)
  }

  predicate EntriesFine(utf8: seq<byte> -> bool, t: Tree) {
    t.Then? ==> FieldTexts(utf8, t.number, t.value) && EntriesFine(utf8, t.rest)
  }

  predicate FieldTexts(utf8: seq<byte> -> bool, n: nat, v: Value) {
    n == 13 && v.Held? ==> EntryFine(utf8, v.fields)
  }

  /** A tensor's data is in the file, or elsewhere and resolved. */
  predicate LocationFine(role: Role, t: Tree) {
    LastWhole(t, 14) in {None, Some(0)} || |TensorExternal(role, t)| == 1
  }

  predicate TensorFine(utf8: seq<byte> -> bool, role: Role, t: Tree) {
    && |DimsOf(t)| <= MAX_TENSOR_DIMS && |EntriesOf(t)| <= MAX_EXTERNAL_DATA_ENTRIES
    && EntriesFine(utf8, t) && LocationFine(role, t)
  }

  /** Every tensor among the messages a message at this place holds is fine. */
  predicate FineAt(utf8: seq<byte> -> bool, path: seq<nat>, t: Tree)
    decreases t, 0
  {
    t.Then? ==> FieldFine(utf8, path, t.number, t.value) && FineAt(utf8, path, t.rest)
  }

  predicate FieldFine(utf8: seq<byte> -> bool, path: seq<nat>, n: nat, v: Value)
    decreases v, 2
  {
    v.Held? ==> FineIn(utf8, path + [n], v.fields)
  }

  predicate FineIn(utf8: seq<byte> -> bool, path: seq<nat>, t: Tree)
    decreases t, 1
  {
    FineAt(utf8, path, t) && (RoleAt(path).Some? ==> TensorFine(utf8, RoleAt(path).value, t))
  }

  predicate ModelFine(utf8: seq<byte> -> bool, t: Tree) {
    && (t.Then? ==> t.number in {1, 2, 3, 4, 5, 6, 7, 8, 14, 20, 25, 26})
    && FineAt(utf8, [], t) && |TensorsAt([], t)| <= MAX_EXTERNAL_TENSORS
  }

  function FieldTensors(path: seq<nat>, n: nat, v: Value): seq<External> {
    if v.Held? then TensorsIn(path + [n], v.fields) else []
  }

  /** The messages a walk goes through without reading a tensor's own fields. */
  predicate Leads(kind: Kind) {
    !kind.TensorProto? && !kind.StringStringEntryProto? && !kind.OperatorSetIdProto?
  }

  // A tensor's own fields.

  lemma {:induction false} EntryTaken(utf8: seq<byte> -> bool, t: Tree, depth: nat, state: State)
    requires Typed(Visitors(utf8), StringStringEntryProto, t, depth)
    ensures Meaning(Visitors(utf8), StringStringEntryProto, t, state).Taken? <==> EntryFine(utf8, t)
  {
    if t.Then? {
      EntryFieldTaken(utf8, t.number, t.value, depth, state);
      var one := FieldMeaning(Visitors(utf8), StringStringEntryProto, t.number, t.value, state);
      if one.Taken? { EntryTaken(utf8, t.rest, depth, one.state); }
    }
  }

  lemma {:induction false} EntryFieldTaken(utf8: seq<byte> -> bool, n: nat, v: Value, depth: nat, state: State)
    requires TypedValue(Visitors(utf8), StringStringEntryProto, n, v, depth)
    ensures FieldMeaning(Visitors(utf8), StringStringEntryProto, n, v, state).Taken? <==>
      (n in {1, 2} && v.Chunk? ==> TextFine(utf8, v.bytes))
  {
    var s := Visitors(utf8);
    assert s.meet(StringStringEntryProto, n, state) == Taken(state);
    assert s.action(StringStringEntryProto, n) == ActionOf(StringStringEntryProto, n);
    if n in {1, 2} {
      assert s.text(StringStringEntryProto, n, v.bytes, state) ==
        TextOf(utf8, StringStringEntryProto, n, v.bytes, state);
    }
  }

  lemma {:induction false} DimensionsTaken(utf8: seq<byte> -> bool, role: Role, ns: seq<nat>, state: State)
    requires |state.scratch.dims| <= MAX_TENSOR_DIMS
    ensures NumbersMeaning(Visitors(utf8), TensorProto(role), 1, ns, state).Taken? <==>
      |state.scratch.dims| + |ns| <= MAX_TENSOR_DIMS
    decreases |ns|
  {
    if ns != [] {
      var one := Visitors(utf8).number(TensorProto(role), 1, ns[0], state);
      assert one == TensorNumber(1, ns[0], state);
      if one.Taken? { DimensionsTaken(utf8, role, ns[1..], one.state); }
    }
  }

  lemma {:induction false} SignedAll(ns: seq<nat>)
    ensures |Signed(ns)| == |ns|
  {
    if ns != [] { SignedAll(ns[1..]); }
  }

  /** What a tensor may yet be given. */
  predicate RoomFor(utf8: seq<byte> -> bool, n: nat, v: Value, before: Scratch) {
    && |before.dims| + |FieldDims(n, v)| <= MAX_TENSOR_DIMS
    && |before.entries| + |FieldEntries(n, v)| <= MAX_EXTERNAL_DATA_ENTRIES
    && FieldTexts(utf8, n, v)
  }

  predicate Room(before: Scratch) {
    |before.dims| <= MAX_TENSOR_DIMS && |before.entries| <= MAX_EXTERNAL_DATA_ENTRIES
  }

  lemma {:induction false} EntryHeldTaken(utf8: seq<byte> -> bool, role: Role, t: Tree, depth: nat, state: State)
    requires Typed(Visitors(utf8), StringStringEntryProto, t, depth)
    ensures HeldMeaning(Visitors(utf8), TensorProto(role), StringStringEntryProto, t, state).Taken? <==>
      EntryFine(utf8, t)
  {
    var s := Visitors(utf8);
    var first := s.begin(StringStringEntryProto, state);
    EntryTaken(utf8, t, depth, first);
    var child := Meaning(s, StringStringEntryProto, t, first);
    if child.Taken? {
      assert s.finish(StringStringEntryProto, TensorProto(role), state, child.state) ==
        Finish(StringStringEntryProto, TensorProto(role), state, child.state);
    }
  }

  lemma {:induction false} TensorScalarTaken(utf8: seq<byte> -> bool, role: Role, n: nat, v: Value, depth: nat,
      state: State)
    requires TypedValue(Visitors(utf8), TensorProto(role), n, v, depth) && n != 13 && Room(state.scratch)
    ensures ValueMeaning(Visitors(utf8), TensorProto(role), n, v, state).Taken? <==> RoomFor(utf8, n, v, state.scratch)
  {
    var s := Visitors(utf8);
    assert s.action(TensorProto(role), n) == ActionOf(TensorProto(role), n);
    if v.Whole? {
      assert s.number(TensorProto(role), n, v.n, state) == TensorNumber(n, v.n, state);
    } else if v.Many? {
      if n == 1 {
        DimensionsTaken(utf8, role, v.ns, state);
        SignedAll(v.ns);
      }
    } else if v.Chunk? {
      assert s.text(TensorProto(role), n, v.bytes, state) == TextOf(utf8, TensorProto(role), n, v.bytes, state);
    }
  }

  lemma {:induction false} TensorFieldTaken(utf8: seq<byte> -> bool, role: Role, n: nat, v: Value, depth: nat,
      state: State)
    requires TypedValue(Visitors(utf8), TensorProto(role), n, v, depth) && Room(state.scratch)
    ensures FieldMeaning(Visitors(utf8), TensorProto(role), n, v, state).Taken? <==> RoomFor(utf8, n, v, state.scratch)
  {
    var s := Visitors(utf8);
    assert s.meet(TensorProto(role), n, state) == Meet(TensorProto(role), n, state);
    if n == 13 {
      assert s.action(TensorProto(role), n) == Enters(StringStringEntryProto);
      EntryHeldTaken(utf8, role, v.fields, depth + 1, state);
    } else {
      TensorScalarTaken(utf8, role, n, v, depth, state);
    }
  }

  /** Room for a first field, and for the rest after it. */
  lemma RoomStep(utf8: seq<byte> -> bool, n: nat, v: Value, before: Scratch)
    requires RoomFor(utf8, n, v, before)
    ensures Room(WithField(n, v, before))
    ensures |WithField(n, v, before).dims| == |before.dims| + |FieldDims(n, v)|
    ensures |WithField(n, v, before).entries| == |before.entries| + |FieldEntries(n, v)|
  {
    WithFieldLists(n, v, before);
  }

  lemma {:induction false} TensorTaken(utf8: seq<byte> -> bool, role: Role, t: Tree, depth: nat, state: State)
    requires Typed(Visitors(utf8), TensorProto(role), t, depth) && Room(state.scratch)
    ensures Meaning(Visitors(utf8), TensorProto(role), t, state).Taken? <==>
      (&& |state.scratch.dims| + |DimsOf(t)| <= MAX_TENSOR_DIMS
       && |state.scratch.entries| + |EntriesOf(t)| <= MAX_EXTERNAL_DATA_ENTRIES
       && EntriesFine(utf8, t))
  {
    if t.Then? {
      TensorFieldTaken(utf8, role, t.number, t.value, depth, state);
      TensorField(utf8, role, t.number, t.value, state);
      var one := FieldMeaning(Visitors(utf8), TensorProto(role), t.number, t.value, state);
      if one.Taken? {
        RoomStep(utf8, t.number, t.value, state.scratch);
        TensorTaken(utf8, role, t.rest, depth, one.state);
      }
    }
  }

  lemma TensorFinished(role: Role, kind: Kind, holder: State, child: State, t: Tree)
    requires child.scratch == Described(t, FRESH) && |child.gathered.external| <= MAX_EXTERNAL_TENSORS
    ensures Finish(TensorProto(role), kind, holder, child).Taken? <==>
      LocationFine(role, t) && |child.gathered.external| + |TensorExternal(role, t)| <= MAX_EXTERNAL_TENSORS
  {
  }

  lemma {:induction false} TensorHeldTaken(utf8: seq<byte> -> bool, kind: Kind, role: Role, t: Tree, depth: nat,
      state: State)
    requires Typed(Visitors(utf8), TensorProto(role), t, depth)
    requires |state.gathered.external| <= MAX_EXTERNAL_TENSORS
    ensures HeldMeaning(Visitors(utf8), kind, TensorProto(role), t, state).Taken? <==>
      (TensorFine(utf8, role, t) &&
       |state.gathered.external| + |TensorExternal(role, t)| <= MAX_EXTERNAL_TENSORS)
  {
    var s := Visitors(utf8);
    var first := s.begin(TensorProto(role), state);
    assert first == State(state.gathered, FRESH);
    TensorTaken(utf8, role, t, depth, first);
    TensorMeans(utf8, role, t, first);
    var child := Meaning(s, TensorProto(role), t, first);
    if child.Taken? {
      TensorFinished(role, kind, state, child.state, t);
      assert s.finish(TensorProto(role), kind, state, child.state) ==
        Finish(TensorProto(role), kind, state, child.state);
    }
  }

  // Where no tensor stands.

  predicate Barren(kind: Option<Kind>) {
    kind.Some? ==> !Leads(kind.value)
  }

  lemma {:induction false} BarrenFine(utf8: seq<byte> -> bool, path: seq<nat>, t: Tree)
    requires Barren(KindAt(path))
    ensures FineAt(utf8, path, t) && TensorsAt(path, t) == []
    decreases t, 0
  {
    if t.Then? {
      BarrenFine(utf8, path, t.rest);
      BelowBarren(path, t.number);
      if t.value.Held? { BarrenFine(utf8, path + [t.number], t.value.fields); }
    }
  }

  lemma BelowBarren(path: seq<nat>, n: nat)
    requires Barren(KindAt(path))
    ensures Barren(KindAt(path + [n])) && RoleAt(path + [n]).None?
  {
    KindBelow(path, n);
    BarrenInside(KindAt(path), n);
    RoleIs(path + [n]);
  }

  lemma BarrenInside(kind: Option<Kind>, n: nat)
    requires Barren(kind)
    ensures Barren(Inside(kind, n)) && (Inside(kind, n).Some? ==> !Inside(kind, n).value.TensorProto?)
  {
  }

  lemma OpsetFieldTaken(utf8: seq<byte> -> bool, n: nat, v: Value, depth: nat, state: State)
    requires TypedValue(Visitors(utf8), OperatorSetIdProto, n, v, depth)
    ensures FieldMeaning(Visitors(utf8), OperatorSetIdProto, n, v, state) ==
      Taken(if n == 2 then state.(scratch := state.scratch.(version := AsI64(v.n))) else state)
  {
    var s := Visitors(utf8);
    assert s.meet(OperatorSetIdProto, n, state) == Taken(state);
    assert s.action(OperatorSetIdProto, n) == ActionOf(OperatorSetIdProto, n);
    if n == 2 {
      assert s.number(OperatorSetIdProto, 2, v.n, state) == NumberOf(OperatorSetIdProto, 2, v.n, state);
    }
  }

  /** An operator set's version is the last it is given. */
  lemma {:induction false} OpsetTaken(utf8: seq<byte> -> bool, t: Tree, depth: nat, state: State)
    requires Typed(Visitors(utf8), OperatorSetIdProto, t, depth)
    ensures Meaning(Visitors(utf8), OperatorSetIdProto, t, state) ==
      Taken(state.(scratch := state.scratch.(version := VersionOf(t, state.scratch.version))))
  {
    if t.Then? {
      OpsetFieldTaken(utf8, t.number, t.value, depth, state);
      var one := FieldMeaning(Visitors(utf8), OperatorSetIdProto, t.number, t.value, state);
      OpsetTaken(utf8, t.rest, depth, one.state);
    }
  }

  function VersionOf(t: Tree, before: int): int {
    if LastWhole(t, 2).Some? then AsI64(LastWhole(t, 2).value) else before
  }

  lemma {:induction false} OpsetHeld(utf8: seq<byte> -> bool, kind: Kind, t: Tree, depth: nat, state: State)
    requires Typed(Visitors(utf8), OperatorSetIdProto, t, depth)
    ensures HeldMeaning(Visitors(utf8), kind, OperatorSetIdProto, t, state) ==
      Taken(state.(gathered := WithOpset(state.gathered, VersionOf(t, 0))))
  {
    var s := Visitors(utf8);
    var first := s.begin(OperatorSetIdProto, state);
    assert first == State(state.gathered, FRESH);
    OpsetTaken(utf8, t, depth, first);
    var child := Meaning(s, OperatorSetIdProto, t, first).state;
    assert s.finish(OperatorSetIdProto, kind, state, child) == Finish(OperatorSetIdProto, kind, state, child);
  }

  // The messages that lead to tensors.

  /** Whether a reading is taken exactly where this much is fine, while no more than allowed are gathered. */
  predicate TakenWhere(before: State, after: Verdict, fine: bool, more: seq<External>) {
    after.Taken? <==> fine && |before.gathered.external| + |more| <= MAX_EXTERNAL_TENSORS
  }

  predicate Capacity(state: State) {
    |state.gathered.external| <= MAX_EXTERNAL_TENSORS
  }

  /** A file's first field is one a model has. */
  predicate Known(kind: Kind, n: nat, state: State) {
    kind == ModelProto && !state.scratch.begun ==> n in {1, 2, 3, 4, 5, 6, 7, 8, 14, 20, 25, 26}
  }

  lemma MetKnown(kind: Kind, n: nat, state: State)
    requires Leads(kind)
    ensures Meet(kind, n, state).Taken? <==> Known(kind, n, state)
    ensures Known(kind, n, state) ==> Meet(kind, n, state).state.gathered.external == state.gathered.external
    ensures Known(kind, n, state) && kind == ModelProto ==> Meet(kind, n, state).state.scratch.begun
  {
  }

  lemma {:induction false} PlainTaken(utf8: seq<byte> -> bool, kind: Kind, n: nat, v: Value, depth: nat, state: State)
    requires Leads(kind) && TypedValue(Visitors(utf8), kind, n, v, depth) && !ActionOf(kind, n).Enters?
    ensures ValueMeaning(Visitors(utf8), kind, n, v, state).Taken? && !v.Held?
    ensures ValueMeaning(Visitors(utf8), kind, n, v, state).state.gathered.external == state.gathered.external
    ensures ValueMeaning(Visitors(utf8), kind, n, v, state).state.scratch == state.scratch
  {
    var s := Visitors(utf8);
    assert s.action(kind, n) == ActionOf(kind, n);
    if ActionOf(kind, n).Reads? {
      assert s.number(kind, n, v.n, state) == NumberOf(kind, n, v.n, state);
    }
  }

  lemma {:induction false} LedTaken(utf8: seq<byte> -> bool, path: seq<nat>, kind: Kind, inner: Kind, t: Tree,
      depth: nat, state: State)
    requires KindAt(path) == Some(inner) && Leads(inner) && inner != ModelProto && Capacity(state)
    requires Typed(Visitors(utf8), inner, t, depth)
    ensures TakenWhere(state, HeldMeaning(Visitors(utf8), kind, inner, t, state), FineIn(utf8, path, t),
                       TensorsIn(path, t))
    decreases t, 1
  {
    var s := Visitors(utf8);
    var first := s.begin(inner, state);
    assert first == Begin(inner, state);
    RoleIs(path);
    FieldsTaken(utf8, path, inner, t, depth, first);
    var child := Meaning(s, inner, t, first);
    if child.Taken? {
      assert s.finish(inner, kind, state, child.state) == Finish(inner, kind, state, child.state);
    }
  }

  lemma {:induction false} TensorAtTaken(utf8: seq<byte> -> bool, path: seq<nat>, kind: Kind, role: Role, t: Tree,
      depth: nat, state: State)
    requires KindAt(path) == Some(TensorProto(role)) && Capacity(state)
    requires Typed(Visitors(utf8), TensorProto(role), t, depth)
    ensures TakenWhere(state, HeldMeaning(Visitors(utf8), kind, TensorProto(role), t, state), FineIn(utf8, path, t),
                       TensorsIn(path, t))
  {
    TensorHeldTaken(utf8, kind, role, t, depth, state);
    BarrenFine(utf8, path, t);
    RoleIs(path);
    assert [] + TensorExternal(role, t) == TensorExternal(role, t);
  }

  lemma {:induction false} OpsetAtTaken(utf8: seq<byte> -> bool, path: seq<nat>, kind: Kind, t: Tree,
      depth: nat, state: State)
    requires KindAt(path) == Some(OperatorSetIdProto) && Capacity(state)
    requires Typed(Visitors(utf8), OperatorSetIdProto, t, depth)
    ensures TakenWhere(state, HeldMeaning(Visitors(utf8), kind, OperatorSetIdProto, t, state), FineIn(utf8, path, t),
                       TensorsIn(path, t))
  {
    OpsetHeld(utf8, kind, t, depth, state);
    BarrenFine(utf8, path, t);
    RoleIs(path);
  }

  lemma {:induction false} InnerTaken(utf8: seq<byte> -> bool, path: seq<nat>, kind: Kind, inner: Kind, t: Tree,
      depth: nat, state: State)
    requires KindAt(path) == Some(inner) && path != [] && Leads(kind) && Capacity(state)
    requires inner != StringStringEntryProto
    requires Typed(Visitors(utf8), inner, t, depth)
    ensures TakenWhere(state, HeldMeaning(Visitors(utf8), kind, inner, t, state), FineIn(utf8, path, t),
                       TensorsIn(path, t))
    decreases t, 2
  {
    RoleIs(path);
    if inner.TensorProto? {
      TensorAtTaken(utf8, path, kind, inner.role, t, depth, state);
    } else if inner.OperatorSetIdProto? {
      OpsetAtTaken(utf8, path, kind, t, depth, state);
    } else {
      LedTaken(utf8, path, kind, inner, t, depth, state);
    }
  }

  lemma EntersFrom(kind: Kind, n: nat)
    requires Leads(kind) && ActionOf(kind, n).Enters?
    ensures ActionOf(kind, n).kind != StringStringEntryProto
  {
  }

  lemma {:induction false} ValueTaken(utf8: seq<byte> -> bool, path: seq<nat>, kind: Kind, n: nat, v: Value,
      depth: nat, state: State)
    requires KindAt(path) == Some(kind) && Leads(kind) && Capacity(state)
    requires TypedValue(Visitors(utf8), kind, n, v, depth)
    ensures TakenWhere(state, ValueMeaning(Visitors(utf8), kind, n, v, state), FieldFine(utf8, path, n, v),
                       FieldTensors(path, n, v))
    decreases v, 3
  {
    assert Visitors(utf8).action(kind, n) == ActionOf(kind, n);
    if ActionOf(kind, n).Enters? {
      KindBelow(path, n);
      EntersFrom(kind, n);
      InnerTaken(utf8, path + [n], kind, ActionOf(kind, n).kind, v.fields, depth + 1, state);
    } else {
      PlainTaken(utf8, kind, n, v, depth, state);
    }
  }

  lemma {:induction false} FieldTaken(utf8: seq<byte> -> bool, path: seq<nat>, kind: Kind, n: nat, v: Value,
      depth: nat, state: State)
    requires KindAt(path) == Some(kind) && Leads(kind) && Capacity(state)
    requires TypedValue(Visitors(utf8), kind, n, v, depth)
    ensures TakenWhere(state, FieldMeaning(Visitors(utf8), kind, n, v, state),
                       Known(kind, n, state) && FieldFine(utf8, path, n, v), FieldTensors(path, n, v))
    decreases v, 4
  {
    assert Visitors(utf8).meet(kind, n, state) == Meet(kind, n, state);
    MetKnown(kind, n, state);
    if Known(kind, n, state) { ValueTaken(utf8, path, kind, n, v, depth, Meet(kind, n, state).state); }
  }

  /** What a field taken adds. */
  lemma {:induction false} FieldGathers(utf8: seq<byte> -> bool, path: seq<nat>, kind: Kind, n: nat, v: Value,
      state: State)
    requires KindAt(path) == Some(kind)
    ensures Adds(state, FieldMeaning(Visitors(utf8), kind, n, v, state), FieldTensors(path, n, v))
  {
    FieldAdds(utf8, kind, n, v, state);
    if v.Held? { InsideGathered(path, kind, n, v); }
  }

  lemma {:induction false} FieldsTaken(utf8: seq<byte> -> bool, path: seq<nat>, kind: Kind, t: Tree, depth: nat,
      state: State)
    requires KindAt(path) == Some(kind) && Leads(kind) && Capacity(state)
    requires Typed(Visitors(utf8), kind, t, depth)
    ensures TakenWhere(state, Meaning(Visitors(utf8), kind, t, state),
                       (t.Then? ==> Known(kind, t.number, state)) && FineAt(utf8, path, t), TensorsAt(path, t))
    decreases t, 0
  {
    if t.Then? {
      FieldTaken(utf8, path, kind, t.number, t.value, depth, state);
      FieldGathers(utf8, path, kind, t.number, t.value, state);
      var one := FieldMeaning(Visitors(utf8), kind, t.number, t.value, state);
      if one.Taken? {
        FieldBegins(utf8, kind, t.number, t.value, state);
        FieldsTaken(utf8, path, kind, t.rest, depth, one.state);
      }
    }
  }

  /** After its first field a model has begun, whatever it holds. */
  lemma {:induction false} FieldBegins(utf8: seq<byte> -> bool, kind: Kind, n: nat, v: Value, state: State)
    ensures var one := FieldMeaning(Visitors(utf8), kind, n, v, state);
      one.Taken? && kind == ModelProto ==> one.state.scratch.begun
  {
    var s := Visitors(utf8);
    assert s.meet(kind, n, state) == Meet(kind, n, state);
    var met := Meet(kind, n, state);
    if kind == ModelProto && met.Taken? { ValueBegins(utf8, n, v, met.state); }
  }

  lemma {:induction false} ValueBegins(utf8: seq<byte> -> bool, n: nat, v: Value, state: State)
    ensures var one := ValueMeaning(Visitors(utf8), ModelProto, n, v, state);
      one.Taken? ==> one.state.scratch == state.scratch
  {
    var s := Visitors(utf8);
    var action := ActionOf(ModelProto, n);
    assert s.action(ModelProto, n) == action;
    if action.Reads? && v.Whole? {
      assert s.number(ModelProto, n, v.n, state) == NumberOf(ModelProto, n, v.n, state);
    }
    if action.Enters? && v.Held? {
      var child := Meaning(s, action.kind, v.fields, s.begin(action.kind, state));
      if child.Taken? {
        assert s.finish(action.kind, ModelProto, state, child.state) ==
          Finish(action.kind, ModelProto, state, child.state);
      }
    }
  }

  // What is gathered beside the tensors.

  function Beside(state: State): Gathered {
    state.gathered.(external := [])
  }

  /** The messages in which nothing but tensors is gathered. */
  predicate Quiet(kind: Kind) {
    kind !in {ModelProto, GraphProto(true), OperatorSetIdProto}
  }

  lemma QuietMet(kind: Kind, n: nat, state: State)
    requires Quiet(kind) && Meet(kind, n, state).Taken?
    ensures Beside(Meet(kind, n, state).state) == Beside(state)
  {
  }

  lemma QuietBelow(kind: Kind, n: nat)
    requires Quiet(kind) && ActionOf(kind, n).Enters?
    ensures Quiet(ActionOf(kind, n).kind)
  {
  }

  lemma QuietFinish(inner: Kind, kind: Kind, holder: State, child: State)
    requires inner != OperatorSetIdProto && Finish(inner, kind, holder, child).Taken?
    ensures Beside(Finish(inner, kind, holder, child).state) == Beside(child)
  {
  }

  lemma {:induction false} QuietHeld(utf8: seq<byte> -> bool, kind: Kind, inner: Kind, t: Tree, state: State)
    requires Quiet(inner)
    ensures var after := HeldMeaning(Visitors(utf8), kind, inner, t, state);
      after.Taken? ==> Beside(after.state) == Beside(state)
    decreases t, 1
  {
    var s := Visitors(utf8);
    var first := s.begin(inner, state);
    assert first == State(state.gathered, FRESH);
    QuietFields(utf8, inner, t, first);
    var child := Meaning(s, inner, t, first);
    if child.Taken? {
      assert s.finish(inner, kind, state, child.state) == Finish(inner, kind, state, child.state);
      if Finish(inner, kind, state, child.state).Taken? { QuietFinish(inner, kind, state, child.state); }
    }
  }

  lemma {:induction false} NumbersBeside(utf8: seq<byte> -> bool, role: Role, n: nat, ns: seq<nat>, state: State)
    ensures var after := NumbersMeaning(Visitors(utf8), TensorProto(role), n, ns, state);
      after.Taken? ==> after.state.gathered == state.gathered
    decreases |ns|
  {
    if ns != [] {
      var one := Visitors(utf8).number(TensorProto(role), n, ns[0], state);
      assert one == TensorNumber(n, ns[0], state);
      if one.Taken? { NumbersBeside(utf8, role, n, ns[1..], one.state); }
    }
  }

  lemma {:induction false} QuietValue(utf8: seq<byte> -> bool, kind: Kind, n: nat, v: Value, state: State)
    requires Quiet(kind) || (kind == GraphProto(true))
    ensures var after := ValueMeaning(Visitors(utf8), kind, n, v, state);
      after.Taken? ==> Beside(after.state) == Beside(state)
    decreases v, 2
  {
    var s := Visitors(utf8);
    assert s.action(kind, n) == ActionOf(kind, n);
    match ActionOf(kind, n) {
      case Pass =>
      case Enters(inner) => if v.Held? { QuietHeld(utf8, kind, inner, v.fields, state); }
      case Takes => if v.Chunk? { assert s.text(kind, n, v.bytes, state) == TextOf(utf8, kind, n, v.bytes, state); }
      case _ =>
        if v.Whole? { assert s.number(kind, n, v.n, state) == NumberOf(kind, n, v.n, state); }
        if v.Many? && kind.TensorProto? { NumbersBeside(utf8, kind.role, n, v.ns, state); }
    }
  }

  lemma {:induction false} QuietFields(utf8: seq<byte> -> bool, kind: Kind, t: Tree, state: State)
    requires Quiet(kind)
    ensures var after := Meaning(Visitors(utf8), kind, t, state);
      after.Taken? ==> Beside(after.state) == Beside(state)
    decreases t, 0
  {
    if t.Then? {
      var s := Visitors(utf8);
      var met := s.meet(kind, t.number, state);
      assert met == Meet(kind, t.number, state);
      if met.Taken? {
        QuietMet(kind, t.number, state);
        QuietValue(utf8, kind, t.number, t.value, met.state);
        var one := FieldMeaning(s, kind, t.number, t.value, state);
        if one.Taken? { QuietFields(utf8, kind, t.rest, one.state); }
      }
    }
  }

  /** How many of a message's fields bear a number. */
  function Numbered(t: Tree, number: nat): nat {
    if t.NoMore? then 0 else Numbered(t.rest, number) + if t.number == number then 1 else 0
  }

  function WithGraphCounts(g: Gathered, graphs: nat, inputs: nat, outputs: nat): Gathered {
    g.(graphs := g.graphs + graphs, graphInputs := g.graphInputs + inputs, graphOutputs := g.graphOutputs + outputs)
  }

  lemma {:induction false} MainGraphField(utf8: seq<byte> -> bool, n: nat, v: Value, state: State)
    ensures var after := FieldMeaning(Visitors(utf8), GraphProto(true), n, v, state);
      after.Taken? ==>
        Beside(after.state) ==
        WithGraphCounts(Beside(state), 0, if n == 11 then 1 else 0, if n == 12 then 1 else 0)
  {
    var s := Visitors(utf8);
    assert s.meet(GraphProto(true), n, state) == Meet(GraphProto(true), n, state);
    QuietValue(utf8, GraphProto(true), n, v, Meet(GraphProto(true), n, state).state);
  }

  lemma {:induction false} MainGraphFields(utf8: seq<byte> -> bool, t: Tree, state: State)
    ensures var after := Meaning(Visitors(utf8), GraphProto(true), t, state);
      after.Taken? ==> Beside(after.state) == WithGraphCounts(Beside(state), 0, Numbered(t, 11), Numbered(t, 12))
  {
    if t.Then? {
      MainGraphField(utf8, t.number, t.value, state);
      var one := FieldMeaning(Visitors(utf8), GraphProto(true), t.number, t.value, state);
      if one.Taken? { MainGraphFields(utf8, t.rest, one.state); }
    }
  }

  lemma {:induction false} MainGraphHeld(utf8: seq<byte> -> bool, t: Tree, state: State)
    ensures var after := HeldMeaning(Visitors(utf8), ModelProto, GraphProto(true), t, state);
      after.Taken? ==> Beside(after.state) == WithGraphCounts(Beside(state), 1, Numbered(t, 11), Numbered(t, 12))
  {
    var s := Visitors(utf8);
    var first := s.begin(GraphProto(true), state);
    assert first == Begin(GraphProto(true), state);
    MainGraphFields(utf8, t, first);
    var child := Meaning(s, GraphProto(true), t, first);
    if child.Taken? {
      assert s.finish(GraphProto(true), ModelProto, state, child.state) ==
        Finish(GraphProto(true), ModelProto, state, child.state);
    }
  }

  /** What a field of a model adds to what is gathered beside the tensors. */
  function Noted(n: nat, v: Value, g: Gathered): Gathered {
    if n == 1 && v.Whole? then g.(irVersion := Some(AsI64(v.n)))
    else if n == 7 && v.Held? then WithGraphCounts(g, 1, Numbered(v.fields, 11), Numbered(v.fields, 12))
    else if n == 8 && v.Held? then
      g.(opsetImports := g.opsetImports + 1,
         invalidOpsetVersion :=
           if g.invalidOpsetVersion.None? && VersionOf(v.fields, 0) < 1 then Some(VersionOf(v.fields, 0))
           else g.invalidOpsetVersion)
    else g
  }

  lemma {:induction false} ModelValue(utf8: seq<byte> -> bool, n: nat, v: Value, depth: nat, state: State)
    requires TypedValue(Visitors(utf8), ModelProto, n, v, depth)
    ensures var after := ValueMeaning(Visitors(utf8), ModelProto, n, v, state);
      after.Taken? ==> Beside(after.state) == Noted(n, v, Beside(state))
  {
    var s := Visitors(utf8);
    assert s.action(ModelProto, n) == ActionOf(ModelProto, n);
    if n == 1 {
      assert s.number(ModelProto, 1, v.n, state) == NumberOf(ModelProto, 1, v.n, state);
    } else if n == 7 {
      MainGraphHeld(utf8, v.fields, state);
    } else if n == 8 {
      OpsetHeld(utf8, ModelProto, v.fields, depth + 1, state);
    } else if n in {20, 25} {
      QuietHeld(utf8, ModelProto, ActionOf(ModelProto, n).kind, v.fields, state);
    }
  }

  /** Of the model's operator sets, the first version below one. */
  function FirstInvalid(t: Tree): Option<int> {
    if t.NoMore? then None
    else if t.number == 8 && t.value.Held? && VersionOf(t.value.fields, 0) < 1 then Some(VersionOf(t.value.fields, 0))
    else FirstInvalid(t.rest)
  }

  /** The inputs, or the outputs, of the model's graphs. */
  function OfGraphs(t: Tree, number: nat): nat {
    if t.NoMore? then 0
    else OfGraphs(t.rest, number) + if t.number == 7 && t.value.Held? then Numbered(t.value.fields, number) else 0
  }

  function NotedAll(t: Tree, g: Gathered): Gathered {
    Gathered(
      if LastWhole(t, 1).Some? then Some(AsI64(LastWhole(t, 1).value)) else g.irVersion,
      g.opsetImports + Numbered(t, 8),
      if g.invalidOpsetVersion.Some? then g.invalidOpsetVersion else FirstInvalid(t),
      g.graphs + Numbered(t, 7),
      g.graphInputs + OfGraphs(t, 11),
      g.graphOutputs + OfGraphs(t, 12),
      g.external)
  }

  lemma NotedStep(n: nat, v: Value, rest: Tree, g: Gathered)
    requires (n in {7, 8} ==> v.Held?) && (n == 1 ==> v.Whole?)
    ensures NotedAll(Then(n, v, rest), g) == NotedAll(rest, Noted(n, v, g))
  {
  }

  lemma {:induction false} ModelFields(utf8: seq<byte> -> bool, t: Tree, depth: nat, state: State)
    requires Typed(Visitors(utf8), ModelProto, t, depth)
    ensures var after := Meaning(Visitors(utf8), ModelProto, t, state);
      after.Taken? ==> Beside(after.state) == NotedAll(t, Beside(state))
  {
    if t.Then? {
      var s := Visitors(utf8);
      var met := s.meet(ModelProto, t.number, state);
      assert met == Meet(ModelProto, t.number, state);
      assert s.action(ModelProto, t.number) == ActionOf(ModelProto, t.number);
      if met.Taken? {
        ModelValue(utf8, t.number, t.value, depth, met.state);
        NotedStep(t.number, t.value, t.rest, Beside(state));
        var one := FieldMeaning(s, ModelProto, t.number, t.value, state);
        if one.Taken? { ModelFields(utf8, t.rest, depth, one.state); }
      }
    }
  }

  /** What the walk of a model gathers: its last ir_version, its operator sets, its graphs, and its tensors. */
  function GatheredOf(t: Tree): Gathered {
    Gathered(
      if LastWhole(t, 1).Some? then Some(AsI64(LastWhole(t, 1).value)) else None,
      Numbered(t, 8),
      FirstInvalid(t),
      Numbered(t, 7),
      OfGraphs(t, 11),
      OfGraphs(t, 12),
      TensorsAt([], t))
  }

  lemma {:induction false} ModelTaken(utf8: seq<byte> -> bool, t: Tree)
    requires Typed(Visitors(utf8), ModelProto, t, 0)
    ensures Meaning(Visitors(utf8), ModelProto, t, NOTHING).Taken? <==> ModelFine(utf8, t)
  {
    FieldsTaken(utf8, [], ModelProto, t, 0, NOTHING);
  }

  lemma {:induction false} TensorsGathered(utf8: seq<byte> -> bool, t: Tree, state: State)
    requires Meaning(Visitors(utf8), ModelProto, t, NOTHING) == Taken(state)
    ensures state.gathered.external == TensorsAt([], t)
  {
    FieldsAdd(utf8, ModelProto, t, NOTHING);
    PlacesGathered([], ModelProto, t);
  }

  lemma NotedFromNothing(t: Tree, g: Gathered)
    requires g.(external := []) == NotedAll(t, Gathered(None, 0, None, 0, 0, 0, [])) && g.external == TensorsAt([], t)
    ensures g == GatheredOf(t)
  {
  }

  lemma {:induction false} ModelGathered(utf8: seq<byte> -> bool, t: Tree, state: State)
    requires Typed(Visitors(utf8), ModelProto, t, 0)
    requires Meaning(Visitors(utf8), ModelProto, t, NOTHING) == Taken(state)
    ensures state.gathered == GatheredOf(t)
  {
    TensorsGathered(utf8, t, state);
    ModelFields(utf8, t, 0, NOTHING);
    NotedFromNothing(t, state.gathered);
  }

  /**
   * For every model tree within the limits whose values fit their declared fields, the walk of its
   * bytes accepts them exactly where its tensors are fine, reads them whole, and gathers exactly
   * what the tree says, the external tensors at the places of tensors in the order they end.
   */
  lemma {:induction false} WalkCollectsExternals(utf8: seq<byte> -> bool, t: Tree)
    requires Typed(Visitors(utf8), ModelProto, t, 0) && 1 + Count(t) <= MAX_MESSAGES
    requires |Encode(EncodeVarint, t)| < U64_SPACE
    ensures var walked := Walk(Visitors(utf8), Encode(EncodeVarint, t), ModelProto, NOTHING);
      && (walked.Success? <==> ModelFine(utf8, t))
      && (walked.Success? ==>
            walked.value.state.gathered == GatheredOf(t) && walked.value.messages == 1 + Count(t))
      && (walked.Failure? ==> !walked.error.Truncated?)
  {
    T.WalkInvertsEncoding(Visitors(utf8), t, ModelProto, NOTHING);
    ModelTaken(utf8, t);
    var meaning := Meaning(Visitors(utf8), ModelProto, t, NOTHING);
    if meaning.Taken? { ModelGathered(utf8, t, meaning.state); }
  }
}
