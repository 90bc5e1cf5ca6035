/**
 * Where the tensors of a model stand, told by the numbers of the fields that lead to them, and that
 * the walk gathers those tensors and no others.
 */
module ModelPlaces {
  import opened Wrappers
  import opened Bytes
  import opened WalkTypes
  import opened MessageTree
  import opened Onnx
  import opened ExternalTensors

  function Outer(path: seq<nat>): seq<nat>
    requires path != []
  {
    path[..|path| - 1]
  }

  function Last(path: seq<nat>): nat
    requires path != []
  {
    path[|path| - 1]
  }

  /** The model's graph, the two graphs of a training step, and the graphs an attribute holds. */
  predicate GraphPath(path: seq<nat>) {
    path in {[7], [20, 1], [20, 2]} || (path != [] && Last(path) in {6, 11} && AttributePath(Outer(path)))
  }

  /** A node of a graph or of a function. */
  predicate NodePath(path: seq<nat>) {
    path == [25, 7] || (path != [] && Last(path) == 1 && GraphPath(Outer(path)))
  }

  /** An attribute of a node, or a default of a function's. */
  predicate AttributePath(path: seq<nat>) {
    path == [25, 11] || (path != [] && Last(path) == 5 && NodePath(Outer(path)))
  }

  /** What a tensor at this place is called, if this is a place of tensors. */
  function RoleAt(path: seq<nat>): Option<Role> {
    if path == [] then None
    else if Last(path) == 5 && GraphPath(Outer(path)) then Some(Initializer)
    else if Last(path) in {5, 10} && AttributePath(Outer(path)) then Some(AttributeTensor)
    else if Last(path) in {1, 2} then SparseRoleAt(Outer(path))
    else None
  }

  /** A sparse tensor holds two: its values and its indices. */
  function SparseRoleAt(path: seq<nat>): Option<Role> {
    if path == [] then None
    else if Last(path) == 15 && GraphPath(Outer(path)) then Some(SparseInitializer)
    else if Last(path) in {22, 23} && AttributePath(Outer(path)) then Some(AttributeSparseTensor)
    else None
  }

  /** The external tensors among the messages a message at this place holds, in the order they end. */
  function TensorsAt(path: seq<nat>, t: Tree): seq<External>
    decreases t, 0
  {
    match t
    case NoMore => []
    case Then(n, v, rest) => (if v.Held? then TensorsIn(path + [n], v.fields) else []) + TensorsAt(path, rest)
  }

  function TensorsIn(path: seq<nat>, t: Tree): seq<External>
    decreases t, 1
  {
    TensorsAt(path, t) + if RoleAt(path).Some? then TensorExternal(RoleAt(path).value, t) else []
  }

  /** Which message the walk enters along a path; none where it passes over a field. */
  function KindAt(path: seq<nat>): Option<Kind>
    decreases |path|
  {
    if path == [] then Some(ModelProto) else Inside(KindAt(Outer(path)), Last(path))
  }

  function Inside(kind: Option<Kind>, field: nat): Option<Kind> {
    if kind.Some? && ActionOf(kind.value, field).Enters? then Some(ActionOf(kind.value, field).kind) else None
  }

  /** A path of one, and a path of two. */
  lemma Short(path: seq<nat>)
    requires path != []
    ensures Outer(path) == [] <==> |path| == 1
    ensures |path| == 1 ==> path == [Last(path)]
    ensures |path| == 2 ==> path == [path[0], Last(path)] && Outer(path) == [path[0]]
  {
  }

  /** The kinds of message along a path are those its numbers lead to. */
  predicate Agrees(path: seq<nat>) {
    var kind := KindAt(path);
    && (kind == Some(ModelProto) <==> path == [])
    && (kind == Some(TrainingInfoProto) <==> path == [20])
    && (kind == Some(FunctionProto) <==> path == [25])
    && ((kind.Some? && kind.value.GraphProto?) <==> GraphPath(path))
    && (kind == Some(NodeProto) <==> NodePath(path))
    && (kind == Some(AttributeProto) <==> AttributePath(path))
    && SparseRoleAt(path) == (if kind.Some? && kind.value.SparseTensorProto? then Some(kind.value.role) else None)
    && RoleAt(path) == (if kind.Some? && kind.value.TensorProto? then Some(kind.value.role) else None)
  }

  lemma {:induction false} KindsAgree(path: seq<nat>)
    ensures Agrees(path)
    decreases |path|
  {
    if path != [] {
      KindsAgree(Outer(path));
      Short(path);
    }
  }

  lemma {:induction false} RoleIs(path: seq<nat>)
    ensures var kind := KindAt(path);
      RoleAt(path) == if kind.Some? && kind.value.TensorProto? then Some(kind.value.role) else None
  {
    KindsAgree(path);
  }

  lemma KindBelow(path: seq<nat>, n: nat)
    ensures KindAt(path + [n]) == Inside(KindAt(path), n)
  {
    assert Outer(path + [n]) == path && Last(path + [n]) == n;
  }

  /** Nothing is gathered under a field the walk passes over. */
  lemma {:induction false} NoneBelow(path: seq<nat>, t: Tree)
    requires KindAt(path) == None
    ensures TensorsAt(path, t) == []
    decreases t, 0
  {
    if t.Then? {
      NoneBelow(path, t.rest);
      KindBelow(path, t.number);
      KindsAgree(path + [t.number]);
      if t.value.Held? { NoneBelow(path + [t.number], t.value.fields); }
    }
  }

  lemma {:induction false} InsideGathered(path: seq<nat>, kind: Kind, n: nat, v: Value)
    requires KindAt(path) == Some(kind) && v.Held?
    ensures TensorsIn(path + [n], v.fields) == ValueExternals(ActionOf(kind, n), v)
    decreases v, 1
  {
    KindBelow(path, n);
    KindsAgree(path + [n]);
    if ActionOf(kind, n).Enters? {
      PlacesGathered(path + [n], ActionOf(kind, n).kind, v.fields);
    } else {
      NoneBelow(path + [n], v.fields);
    }
  }

  /** So a walked message adds exactly those, in the order they end. */
  lemma {:induction false} PlacesAdd(utf8: seq<byte> -> bool, path: seq<nat>, kind: Kind, t: Tree, state: State)
    requires KindAt(path) == Some(kind)
    ensures Adds(state, Meaning(Visitors(utf8), kind, t, state), TensorsAt(path, t))
  {
    FieldsAdd(utf8, kind, t, state);
    PlacesGathered(path, kind, t);
  }

  /** Under a message the walk enters, exactly the tensors at the places of tensors. */
  lemma {:induction false} PlacesGathered(path: seq<nat>, kind: Kind, t: Tree)
    requires KindAt(path) == Some(kind)
    ensures TensorsAt(path, t) == Externals(kind, t)
    decreases t, 0
  {
    if t.Then? {
      PlacesGathered(path, kind, t.rest);
      if t.value.Held? { InsideGathered(path, kind, t.number, t.value); }
    }
  }
}
