/** What a graph walk distinguishes and gathers (ONNX's messages, as far as the walk enters them). */
module WalkTypes {
  import opened Wrappers
  import opened Bytes

  datatype Role = Initializer | SparseInitializer | AttributeTensor | AttributeSparseTensor

  /** A walked message. Only the main graph's inputs and outputs are counted. */
  datatype Kind =
    | ModelProto
    | GraphProto(main: bool)
    | NodeProto
    | AttributeProto
    | SparseTensorProto(role: Role)
    | TrainingInfoProto
    | FunctionProto
    | OperatorSetIdProto
    | TensorProto(role: Role)
    | StringStringEntryProto

  /** A tensor's name, cut to the bytes kept of it. */
  datatype Name = Name(bytes: seq<byte>, cut: bool)

  /** One external_data entry. */
  datatype Entry = Entry(key: Option<seq<byte>>, value: Option<seq<byte>>)

  /** A tensor that keeps its data elsewhere, and the byte it needs that file to reach. */
  datatype External = External(role: Role, name: Name, location: seq<byte>, needsBytes: nat)

  /** What the whole walk gathers. */
  datatype Gathered = Gathered(
    irVersion: Option<int>,
    opsetImports: nat,
    invalidOpsetVersion: Option<int>,
    graphs: nat,
    graphInputs: nat,
    graphOutputs: nat,
    external: seq<External>)

  /** What the message being walked has given so far. */
  datatype Scratch = Scratch(
    begun: bool,
    version: int,
    name: Name,
    dataType: int,
    location: nat,
    dims: seq<int>,
    entries: seq<Entry>,
    entry: Entry)

  datatype State = State(gathered: Gathered, scratch: Scratch)

  /** What visiting a value makes of the state. */
  datatype Verdict = Taken(state: State) | Refused | Excess

  /** What a visitor does with a field: leave it to be skipped, or consume it. */
  datatype Action = Pass | Reads | ReadsMany | Takes | Enters(kind: Kind)

  /**
   * The visitors of every message, as data: which wire types a field may arrive in, what is done
   * with it, and what its value makes of the state. `meet` comes before a field's value is read;
   * `begin` and `finish` stand around a message's fields.
   */
  datatype Schema = Schema(
    fits: (Kind, nat, nat) -> bool,
    action: (Kind, nat) -> Action,
    meet: (Kind, nat, State) -> Verdict,
    number: (Kind, nat, nat, State) -> Verdict,
    text: (Kind, nat, seq<byte>, State) -> Verdict,
    begin: (Kind, State) -> State,
    finish: (Kind, Kind, State, State) -> Verdict)
}
