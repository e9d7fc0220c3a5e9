/** The records of the workflow editor: operator types, nodes, edges, the scenario document
    and the execution log, as types.ts declares them. */
module Types {

  datatype Option<+T> = None | Some(value: T)

  /** JavaScript truthiness of a `string | null` value: null and the empty string are falsy. */
  predicate Truthy(s: Option<string>)
  {
    s.Some? && s.value != ""
  }

  datatype OperatorType =
    | Start | Input | Llm | Python | AbTest | Filter | IfElse | Transformer | Output | End

  /** A point in logical (unscaled) graph space, or in screen space, depending on use. */
  datatype Position = Position(x: real, y: real)

  datatype Status = Idle | Running | Success | Error

  /** The values the editor itself stores in a node's free-form configuration record. */
  datatype ConfigValue = Number(num: real) | Text(text: string)

  type Config = map<string, ConfigValue>

  datatype Node = Node(
    id: string,
    kind: OperatorType,
    name: string,
    position: Position,
    config: Config,
    status: Status)

  /** `sourceHandle` is absent for single-output nodes and "true"/"false" for IF_ELSE nodes. */
  datatype Edge = Edge(id: string, source: string, target: string, sourceHandle: Option<string>)

  /** `updatedAt` stands for the ISO timestamp: an abstract value that each structural
      mutation bumps. */
  datatype Scenario = Scenario(
    id: string,
    name: string,
    description: string,
    nodes: seq<Node>,
    edges: seq<Edge>,
    updatedAt: nat)

  datatype LogStatus = LogSuccess | LogError

  /** One execution log line; its id and wall-clock timestamp are not modelled. */
  datatype LogEntry = LogEntry(nodeId: string, status: LogStatus, message: string)

  /** A `Partial<Node>`: every field is optional and a present field overrides the node's. */
  datatype NodePatch = NodePatch(
    id: Option<string>,
    kind: Option<OperatorType>,
    name: Option<string>,
    position: Option<Position>,
    config: Option<Config>,
    status: Option<Status>)

  /** The canvas element's bounding rectangle, in screen space. */
  datatype Rect = Rect(left: real, top: real, width: real, height: real)
}
