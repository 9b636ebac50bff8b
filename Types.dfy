/** The records and enumerations of the blueprint editor (types.ts), plus the
    dynamic values that node properties, pins and variables carry. */
module Types {

  datatype Option<+T> = None | Some(value: T)

  /** The closed set of pin data types. */
  datatype DataType = Exec | String | Integer | Boolean | Any

  datatype PinDirection = Input | Output

  /** The seventeen node kinds; there are no loop or floating-point kinds. */
  datatype NodeType =
    | BeginPlay | Branch | Sequence
    | SetVariable | GetVariable | ClearVariable
    | StringLiteral | IntegerLiteral | BooleanLiteral
    | PrintString
    | AddInteger | SubtractInteger | MultiplyInteger | DivideInteger
    | GreaterThanInteger | LessThanInteger | EqualsInteger

  /** A dynamically typed value: what a property, a data pin or a variable holds.
      Numbers are modelled as mathematical integers. A variable name that the store does not
      hold can still read a member inherited from `Object.prototype`: a built-in function,
      given by its `name`, or `Object.prototype` itself, an object with no enumerable own
      properties. */
  datatype Value =
    | Undefined | Str(s: string) | Num(n: int) | Bool(b: bool)
    | NativeFunction(fname: string) | EmptyObject

  datatype Pin = Pin(id: string, nodeId: string, labelText: string, dataType: DataType, direction: PinDirection)

  /** A node; `kind` is the source's `type` field. Positions are kept as integers. */
  datatype Node = Node(
    id: string,
    kind: NodeType,
    title: string,
    x: int,
    y: int,
    inputs: seq<Pin>,
    outputs: seq<Pin>,
    properties: map<string, Value>,
    comment: string)

  datatype Wire = Wire(
    id: string,
    fromNodeId: string,
    fromPinId: string,
    toNodeId: string,
    toPinId: string,
    dataType: DataType)

  /** The fields of a wire other than its id: what a completed drag asks the editor to add. */
  datatype WireRequest = WireRequest(
    fromNodeId: string,
    fromPinId: string,
    toNodeId: string,
    toPinId: string,
    dataType: DataType)

  function NodeId(n: Node): string { n.id }

  function WireId(w: Wire): string { w.id }

  function ToPinId(w: Wire): string { w.toPinId }

  /** The enum's string value, as it appears inside generated pin ids. */
  function DataTypeName(d: DataType): string
  {
    match d
    case Exec => "EXEC"
    case String => "STRING"
    case Integer => "INTEGER"
    case Boolean => "BOOLEAN"
    case Any => "ANY"
  }

  function DirectionName(d: PinDirection): string
  {
    match d
    case Input => "INPUT"
    case Output => "OUTPUT"
  }

  /** Reading `properties[key]`: a missing key reads as undefined. The interpreter reads only
      the keys `name`, `text` and `value`, none of which `Object.prototype` has. */
  function Prop(props: map<string, Value>, key: string): Value
  {
    if key in props then props[key] else Undefined
  }

  lemma ConcatAssoc<T>(a: seq<T>, b: seq<T>, c: seq<T>)
    ensures (a + b) + c == a + (b + c)
  {
  }
}
