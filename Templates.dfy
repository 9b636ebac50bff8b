/** The node template table (`NODE_TEMPLATES`): for every node kind, its title, pin shapes
    and default properties. */
module Templates {
  import opened Types

  datatype PinTemplate = PinTemplate(labelText: string, dataType: DataType, direction: PinDirection)

  datatype NodeTemplate = NodeTemplate(
    kind: NodeType,
    title: string,
    inputs: seq<PinTemplate>,
    outputs: seq<PinTemplate>,
    properties: map<string, Value>,
    comment: string)

  function In(labelText: string, d: DataType): PinTemplate { PinTemplate(labelText, d, Input) }
  function Out(labelText: string, d: DataType): PinTemplate { PinTemplate(labelText, d, Output) }

  predicate IsIntegerArithmetic(k: NodeType)
  {
    k == AddInteger || k == SubtractInteger || k == MultiplyInteger || k == DivideInteger
  }

  predicate IsIntegerComparison(k: NodeType)
  {
    k == GreaterThanInteger || k == LessThanInteger || k == EqualsInteger
  }

  predicate IsLiteral(k: NodeType)
  {
    k == StringLiteral || k == IntegerLiteral || k == BooleanLiteral
  }

  /** The table is total over the kinds, each entry's kind is its key, input templates are
      inputs and output templates are outputs, and no template carries a comment. */
  function Template(k: NodeType): (t: NodeTemplate)
    ensures t.kind == k
    ensures forall p <- t.inputs :: p.direction == Input
    ensures forall p <- t.outputs :: p.direction == Output
    ensures t.comment == ""
  {
    match k
    case BeginPlay =>
      NodeTemplate(k, "Begin Play", [], [Out("", Exec)], map[], "")
    case Sequence =>
      NodeTemplate(k, "Sequence", [In("", Exec)], [Out("Then 0", Exec), Out("Then 1", Exec)], map[], "")
    case PrintString =>
      NodeTemplate(k, "Print String", [In("", Exec), In("In String", String)], [Out("", Exec)],
        map["text" := Str("Hello World")], "")
    case SetVariable =>
      NodeTemplate(k, "Set Variable", [In("", Exec), In("Value", Any)], [Out("", Exec)],
        map["name" := Str("myVar")], "")
    case GetVariable =>
      NodeTemplate(k, "Get Variable", [], [Out("Value", Any)], map["name" := Str("myVar")], "")
    case ClearVariable =>
      NodeTemplate(k, "Clear Variable", [In("", Exec)], [Out("", Exec)], map["name" := Str("myVar")], "")
    case AddInteger =>
      NodeTemplate(k, "Add Integer (+)", [In("A", Integer), In("B", Integer)], [Out("Result", Integer)], map[], "")
    case SubtractInteger =>
      NodeTemplate(k, "Subtract Integer (-)", [In("A", Integer), In("B", Integer)], [Out("Result", Integer)], map[], "")
    case MultiplyInteger =>
      NodeTemplate(k, "Multiply Integer (*)", [In("A", Integer), In("B", Integer)], [Out("Result", Integer)], map[], "")
    case DivideInteger =>
      NodeTemplate(k, "Divide Integer (/)", [In("A", Integer), In("B", Integer)], [Out("Result", Integer)], map[], "")
    case GreaterThanInteger =>
      NodeTemplate(k, "Greater Than (>)", [In("A", Integer), In("B", Integer)], [Out("Result", Boolean)], map[], "")
    case LessThanInteger =>
      NodeTemplate(k, "Less Than (<)", [In("A", Integer), In("B", Integer)], [Out("Result", Boolean)], map[], "")
    case EqualsInteger =>
      NodeTemplate(k, "Equals (==)", [In("A", Integer), In("B", Integer)], [Out("Result", Boolean)], map[], "")
    case Branch =>
      NodeTemplate(k, "Branch", [In("", Exec), In("Condition", Boolean)], [Out("True", Exec), Out("False", Exec)], map[], "")
    case StringLiteral =>
      NodeTemplate(k, "String Literal", [], [Out("Value", String)], map["value" := Str("")], "")
    case IntegerLiteral =>
      NodeTemplate(k, "Integer Literal", [], [Out("Value", Integer)], map["value" := Num(0)], "")
    case BooleanLiteral =>
      NodeTemplate(k, "Boolean Literal", [], [Out("Value", Boolean)], map["value" := Bool(false)], "")
  }

  /** The seventeen kinds, each listed once. */
  function AllKinds(): (r: seq<NodeType>)
    ensures |r| == 17
    ensures forall i, j :: 0 <= i < j < |r| ==> r[i] != r[j]
  {
    [BeginPlay, Branch, Sequence, SetVariable, GetVariable, ClearVariable,
     StringLiteral, IntegerLiteral, BooleanLiteral, PrintString,
     AddInteger, SubtractInteger, MultiplyInteger, DivideInteger,
     GreaterThanInteger, LessThanInteger, EqualsInteger]
  }

  /** Where a kind sits in `AllKinds`: every kind is listed. */
  function KindIndex(k: NodeType): (i: nat)
    ensures i < |AllKinds()| && AllKinds()[i] == k
  {
    match k
    case BeginPlay => 0
    case Branch => 1
    case Sequence => 2
    case SetVariable => 3
    case GetVariable => 4
    case ClearVariable => 5
    case StringLiteral => 6
    case IntegerLiteral => 7
    case BooleanLiteral => 8
    case PrintString => 9
    case AddInteger => 10
    case SubtractInteger => 11
    case MultiplyInteger => 12
    case DivideInteger => 13
    case GreaterThanInteger => 14
    case LessThanInteger => 15
    case EqualsInteger => 16
  }

  /** Begin Play has no inputs and one unlabeled exec output. */
  lemma BeginPlayShape()
    ensures Template(BeginPlay).inputs == []
    ensures Template(BeginPlay).outputs == [PinTemplate("", Exec, Output)]
  {
  }

  /** Branch takes an exec and a boolean `Condition` and leaves by `True` or `False`. */
  lemma BranchShape()
    ensures Template(Branch).inputs == [PinTemplate("", Exec, Input), PinTemplate("Condition", Boolean, Input)]
    ensures Template(Branch).outputs == [PinTemplate("True", Exec, Output), PinTemplate("False", Exec, Output)]
  {
  }

  /** Sequence takes an exec and leaves by `Then 0` and then `Then 1`. */
  lemma SequenceShape()
    ensures Template(Sequence).inputs == [PinTemplate("", Exec, Input)]
    ensures Template(Sequence).outputs == [PinTemplate("Then 0", Exec, Output), PinTemplate("Then 1", Exec, Output)]
  {
  }

  /** Integer arithmetic and comparisons read integer `A` and `B`; arithmetic yields an
      integer `Result`, comparisons a boolean one. Neither has exec pins. */
  lemma IntegerOperationShapes(k: NodeType)
    requires IsIntegerArithmetic(k) || IsIntegerComparison(k)
    ensures Template(k).inputs == [PinTemplate("A", Integer, Input), PinTemplate("B", Integer, Input)]
    ensures IsIntegerArithmetic(k) ==> Template(k).outputs == [PinTemplate("Result", Integer, Output)]
    ensures IsIntegerComparison(k) ==> Template(k).outputs == [PinTemplate("Result", Boolean, Output)]
  {
  }

  /** Literals have no inputs and one `Value` output, with default values '', 0 and false. */
  lemma LiteralDefaults(k: NodeType)
    requires IsLiteral(k)
    ensures Template(k).inputs == [] && |Template(k).outputs| == 1 && Template(k).outputs[0].labelText == "Value"
    ensures k == StringLiteral ==> Template(k).properties == map["value" := Str("")]
    ensures k == IntegerLiteral ==> Template(k).properties == map["value" := Num(0)]
    ensures k == BooleanLiteral ==> Template(k).properties == map["value" := Bool(false)]
  {
  }

  /** Variable nodes default to the name `myVar`; Print String defaults to `Hello World`. */
  lemma NamedDefaults(k: NodeType)
    ensures k in {SetVariable, GetVariable, ClearVariable} ==> Template(k).properties == map["name" := Str("myVar")]
    ensures k == PrintString ==> Template(k).properties == map["text" := Str("Hello World")]
  {
  }
}
