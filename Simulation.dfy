/** The blueprint interpreter `executeBlueprint`, as functions: the lookup tables it builds,
    the on-demand evaluation of data pins, one dispatch step per dequeued node, the bounded
    queue loop and the trailer. The imperative run in module Interpreter is proved equal to
    `Execute`; the lemmas below state what a run does. */
module Simulation {
  import opened Types
  import opened Decimal
  import opened Coercion
  import opened VariableStore
  import Templates

  const MaxExecutions: nat := 1000
  const MissingBeginPlayLine: string := "Error: \"Begin Play\" node not found."
  const LimitLine: string := "Error: Maximum execution limit reached. Possible infinite loop."
  const SeparatorLine: string := "---"
  const HeaderLine: string := "Final Variable States:"
  const NoVariablesLine: string := "  (No variables in memory)"

  /*** Lookup tables ***/

  /** `new Map(xs.map(x => [key(x), x]))`: every key is present and each key maps to an
      element with that key. */
  function LastByKey<T>(xs: seq<T>, key: T -> string): (m: map<string, T>)
    ensures forall i :: 0 <= i < |xs| ==> key(xs[i]) in m
    ensures forall k :: k in m ==> key(m[k]) == k && m[k] in xs
  {
    if xs == [] then map[]
    else
      var init := xs[..|xs| - 1];
      var last := xs[|xs| - 1];
      assert forall i :: 0 <= i < |init| ==> init[i] == xs[i];
      assert forall x <- init :: x in xs;
      LastByKey(init, key)[key(last) := last]
  }

  /** A later element overwrites an earlier one with the same key: an element no later element
      shares its key with is the one its key maps to. */
  lemma {:induction false} LastByKeyLastWins<T>(xs: seq<T>, key: T -> string, i: nat)
    requires i < |xs| && forall j :: i < j < |xs| ==> key(xs[j]) != key(xs[i])
    ensures LastByKey(xs, key)[key(xs[i])] == xs[i]
  {
    if i < |xs| - 1 {
      var init := xs[..|xs| - 1];
      assert init[i] == xs[i];
      assert forall j :: i < j < |init| ==> init[j] == xs[j];
      LastByKeyLastWins(init, key, i);
    }
  }

  /** `nodeMap`: node id to node, the last node listed with an id winning. */
  function NodeMap(nodes: seq<Node>): map<string, Node>
  {
    LastByKey(nodes, NodeId)
  }

  /** `wiresToPin`: destination pin id to wire, the last wire listed into a pin winning. */
  function WiresToPin(wires: seq<Wire>): map<string, Wire>
  {
    LastByKey(wires, ToPinId)
  }

  /** The wires leaving pin `pinId`, in the order of the wire list. */
  function WiresFrom(wires: seq<Wire>, pinId: string): (r: seq<Wire>)
    ensures forall w <- r :: w in wires && w.fromPinId == pinId
    ensures forall w <- wires :: w.fromPinId == pinId ==> w in r
  {
    if wires == [] then []
    else
      var last := wires[|wires| - 1];
      assert wires == wires[..|wires| - 1] + [last];
      WiresFrom(wires[..|wires| - 1], pinId) + (if last.fromPinId == pinId then [last] else [])
  }

  function FromPinIds(wires: seq<Wire>): set<string>
  {
    set w | w in wires :: w.fromPinId
  }

  /** `wiresFromPin`: every pin that some wire leaves, with the wires that leave it in order. */
  function WiresFromPin(wires: seq<Wire>): map<string, seq<Wire>>
  {
    map p | p in FromPinIds(wires) :: WiresFrom(wires, p)
  }

  datatype Tables = Tables(nodeMap: map<string, Node>, wiresToPin: map<string, Wire>, wiresFromPin: map<string, seq<Wire>>)

  function BuildTables(nodes: seq<Node>, wires: seq<Wire>): Tables
  {
    Tables(NodeMap(nodes), WiresToPin(wires), WiresFromPin(wires))
  }

  /*** Pin selection ***/

  datatype PinQuery =
    | ById(id: string)
    | ByType(dataType: DataType)
    | ByLabel(labelText: string)
    | ByLabelAndType(labelText: string, dataType: DataType)

  predicate Matches(p: Pin, q: PinQuery)
  {
    match q
    case ById(id) => p.id == id
    case ByType(d) => p.dataType == d
    case ByLabel(l) => p.labelText == l
    case ByLabelAndType(l, d) => p.labelText == l && p.dataType == d
  }

  /** The index of the first pin matching `q`, or `|pins|` if none does. */
  function FirstMatch(pins: seq<Pin>, q: PinQuery): (i: nat)
    ensures i <= |pins|
    ensures i < |pins| ==> Matches(pins[i], q)
    ensures forall j :: 0 <= j < i ==> !Matches(pins[j], q)
  {
    if pins == [] then 0
    else if Matches(pins[0], q) then 0
    else 1 + FirstMatch(pins[1..], q)
  }

  /** `pins.find(...)`. */
  function FindPin(pins: seq<Pin>, q: PinQuery): Option<Pin>
  {
    var i := FirstMatch(pins, q);
    if i < |pins| then Some(pins[i]) else None
  }

  predicate IsExecWith(p: Pin, labelText: Option<string>)
  {
    p.dataType == Exec && (labelText.None? || p.labelText == labelText.value)
  }

  /** The exec pins among `pins`, in order; only those with the given label when one is given. */
  function ExecPins(pins: seq<Pin>, labelText: Option<string>): (r: seq<Pin>)
    ensures forall p :: p in r <==> p in pins && IsExecWith(p, labelText)
  {
    if pins == [] then []
    else (if IsExecWith(pins[0], labelText) then [pins[0]] else []) + ExecPins(pins[1..], labelText)
  }

  /** One pin is kept exactly when it is an exec pin with the wanted label. */
  lemma ExecPinsOfOne(p: Pin, labelText: Option<string>)
    ensures ExecPins([p], labelText) == if IsExecWith(p, labelText) then [p] else []
  {
    assert [p][1..] == [];
  }

  /** The exec pins keep the declared order and any repeats: `ExecPins` commutes with
      concatenation. */
  lemma {:induction false} ExecPinsAppend(a: seq<Pin>, b: seq<Pin>, labelText: Option<string>)
    ensures ExecPins(a + b, labelText) == ExecPins(a, labelText) + ExecPins(b, labelText)
  {
    if a == [] {
      assert a + b == b;
    } else {
      var head := if IsExecWith(a[0], labelText) then [a[0]] else [];
      assert (a + b)[0] == a[0] && (a + b)[1..] == a[1..] + b;
      ExecPinsAppend(a[1..], b, labelText);
      ConcatAssoc(head, ExecPins(a[1..], labelText), ExecPins(b, labelText));
    }
  }

  /*** Successors ***/

  /** The destination nodes of `ws` in order, skipping wires whose destination node is missing. */
  function Targets(nodeMap: map<string, Node>, ws: seq<Wire>): (r: seq<Node>)
    ensures forall n <- r :: exists w <- ws :: w.toNodeId in nodeMap && nodeMap[w.toNodeId] == n
    ensures |r| <= |ws|
    ensures |r| == |ws| <==> forall w <- ws :: w.toNodeId in nodeMap
  {
    if ws == [] then []
    else
      var last := ws[|ws| - 1];
      var init := ws[..|ws| - 1];
      assert ws == init + [last];
      Targets(nodeMap, init) + (if last.toNodeId in nodeMap then [nodeMap[last.toNodeId]] else [])
  }

  /** One wire leads to its destination node, or to nothing when that node is missing. */
  lemma TargetsOfOne(nodeMap: map<string, Node>, w: Wire)
    ensures Targets(nodeMap, [w]) == if w.toNodeId in nodeMap then [nodeMap[w.toNodeId]] else []
  {
    assert [w][..0] == [];
  }

  /** The destinations keep the wires' order: `Targets` commutes with concatenation. */
  lemma {:induction false} TargetsAppend(nodeMap: map<string, Node>, a: seq<Wire>, b: seq<Wire>)
    ensures Targets(nodeMap, a + b) == Targets(nodeMap, a) + Targets(nodeMap, b)
    decreases |b|
  {
    if b == [] {
      assert a + b == a;
    } else {
      var last := b[|b| - 1];
      var init := b[..|b| - 1];
      assert (a + b)[..|a + b| - 1] == a + init && (a + b)[|a + b| - 1] == last;
      TargetsAppend(nodeMap, a, init);
      ConcatAssoc(Targets(nodeMap, a), Targets(nodeMap, init),
                  if last.toNodeId in nodeMap then [nodeMap[last.toNodeId]] else []);
    }
  }

  /** `findNextExecNodes(pinId)`. */
  function NextExecNodes(t: Tables, pinId: string): (r: seq<Node>)
    ensures pinId !in t.wiresFromPin ==> r == []
    ensures pinId in t.wiresFromPin ==> forall n <- r :: exists w <- t.wiresFromPin[pinId] :: w.toNodeId in t.nodeMap && t.nodeMap[w.toNodeId] == n
  {
    if pinId in t.wiresFromPin then Targets(t.nodeMap, t.wiresFromPin[pinId]) else []
  }

  /** The successors through each pin of `pins` in turn (`flatMap`). */
  function Successors(t: Tables, pins: seq<Pin>): (r: seq<Node>)
    ensures forall n <- r :: exists p <- pins :: n in NextExecNodes(t, p.id)
  {
    if pins == [] then []
    else Successors(t, pins[..|pins| - 1]) + NextExecNodes(t, pins[|pins| - 1].id)
  }

  /** The successors keep the pins' order: `Successors` commutes with concatenation. */
  lemma {:induction false} SuccessorsAppend(t: Tables, a: seq<Pin>, b: seq<Pin>)
    ensures Successors(t, a + b) == Successors(t, a) + Successors(t, b)
    decreases |b|
  {
    if b == [] {
      assert a + b == a;
    } else {
      var last := b[|b| - 1];
      var init := b[..|b| - 1];
      assert (a + b)[..|a + b| - 1] == a + init && (a + b)[|a + b| - 1] == last;
      SuccessorsAppend(t, a, init);
      ConcatAssoc(Successors(t, a), Successors(t, init), NextExecNodes(t, last.id));
    }
  }

  /** `getNextNodesFromSingleExecOutput`: successors through the unlabeled exec outputs. */
  function SingleExecSuccessors(t: Tables, node: Node): (r: seq<Node>)
    ensures forall n <- r :: exists p <- node.outputs ::
      p.dataType == Exec && p.labelText == "" && n in NextExecNodes(t, p.id)
  {
    Successors(t, ExecPins(node.outputs, Some("")))
  }

  /*** Evaluation of data pins ***/

  datatype Evaluation = Evaluated(value: Value, warnings: seq<string>) | Overflow

  predicate IsIntegerOperation(k: NodeType)
  {
    Templates.IsIntegerArithmetic(k) || Templates.IsIntegerComparison(k)
  }

  function NumericWarning(title: string, rawA: Value, rawB: Value): string
  {
    "Warning: " + title + " expected numeric inputs but received " + ToJsString(rawA) + " and " + ToJsString(rawB) + "."
  }

  function DivideByZeroWarning(title: string): string
  {
    "Warning: " + title + " attempted to divide by zero. Returning 0."
  }

  /** `Math.trunc(a / b)`: the quotient rounded toward zero, so that the remainder is smaller
      than the divisor in magnitude and has the sign of the dividend. */
  function TruncDiv(a: int, b: int): (q: int)
    requires b != 0
    ensures Abs(a - q * b) < Abs(b)
    ensures a - q * b == 0 || (a - q * b < 0 <==> a < 0)
  {
    var q0 := Abs(a) / Abs(b);
    TruncDivCases(a, b, q0);
    if (a < 0) == (b < 0) then q0 else -q0
  }

  lemma TruncDivCases(a: int, b: int, q0: int)
    requires b != 0 && q0 == Abs(a) / Abs(b)
    ensures var q := if (a < 0) == (b < 0) then q0 else -q0;
            var r := Abs(a) % Abs(b);
            a - q * b == (if a < 0 then -r else r)
  {
    var bigA: int, bigB: int := Abs(a), Abs(b);
    var r := bigA % bigB;
    var m := q0 * bigB;
    assert bigA == m + r;
    var q := if (a < 0) == (b < 0) then q0 else -q0;
    assert q * b == (if a < 0 then -m else m) by {
      if b < 0 {
        assert b == -bigB;
        if a < 0 { MulNegRight(q0, bigB); } else { MulNegBoth(q0, bigB); }
      } else {
        assert b == bigB;
        if a < 0 { MulNegLeft(q0, bigB); }
      }
    }
  }

  lemma MulNegRight(x: int, y: int)
    ensures x * -y == -(x * y)
  {
  }

  lemma MulNegLeft(x: int, y: int)
    ensures -x * y == -(x * y)
  {
  }

  lemma MulNegBoth(x: int, y: int)
    ensures -x * -y == x * y
  {
  }

  /** The value rules of the integer arithmetic and comparison kinds: a comparison on an
      input that is not a number is false and arithmetic on one is 0, with one warning
      naming both raw inputs. */
  function IntegerOp(kind: NodeType, title: string, rawA: Value, rawB: Value): (r: (Value, seq<string>))
    requires IsIntegerOperation(kind)
    ensures Templates.IsIntegerComparison(kind) <==> r.0.Bool?
    ensures !Templates.IsIntegerComparison(kind) ==> r.0.Num?
    ensures |r.1| <= 1
  {
    var a := ParseNumericInput(rawA);
    var b := ParseNumericInput(rawB);
    if a.None? || b.None? then
      (if Templates.IsIntegerComparison(kind) then Bool(false) else Num(0), [NumericWarning(title, rawA, rawB)])
    else
      ApplyOperation(kind, title, a.value, b.value)
  }

  /** The operation on two numbers. Only division by zero warns; it yields 0. */
  function ApplyOperation(kind: NodeType, title: string, x: int, y: int): (r: (Value, seq<string>))
    requires IsIntegerOperation(kind)
    ensures r.1 == [] || (kind == DivideInteger && y == 0 && r == (Num(0), [DivideByZeroWarning(title)]))
    ensures Templates.IsIntegerComparison(kind) <==> r.0.Bool?
    ensures !Templates.IsIntegerComparison(kind) ==> r.0.Num?
  {
    match kind
    case AddInteger => (Num(x + y), [])
    case SubtractInteger => (Num(x - y), [])
    case MultiplyInteger => (Num(x * y), [])
    case DivideInteger =>
      if y == 0 then (Num(0), [DivideByZeroWarning(title)]) else (Num(TruncDiv(x, y)), [])
    case GreaterThanInteger => (Bool(x > y), [])
    case LessThanInteger => (Bool(x < y), [])
    case EqualsInteger => (Bool(x == y), [])
    case _ => (Num(0), [])
  }

  /** `evaluatePinValue(nodeId, pinId)` with the warnings it pushes. Each level that follows a
      wire spends one unit of `fuel`; running out stands for the call stack overflowing. An
      unwired pin reads the `text` property of a Print String node and is undefined elsewhere. */
  function EvalPin(t: Tables, vars: Store, nodeId: string, pinId: string, fuel: nat): (r: Evaluation)
    ensures r.Overflow? ==> fuel == 0 || pinId in t.wiresToPin
    decreases fuel, 0
  {
    if fuel == 0 then Overflow
    else if pinId in t.wiresToPin then EvalWire(t, vars, t.wiresToPin[pinId], fuel - 1)
    else if nodeId in t.nodeMap && t.nodeMap[nodeId].kind == PrintString then
      Evaluated(Prop(t.nodeMap[nodeId].properties, "text"), [])
    else
      Evaluated(Undefined, [])
  }

  /** The value a wire carries out of its source node: a variable, an integer operation on its
      own inputs, a literal's `value`, or the evaluation of the source pin itself. */
  function EvalWire(t: Tables, vars: Store, wire: Wire, fuel: nat): (r: Evaluation)
    ensures r.Evaluated? && wire.fromNodeId in t.nodeMap && IsIntegerOperation(t.nodeMap[wire.fromNodeId].kind) ==>
      (Templates.IsIntegerComparison(t.nodeMap[wire.fromNodeId].kind) <==> r.value.Bool?)
    decreases fuel, 3
  {
    if wire.fromNodeId !in t.nodeMap then Evaluated(Undefined, [])
    else
      var from := t.nodeMap[wire.fromNodeId];
      if from.kind == GetVariable then
        Evaluated(Get(vars, ToJsString(Prop(from.properties, "name"))), [])
      else if IsIntegerOperation(from.kind) then
        EvalOperation(t, vars, from, fuel)
      else if Templates.IsLiteral(from.kind) then
        Evaluated(Prop(from.properties, "value"), [])
      else if FindPin(from.outputs, ById(wire.fromPinId)).Some? then
        EvalPin(t, vars, from.id, wire.fromPinId, fuel)
      else
        Evaluated(Undefined, [])
  }

  /** The integer operation `from` applied to its `A` and `B` inputs, with their warnings first. */
  function EvalOperation(t: Tables, vars: Store, from: Node, fuel: nat): (r: Evaluation)
    requires IsIntegerOperation(from.kind)
    ensures r.Evaluated? ==> (Templates.IsIntegerComparison(from.kind) <==> r.value.Bool?)
    ensures r.Evaluated? && !Templates.IsIntegerComparison(from.kind) ==> r.value.Num?
    decreases fuel, 2
  {
    var a := EvalOperand(t, vars, from, "A", fuel);
    if a.Overflow? then Overflow
    else
      var b := EvalOperand(t, vars, from, "B", fuel);
      if b.Overflow? then Overflow
      else
        var (v, w) := IntegerOp(from.kind, from.title, a.value, b.value);
        Evaluated(v, a.warnings + b.warnings + w)
  }

  /** The integer input of `from` with the given label; undefined when there is none. */
  function EvalOperand(t: Tables, vars: Store, from: Node, labelText: string, fuel: nat): (r: Evaluation)
    ensures r.Overflow? ==> var pin := FindPin(from.inputs, ByLabelAndType(labelText, Integer));
      pin.Some? && (fuel == 0 || pin.value.id in t.wiresToPin)
    decreases fuel, 1
  {
    var pin := FindPin(from.inputs, ByLabelAndType(labelText, Integer));
    if pin.None? then Evaluated(Undefined, []) else EvalPin(t, vars, from.id, pin.value.id, fuel)
  }

  /** The evaluation depth a run allows: one more than the number of wired input pins. */
  function EvalFuel(t: Tables): nat
  {
    |t.wiresToPin| + 1
  }

  /*** One step of the queue loop ***/

  datatype StepResult = Stepped(vars: Store, lines: seq<string>, next: seq<Node>) | StepOverflow

  /** The dispatch on a dequeued node: the new variables, the lines it pushes and the nodes it
      enqueues. */
  function Step(t: Tables, vars: Store, node: Node): (r: StepResult)
    requires Valid(vars)
    ensures r.Stepped? ==> Valid(r.vars)
  {
    var fuel := EvalFuel(t);
    match node.kind
    case Sequence =>
      Stepped(vars, [], Successors(t, ExecPins(node.outputs, None)))
    case PrintString =>
      var textPin := FindPin(node.inputs, ByType(String));
      if textPin.None? then Stepped(vars, [], SingleExecSuccessors(t, node))
      else
        var e := EvalPin(t, vars, node.id, textPin.value.id, fuel);
        if e.Overflow? then StepOverflow
        else Stepped(vars, e.warnings + [PrintText(e.value)], SingleExecSuccessors(t, node))
    case SetVariable =>
      var valuePin := FindPin(node.inputs, ByLabel("Value"));
      if valuePin.None? then Stepped(vars, [], SingleExecSuccessors(t, node))
      else
        var e := EvalPin(t, vars, node.id, valuePin.value.id, fuel);
        if e.Overflow? then StepOverflow
        else Stepped(Set(vars, ToJsString(Prop(node.properties, "name")), e.value), e.warnings, SingleExecSuccessors(t, node))
    case ClearVariable =>
      var name := Prop(node.properties, "name");
      Stepped(if Truthy(name) then Remove(vars, ToJsString(name)) else vars, [], SingleExecSuccessors(t, node))
    case Branch =>
      var conditionPin := FindPin(node.inputs, ByType(Boolean));
      var e := if conditionPin.None? then Evaluated(Bool(false), [])
               else EvalPin(t, vars, node.id, conditionPin.value.id, fuel);
      if e.Overflow? then StepOverflow
      else
        var outLabel := if Truthy(e.value) then "True" else "False";
        Stepped(vars, e.warnings, Successors(t, ExecPins(node.outputs, Some(outLabel))))
    case _ =>
      Stepped(vars, [], SingleExecSuccessors(t, node))
  }

  /*** The queue loop and the run ***/

  datatype Halt = Halted(queue: seq<Node>, vars: Store, output: seq<string>, count: nat) | Crashed

  /** The `while` loop from a given state: it stops when the queue is empty or after the
      1000th dequeue, whichever comes first, and its output only grows. */
  function Loop(t: Tables, queue: seq<Node>, vars: Store, output: seq<string>, count: nat): (h: Halt)
    requires Valid(vars) && count <= MaxExecutions
    ensures h.Halted? ==> Valid(h.vars) && count <= h.count <= MaxExecutions
    ensures h.Halted? ==> output <= h.output
    ensures h.Halted? && h.count < MaxExecutions ==> h.queue == []
    decreases MaxExecutions - count
  {
    if |queue| > 0 && count < MaxExecutions then
      match Step(t, vars, queue[0])
      case StepOverflow => Crashed
      case Stepped(vars', lines, next) => Loop(t, queue[1..] + next, vars', output + lines, count + 1)
    else
      Halted(queue, vars, output, count)
  }

  /** The index of the first Begin Play node (`nodes.find`), or `|nodes|`. */
  function FirstBeginPlay(nodes: seq<Node>): (i: nat)
    ensures i <= |nodes|
    ensures i < |nodes| ==> nodes[i].kind == BeginPlay
    ensures forall j :: 0 <= j < i ==> nodes[j].kind != BeginPlay
  {
    if nodes == [] then 0
    else if nodes[0].kind == BeginPlay then 0
    else 1 + FirstBeginPlay(nodes[1..])
  }

  function DumpLine(name: string, v: Value): string
  {
    "  " + name + ": " + JsonText(v)
  }

  /** One `  name: <JSON>` line per name, in the order given. */
  function DumpLines(vars: Store, names: seq<string>): (r: seq<string>)
    ensures |r| == |names|
  {
    if names == [] then []
    else
      var last := names[|names| - 1];
      DumpLines(vars, names[..|names| - 1]) + [DumpLine(last, Get(vars, last))]
  }

  /** The variable lines, or the one line saying there are none. */
  function VariableDump(vars: Store): (r: seq<string>)
    ensures |r| > 0
  {
    var names := Keys(vars);
    if |names| > 0 then DumpLines(vars, names) else [NoVariablesLine]
  }

  /** What is pushed after the loop: the limit line when 1000 nodes were dequeued, then the
      separator, the header and the variable dump. */
  function Trailer(vars: Store, count: nat): (r: seq<string>)
    ensures |r| >= |VariableDump(vars)| + 2 && r[|r| - |VariableDump(vars)|..] == VariableDump(vars)
  {
    (if count >= MaxExecutions then [LimitLine] else []) + [SeparatorLine, HeaderLine] + VariableDump(vars)
  }

  datatype Run = Lines(lines: seq<string>) | StackOverflow

  /** What the run answers once the loop has stopped: the output followed by the trailer, or
      the stack overflow that ended it. */
  function Finish(h: Halt): Run
  {
    match h
    case Crashed => StackOverflow
    case Halted(_, vars, output, count) => Lines(output + Trailer(vars, count))
  }

  /** `executeBlueprint(nodes, wires)`. */
  function Execute(nodes: seq<Node>, wires: seq<Wire>): (r: Run)
    ensures FirstBeginPlay(nodes) < |nodes| && r.Lines? ==> SeparatorLine in r.lines && HeaderLine in r.lines
  {
    var i := FirstBeginPlay(nodes);
    if i == |nodes| then Lines([MissingBeginPlayLine])
    else Finish(Loop(BuildTables(nodes, wires), [nodes[i]], Empty(), [], 0))
  }
}
