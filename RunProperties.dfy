/** What a run of the interpreter does, stated about the specification in module Simulation:
    the missing-start error, the trailer, the 1000-step cut-off, the dispatch of each kind,
    variables, the integer operations and the on-demand evaluation of data pins. */
module RunProperties {
  import opened Types
  import opened Decimal
  import opened Coercion
  import opened VariableStore
  import opened Simulation
  import Templates
  import Editor

  /*** The start node and the trailer ***/

  /** The trailer holds the separator and the header, after the limit line if there is one,
      and then at least one dump line. */
  lemma TrailerHasThreeLines(vars: Store, count: nat)
    ensures var k := if count >= MaxExecutions then 1 else 0;
            var r := Trailer(vars, count);
            |r| >= k + 3 && r[k] == SeparatorLine && r[k + 1] == HeaderLine
  {
  }

  /** A run that starts and does not overflow ends with the trailer of the state its loop
      halted in: a well-formed store and a count of at most 1000 dequeues. */
  lemma RunEndsWithTrailer(nodes: seq<Node>, wires: seq<Wire>)
    ensures var r := Execute(nodes, wires);
            FirstBeginPlay(nodes) < |nodes| && r.Lines? ==>
              exists vars: Store, count: nat :: Valid(vars) && count <= MaxExecutions &&
                |Trailer(vars, count)| <= |r.lines| &&
                r.lines[|r.lines| - |Trailer(vars, count)|..] == Trailer(vars, count)
  {
    var i := FirstBeginPlay(nodes);
    if i < |nodes| {
      var h := Loop(BuildTables(nodes, wires), [nodes[i]], Empty(), [], 0);
      if h.Halted? {
        var lines := h.output + Trailer(h.vars, h.count);
        assert lines[|lines| - |Trailer(h.vars, h.count)|..] == Trailer(h.vars, h.count);
      }
    }
  }

  /** A run answers with the single error line exactly when the blueprint has no Begin Play node. */
  lemma MissingBeginPlayIff(nodes: seq<Node>, wires: seq<Wire>)
    ensures Execute(nodes, wires) == Lines([MissingBeginPlayLine]) <==> forall n <- nodes :: n.kind != BeginPlay
  {
    var i := FirstBeginPlay(nodes);
    if i < |nodes| {
      assert nodes[i] in nodes;
      var h := Loop(BuildTables(nodes, wires), [nodes[i]], Empty(), [], 0);
      if h.Halted? {
        TrailerHasThreeLines(h.vars, h.count);
      }
    }
  }

  lemma {:induction false} DumpLinesAt(vars: Store, names: seq<string>, i: nat)
    requires i < |names|
    ensures DumpLines(vars, names)[i] == DumpLine(names[i], Get(vars, names[i]))
  {
    var init := names[..|names| - 1];
    if i < |names| - 1 {
      DumpLinesAt(vars, init, i);
    }
  }

  /** The dump holds one line per variable, showing its name and its JSON value, and the
      placeholder line when there are none. */
  lemma VariableDumpListsEachVariable(vars: Store)
    requires Valid(vars)
    ensures vars.values == map[] ==> VariableDump(vars) == [NoVariablesLine]
    ensures vars.values != map[] ==> |VariableDump(vars)| == |vars.values|
    ensures forall name :: name in vars.values ==>
              exists i :: 0 <= i < |VariableDump(vars)| && VariableDump(vars)[i] == DumpLine(name, vars.values[name])
  {
    KeysListEachVariableOnce(vars);
    var names := Keys(vars);
    if vars.values != map[] {
      assert |names| > 0;
      DumpCoversNames(vars, names);
    }
  }

  lemma DumpCoversNames(vars: Store, names: seq<string>)
    requires |names| > 0 && names == Keys(vars)
    requires forall k :: k in names <==> k in vars.values
    ensures forall name :: name in vars.values ==>
              exists i :: 0 <= i < |VariableDump(vars)| && VariableDump(vars)[i] == DumpLine(name, vars.values[name])
  {
    var dump := DumpLines(vars, names);
    assert VariableDump(vars) == dump;
    forall name | name in vars.values
      ensures exists i :: 0 <= i < |dump| && dump[i] == DumpLine(name, vars.values[name])
    {
      var i :| 0 <= i < |names| && names[i] == name;
      DumpLinesAt(vars, names, i);
      assert dump[i] == DumpLine(name, vars.values[name]);
    }
  }

  lemma EmptyDump()
    ensures VariableDump(Empty()) == [NoVariablesLine]
  {
    assert Keys(Empty()) == [];
  }

  /** The trailer opens with the limit line exactly when 1000 nodes were dequeued, and
      otherwise with the separator. */
  lemma LimitLineIffLimitReached(vars: Store, count: nat)
    ensures Trailer(vars, count)[0] == LimitLine <==> count >= MaxExecutions
    ensures count < MaxExecutions ==> Trailer(vars, count)[0] == SeparatorLine
  {
    assert |LimitLine| != |SeparatorLine|;
  }

  /*** The queue loop ***/

  /** Every node of `nodes` steps without printing or writing anything, to exactly one node
      of `nodes`. */
  ghost predicate Idles(t: Tables, vars: Store, nodes: set<Node>)
  {
    Valid(vars) &&
    forall m :: m in nodes ==>
      var r := Step(t, vars, m);
      r.Stepped? && r.vars == vars && r.lines == [] && |r.next| == 1 && r.next[0] in nodes
  }

  /** An exec cycle that does nothing is cut off by the limit: the loop stops at the 1000th
      dequeue with one node still queued and nothing printed. */
  lemma {:induction false} IdleCycleRunsToLimit(t: Tables, vars: Store, nodes: set<Node>, n: Node, output: seq<string>, count: nat)
    requires Idles(t, vars, nodes) && n in nodes && count <= MaxExecutions
    ensures var h := Loop(t, [n], vars, output, count);
            h.Halted? && h.count == MaxExecutions && h.vars == vars && h.output == output
            && |h.queue| == 1 && h.queue[0] in nodes
    decreases MaxExecutions - count
  {
    if count < MaxExecutions {
      var r := Step(t, vars, n);
      assert [n][1..] + r.next == [r.next[0]];
      assert output + r.lines == output;
      IdleCycleRunsToLimit(t, vars, nodes, r.next[0], output, count + 1);
    }
  }

  /** A blueprint whose Begin Play leads into a cycle of nodes that do nothing prints only the
      limit line and the empty dump. */
  lemma IdleBlueprintReportsLimit(nodes: seq<Node>, wires: seq<Wire>, idle: set<Node>)
    requires FirstBeginPlay(nodes) < |nodes|
    requires Idles(BuildTables(nodes, wires), Empty(), idle) && nodes[FirstBeginPlay(nodes)] in idle
    ensures Execute(nodes, wires) == Lines([LimitLine] + [SeparatorLine, HeaderLine] + [NoVariablesLine])
  {
    IdleRunReportsLimit(BuildTables(nodes, wires), idle, nodes[FirstBeginPlay(nodes)]);
  }

  lemma IdleRunReportsLimit(t: Tables, idle: set<Node>, start: Node)
    requires Idles(t, Empty(), idle) && start in idle
    ensures Finish(Loop(t, [start], Empty(), [], 0)) == Lines([LimitLine] + [SeparatorLine, HeaderLine] + [NoVariablesLine])
  {
    IdleCycleRunsToLimit(t, Empty(), idle, start, [], 0);
    EmptyDump();
    assert [] + Trailer(Empty(), MaxExecutions) == Trailer(Empty(), MaxExecutions);
  }

  /** The limit line is printed whenever the 1000th node is dequeued, even when that node
      was the last one and the queue ends up empty. */
  lemma LimitReportedWhenLastNodeIsThe1000th(t: Tables, vars: Store, output: seq<string>, n: Node)
    requires Valid(vars) && Step(t, vars, n).Stepped? && Step(t, vars, n).next == []
    ensures var h := Loop(t, [n], vars, output, MaxExecutions - 1);
            h.Halted? && h.queue == [] && h.count == MaxExecutions && Trailer(h.vars, h.count)[0] == LimitLine
  {
    var r := Step(t, vars, n);
    assert [n][1..] + r.next == [];
    assert Loop(t, [n], vars, output, MaxExecutions - 1) == Loop(t, [], r.vars, output + r.lines, MaxExecutions);
    var h := Loop(t, [n], vars, output, MaxExecutions - 1);
    assert h == Halted([], r.vars, output + r.lines, MaxExecutions);
    LimitLineIffLimitReached(h.vars, h.count);
  }

  /*** Dispatch ***/

  lemma SuccessorsOfTwo(t: Tables, p: Pin, q: Pin)
    ensures Successors(t, [p, q]) == NextExecNodes(t, p.id) + NextExecNodes(t, q.id)
  {
    assert [p, q][..1] == [p];
    assert [p][..0] == [];
    assert Successors(t, [p]) == Successors(t, []) + NextExecNodes(t, p.id);
    assert Successors(t, [p]) == NextExecNodes(t, p.id);
  }

  /** Sequence fires `Then 0` and then `Then 1`: the successors of the first are enqueued
      before those of the second, and nothing else happens. */
  lemma SequenceFiresInOrder(t: Tables, vars: Store, node: Node, p0: Pin, p1: Pin)
    requires Valid(vars) && node.kind == Sequence
    requires node.outputs == [p0, p1] && p0.dataType == Exec && p1.dataType == Exec
    ensures Step(t, vars, node) == Stepped(vars, [], NextExecNodes(t, p0.id) + NextExecNodes(t, p1.id))
  {
    assert [p0, p1][1..] == [p1];
    assert ExecPins([p1], None) == [p1];
    assert ExecPins(node.outputs, None) == [p0, p1];
    SuccessorsOfTwo(t, p0, p1);
  }

  /** Branch leaves by `True` when its condition is truthy and by `False` otherwise, with the
      condition's warnings; variables never change. */
  lemma BranchFollowsCondition(t: Tables, vars: Store, node: Node, pTrue: Pin, pFalse: Pin)
    requires Valid(vars) && node.kind == Branch
    requires node.outputs == [pTrue, pFalse]
    requires pTrue.dataType == Exec && pTrue.labelText == "True"
    requires pFalse.dataType == Exec && pFalse.labelText == "False"
    requires FindPin(node.inputs, ByType(Boolean)).Some?
    ensures var e := EvalPin(t, vars, node.id, FindPin(node.inputs, ByType(Boolean)).value.id, EvalFuel(t));
            match e
            case Overflow => Step(t, vars, node) == StepOverflow
            case Evaluated(v, w) =>
              Step(t, vars, node) == Stepped(vars, w, NextExecNodes(t, if Truthy(v) then pTrue.id else pFalse.id))
  {
    BranchExits(t, pTrue, pFalse);
  }

  /** Without a condition pin, or with an unwired one, Branch leaves by `False`. */
  lemma BranchWithoutConditionIsFalse(t: Tables, vars: Store, node: Node, pTrue: Pin, pFalse: Pin)
    requires Valid(vars) && node.kind == Branch
    requires node.id in t.nodeMap && t.nodeMap[node.id] == node
    requires node.outputs == [pTrue, pFalse]
    requires pTrue.dataType == Exec && pTrue.labelText == "True"
    requires pFalse.dataType == Exec && pFalse.labelText == "False"
    requires var c := FindPin(node.inputs, ByType(Boolean)); c.None? || c.value.id !in t.wiresToPin
    ensures Step(t, vars, node) == Stepped(vars, [], NextExecNodes(t, pFalse.id))
  {
    BranchExits(t, pTrue, pFalse);
    var c := FindPin(node.inputs, ByType(Boolean));
    if c.Some? {
      UnwiredPinIsUndefined(t, vars, node, c.value.id, EvalFuel(t));
    }
    var e := if c.None? then Evaluated(Bool(false), []) else Evaluated(Undefined, []);
    assert !Truthy(e.value);
    assert Step(t, vars, node) == Stepped(vars, e.warnings, Successors(t, ExecPins(node.outputs, Some("False"))));
  }

  /** An unwired input of any node but Print String reads undefined, without a warning. */
  lemma UnwiredPinIsUndefined(t: Tables, vars: Store, node: Node, pinId: string, fuel: nat)
    requires node.kind != PrintString && node.id in t.nodeMap && t.nodeMap[node.id] == node
    requires pinId !in t.wiresToPin && fuel > 0
    ensures EvalPin(t, vars, node.id, pinId, fuel) == Evaluated(Undefined, [])
  {
  }

  /** The `True` and `False` exits each lead to the successors of that one pin. */
  lemma BranchExits(t: Tables, pTrue: Pin, pFalse: Pin)
    requires pTrue.dataType == Exec && pTrue.labelText == "True"
    requires pFalse.dataType == Exec && pFalse.labelText == "False"
    ensures Successors(t, ExecPins([pTrue, pFalse], Some("True"))) == NextExecNodes(t, pTrue.id)
    ensures Successors(t, ExecPins([pTrue, pFalse], Some("False"))) == NextExecNodes(t, pFalse.id)
  {
    assert |"True"| != |"False"|;
    assert [pTrue, pFalse][1..] == [pFalse];
    assert ExecPins([pFalse], Some("True")) == [];
    assert ExecPins([pFalse], Some("False")) == [pFalse];
    assert ExecPins([pTrue, pFalse], Some("True")) == [pTrue];
    assert ExecPins([pTrue, pFalse], Some("False")) == [pFalse];
    assert Successors(t, [pTrue]) == NextExecNodes(t, pTrue.id);
    assert Successors(t, [pFalse]) == NextExecNodes(t, pFalse.id);
  }

  /** An unwired text pin prints the node's own `text` property (empty when it has none),
      provided the node can be found by its id. */
  lemma UnwiredPrintUsesTextProperty(t: Tables, vars: Store, node: Node)
    requires Valid(vars) && node.kind == PrintString
    requires node.id in t.nodeMap && t.nodeMap[node.id] == node
    requires FindPin(node.inputs, ByType(String)).Some?
    requires FindPin(node.inputs, ByType(String)).value.id !in t.wiresToPin
    ensures Step(t, vars, node) == Stepped(vars, [PrintText(Prop(node.properties, "text"))], SingleExecSuccessors(t, node))
  {
  }

  /** After Set Variable, a Get Variable node whose name reads the same as text yields the
      value that was stored, and every other variable is as it was; except that a variable
      named `__proto__` is never stored, and reading it gives `Object.prototype`. */
  lemma SetVariableThenGetVariable(t: Tables, vars: Store, setter: Node, nodeId: string, pinId: string, fuel: nat)
    requires Valid(vars) && setter.kind == SetVariable
    requires FindPin(setter.inputs, ByLabel("Value")).Some?
    requires EvalPin(t, vars, setter.id, FindPin(setter.inputs, ByLabel("Value")).value.id, EvalFuel(t)).Evaluated?
    requires fuel > 0 && pinId in t.wiresToPin && t.wiresToPin[pinId].fromNodeId in t.nodeMap
    requires t.nodeMap[t.wiresToPin[pinId].fromNodeId].kind == GetVariable
    requires ToJsString(Prop(t.nodeMap[t.wiresToPin[pinId].fromNodeId].properties, "name"))
             == ToJsString(Prop(setter.properties, "name"))
    ensures var stored := EvalPin(t, vars, setter.id, FindPin(setter.inputs, ByLabel("Value")).value.id, EvalFuel(t)).value;
            var r := Step(t, vars, setter);
            var name := ToJsString(Prop(setter.properties, "name"));
            r.Stepped? && EvalPin(t, r.vars, nodeId, pinId, fuel) == Evaluated(if name == ProtoKey then EmptyObject else stored, [])
            && forall k :: k != ToJsString(Prop(setter.properties, "name")) ==> Get(r.vars, k) == Get(vars, k)
  {
  }

  /** A Set Variable named `__proto__` stores nothing, whatever its value: the store, and so
      the final dump, stay as they were. */
  lemma SetProtoStoresNothing(t: Tables, vars: Store, setter: Node)
    requires Valid(vars) && setter.kind == SetVariable
    requires ToJsString(Prop(setter.properties, "name")) == ProtoKey
    ensures Step(t, vars, setter).Stepped? ==> Step(t, vars, setter).vars == vars
  {
  }

  /** A name that is not a variable but that every object inherits reads a built-in: a Get
      Variable named `constructor` prints the source text of `Object`, and it is no number;
      one named `toString` prints that of `toString`. An ordinary name that was never set,
      such as `myVar`, reads undefined. */
  lemma InheritedNameReadsBuiltin(vars: Store)
    requires Valid(vars) && "constructor" !in vars.values && "toString" !in vars.values && "myVar" !in vars.values
    ensures PrintText(Get(vars, "constructor")) == "function " + "Object" + "() { [native code] }"
    ensures ParseNumericInput(Get(vars, "constructor")) == None && Truthy(Get(vars, "constructor"))
    ensures PrintText(Get(vars, "toString")) == "function " + "toString" + "() { [native code] }"
    ensures Get(vars, "myVar") == Undefined && PrintText(Get(vars, "myVar")) == ""
  {
    InheritedNames(vars);
  }

  /** Clear Variable deletes the named variable and nothing else when the name is truthy, and
      does nothing when it is empty, 0, false or missing. */
  lemma ClearVariableRemovesOnlyTruthyName(t: Tables, vars: Store, node: Node)
    requires Valid(vars) && node.kind == ClearVariable
    ensures var r := Step(t, vars, node);
            var name := Prop(node.properties, "name");
            r.Stepped? && r.lines == [] && r.next == SingleExecSuccessors(t, node)
            && (Truthy(name) ==> ToJsString(name) !in r.vars.values
                                 && forall k :: k != ToJsString(name) ==> Get(r.vars, k) == Get(vars, k))
            && (!Truthy(name) ==> r.vars == vars)
  {
  }

  /** A name property of the number 0 stores into the variable `0`, but clearing with that
      same name leaves it in place, because 0 is falsy. */
  lemma ClearCannotRemoveVariableZero(t: Tables, vars: Store, node: Node, v: Value)
    requires Valid(vars) && node.kind == ClearVariable && Prop(node.properties, "name") == Num(0)
    ensures var stored := Set(vars, ToJsString(Num(0)), v);
            var r := Step(t, stored, node);
            r.Stepped? && Get(r.vars, "0") == v
  {
    assert ToJsString(Num(0)) == "0";
  }

  /*** Integer operations ***/

  /** A single warning naming both raw inputs is reported exactly when one of them is not a
      number; the result is then false for a comparison and 0 for arithmetic. */
  lemma NonNumericInputWarns(kind: NodeType, title: string, a: Value, b: Value)
    requires IsIntegerOperation(kind)
    ensures var r := IntegerOp(kind, title, a, b);
            (ParseNumericInput(a).None? || ParseNumericInput(b).None?) <==> r.1 == [NumericWarning(title, a, b)]
    ensures ParseNumericInput(a).None? || ParseNumericInput(b).None? ==>
              IntegerOp(kind, title, a, b).0 == if Templates.IsIntegerComparison(kind) then Bool(false) else Num(0)
  {
    WarningsDiffer(title, a, b);
  }

  lemma WarningsDiffer(title: string, a: Value, b: Value)
    ensures DivideByZeroWarning(title) != NumericWarning(title, a, b)
  {
    var prefix := "Warning: " + title;
    var n := |prefix| + 1;
    var numeric := prefix + " expected numeric inputs but received ";
    var divide := prefix + " attempted to divide by zero. Returning 0.";
    assert numeric[n] == 'e';
    assert divide[n] == 'a';
    assert NumericWarning(title, a, b)[n] == numeric[n];
  }

  /** Division by zero warns and yields 0; any other division rounds toward zero. */
  lemma DivideRoundsTowardZero(title: string, x: int, y: int)
    ensures y == 0 ==> IntegerOp(DivideInteger, title, Num(x), Num(y)) == (Num(0), [DivideByZeroWarning(title)])
    ensures y != 0 ==>
              var r := IntegerOp(DivideInteger, title, Num(x), Num(y));
              r.1 == [] && r.0.Num? && Abs(x - r.0.n * y) < Abs(y) && (x - r.0.n * y == 0 || (x - r.0.n * y < 0 <==> x < 0))
  {
  }

  /** An integer operation sees only the numbers its inputs parse to: text such as ` 42 `,
      the number 42 and (for 1 and 0) a boolean give the same result and warnings. */
  lemma IntegerOpReadsParsedNumbers(kind: NodeType, title: string, a: Value, b: Value, x: int, y: int)
    requires IsIntegerOperation(kind)
    requires ParseNumericInput(a) == Some(x) && ParseNumericInput(b) == Some(y)
    ensures IntegerOp(kind, title, a, b) == IntegerOp(kind, title, Num(x), Num(y)) == ApplyOperation(kind, title, x, y)
  {
    assert ParseNumericInput(Num(x)) == Some(x) && ParseNumericInput(Num(y)) == Some(y);
  }

  /*** Evaluation of data pins ***/

  /** Fuel only cuts off evaluations: one that finishes gives the same result with more. */
  lemma {:induction false} EvalPinMoreFuel(t: Tables, vars: Store, nodeId: string, pinId: string, fuel: nat)
    requires EvalPin(t, vars, nodeId, pinId, fuel).Evaluated?
    ensures EvalPin(t, vars, nodeId, pinId, fuel + 1) == EvalPin(t, vars, nodeId, pinId, fuel)
    decreases fuel, 0
  {
    if pinId in t.wiresToPin {
      EvalWireMoreFuel(t, vars, t.wiresToPin[pinId], fuel - 1);
    }
  }

  lemma {:induction false} EvalWireMoreFuel(t: Tables, vars: Store, wire: Wire, fuel: nat)
    requires EvalWire(t, vars, wire, fuel).Evaluated?
    ensures EvalWire(t, vars, wire, fuel + 1) == EvalWire(t, vars, wire, fuel)
    decreases fuel, 3
  {
    if wire.fromNodeId in t.nodeMap {
      var from := t.nodeMap[wire.fromNodeId];
      if from.kind == GetVariable {
      } else if IsIntegerOperation(from.kind) {
        EvalOperationMoreFuel(t, vars, from, fuel);
      } else if Templates.IsLiteral(from.kind) {
      } else if FindPin(from.outputs, ById(wire.fromPinId)).Some? {
        EvalPinMoreFuel(t, vars, from.id, wire.fromPinId, fuel);
      }
    }
  }

  lemma {:induction false} EvalOperationMoreFuel(t: Tables, vars: Store, from: Node, fuel: nat)
    requires IsIntegerOperation(from.kind) && EvalOperation(t, vars, from, fuel).Evaluated?
    ensures EvalOperation(t, vars, from, fuel + 1) == EvalOperation(t, vars, from, fuel)
    decreases fuel, 2
  {
    EvalOperandMoreFuel(t, vars, from, "A", fuel);
    EvalOperandMoreFuel(t, vars, from, "B", fuel);
  }

  lemma {:induction false} EvalOperandMoreFuel(t: Tables, vars: Store, from: Node, labelText: string, fuel: nat)
    requires EvalOperand(t, vars, from, labelText, fuel).Evaluated?
    ensures EvalOperand(t, vars, from, labelText, fuel + 1) == EvalOperand(t, vars, from, labelText, fuel)
    decreases fuel, 1
  {
    var pin := FindPin(from.inputs, ByLabelAndType(labelText, Integer));
    if pin.Some? {
      EvalPinMoreFuel(t, vars, from.id, pin.value.id, fuel);
    }
  }

  /** The result of an evaluation that finishes does not depend on the fuel it is given. */
  lemma {:induction false} EvalPinFuelIrrelevant(t: Tables, vars: Store, nodeId: string, pinId: string, fuel: nat, more: nat)
    requires EvalPin(t, vars, nodeId, pinId, fuel).Evaluated? && fuel <= more
    ensures EvalPin(t, vars, nodeId, pinId, more) == EvalPin(t, vars, nodeId, pinId, fuel)
    decreases more - fuel
  {
    if fuel < more {
      EvalPinMoreFuel(t, vars, nodeId, pinId, fuel);
      EvalPinFuelIrrelevant(t, vars, nodeId, pinId, fuel + 1, more);
    }
  }

  /** An integer operation whose `A` input is wired from its own output never finishes:
      reading any pin wired from it overflows the call stack, whatever the depth allowed. */
  lemma {:induction false} SelfFeedingOperationOverflows(t: Tables, vars: Store, x: Node, nodeId: string, pinId: string, fuel: nat)
    requires x.id in t.nodeMap && t.nodeMap[x.id] == x && IsIntegerOperation(x.kind)
    requires FindPin(x.inputs, ByLabelAndType("A", Integer)).Some?
    requires FindPin(x.inputs, ByLabelAndType("A", Integer)).value.id in t.wiresToPin
    requires t.wiresToPin[FindPin(x.inputs, ByLabelAndType("A", Integer)).value.id].fromNodeId == x.id
    requires pinId in t.wiresToPin && t.wiresToPin[pinId].fromNodeId == x.id
    ensures EvalPin(t, vars, nodeId, pinId, fuel) == Overflow
    decreases fuel
  {
    if fuel > 0 {
      var pinA := FindPin(x.inputs, ByLabelAndType("A", Integer)).value;
      SelfFeedingOperationOverflows(t, vars, x, x.id, pinA.id, fuel - 1);
      assert EvalOperand(t, vars, x, "A", fuel - 1) == Overflow;
      assert EvalOperation(t, vars, x, fuel - 1) == Overflow;
      assert EvalWire(t, vars, t.wiresToPin[pinId], fuel - 1) == Overflow;
    }
  }

  /** A Print String whose text comes from such an operation crashes the run's step. */
  lemma PrintingADataCycleOverflows(t: Tables, vars: Store, node: Node, x: Node)
    requires Valid(vars) && node.kind == PrintString
    requires FindPin(node.inputs, ByType(String)).Some?
    requires var p := FindPin(node.inputs, ByType(String)).value;
             p.id in t.wiresToPin && t.wiresToPin[p.id].fromNodeId == x.id
    requires x.id in t.nodeMap && t.nodeMap[x.id] == x && IsIntegerOperation(x.kind)
    requires FindPin(x.inputs, ByLabelAndType("A", Integer)).Some?
    requires FindPin(x.inputs, ByLabelAndType("A", Integer)).value.id in t.wiresToPin
    requires t.wiresToPin[FindPin(x.inputs, ByLabelAndType("A", Integer)).value.id].fromNodeId == x.id
    ensures Step(t, vars, node) == StepOverflow
  {
    var p := FindPin(node.inputs, ByType(String)).value;
    SelfFeedingOperationOverflows(t, vars, x, node.id, p.id, EvalFuel(t));
  }

  /*** The editor's graphs ***/

  /** A table built from elements with distinct keys loses none of them. */
  lemma DistinctKeysAllKept<T>(xs: seq<T>, key: T -> string)
    requires Editor.UniqueBy(xs, key)
    ensures forall x <- xs :: key(x) in LastByKey(xs, key) && LastByKey(xs, key)[key(x)] == x
  {
    forall x <- xs ensures key(x) in LastByKey(xs, key) && LastByKey(xs, key)[key(x)] == x {
      var i :| 0 <= i < |xs| && xs[i] == x;
      LastByKeyLastWins(xs, key, i);
    }
  }

  /** On a graph the editor keeps valid, the interpreter's tables lose nothing: every node is
      found by its id and every wire by its input pin, so no wire into a pin is shadowed. */
  lemma EditorGraphsLoseNothing(nodes: seq<Node>, wires: seq<Wire>)
    requires Editor.UniqueBy(nodes, NodeId) && Editor.UniqueBy(wires, ToPinId)
    ensures forall n <- nodes :: NodeMap(nodes)[n.id] == n
    ensures forall w <- wires :: w.toPinId in WiresToPin(wires) && WiresToPin(wires)[w.toPinId] == w
  {
    DistinctKeysAllKept(nodes, NodeId);
    DistinctKeysAllKept(wires, ToPinId);
  }

  /*** Whole runs ***/

  lemma {:induction false} SuccessorsUnwired(t: Tables, pins: seq<Pin>)
    requires forall p <- pins :: p.id !in t.wiresFromPin
    ensures Successors(t, pins) == []
  {
    if pins != [] {
      assert pins[|pins| - 1] in pins;
      SuccessorsUnwired(t, pins[..|pins| - 1]);
    }
  }

  lemma NodeMapOfTwo(b: Node, p: Node)
    ensures NodeMap([b, p]) == map[b.id := b][p.id := p]
  {
    assert [b, p][..1] == [b];
    assert [b][..0] == [];
    assert LastByKey([b], NodeId) == map[b.id := b];
  }

  /** A blueprint holding only a Begin Play node prints nothing and reports no variables. */
  lemma LoneBeginPlay(b: Node)
    requires b.kind == BeginPlay
    ensures Execute([b], []) == Lines([SeparatorLine, HeaderLine, NoVariablesLine])
  {
    var t := BuildTables([b], []);
    assert t.wiresFromPin == map[];
    LoneStep(t, b);
    LoopOfOne(t, b);
    FinishOfOne(t, b);
    assert FirstBeginPlay([b]) == 0;
  }

  lemma FinishOfOne(t: Tables, b: Node)
    requires Loop(t, [b], Empty(), [], 0) == Halted([], Empty(), [], 1)
    ensures Finish(Loop(t, [b], Empty(), [], 0)) == Lines([SeparatorLine, HeaderLine, NoVariablesLine])
  {
    EmptyDump();
  }

  lemma LoneStep(t: Tables, b: Node)
    requires t.wiresFromPin == map[] && b.kind == BeginPlay
    ensures Step(t, Empty(), b) == Stepped(Empty(), [], [])
  {
    SuccessorsUnwired(t, ExecPins(b.outputs, Some("")));
  }

  lemma LoopOfOne(t: Tables, b: Node)
    requires Step(t, Empty(), b) == Stepped(Empty(), [], [])
    ensures Loop(t, [b], Empty(), [], 0) == Halted([], Empty(), [], 1)
  {
    assert [b][1..] + [] == [];
    assert Loop(t, [b], Empty(), [], 0) == Loop(t, [], Empty(), [], 1);
  }

  /** Begin Play wired to a Print String with an unwired text pin prints that node's `text`
      property, and then the empty dump. */
  lemma BeginPlayThenPrint(b: Node, p: Node, w: Wire, bOut: Pin, pIn: Pin, pText: Pin, pOut: Pin)
    requires b.kind == BeginPlay && p.kind == PrintString && b.id != p.id
    requires b.outputs == [bOut] && bOut.dataType == Exec && bOut.labelText == ""
    requires p.inputs == [pIn, pText] && pIn.dataType == Exec && pText.dataType == String
    requires p.outputs == [pOut] && pOut.dataType == Exec && pOut.labelText == ""
    requires w.fromNodeId == b.id && w.fromPinId == bOut.id && w.toNodeId == p.id && w.toPinId == pIn.id
    requires pText.id != pIn.id && pOut.id != bOut.id
    ensures Execute([b, p], [w]) == Lines([PrintText(Prop(p.properties, "text"))] + [SeparatorLine, HeaderLine] + [NoVariablesLine])
  {
    var t := BuildTables([b, p], [w]);
    var text := PrintText(Prop(p.properties, "text"));
    TwoNodeTables(b, p, w);
    BeginPlayStep(t, b, p, w, bOut);
    PrintStep(t, p, pIn, pText, pOut);
    LoopOfTwo(t, b, p, text);
    FinishOfTwo(t, b, text);
    assert FirstBeginPlay([b, p]) == 0;
  }

  lemma FinishOfTwo(t: Tables, b: Node, text: string)
    requires Loop(t, [b], Empty(), [], 0) == Halted([], Empty(), [text], 2)
    ensures Finish(Loop(t, [b], Empty(), [], 0)) == Lines([text] + [SeparatorLine, HeaderLine] + [NoVariablesLine])
  {
    EmptyDump();
  }

  lemma TwoNodeTables(b: Node, p: Node, w: Wire)
    ensures BuildTables([b, p], [w]) == Tables(map[b.id := b][p.id := p], map[w.toPinId := w], map[w.fromPinId := [w]])
  {
    NodeMapOfTwo(b, p);
    assert [w][..0] == [];
    assert FromPinIds([w]) == {w.fromPinId};
    assert WiresFrom([w], w.fromPinId) == [w];
  }

  lemma BeginPlayStep(t: Tables, b: Node, p: Node, w: Wire, bOut: Pin)
    requires t == Tables(map[b.id := b][p.id := p], map[w.toPinId := w], map[w.fromPinId := [w]])
    requires b.kind == BeginPlay && b.outputs == [bOut] && bOut.dataType == Exec && bOut.labelText == ""
    requires w.fromPinId == bOut.id && w.toNodeId == p.id
    ensures Step(t, Empty(), b) == Stepped(Empty(), [], [p])
  {
    assert ExecPins(b.outputs, Some("")) == [bOut];
    assert [w][..0] == [];
    assert Targets(t.nodeMap, [w]) == [p];
    assert Successors(t, [bOut]) == Successors(t, []) + [p];
  }

  lemma PrintStep(t: Tables, p: Node, pIn: Pin, pText: Pin, pOut: Pin)
    requires p.id in t.nodeMap && t.nodeMap[p.id] == p && p.kind == PrintString
    requires p.inputs == [pIn, pText] && pIn.dataType == Exec && pText.dataType == String
    requires p.outputs == [pOut] && pOut.dataType == Exec && pOut.labelText == ""
    requires pText.id !in t.wiresToPin && pOut.id !in t.wiresFromPin
    ensures Step(t, Empty(), p) == Stepped(Empty(), [PrintText(Prop(p.properties, "text"))], [])
  {
    assert [pIn, pText][1..] == [pText];
    assert FirstMatch([pIn, pText], ByType(String)) == 1;
    assert FindPin(p.inputs, ByType(String)) == Some(pText);
    assert ExecPins(p.outputs, Some("")) == [pOut];
    assert Successors(t, [pOut]) == Successors(t, []) + [];
  }

  lemma LoopOfTwo(t: Tables, b: Node, p: Node, text: string)
    requires Step(t, Empty(), b) == Stepped(Empty(), [], [p])
    requires Step(t, Empty(), p) == Stepped(Empty(), [text], [])
    ensures Loop(t, [b], Empty(), [], 0) == Halted([], Empty(), [text], 2)
  {
    assert [b][1..] + [p] == [p];
    assert [p][1..] + [] == [];
    assert Loop(t, [b], Empty(), [], 0) == Loop(t, [p], Empty(), [], 1);
    assert Loop(t, [p], Empty(), [], 1) == Loop(t, [], Empty(), [text], 2);
  }
}
