/** `executeBlueprint` as the source runs it: a map-building loop, a FIFO queue drained by a
    bounded `while` loop that pushes lines onto `output` and writes `variables`, and the
    trailer loop. Each method is proved equal to its specification in module Simulation. */
module Interpreter {
  import opened Types
  import opened Coercion
  import opened VariableStore
  import opened Simulation

  lemma WiresFromSnoc(ws: seq<Wire>, w: Wire, p: string)
    ensures WiresFrom(ws + [w], p) == WiresFrom(ws, p) + (if w.fromPinId == p then [w] else [])
  {
    assert (ws + [w])[..|ws|] == ws;
  }

  lemma WiresFromNone(ws: seq<Wire>, p: string)
    requires p !in FromPinIds(ws)
    ensures WiresFrom(ws, p) == []
  {
  }

  /** Appending a wire extends the group of the pin it leaves and no other. */
  lemma WiresFromPinSnoc(ws: seq<Wire>, w: Wire)
    ensures WiresFromPin(ws + [w]) ==
      var m := WiresFromPin(ws);
      m[w.fromPinId := if w.fromPinId in m then m[w.fromPinId] + [w] else [w]]
  {
    var m := WiresFromPin(ws);
    var m' := m[w.fromPinId := if w.fromPinId in m then m[w.fromPinId] + [w] else [w]];
    var n := WiresFromPin(ws + [w]);
    FromPinIdsSnoc(ws, w);
    assert n.Keys == m'.Keys;
    forall p | p in n
      ensures n[p] == m'[p]
    {
      WiresFromSnoc(ws, w, p);
      if p !in m {
        WiresFromNone(ws, p);
      }
    }
  }

  lemma FromPinIdsSnoc(ws: seq<Wire>, w: Wire)
    ensures FromPinIds(ws + [w]) == FromPinIds(ws) + {w.fromPinId}
  {
    forall p ensures p in FromPinIds(ws + [w]) <==> p in FromPinIds(ws) + {w.fromPinId} {
      if p in FromPinIds(ws + [w]) {
        var x :| x in ws + [w] && x.fromPinId == p;
      }
    }
  }

  /** The loop that groups the wires by the pin they leave (`wiresFromPin`). */
  method BuildWiresFromPin(wires: seq<Wire>) returns (m: map<string, seq<Wire>>)
    ensures m == WiresFromPin(wires)
  {
    m := map[];
    for i := 0 to |wires|
      invariant m == WiresFromPin(wires[..i])
    {
      var wire := wires[i];
      assert wires[..i + 1] == wires[..i] + [wire];
      WiresFromPinSnoc(wires[..i], wire);
      if wire.fromPinId in m {
        m := m[wire.fromPinId := m[wire.fromPinId] + [wire]];
      } else {
        m := m[wire.fromPinId := [wire]];
      }
    }
    assert wires[..|wires|] == wires;
  }

  /** `findNextExecNodes`: the loop over the wires leaving a pin. */
  method FindNextExecNodes(t: Tables, pinId: string) returns (r: seq<Node>)
    ensures r == NextExecNodes(t, pinId)
  {
    if pinId !in t.wiresFromPin {
      return [];
    }
    var connected := t.wiresFromPin[pinId];
    r := [];
    for i := 0 to |connected|
      invariant r == Targets(t.nodeMap, connected[..i])
    {
      assert connected[..i + 1][..i] == connected[..i];
      var wire := connected[i];
      if wire.toNodeId in t.nodeMap {
        r := r + [t.nodeMap[wire.toNodeId]];
      }
    }
    assert connected[..|connected|] == connected;
  }

  /** The successors through each pin in turn: `execPins.flatMap(...)`, and the `for` loops
      of Sequence and Branch over their exec outputs. */
  method NextNodesFromPins(t: Tables, pins: seq<Pin>) returns (r: seq<Node>)
    ensures r == Successors(t, pins)
  {
    r := [];
    for i := 0 to |pins|
      invariant r == Successors(t, pins[..i])
    {
      assert pins[..i + 1][..i] == pins[..i];
      var next := FindNextExecNodes(t, pins[i].id);
      r := r + next;
    }
    assert pins[..|pins|] == pins;
  }

  /** `enqueueNextNodes`: push each node onto the back of the queue. */
  method Enqueue(queue: seq<Node>, nodes: seq<Node>) returns (q: seq<Node>)
    ensures q == queue + nodes
  {
    q := queue;
    for i := 0 to |nodes|
      invariant q == queue + nodes[..i]
    {
      assert nodes[..i + 1] == nodes[..i] + [nodes[i]];
      q := q + [nodes[i]];
    }
    assert nodes[..|nodes|] == nodes;
  }

  /** The `switch` on the dequeued node's kind: the lines it pushes, the variables it writes
      and the nodes it enqueues, or the stack overflow that a cyclic data wiring causes. */
  method ExecuteNode(t: Tables, variables: Store, current: Node) returns (r: StepResult)
    requires Valid(variables)
    ensures r == Step(t, variables, current)
  {
    var fuel := EvalFuel(t);
    match current.kind {
      case BeginPlay =>
        var next := NextNodesFromPins(t, ExecPins(current.outputs, Some("")));
        return Stepped(variables, [], next);
      case Sequence =>
        var next := NextNodesFromPins(t, ExecPins(current.outputs, None));
        return Stepped(variables, [], next);
      case PrintString =>
        var textPin := FindPin(current.inputs, ByType(String));
        var lines: seq<string> := [];
        if textPin.Some? {
          var e := EvalPin(t, variables, current.id, textPin.value.id, fuel);
          if e.Overflow? {
            return StepOverflow;
          }
          lines := e.warnings + [PrintText(e.value)];
        }
        var next := NextNodesFromPins(t, ExecPins(current.outputs, Some("")));
        return Stepped(variables, lines, next);
      case SetVariable =>
        var valuePin := FindPin(current.inputs, ByLabel("Value"));
        var lines: seq<string> := [];
        var vars := variables;
        if valuePin.Some? {
          var e := EvalPin(t, variables, current.id, valuePin.value.id, fuel);
          if e.Overflow? {
            return StepOverflow;
          }
          lines := e.warnings;
          vars := Set(variables, ToJsString(Prop(current.properties, "name")), e.value);
        }
        var next := NextNodesFromPins(t, ExecPins(current.outputs, Some("")));
        return Stepped(vars, lines, next);
      case ClearVariable =>
        var varName := Prop(current.properties, "name");
        var vars := variables;
        if Truthy(varName) {
          vars := Remove(variables, ToJsString(varName));
        }
        var next := NextNodesFromPins(t, ExecPins(current.outputs, Some("")));
        return Stepped(vars, [], next);
      case Branch =>
        var conditionPin := FindPin(current.inputs, ByType(Boolean));
        var condition := false;
        var lines: seq<string> := [];
        if conditionPin.Some? {
          var e := EvalPin(t, variables, current.id, conditionPin.value.id, fuel);
          if e.Overflow? {
            return StepOverflow;
          }
          lines := e.warnings;
          condition := Truthy(e.value);
        }
        var outLabel := if condition then "True" else "False";
        var next := NextNodesFromPins(t, ExecPins(current.outputs, Some(outLabel)));
        return Stepped(variables, lines, next);
      case _ =>
        var next := NextNodesFromPins(t, ExecPins(current.outputs, Some("")));
        return Stepped(variables, [], next);
    }
  }

  /** One turn of the queue loop, as `Loop` takes it. */
  lemma LoopTurn(t: Tables, queue: seq<Node>, vars: Store, output: seq<string>, count: nat, r: StepResult)
    requires Valid(vars) && count < MaxExecutions && |queue| > 0
    requires r == Step(t, vars, queue[0])
    ensures r.StepOverflow? ==> Loop(t, queue, vars, output, count) == Crashed
    ensures r.Stepped? ==>
      Loop(t, queue, vars, output, count) == Loop(t, queue[1..] + r.next, r.vars, output + r.lines, count + 1)
  {
  }

  lemma DumpLinesSnoc(vars: Store, names: seq<string>, i: nat)
    requires i < |names|
    ensures DumpLines(vars, names[..i + 1]) == DumpLines(vars, names[..i]) + [DumpLine(names[i], Get(vars, names[i]))]
  {
    assert names[..i + 1][..i] == names[..i];
  }

  lemma LoopAdvance(t: Tables, queue: seq<Node>, vars: Store, output: seq<string>, count: nat, r: StepResult,
                    queue': seq<Node>, vars': Store, output': seq<string>, count': nat)
    requires Valid(vars) && count < MaxExecutions && |queue| > 0
    requires r == Step(t, vars, queue[0]) && r.Stepped?
    requires queue' == queue[1..] + r.next && vars' == r.vars && output' == output + r.lines && count' == count + 1
    ensures Valid(vars') && count' <= MaxExecutions
    ensures Loop(t, queue', vars', output', count') == Loop(t, queue, vars, output, count)
  {
    LoopTurn(t, queue, vars, output, count, r);
  }

  /** The pushes after the loop: the limit line, the separator, the header and the dump. */
  method WriteTrailer(output: seq<string>, variables: Store, count: nat) returns (out: seq<string>)
    ensures out == output + Trailer(variables, count)
  {
    out := output;
    if count >= MaxExecutions {
      out := out + [LimitLine];
    }
    out := out + [SeparatorLine];
    out := out + [HeaderLine];
    ghost var base := out;
    assert base == output + ((if count >= MaxExecutions then [LimitLine] else []) + [SeparatorLine, HeaderLine]);
    var names := Keys(variables);
    if |names| > 0 {
      out := WriteVariableLines(out, variables, names);
    } else {
      out := out + [NoVariablesLine];
    }
    assert out == base + VariableDump(variables);
    ConcatAssoc(output, (if count >= MaxExecutions then [LimitLine] else []) + [SeparatorLine, HeaderLine], VariableDump(variables));
  }

  /** One `  name: <JSON>` push per name, in the order given. */
  method WriteVariableLines(output: seq<string>, variables: Store, names: seq<string>) returns (out: seq<string>)
    ensures out == output + DumpLines(variables, names)
  {
    out := output;
    for i := 0 to |names|
      invariant out == output + DumpLines(variables, names[..i])
    {
      var line := DumpLine(names[i], Get(variables, names[i]));
      DumpLinesSnoc(variables, names, i);
      ConcatAssoc(output, DumpLines(variables, names[..i]), [line]);
      out := out + [line];
    }
    assert names[..|names|] == names;
  }

  /** The `while` loop from a given state: dequeue, dispatch and enqueue until the queue is
      empty or 1000 nodes have been dequeued. */
  method RunQueue(t: Tables, queue0: seq<Node>, variables0: Store, output0: seq<string>, count0: nat) returns (h: Halt)
    requires Valid(variables0) && count0 <= MaxExecutions
    ensures h == Loop(t, queue0, variables0, output0, count0)
  {
    var queue, variables, output, count := queue0, variables0, output0, count0;
    while |queue| > 0 && count < MaxExecutions
      invariant count <= MaxExecutions && Valid(variables)
      invariant Loop(t, queue, variables, output, count) == Loop(t, queue0, variables0, output0, count0)
      decreases MaxExecutions - count
    {
      ghost var before := (queue, variables, output, count);
      var current := queue[0];
      var r := ExecuteNode(t, variables, current);
      if r.StepOverflow? {
        LoopTurn(t, queue, variables, output, count, r);
        return Crashed;
      }
      queue := queue[1..];
      count := count + 1;
      output := output + r.lines;
      variables := r.vars;
      queue := Enqueue(queue, r.next);
      LoopAdvance(t, before.0, before.1, before.2, before.3, r, queue, variables, output, count);
    }
    return Halted(queue, variables, output, count);
  }

  /** `executeBlueprint(nodes, wires)`. */
  method ExecuteBlueprint(nodes: seq<Node>, wires: seq<Wire>) returns (result: Run)
    ensures result == Execute(nodes, wires)
  {
    var nodeMap := NodeMap(nodes);
    var wiresToPin := WiresToPin(wires);
    var wiresFromPin := BuildWiresFromPin(wires);
    var t := Tables(nodeMap, wiresToPin, wiresFromPin);
    var s := FirstBeginPlay(nodes);
    if s == |nodes| {
      return Lines([MissingBeginPlayLine]);
    }
    var h := RunQueue(t, [nodes[s]], Empty(), [], 0);
    if h.Crashed? {
      return StackOverflow;
    }
    var output := WriteTrailer(h.output, h.vars, h.count);
    return Lines(output);
  }
}
