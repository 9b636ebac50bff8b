/** The editor's graph state (`useBlueprintState`): the node list, the wire list and the
    selected node id, and the operations the editor applies to them. Fresh ids, which the
    editor draws from the clock and a random number, are parameters. */
module Editor {
  import opened Types
  import opened Decimal
  import opened Templates

  /** No two elements of `s` share a key. */
  predicate UniqueBy<T>(s: seq<T>, key: T -> string)
  {
    forall i, j :: 0 <= i < j < |s| ==> key(s[i]) != key(s[j])
  }

  lemma UniqueBySnoc<T>(s: seq<T>, x: T, key: T -> string)
    requires UniqueBy(s, key)
    requires forall y <- s :: key(y) != key(x)
    ensures UniqueBy(s + [x], key)
  {
    var r := s + [x];
    forall i, j | 0 <= i < j < |r| ensures key(r[i]) != key(r[j]) {
      assert r[i] == s[i];
      if j < |s| {
        assert r[j] == s[j];
      } else {
        assert s[i] in s;
      }
    }
  }

  // ---------------------------------------------------------------- createNode

  /** `${nodeId}_${direction}_${label || dataType}_${index}` */
  function PinId(nodeId: string, p: PinTemplate, index: nat): string
  {
    nodeId + "_" + DirectionName(p.direction) + "_"
      + (if p.labelText != "" then p.labelText else DataTypeName(p.dataType))
      + "_" + NatToString(index)
  }

  /** `pins` are the templates' pins, in order, owned by node `nodeId`. */
  predicate PinsFrom(nodeId: string, templates: seq<PinTemplate>, pins: seq<Pin>)
  {
    && |pins| == |templates|
    && forall i :: 0 <= i < |pins| ==>
         && pins[i].nodeId == nodeId
         && pins[i].labelText == templates[i].labelText
         && pins[i].dataType == templates[i].dataType
         && pins[i].direction == templates[i].direction
  }

  function CreatePins(nodeId: string, templates: seq<PinTemplate>): (r: seq<Pin>)
    ensures PinsFrom(nodeId, templates, r)
    ensures forall i :: 0 <= i < |r| ==> r[i].id == PinId(nodeId, templates[i], i)
  {
    seq(|templates|, i requires 0 <= i < |templates| =>
      Pin(PinId(nodeId, templates[i], i), nodeId, templates[i].labelText, templates[i].dataType, templates[i].direction))
  }

  /** A fresh node of kind `kind` at (x, y): the template's title, pins and default
      properties, every pin owned by the new node. */
  function CreateNode(kind: NodeType, x: int, y: int, nodeId: string): (n: Node)
    ensures n.id == nodeId && n.kind == kind && n.x == x && n.y == y
    ensures n.title == Template(kind).title && n.comment == ""
    ensures n.properties == Template(kind).properties
    ensures PinsFrom(nodeId, Template(kind).inputs, n.inputs)
    ensures PinsFrom(nodeId, Template(kind).outputs, n.outputs)
    ensures forall p <- n.inputs :: p.direction == Input
    ensures forall p <- n.outputs :: p.direction == Output
  {
    var template := Template(kind);
    Node(nodeId, template.kind, template.title, x, y,
      CreatePins(nodeId, template.inputs), CreatePins(nodeId, template.outputs),
      template.properties, template.comment)
  }

  /** A text ending in `_` and digits determines those digits. */
  lemma DigitSuffix(a: string, d: string, b: string, e: string)
    requires AllDigits(d) && AllDigits(e)
    requires a + "_" + d == b + "_" + e
    ensures d == e
  {
    var s := a + "_" + d;
    UnderscoreThenDigits(a, d);
    UnderscoreThenDigits(b, e);
    assert |d| == |e|;
    assert d == s[|s| - |d|..];
  }

  lemma UnderscoreThenDigits(a: string, d: string)
    requires AllDigits(d)
    ensures |a + "_" + d| == |a| + 1 + |d|
    ensures (a + "_" + d)[|a|] == '_'
    ensures forall k :: |a| < k < |a + "_" + d| ==> IsDigit((a + "_" + d)[k])
    ensures d == (a + "_" + d)[|a| + 1..]
  {
  }

  /** Two pins of one node with different directions get different ids. */
  lemma PinIdDirection(nodeId: string, p: PinTemplate, i: nat, q: PinTemplate, j: nat)
    requires p.direction != q.direction
    ensures PinId(nodeId, p, i) != PinId(nodeId, q, j)
  {
    var k := |nodeId| + 1;
    assert PinId(nodeId, p, i)[k] == DirectionName(p.direction)[0];
    assert PinId(nodeId, q, j)[k] == DirectionName(q.direction)[0];
  }

  /** Two pins of one node at different positions get different ids, whatever their labels. */
  lemma PinIdIndex(nodeId: string, p: PinTemplate, i: nat, q: PinTemplate, j: nat)
    requires i != j
    ensures PinId(nodeId, p, i) != PinId(nodeId, q, j)
  {
    if PinId(nodeId, p, i) == PinId(nodeId, q, j) {
      var a := nodeId + "_" + DirectionName(p.direction) + "_"
        + (if p.labelText != "" then p.labelText else DataTypeName(p.dataType));
      var b := nodeId + "_" + DirectionName(q.direction) + "_"
        + (if q.labelText != "" then q.labelText else DataTypeName(q.dataType));
      DigitSuffix(a, NatToString(i), b, NatToString(j));
      NatToStringInjective(i, j);
    }
  }

  /** Every pin of a new node has its own id: the index keeps apart pins of one list, the
      direction keeps apart inputs and outputs. */
  lemma CreateNodePinIdsDistinct(kind: NodeType, x: int, y: int, nodeId: string)
    ensures UniqueBy(CreateNode(kind, x, y, nodeId).inputs + CreateNode(kind, x, y, nodeId).outputs, PinIdOf)
  {
    var t := Template(kind);
    PinIdsDistinct(nodeId, t.inputs, t.outputs);
  }

  lemma PinIdsDistinct(nodeId: string, ins: seq<PinTemplate>, outs: seq<PinTemplate>)
    requires forall p <- ins :: p.direction == Input
    requires forall p <- outs :: p.direction == Output
    ensures UniqueBy(CreatePins(nodeId, ins) + CreatePins(nodeId, outs), PinIdOf)
  {
    var a := CreatePins(nodeId, ins);
    var b := CreatePins(nodeId, outs);
    var pins := a + b;
    var m := |a|;
    forall i, j | 0 <= i < j < |pins| ensures PinIdOf(pins[i]) != PinIdOf(pins[j]) {
      if j < m {
        PinIdIndex(nodeId, ins[i], i, ins[j], j);
      } else if i < m {
        assert ins[i] in ins && outs[j - m] in outs;
        PinIdDirection(nodeId, ins[i], i, outs[j - m], j - m);
      } else {
        PinIdIndex(nodeId, outs[i - m], i - m, outs[j - m], j - m);
      }
    }
  }

  function PinIdOf(p: Pin): string { p.id }

  // ---------------------------------------------------------------- filters

  /** `s.filter(keep)`. */
  function Filter<T>(s: seq<T>, keep: T -> bool): (r: seq<T>)
    ensures forall x <- r :: x in s && keep(x)
    ensures forall x <- s :: keep(x) ==> x in r
    ensures |r| <= |s|
    ensures (forall x <- s :: keep(x)) ==> r == s
  {
    if s == [] then []
    else
      assert s == [s[0]] + s[1..];
      (if keep(s[0]) then [s[0]] else []) + Filter(s[1..], keep)
  }

  lemma FilterHead<T>(s: seq<T>, keep: T -> bool)
    requires s != []
    ensures Filter(s, keep) == (if keep(s[0]) then [s[0]] else []) + Filter(s[1..], keep)
  {
  }

  /** Filtering keeps the order: it commutes with concatenation. */
  lemma {:induction false} FilterAppend<T>(a: seq<T>, b: seq<T>, keep: T -> bool)
    ensures Filter(a + b, keep) == Filter(a, keep) + Filter(b, keep)
  {
    if a != [] {
      var head := if keep(a[0]) then [a[0]] else [];
      assert (a + b)[0] == a[0] && (a + b)[1..] == a[1..] + b;
      FilterHead(a + b, keep);
      FilterHead(a, keep);
      FilterAppend(a[1..], b, keep);
      ConcatAssoc(head, Filter(a[1..], keep), Filter(b, keep));
      calc {
        Filter(a + b, keep);
        head + Filter(a[1..] + b, keep);
        head + (Filter(a[1..], keep) + Filter(b, keep));
        (head + Filter(a[1..], keep)) + Filter(b, keep);
        Filter(a, keep) + Filter(b, keep);
      }
    } else {
      assert a + b == b;
    }
  }

  /** Filtering never makes two elements share a key. */
  lemma {:induction false} FilterUnique<T>(s: seq<T>, keep: T -> bool, key: T -> string)
    requires UniqueBy(s, key)
    ensures UniqueBy(Filter(s, keep), key)
  {
    if s != [] {
      var rest := s[1..];
      assert UniqueBy(rest, key) by {
        forall i, j | 0 <= i < j < |rest| ensures key(rest[i]) != key(rest[j]) {
          assert rest[i] == s[i + 1] && rest[j] == s[j + 1];
        }
      }
      FilterUnique(rest, keep, key);
      var tail := Filter(rest, keep);
      if keep(s[0]) {
        forall y <- tail ensures key(y) != key(s[0]) {
          var m :| 0 <= m < |rest| && rest[m] == y;
          assert s[m + 1] == y;
        }
        UniqueByCons(s[0], tail, key);
      }
    }
  }

  lemma UniqueByCons<T>(x: T, s: seq<T>, key: T -> string)
    requires UniqueBy(s, key)
    requires forall y <- s :: key(y) != key(x)
    ensures UniqueBy([x] + s, key)
  {
    var r := [x] + s;
    forall i, j | 0 <= i < j < |r| ensures key(r[i]) != key(r[j]) {
      assert r[j] == s[j - 1];
      if i > 0 {
        assert r[i] == s[i - 1];
      } else {
        assert s[j - 1] in s;
      }
    }
  }

  function OtherWire(wireId: string): Wire -> bool
  {
    (w: Wire) => w.id != wireId
  }

  function OtherNode(nodeId: string): Node -> bool
  {
    (n: Node) => n.id != nodeId
  }

  /** A wire neither leaving nor entering node `nodeId`. */
  function Detached(nodeId: string): Wire -> bool
  {
    (w: Wire) => w.fromNodeId != nodeId && w.toNodeId != nodeId
  }

  // ---------------------------------------------------------------- updateNode

  /** `Partial<Omit<Node, 'id'>>`: the fields an update overwrites; the id cannot be among them. */
  datatype NodeUpdate = NodeUpdate(
    kind: Option<NodeType>,
    title: Option<string>,
    x: Option<int>,
    y: Option<int>,
    inputs: Option<seq<Pin>>,
    outputs: Option<seq<Pin>>,
    properties: Option<map<string, Value>>,
    comment: Option<string>)

  function NoUpdate(): NodeUpdate
  {
    NodeUpdate(None, None, None, None, None, None, None, None)
  }

  function PositionUpdate(x: int, y: int): NodeUpdate
  {
    NoUpdate().(x := Some(x), y := Some(y))
  }

  function PropertiesUpdate(props: map<string, Value>): NodeUpdate
  {
    NoUpdate().(properties := Some(props))
  }

  function Override<T>(field: Option<T>, current: T): T
  {
    if field.Some? then field.value else current
  }

  /** `{ ...node, ...updates }`: the given fields are overwritten, the others and the id kept. */
  function ApplyUpdate(n: Node, u: NodeUpdate): (r: Node)
    ensures r.id == n.id
    ensures u == NoUpdate() ==> r == n
  {
    Node(n.id, Override(u.kind, n.kind), Override(u.title, n.title), Override(u.x, n.x), Override(u.y, n.y),
      Override(u.inputs, n.inputs), Override(u.outputs, n.outputs), Override(u.properties, n.properties),
      Override(u.comment, n.comment))
  }

  /** Applying the same update twice is applying it once. */
  lemma ApplyUpdateTwice(n: Node, u: NodeUpdate)
    ensures ApplyUpdate(ApplyUpdate(n, u), u) == ApplyUpdate(n, u)
  {
  }

  /** A position update moves the node and changes nothing else. */
  lemma PositionUpdateOnlyMoves(n: Node, x: int, y: int)
    ensures ApplyUpdate(n, PositionUpdate(x, y)) == n.(x := x, y := y)
  {
  }

  /** A properties update replaces the properties and changes nothing else. */
  lemma PropertiesUpdateOnlyChangesProperties(n: Node, props: map<string, Value>)
    ensures ApplyUpdate(n, PropertiesUpdate(props)) == n.(properties := props)
  {
  }

  /** Every node with id `nodeId` updated, every other node as it was, in the same order. */
  function UpdateWhere(nodes: seq<Node>, nodeId: string, u: NodeUpdate): (r: seq<Node>)
    ensures |r| == |nodes|
    ensures forall i :: 0 <= i < |r| ==> r[i].id == nodes[i].id
    ensures forall i :: 0 <= i < |r| && nodes[i].id != nodeId ==> r[i] == nodes[i]
    ensures forall i :: 0 <= i < |r| && nodes[i].id == nodeId ==> r[i] == ApplyUpdate(nodes[i], u)
  {
    seq(|nodes|, i requires 0 <= i < |nodes| => if nodes[i].id == nodeId then ApplyUpdate(nodes[i], u) else nodes[i])
  }

  lemma UpdateKeepsIds(nodes: seq<Node>, r: seq<Node>)
    requires UniqueBy(nodes, NodeId)
    requires |r| == |nodes| && forall i :: 0 <= i < |r| ==> r[i].id == nodes[i].id
    ensures UniqueBy(r, NodeId)
  {
    forall i, j | 0 <= i < j < |r| ensures NodeId(r[i]) != NodeId(r[j]) {
      assert NodeId(nodes[i]) != NodeId(nodes[j]);
    }
  }

  /** `nodes.find(n => n.id === nodeId)`. */
  function FindNode(nodes: seq<Node>, nodeId: string): (r: Option<Node>)
    ensures r.Some? <==> exists n <- nodes :: n.id == nodeId
    ensures r.Some? ==> r.value in nodes && r.value.id == nodeId
  {
    if nodes == [] then None
    else if nodes[0].id == nodeId then Some(nodes[0])
    else
      assert forall n <- nodes :: n == nodes[0] || n in nodes[1..];
      FindNode(nodes[1..], nodeId)
  }

  /** With unique ids, the node found is the one node carrying the id. */
  lemma FindNodeIsTheNode(nodes: seq<Node>, n: Node)
    requires UniqueBy(nodes, NodeId) && n in nodes
    ensures FindNode(nodes, n.id) == Some(n)
  {
    var found := FindNode(nodes, n.id).value;
    var i :| 0 <= i < |nodes| && nodes[i] == n;
    var j :| 0 <= j < |nodes| && nodes[j] == found;
  }

  // ---------------------------------------------------------------- duplicateNode

  /** Whether JSON keeps an entry holding `v`: it drops undefined and functions. */
  predicate JsonKeeps(v: Value)
  {
    !v.Undefined? && !v.NativeFunction?
  }

  /** `JSON.parse(JSON.stringify(properties))`: entries holding undefined or a function are
      dropped; strings, integers, booleans and empty objects come back unchanged. */
  function JsonCopy(props: map<string, Value>): (r: map<string, Value>)
    ensures forall k :: k in r <==> k in props && JsonKeeps(props[k])
    ensures forall k <- r :: r[k] == props[k]
  {
    map k | k in props && JsonKeeps(props[k]) :: props[k]
  }

  /** The copy reads like the original, except that a function entry now reads undefined.
      Copying twice is copying once. */
  lemma JsonCopyReadsTheSame(props: map<string, Value>)
    ensures forall k :: Prop(JsonCopy(props), k) == if Prop(props, k).NativeFunction? then Undefined else Prop(props, k)
    ensures JsonCopy(JsonCopy(props)) == JsonCopy(props)
  {
  }

  /** The node `duplicateNode` appends: a fresh node of the original's kind, 40 units right of
      and below it, with the original's properties and comment but the template's title and
      freshly numbered pins. */
  function Duplicate(original: Node, newId: string): (n: Node)
    ensures n.id == newId && n.kind == original.kind
    ensures n.x == original.x + 40 && n.y == original.y + 40
    ensures n.title == Template(original.kind).title
    ensures n.comment == original.comment
    ensures forall k :: Prop(n.properties, k) == if Prop(original.properties, k).NativeFunction? then Undefined else Prop(original.properties, k)
    ensures forall p <- n.inputs + n.outputs :: p.nodeId == newId
  {
    JsonCopyReadsTheSame(original.properties);
    var made := CreateNode(original.kind, original.x + 40, original.y + 40, newId);
    made.(properties := JsonCopy(original.properties), comment := original.comment)
  }

  // ---------------------------------------------------------------- the hook's state

  class BlueprintState {
    var nodes: seq<Node>
    var wires: seq<Wire>
    var selectedNodeId: Option<string>

    /** Node ids and wire ids are unique, and no input pin has two incoming wires. */
    ghost predicate Valid()
      reads this
    {
      UniqueBy(nodes, NodeId) && UniqueBy(wires, WireId) && UniqueBy(wires, ToPinId)
    }

    constructor()
      ensures Valid()
      ensures nodes == [] && wires == [] && selectedNodeId == None
    {
      nodes := [];
      wires := [];
      selectedNodeId := None;
    }

    /** `selectedNode`: the node with the selected id, if any. */
    function SelectedNode(): (r: Option<Node>)
      reads this
      ensures r.Some? ==> selectedNodeId == Some(r.value.id) && r.value in nodes
      ensures selectedNodeId.Some? && (exists n <- nodes :: n.id == selectedNodeId.value) ==> r.Some?
    {
      if selectedNodeId.None? then None else FindNode(nodes, selectedNodeId.value)
    }

    method SetSelectedNodeId(nodeId: Option<string>)
      modifies this
      requires Valid()
      ensures Valid()
      ensures selectedNodeId == nodeId && nodes == old(nodes) && wires == old(wires)
    {
      selectedNodeId := nodeId;
    }

    method AddNode(kind: NodeType, x: int, y: int, nodeId: string)
      modifies this
      requires Valid()
      requires forall n <- nodes :: n.id != nodeId
      ensures Valid()
      ensures nodes == old(nodes) + [CreateNode(kind, x, y, nodeId)]
      ensures wires == old(wires) && selectedNodeId == old(selectedNodeId)
    {
      var node := CreateNode(kind, x, y, nodeId);
      UniqueBySnoc(nodes, node, NodeId);
      nodes := nodes + [node];
    }

    /** Overwrites the given fields of the node with id `nodeId`; every other node is kept. */
    method UpdateNode(nodeId: string, u: NodeUpdate)
      modifies this
      requires Valid()
      ensures Valid()
      ensures nodes == UpdateWhere(old(nodes), nodeId, u)
      ensures wires == old(wires) && selectedNodeId == old(selectedNodeId)
    {
      var updated := UpdateWhere(nodes, nodeId, u);
      UpdateKeepsIds(nodes, updated);
      nodes := updated;
    }

    method UpdateNodePosition(nodeId: string, x: int, y: int)
      modifies this
      requires Valid()
      ensures Valid()
      ensures nodes == UpdateWhere(old(nodes), nodeId, PositionUpdate(x, y))
      ensures wires == old(wires) && selectedNodeId == old(selectedNodeId)
    {
      UpdateNode(nodeId, PositionUpdate(x, y));
    }

    /** Merges `newProperties` over the node's properties (new entries win); no change when
        no node has the id. */
    method UpdateNodeProperties(nodeId: string, newProperties: map<string, Value>)
      modifies this
      requires Valid()
      ensures Valid()
      ensures FindNode(old(nodes), nodeId).None? ==> nodes == old(nodes)
      ensures FindNode(old(nodes), nodeId).Some? ==>
                nodes == UpdateWhere(old(nodes), nodeId,
                           PropertiesUpdate(FindNode(old(nodes), nodeId).value.properties + newProperties))
      ensures wires == old(wires) && selectedNodeId == old(selectedNodeId)
    {
      var node := FindNode(nodes, nodeId);
      if node.Some? {
        UpdateNode(nodeId, PropertiesUpdate(node.value.properties + newProperties));
      }
    }

    /** Adds a wire unless its input pin already has one; `added` tells which happened. */
    method AddWire(request: WireRequest, wireId: string) returns (added: bool)
      modifies this
      requires Valid()
      requires forall w <- wires :: w.id != wireId
      ensures Valid()
      ensures added <==> forall w <- old(wires) :: w.toPinId != request.toPinId
      ensures added ==> wires == old(wires) + [Wire(wireId, request.fromNodeId, request.fromPinId,
                                                    request.toNodeId, request.toPinId, request.dataType)]
      ensures !added ==> wires == old(wires)
      ensures nodes == old(nodes) && selectedNodeId == old(selectedNodeId)
    {
      if exists w <- wires :: w.toPinId == request.toPinId {
        return false;
      }
      var wire := Wire(wireId, request.fromNodeId, request.fromPinId, request.toNodeId, request.toPinId, request.dataType);
      UniqueBySnoc(wires, wire, WireId);
      UniqueBySnoc(wires, wire, ToPinId);
      wires := wires + [wire];
      return true;
    }

    method DeleteWire(wireId: string)
      modifies this
      requires Valid()
      ensures Valid()
      ensures wires == Filter(old(wires), OtherWire(wireId))
      ensures forall w :: w in wires <==> w in old(wires) && w.id != wireId
      ensures nodes == old(nodes) && selectedNodeId == old(selectedNodeId)
    {
      FilterUnique(wires, OtherWire(wireId), WireId);
      FilterUnique(wires, OtherWire(wireId), ToPinId);
      wires := Filter(wires, OtherWire(wireId));
    }

    /** Removes the node and every wire into or out of it, and clears the selection if the node
        was selected. */
    method DeleteNode(nodeId: string)
      modifies this
      requires Valid()
      ensures Valid()
      ensures nodes == Filter(old(nodes), OtherNode(nodeId))
      ensures wires == Filter(old(wires), Detached(nodeId))
      ensures forall n :: n in nodes <==> n in old(nodes) && n.id != nodeId
      ensures forall w :: w in wires <==> w in old(wires) && w.fromNodeId != nodeId && w.toNodeId != nodeId
      ensures selectedNodeId == if old(selectedNodeId) == Some(nodeId) then None else old(selectedNodeId)
    {
      FilterUnique(nodes, OtherNode(nodeId), NodeId);
      FilterUnique(wires, Detached(nodeId), WireId);
      FilterUnique(wires, Detached(nodeId), ToPinId);
      nodes := Filter(nodes, OtherNode(nodeId));
      wires := Filter(wires, Detached(nodeId));
      if selectedNodeId == Some(nodeId) {
        selectedNodeId := None;
      }
    }

    /** Appends a copy of the node with id `nodeId` under the fresh id `newId`; no change when
        no node has the id. Wires are never copied. */
    method DuplicateNode(nodeId: string, newId: string)
      modifies this
      requires Valid()
      requires forall n <- nodes :: n.id != newId
      ensures Valid()
      ensures FindNode(old(nodes), nodeId).None? ==> nodes == old(nodes)
      ensures FindNode(old(nodes), nodeId).Some? ==>
                nodes == old(nodes) + [Duplicate(FindNode(old(nodes), nodeId).value, newId)]
      ensures wires == old(wires) && selectedNodeId == old(selectedNodeId)
    {
      var original := FindNode(nodes, nodeId);
      if original.None? {
        return;
      }
      var copy := Duplicate(original.value, newId);
      UniqueBySnoc(nodes, copy, NodeId);
      nodes := nodes + [copy];
    }
  }
}
