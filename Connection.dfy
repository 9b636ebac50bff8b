/** The canvas's connection rule: a drag starts on an output pin, and releasing it over an
    input pin of another node with a compatible type asks the editor for a new wire. */
module Connection {
  import opened Types

  /** The compatibility test as written: equal types, either side `Any`, or both `Exec`. */
  predicate Compatible(fromType: DataType, toType: DataType)
  {
    toType == fromType || fromType == Any || toType == Any || (fromType == Exec && toType == Exec)
  }

  /** The `Exec`-to-`Exec` clause adds nothing: compatibility is equality up to `Any`. */
  lemma CompatibleIsEqualityUpToAny(a: DataType, b: DataType)
    ensures Compatible(a, b) <==> a == b || a == Any || b == Any
    ensures Compatible(a, b) == Compatible(b, a)
  {
  }

  /** The data type the new wire carries: `Exec` for an exec source, otherwise the source's
      type unless it is `Any`, in which case the target's. */
  function ResolvedType(fromType: DataType, toType: DataType): (d: DataType)
    ensures fromType == Exec ==> d == Exec
    ensures fromType != Any ==> d == fromType
    ensures fromType == Any ==> d == toType
    ensures d == Any <==> fromType == Any && toType == Any
  {
    if fromType == Exec then Exec else if fromType != Any then fromType else toType
  }

  /** Between compatible pins the wire's type is the more specific of the two. */
  lemma ResolvedTypeOfCompatiblePins(a: DataType, b: DataType)
    requires Compatible(a, b)
    ensures ResolvedType(a, b) == (if a == Any then b else a)
    ensures b != Any ==> ResolvedType(a, b) == b
  {
  }

  /** The wire asked for when a drag from `fromPin` ends on the input pin `toPin`: none between
      two pins of one node or between incompatible types. */
  function Connect(fromPin: Pin, toPin: Pin): (r: Option<WireRequest>)
    ensures r.Some? <==> fromPin.nodeId != toPin.nodeId && Compatible(fromPin.dataType, toPin.dataType)
    ensures r.Some? ==> && r.value.fromNodeId == fromPin.nodeId && r.value.fromPinId == fromPin.id
                        && r.value.toNodeId == toPin.nodeId && r.value.toPinId == toPin.id
                        && r.value.dataType == ResolvedType(fromPin.dataType, toPin.dataType)
  {
    if toPin.nodeId != fromPin.nodeId && Compatible(fromPin.dataType, toPin.dataType) then
      Some(WireRequest(fromPin.nodeId, fromPin.id, toPin.nodeId, toPin.id,
        if fromPin.dataType == Exec then Exec
        else if fromPin.dataType != Any then fromPin.dataType
        else toPin.dataType))
    else None
  }

  /** The left mouse button. */
  const LeftButton := 0

  /** The canvas's wire preview: the output pin a drag started from, while one is in progress. */
  class Canvas {
    var wirePreview: Option<Pin>

    /** A drag only ever starts from an output pin. */
    ghost predicate Valid()
      reads this
    {
      wirePreview.Some? ==> wirePreview.value.direction == Output
    }

    constructor()
      ensures Valid() && wirePreview == None
    {
      wirePreview := None;
    }

    /** A left press on an output pin starts a drag from it; any other press changes nothing. */
    method PinMouseDown(button: int, pin: Pin)
      modifies this
      requires Valid()
      ensures Valid()
      ensures wirePreview == if button == LeftButton && pin.direction == Output then Some(pin) else old(wirePreview)
    {
      if button == LeftButton && pin.direction == Output {
        wirePreview := Some(pin);
      }
    }

    /** Releasing over a pin ends the drag whatever happens; a left release over an input pin
        asks for the wire `Connect` allows, which then runs from an output to an input pin. */
    method PinMouseUp(button: int, toPin: Pin) returns (request: Option<WireRequest>)
      modifies this
      requires Valid()
      ensures Valid() && wirePreview == None
      ensures request ==
                if button == LeftButton && old(wirePreview).Some? && toPin.direction == Input
                then Connect(old(wirePreview).value, toPin) else None
      ensures request.Some? ==> old(wirePreview).Some? && old(wirePreview).value.direction == Output
                                && toPin.direction == Input
                                && request.value.fromNodeId != request.value.toNodeId
    {
      request := None;
      if button == LeftButton && wirePreview.Some? && toPin.direction == Input {
        request := Connect(wirePreview.value, toPin);
      }
      wirePreview := None;
    }
  }
}
