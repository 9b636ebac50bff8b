# Blueprint simulator: the interpreter and the editor's graph, in Dafny

The simulator is a browser editor for Unreal-style blueprints. You place nodes taken from a
fixed template table, such as Begin Play, Print String, Set Variable or Add Integer. You then
wire an output pin of one node to an input pin of another, and run the graph.

This project models the core of the simulator:

- **The interpreter `executeBlueprint`** is modelled twice.
  - Modules `Simulation`, `Coercion`, `VariableStore` and `Decimal` give its meaning as functions:
    - the lookup tables the run builds;
    - the on-demand evaluation of data pins;
    - one dispatch step per dequeued node;
    - the queue loop, cut off after 1000 nodes;
    - the trailer: the limit line, the separator, the header and the variable dump.
  - Module `Interpreter` is the imperative run: the same loops over the same state, written as methods. Each method is proved equal to the function that specifies it.
  - Module `RunProperties` states what a run does.
- **The node template table** is module `Templates`.
- **The records and enumerations** are module `Types`.
- **The editor's graph operations** are module `Editor`: a class holding the node list, the wire list and the selected node id.
- **The canvas's rule for when a drag creates a wire, and with which data type**, is module `Connection`.
- **The SVG ids a wire is drawn with** are module `WireIds`: the sanitised id, or a 32-bit string hash when nothing is left, and the ids derived from it.

JavaScript's dynamic values are the datatype `Value`: undefined, a string, an integer, a boolean, a built-in function or an object with no enumerable own properties. The variables live in the object `{}`, which inherits from `Object.prototype`. So a Get Variable named `constructor` or `toString` reads a built-in function when no such variable was set. An assignment to `__proto__` creates no variable. The JavaScript conversions the interpreter relies on are written out:

- `String(v)`, with built-in functions shown as V8 shows their source text;
- `!!v`;
- `s.trim()`, with the ECMAScript white-space set;
- the decimal-integer subset of `Number(text)`;
- `JSON.stringify` of a value;
- the own-key order of `Object.keys`, where names that are array indices come first, in ascending order;
- `Math.trunc(a / b)`;
- ToInt32.

A run that recurses without end through data pins ends in a stack overflow in JavaScript. It is modelled by giving the evaluation a depth budget (`EvalFuel`, one more than the number of wired input pins). `EvalPinFuelIrrelevant` proves that the budget never changes a result that finishes. Exhausting the budget is the `StackOverflow` outcome of a run. That exhausting this budget means the evaluation recurses without end is argued, not proved: a chain of that many wired pins must revisit a pin. Two cycles are proved to overflow at every budget (`SelfFeedingOperationOverflows`, `PrintingADataCycleOverflows`).

Notable behaviours of the code, modelled as written:

- The limit line is printed whenever the 1000th node is dequeued, even if that node was the last one.
- A Clear Variable node whose `name` is falsy (`0`, `''`, `false`, missing) deletes nothing. A Set Variable with the same name still stores a variable, under the name `String(name)`: `"0"`, `""`, `"false"` or `"undefined"`.
- Only the first Begin Play node starts the run.
- The interpreter's maps keep the last node with a given id and the last wire into a given pin.

## Model

| member | source | states |
|---|---|---|
| Templates.Template | constants.ts:32-239 | every kind has an entry whose type is its key; input templates are inputs, output templates outputs; no comment |
| Templates.AllKinds | types.ts:22-49 | the node kinds are seventeen distinct values |
| Templates.KindIndex | types.ts:22-49 | every kind is among those seventeen |
| Templates.BeginPlayShape | constants.ts:33-42 | Begin Play has no inputs and one unlabeled exec output |
| Templates.SequenceShape | constants.ts:43-55 | Sequence takes an exec input and leaves by `Then 0`, then `Then 1` |
| Templates.BranchShape | constants.ts:195-208 | Branch takes exec and boolean `Condition` and leaves by `True` or `False` |
| Templates.IntegerOperationShapes | constants.ts:104-194 | arithmetic and comparison kinds read integer `A`, `B`; the `Result` is an integer for arithmetic and a boolean for comparisons |
| Templates.NamedDefaults | constants.ts:56-102 | variable kinds default to the name `myVar`, Print String to the text `Hello World` |
| Templates.LiteralDefaults | constants.ts:209-238 | literals have no inputs, one `Value` output and the defaults '', 0 and false |
| Decimal.NatToString | services/simulationService.ts:51 | `String(n)` of an integer is a non-empty canonical numeral |
| Decimal.ParseIntToString | services/simulationService.ts:32 | `Number(String(i)) == i`: the numeral parses back |
| Coercion.Trim | services/simulationService.ts:30-31 | trimmed text is empty exactly when the input is blank, and otherwise has no white space at either end |
| Coercion.TrimPadded | services/simulationService.ts:30 | trimming removes exactly the padding around a text |
| Coercion.ParseNumericInput | services/simulationService.ts:24-42 | only a number, a boolean or non-blank text can give a number; undefined, a function and an object never do |
| Coercion.PrintText | services/simulationService.ts:192 | `String(value ?? '')` is empty exactly for undefined and the empty string |
| Coercion.Truthy | services/simulationService.ts:216 | `!!` is false exactly for undefined, `''`, 0 and false; a truthy value never prints as empty text |
| Coercion.JsonText | services/simulationService.ts:239 | `JSON.stringify` shows `undefined` exactly for undefined and functions; a string is quoted and its escaped body reads back to the string |
| Coercion.ParseNumericInputOfNumeral | services/simulationService.ts:24-42 | a padded numeral of any integer parses to that integer |
| Coercion.ParseNumericInputOfBlank | services/simulationService.ts:31 | blank text is not a number |
| Coercion.UnescapeEscapeJson | services/simulationService.ts:239 | the JSON escaping of a string in the dump reads back to the string |
| VariableStore.Get | services/simulationService.ts:71 | a name that is not a variable reads undefined exactly when it is not inherited from `Object.prototype` |
| VariableStore.Keys | services/simulationService.ts:237-238 | `Object.keys` is a permutation of the creation order with the array-index names first, in ascending numeric order; `KeysListOtherNamesInCreationOrder` states that the other names follow in creation order |
| VariableStore.KeysListOtherNamesInCreationOrder | services/simulationService.ts:237-238 | after the array-index names, `Object.keys` lists the other names in creation order |
| VariableStore.OtherNamesAppend | services/simulationService.ts:237-238 | the names that are not array indices keep their creation order |
| VariableStore.NewOtherNameListedLast | services/simulationService.ts:201 | a new variable whose name is not an array index is dumped last |
| VariableStore.Empty | services/simulationService.ts:5 | the variables start empty |
| VariableStore.InheritedNames | services/simulationService.ts:5 | an unset `constructor` reads the function `Object`, an unset `toString` the built-in `toString`, and an unset `myVar` undefined |
| VariableStore.Inherited | services/simulationService.ts:5 | a name reads undefined exactly when it is not inherited from `Object.prototype` |
| VariableStore.Set | services/simulationService.ts:201 | assigning sets that one name, keeps every other, and appends a new name to the creation order; an assignment to `__proto__` changes nothing |
| VariableStore.Remove | services/simulationService.ts:209 | `delete` removes that one name, keeps every other in its creation order, and the name reads what it inherits again |
| VariableStore.WithoutAppend | services/simulationService.ts:209 | removing a name from the creation order keeps the other names in order |
| VariableStore.WithoutAbsent | services/simulationService.ts:209 | deleting a name that is not a variable leaves the order unchanged |
| VariableStore.SortByIndex | services/simulationService.ts:237-238 | array-index names are put in ascending numeric order, as a permutation |
| VariableStore.KeysListEachVariableOnce | services/simulationService.ts:237-240 | `Object.keys` lists every variable exactly once and nothing else |
| Simulation.LastByKey | services/simulationService.ts:6-7 | the `Map` built from pairs holds every key of the list, each mapped to a listed element with that key |
| Simulation.LastByKeyLastWins | services/simulationService.ts:6-7 | when a key repeats, the `Map` keeps the last element with that key |
| Simulation.WiresFrom | services/simulationService.ts:8-16 | the wires listed for a pin are exactly the wires leaving it |
| Simulation.FirstMatch | services/simulationService.ts:19 | `find` returns the first matching pin |
| Simulation.ExecPins | services/simulationService.ts:151 | the exec outputs selected are exactly the exec pins with the label |
| Simulation.ExecPinsOfOne | services/simulationService.ts:183 | one pin is kept exactly when it is an exec pin with the wanted label |
| Simulation.ExecPinsAppend | services/simulationService.ts:218-220 | `filter` keeps the declared order and any repeats |
| Simulation.Targets | services/simulationService.ts:136-148 | successors skip exactly the wires whose destination node is missing |
| Simulation.NextExecNodes | services/simulationService.ts:136-148 | an unwired pin has no successors; every successor is the existing destination node of a wire leaving the pin |
| Simulation.Successors | services/simulationService.ts:153 | every node of the `flatMap` is a successor through one of the pins |
| Simulation.SingleExecSuccessors | services/simulationService.ts:150-154 | every successor comes through an unlabeled exec output of the node |
| Simulation.TargetsOfOne | services/simulationService.ts:141-146 | one wire leads to its destination node, or to nothing when that node is missing |
| Simulation.TargetsAppend | services/simulationService.ts:136-148 | the destination nodes come in wire order |
| Simulation.SuccessorsAppend | services/simulationService.ts:150-154 | the successors come in pin order |
| Simulation.TruncDiv | services/simulationService.ts:103 | `Math.trunc(a / b)`: the remainder is smaller than the divisor and has the dividend's sign |
| Simulation.IntegerOp | services/simulationService.ts:44-111 | comparisons give booleans and arithmetic gives numbers, with at most one warning; `NonNumericInputWarns`, `IntegerOpReadsParsedNumbers` and `DivideRoundsTowardZero` state when it warns and what it computes |
| Simulation.ApplyOperation | services/simulationService.ts:91-111 | only division by zero warns, yielding 0; comparisons give booleans, arithmetic gives numbers |
| Simulation.EvalPin | services/simulationService.ts:61-134 | only a wired pin can overflow; `UnwiredPinIsUndefined`, `UnwiredPrintUsesTextProperty`, `EvalPinFuelIrrelevant` and the two overflow lemmas state its values |
| Simulation.EvalWire | services/simulationService.ts:65-126 | a wire from an integer operation carries a boolean exactly when the operation is a comparison; `SetVariableThenGetVariable` states what a wire from Get Variable carries |
| Simulation.EvalOperation | services/simulationService.ts:78-111 | a comparison node yields a boolean and an arithmetic node a number |
| Simulation.EvalOperand | services/simulationService.ts:18-22 | an input can overflow only when the labelled integer pin exists and is wired |
| Simulation.Step | services/simulationService.ts:177-229 | a step keeps the variable store well formed |
| Simulation.Loop | services/simulationService.ts:171-230 | the loop stops at an empty queue or at 1000 dequeues, the count never exceeds 1000, and the output only grows |
| Simulation.FirstBeginPlay | services/simulationService.ts:156 | the start node is the first Begin Play |
| Simulation.VariableDump | services/simulationService.ts:237-243 | the dump has at least one line; `VariableDumpListsEachVariable` states what it contains |
| Simulation.Trailer | services/simulationService.ts:231-243 | the trailer ends with the variable dump, after at least two lines; `TrailerHasThreeLines` and `LimitLineIffLimitReached` state its first lines |
| Simulation.Execute | services/simulationService.ts:3-246 | a run that has a Begin Play and does not overflow reports the separator and the header; `RunEndsWithTrailer` states that it ends with the trailer of its final state, and `MissingBeginPlayIff` the missing-start case |
| Simulation.DumpLines | services/simulationService.ts:238-240 | one dump line per variable name |
| Interpreter.BuildWiresFromPin | services/simulationService.ts:8-16 | the loop builds exactly the specified `wiresFromPin` table |
| Interpreter.FindNextExecNodes | services/simulationService.ts:136-148 | the loop returns the specified successors through one pin |
| Interpreter.NextNodesFromPins | services/simulationService.ts:150-154 | the `flatMap` over exec pins returns the specified successors |
| Interpreter.Enqueue | services/simulationService.ts:165-169 | enqueueing appends the nodes in order |
| Interpreter.ExecuteNode | services/simulationService.ts:177-229 | the dispatch on the dequeued node gives the specified step: lines, new variables and successors |
| Interpreter.WriteTrailer | services/simulationService.ts:231-243 | the lines pushed after the loop are the specified trailer |
| Interpreter.WriteVariableLines | services/simulationService.ts:238-240 | the loop over `Object.entries` pushes the specified dump lines, in order |
| Interpreter.RunQueue | services/simulationService.ts:171-230 | the `while` loop ends in the state the specified loop reaches |
| Interpreter.ExecuteBlueprint | services/simulationService.ts:3-246 | the whole run returns what `Execute` specifies |
| RunProperties.MissingBeginPlayIff | services/simulationService.ts:156-159 | a run answers with just the missing-start error exactly when there is no Begin Play node |
| RunProperties.RunEndsWithTrailer | services/simulationService.ts:231-245 | a run with a Begin Play that does not overflow ends with the trailer of a well-formed final store and a count of at most 1000 |
| RunProperties.TrailerHasThreeLines | services/simulationService.ts:235-243 | the trailer always has the separator, the header and at least one dump line |
| RunProperties.VariableDumpListsEachVariable | services/simulationService.ts:237-243 | the dump shows every variable with its JSON value, one line each, or the placeholder when there are none |
| RunProperties.LimitLineIffLimitReached | services/simulationService.ts:231-233 | the limit line opens the trailer exactly when 1000 nodes were dequeued |
| RunProperties.IdleCycleRunsToLimit | services/simulationService.ts:163-175 | a cycle of nodes that do nothing runs until the 1000th dequeue and is cut off there |
| RunProperties.IdleBlueprintReportsLimit | services/simulationService.ts:171-243 | such a blueprint prints only the limit line and the empty dump |
| RunProperties.LimitReportedWhenLastNodeIsThe1000th | services/simulationService.ts:231-233 | the limit line appears even when the 1000th node empties the queue |
| RunProperties.SequenceFiresInOrder | services/simulationService.ts:182-186 | Sequence enqueues the successors of `Then 0` before those of `Then 1` |
| RunProperties.BranchFollowsCondition | services/simulationService.ts:214-225 | with a Boolean input, Branch leaves by `True` when the condition evaluates truthy and by `False` otherwise, reporting the evaluation's warnings, or crashes when the evaluation overflows |
| RunProperties.BranchWithoutConditionIsFalse | services/simulationService.ts:214-217 | without a Boolean input, or with an unwired one, Branch leaves by `False` and warns nothing |
| RunProperties.UnwiredPinIsUndefined | services/simulationService.ts:61-134 | an unwired input of a node other than Print String reads undefined with no warning |
| RunProperties.BranchExits | services/simulationService.ts:218-223 | the outputs labelled `True` and `False` each lead to the successors of that one pin |
| RunProperties.UnwiredPrintUsesTextProperty | services/simulationService.ts:127-131 | an unwired text pin prints the node's `text` property |
| RunProperties.SetVariableThenGetVariable | services/simulationService.ts:70-71 | a Get Variable of the same name reads the value Set Variable stored (`Object.prototype` for the name `__proto__`), and other variables are unchanged |
| RunProperties.SetProtoStoresNothing | services/simulationService.ts:197-205 | a Set Variable named `__proto__` leaves the variables as they were |
| RunProperties.InheritedNameReadsBuiltin | services/simulationService.ts:70-71 | an unset variable named `constructor` prints `function Object() { [native code] }`, is no number and is truthy; an unset `toString` prints `function toString() { [native code] }`; an unset ordinary name such as `myVar` reads undefined and prints empty text |
| RunProperties.ClearVariableRemovesOnlyTruthyName | services/simulationService.ts:206-213 | Clear Variable deletes exactly the named variable when the name is truthy, and nothing otherwise |
| RunProperties.ClearCannotRemoveVariableZero | services/simulationService.ts:207-209 | a variable stored under the number name 0 survives Clear Variable with that name |
| RunProperties.NonNumericInputWarns | services/simulationService.ts:44-59 | one warning naming both raw inputs exactly when one is not a number; the result is then false or 0 |
| RunProperties.WarningsDiffer | services/simulationService.ts:53 | the numeric-input warning never reads like the division warning |
| RunProperties.DivideRoundsTowardZero | services/simulationService.ts:98-103 | division by zero warns and yields 0; otherwise the quotient rounds toward zero |
| RunProperties.IntegerOpReadsParsedNumbers | services/simulationService.ts:24-42 | an operation sees only the numbers its inputs parse to |
| RunProperties.EvalPinMoreFuel | services/simulationService.ts:61-134 | a finished evaluation is unchanged with more depth |
| RunProperties.EvalPinFuelIrrelevant | services/simulationService.ts:61-134 | the result of a finished evaluation does not depend on the depth allowed |
| RunProperties.SelfFeedingOperationOverflows | services/simulationService.ts:78-79 | an operation fed from its own output recurses without end |
| RunProperties.PrintingADataCycleOverflows | services/simulationService.ts:188-192 | printing such a value crashes the run |
| RunProperties.EditorGraphsLoseNothing | services/simulationService.ts:6-7 | on graphs with unique node ids and one wire per input pin, the tables find every node and every wire |
| RunProperties.LoneBeginPlay | services/simulationService.ts:156-245 | a lone Begin Play prints only the empty dump |
| RunProperties.BeginPlayThenPrint | services/simulationService.ts:156-245 | Begin Play wired to a Print String prints its `text`, then the empty dump |
| Editor.CreatePins | hooks/useBlueprintState.ts:16-22 | each template pin becomes a pin owned by the new node, in order |
| Editor.CreateNode | hooks/useBlueprintState.ts:12-35 | a new node has the template's title, pins and properties, at the given position |
| Editor.PinIdIndex | hooks/useBlueprintState.ts:19 | the index keeps apart pin ids within one list, whatever the labels |
| Editor.PinIdDirection | hooks/useBlueprintState.ts:19 | the direction keeps apart input and output pin ids |
| Editor.CreateNodePinIdsDistinct | hooks/useBlueprintState.ts:16-31 | all pins of a new node have distinct ids |
| Editor.Filter | hooks/useBlueprintState.ts:72 | `filter` keeps exactly the elements passing the test |
| Editor.FilterAppend | hooks/useBlueprintState.ts:72 | filtering keeps the order |
| Editor.FilterUnique | hooks/useBlueprintState.ts:76-77 | filtering preserves distinct keys |
| Editor.ApplyUpdate | hooks/useBlueprintState.ts:45 | a spread update keeps the id; an empty update changes nothing |
| Editor.ApplyUpdateTwice | hooks/useBlueprintState.ts:45 | applying an update twice is applying it once |
| Editor.PositionUpdateOnlyMoves | hooks/useBlueprintState.ts:50-52 | a position update moves the node and changes nothing else |
| Editor.PropertiesUpdateOnlyChangesProperties | hooks/useBlueprintState.ts:57 | a properties update replaces the properties and changes nothing else |
| Editor.UpdateWhere | hooks/useBlueprintState.ts:42-48 | only nodes with the id change, in place; ids never change |
| Editor.FindNode | hooks/useBlueprintState.ts:55 | `find` returns a node with the id exactly when there is one |
| Editor.FindNodeIsTheNode | hooks/useBlueprintState.ts:96 | with unique ids, the node found is the node with that id |
| Editor.JsonCopy | hooks/useBlueprintState.ts:90 | the JSON copy keeps exactly the entries JSON can hold, dropping undefined and functions |
| Editor.JsonCopyReadsTheSame | hooks/useBlueprintState.ts:89-90 | the copy reads like the original, except that functions read undefined, and copying is idempotent |
| Editor.Duplicate | hooks/useBlueprintState.ts:87-91 | the duplicate has the same kind, is offset by 40, has the original's properties (functions dropped) and comment, and has its own pins |
| Editor.BlueprintState.constructor | hooks/useBlueprintState.ts:8-10 | the editor starts with no nodes, no wires and no selection |
| Editor.BlueprintState.SelectedNode | hooks/useBlueprintState.ts:96 | the selected node is a node carrying the selected id, and is found whenever one exists |
| Editor.BlueprintState.SetSelectedNodeId | hooks/useBlueprintState.ts:10 | selecting changes only the selection |
| Editor.BlueprintState.AddNode | hooks/useBlueprintState.ts:37-40 | appends the created node and keeps ids unique |
| Editor.BlueprintState.UpdateNode | hooks/useBlueprintState.ts:42-48 | only the node with the id is updated; wires and selection unchanged |
| Editor.BlueprintState.UpdateNodePosition | hooks/useBlueprintState.ts:50-52 | only that node's position changes |
| Editor.BlueprintState.UpdateNodeProperties | hooks/useBlueprintState.ts:54-59 | new properties are merged over the node's; no change for a missing node |
| Editor.BlueprintState.AddWire | hooks/useBlueprintState.ts:61-69 | a wire is appended exactly when no wire enters the same input pin; otherwise nothing changes |
| Editor.BlueprintState.DeleteWire | hooks/useBlueprintState.ts:71-73 | exactly the wires with the id go; nodes and selection stay |
| Editor.BlueprintState.DeleteNode | hooks/useBlueprintState.ts:75-81 | the node and every wire into or out of it go, and its selection is cleared |
| Editor.BlueprintState.DuplicateNode | hooks/useBlueprintState.ts:83-94 | appends the duplicate, or nothing for a missing node; wires are not copied |
| Connection.CompatibleIsEqualityUpToAny | components/Canvas.tsx:107-112 | pins are compatible exactly when their types are equal or one is `Any` |
| Connection.ResolvedType | components/Canvas.tsx:118 | exec for an exec source, else the source type unless `Any`, then the target's; `Any` only if both are |
| Connection.ResolvedTypeOfCompatiblePins | components/Canvas.tsx:118 | between compatible pins the wire takes the more specific type |
| Connection.Connect | components/Canvas.tsx:106-120 | a wire is asked for exactly between pins of different nodes with compatible types, with the endpoints copied |
| Connection.Canvas.PinMouseDown | components/Canvas.tsx:95-101 | a drag starts only from an output pin, on the left button |
| Connection.Canvas.PinMouseUp | components/Canvas.tsx:103-123 | the preview is always cleared; a wire is asked for only from an output to an input pin |
| WireIds.Sanitize | components/Wire.tsx:34 | the sanitised id holds only `[A-Za-z0-9_-]`, keeping every such character |
| WireIds.SanitizeAppend | components/Wire.tsx:34 | sanitising keeps the order |
| WireIds.SanitizeKeepsIdChars | components/Wire.tsx:34-37 | an id of id characters is left unchanged |
| WireIds.SanitizeIdempotent | components/Wire.tsx:34 | sanitising twice is sanitising once |
| WireIds.SanitizeEmptyIff | components/Wire.tsx:35 | nothing is left exactly when the id has no id character |
| WireIds.ToInt32 | components/Wire.tsx:42 | or-ing with 0 gives the signed 32-bit integer congruent to the value |
| WireIds.CodeUnits | components/Wire.tsx:40-41 | `charCodeAt` reads UTF-16 code units, at least one per character |
| WireIds.HashRound | components/Wire.tsx:41-42 | one loop round wraps to the same value as the unbounded step `31 * h + c` |
| WireIds.StringHash | components/Wire.tsx:39-43 | the loop computes the polynomial hash modulo 2^32, as a signed 32-bit integer |
| WireIds.ComputeBaseId | components/Wire.tsx:33-45 | the base id is the sanitised id, or `wire-` and the hash's magnitude |
| WireIds.BaseIdWellFormed | components/Wire.tsx:33-45 | a base id is never empty and holds only id characters |
| WireIds.BaseIdOfPlainId | components/Wire.tsx:34-37 | an id of id characters is its own base id |
| WireIds.BaseIdsCanCollide | components/Wire.tsx:34 | ids that differ only in other characters share a base id |
| WireIds.DerivedIdsDistinct | components/Wire.tsx:47-49 | the gradient, inner and glow ids differ from each other, and each determines the base id |

## Left out

- Id generation (`Date.now`, `Math.random`) is left out: fresh node and wire ids are parameters, required to be unused.
- React state batching and stale closures are left out. For example, `addWire` tests the wire list it closed over but appends to the latest one. The editor's operations are modelled as one transition after another.
- The `console.warn` of a refused wire is left out; `AddWire` reports the refusal as a result instead.
- Numbers are mathematical integers.
  - `Number(text)` is modelled for an optional sign and decimal digits only: no fractions, exponents, hex, `Infinity` or `NaN`.
  - Non-integral and unsafe doubles, BigInt inputs and `null` are not modelled.
  - Add, Subtract and Multiply are exact.
- Node positions are integers; the `+ 40` of a duplicate is exact.
- `EvalPin`: JavaScript's call-stack limit is stood in for by a depth budget of one more than the number of wired input pins. Every recursion through a data pin follows a wire, so that budget should be exhausted only by a cyclic evaluation, which never finishes in JavaScript either. This is argued, not proved. The converse gap remains: a long acyclic chain of data nodes can overflow JavaScript's stack, while the model always finishes it.
- `JSON.stringify` is modelled for the values the model has: strings, integers, booleans, built-in functions and `Object.prototype`. An undefined value or a function prints as `undefined`, and `Object.prototype` prints as `{}`. Escaping covers the characters JSON requires escaped. Strings are sequences of characters, so a string holding a lone UTF-16 surrogate cannot be represented; `JSON.stringify` would write such a unit as a `\udXXX` escape.
- `Editor.JsonCopy`: the copy is stated on the model's values. A JSON round trip that changes a value otherwise (`NaN`, nested objects) is not modelled, because the model's numbers are integers and it has no nested objects.
- `VariableStore.Set`: assigning a built-in function to `__proto__` makes that function the prototype of `variables` in JavaScript, which changes what other unset names read. The model ignores every assignment to `__proto__`. Such a value can only come from a Get Variable of an inherited name.
- Rendering is left out: JSX, drag positions, `getPinPosition`, Bézier control points, stroke widths, opacities, colour tables, context menus and keyboard handlers.
- `Connection.Canvas.PinMouseUp`: the preview's mouse position and the canvas-level `handleMouseUp` (which also clears the preview) are not modelled.
