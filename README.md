# Diagram editor connection logic, in Dafny

This project models the core of a small diagram editor. Users place rectangles and circles on a
canvas, drag them around, and connect them with arrows. An arrow runs between anchor points that
sit 10 units outside the middle of each side of a shape.

The model covers these parts of the editor:

- **Types** (`types.dfy`): elements, connections, endpoints, the document, and the four sides.
- **Geometry** (`geometry.dfy`): the anchor of each side, and the strict square window of
  half-width 10 in which the pointer counts as being on an anchor.
- **Graph** (`graph.dfy`): the list operations of the handlers.
  - Moving every element with an id.
  - Removing an element together with its connections.
  - Looking an element up by id.
  - Deriving arrow endpoints. A connection with a missing endpoint is skipped.
- **Matcher** (`matcher.dfy`): the target search and the commit step.
  - The search walks the elements in list order and takes the first one with any anchor under
    the pointer. On that element it takes the first matching side in the order top, right, bottom,
    left.
  - `Resolve` is the layout effect. If the first hit is the gesture's own source, the gesture is
    cancelled. Otherwise one connection is appended, with no de-duplication, and the gesture ends.
    With no hit, nothing changes.
- **Editor** (`editor.dfy`): class `DiagramEditor`. It holds the component's four state fields:
  `elements`, `connections`, `selected` and `dragging`.
  - Its handlers are `Start`, `Move`, `MouseUp`, `Drag`, `Select`, `DeleteKey` and `Replace`.
  - Every handler that changes `elements` or `dragging` then runs `CheckMatch`, which is the
    effect. `MouseUp` is the exception: it only clears the gesture, and on an idle gesture the
    step does nothing (`Matcher.ResolveIdle`).
  - `Quiet` (no live gesture rests on an anchor) is kept by every handler. `Consistent` (every
    connection endpoint and the gesture's source exist) is kept by every handler except a delete
    of the gesture's source and a `Replace` with dangling references.
- **Toolbar** (`toolbar.dfy`): class `App`. It holds the current colour and the document, plus
  the add-rectangle, add-circle and colour-change handlers.
- **Scenarios** (`scenarios.dfy`): concrete gestures on two rectangles that sit side by side.

Behaviours of the code that are easy to miss, all modelled as written:

- The target search does not skip the gesture's source element. If the source is the first
  element with an anchor under the pointer, the gesture is cancelled at once. Because the gesture
  starts at the pressed point, pressing inside the window of one's own anchor cancels it
  immediately. This holds when that element is the first hit (`Scenarios.PressOnOwnAnchorCancels`).
- A commit can happen on the press itself and when an element is dragged under a resting
  pointer, not only on a pointer move.
- In the model, which applies `DeleteKey` to the current lists, deleting never commits or cancels
  (`Matcher.RemoveKeepsSettled`). In the code, the key listener can see older element lists (see
  "Left out"). A delete can then bring back older element positions and so commit or cancel a
  gesture, and it can undo element moves, added shapes and connections made since the selection.
- The code has no error paths: no duplicate-id check, no not-found error, and no validation of a
  replaced document. `Replace` installs whatever it is given.
- Deleting the gesture's source in the middle of a gesture does not cancel the gesture. A later
  hit on another element commits a connection from the deleted id. The arrow renderer then skips
  it (`Scenarios.DeleteSourceMidGesture`).
- `selectedElement` is tested for truthiness, so an element whose id is the empty string cannot be
  deleted. `DeleteKey` models this.

## Model

| member | source | states |
|---|---|---|
| `Matcher.DirectionsListEachSideOnce` | src/components/Diagram.tsx:14 | The side order lists each of the four sides exactly once. |
| `Geometry.ConnectionPoint` | src/components/Diagram.tsx:157-176 | A missing element gives (0, 0). Otherwise the point is 10 outside the given side, halfway along it. The default branch cannot be reached because a side is one of four values. |
| `Geometry.OnSideUnique` | src/components/Diagram.tsx:160-171 | That geometric description fixes the anchor uniquely. |
| `Geometry.AnchorOutsideBox` | src/components/Diagram.tsx:163-171 | Every anchor lies strictly outside the element's closed bounding box. |
| `Geometry.AnchorFollowsMove` | src/components/Diagram.tsx:160-171 | Moving an element's corner by (dx, dy) moves each of its anchors by (dx, dy). |
| `Geometry.Near` | src/components/Diagram.tsx:86 | The pointer is on an anchor exactly when both per-axis differences lie strictly between -10 and 10. |
| `Geometry.NearIsStrictSquare` | src/components/Diagram.tsx:101 | The window is a square, not a disc: (9, 9) away matches. Its border is excluded: 10 away on one axis does not match. |
| `Graph.FindById` | src/components/Diagram.tsx:70 | Returns an element with the id when one exists, and nothing exactly when none does. |
| `Graph.FindByIdIsFirst` | src/components/Diagram.tsx:180-181 | The element found is the first in list order with that id. |
| `Graph.MoveElements` | src/components/Diagram.tsx:55-57 | Length and order are kept. Elements with the id get the new x and y and keep every other field. All other elements are unchanged. |
| `Graph.MoveKeepsIds` | src/components/Diagram.tsx:56 | Every id present before a move is present after it. |
| `Graph.MoveKeepsReferenced` | src/components/Diagram.tsx:55-57 | A move keeps every connection's endpoints resolvable. |
| `Graph.RemoveElements` | src/components/Diagram.tsx:146 | The survivors are exactly the elements whose id differs from the removed one. |
| `Graph.RemoveElementsAppend` | src/components/Diagram.tsx:146 | Removal distributes over concatenation, so survivors keep their relative order. |
| `Graph.RemoveConnections` | src/components/Diagram.tsx:147 | The survivors are exactly the connections with neither endpoint on the removed id. |
| `Graph.RemoveConnectionsAppend` | src/components/Diagram.tsx:147 | Connection removal distributes over concatenation, so survivors keep their order. |
| `Graph.RemoveKeepsOtherIds` | src/components/Diagram.tsx:146 | Removing one id keeps every other id present. |
| `Graph.RemoveKeepsReferenced` | src/components/Diagram.tsx:144-150 | The cascade keeps referential integrity: every surviving connection's endpoints still exist. |
| `Graph.ArrowOf` | src/components/Diagram.tsx:179-185 | There is no arrow exactly when an endpoint's element is missing. Otherwise the arrow runs between the anchors of elements carrying the two ids, on the recorded sides. |
| `Graph.ArrowOfUsesFirst` | src/components/Diagram.tsx:180-185 | When ids repeat, the arrow runs between the anchors of the first element in list order carrying each id. |
| `Graph.ArrowEndpoints` | src/components/Diagram.tsx:178-186 | Gives one entry per connection, in connection order. |
| `Graph.AllArrowsDrawn` | src/components/Diagram.tsx:182 | When every endpoint exists, no connection is skipped. |
| `Matcher.SomeSideNear` | src/components/Diagram.tsx:84-87 | True exactly when some listed side of the element has its anchor under the pointer. |
| `Matcher.FindSide` | src/components/Diagram.tsx:99-102 | A side found is listed and under the pointer. When nothing is found, no listed side is under the pointer. |
| `Matcher.FindSideIsFirst` | src/components/Diagram.tsx:99-102 | The side found is the first listed side under the pointer. |
| `Matcher.Matches` | src/components/Diagram.tsx:83-88 | An element is a candidate exactly when one of its four anchors is under the pointer. |
| `Matcher.NoSideNoMatch` | src/components/Diagram.tsx:84-87 | An element with no side under the pointer is not a candidate. |
| `Matcher.FindSideAgreesWithMatches` | src/components/Diagram.tsx:104 | The side search succeeds exactly on candidate elements, so the `matchedPosition` guard always passes. |
| `Matcher.FindTarget` | src/components/Diagram.tsx:83-88 | A target found is a listed candidate. When nothing is found, no element is a candidate. |
| `Matcher.FindTargetIsFirst` | src/components/Diagram.tsx:83-88 | The first candidate in list order is the one found. |
| `Matcher.FindTargetPosition` | src/components/Diagram.tsx:83 | Conversely, the element found sits at a position that no earlier element matches. |
| `Matcher.Resolve` | src/components/Diagram.tsx:80-124 | The gesture ends or stays as it was. Prior connections are kept as a prefix, and at most one is added. Anything added goes from the gesture's source to an anchor, under the pointer, of an element with a different id, and the gesture ends. If the gesture stays, nothing is added. |
| `Matcher.ResolveIdle` | src/components/Diagram.tsx:81 | Without a gesture the step changes nothing. |
| `Matcher.ResolveNoTarget` | src/components/Diagram.tsx:90 | When no element has an anchor under the pointer, the connections and the gesture are unchanged. |
| `Matcher.ResolveSelfCancels` | src/components/Diagram.tsx:92-95 | When the first candidate is the gesture's source, the gesture becomes idle and the connections are unchanged. |
| `Matcher.ResolveCommits` | src/components/Diagram.tsx:104-120 | When the first candidate is another element, exactly one connection is appended, with no de-duplication. It runs from (source id, source side) to (that element, its first matching side), and the gesture becomes idle. |
| `Matcher.ResolveSettles` | src/components/Diagram.tsx:90-121 | After the step, no live gesture rests on an anchor. |
| `Matcher.ResolveOnSettled` | src/components/Diagram.tsx:81-90 | On a settled state the step changes nothing, whatever id it would use. |
| `Matcher.RemoveKeepsSettled` | src/components/Diagram.tsx:146 | Removing elements keeps a settled state settled, so the effect after a delete changes nothing. |
| `Matcher.ResolveIdempotent` | src/components/Diagram.tsx:124 | Running the step twice equals running it once, so extra re-runs of the effect are harmless. |
| `Matcher.ResolveKeepsReferenced` | src/components/Diagram.tsx:106-119 | If the gesture's source exists, a commit adds only connections whose two endpoints exist. |
| `Matcher.ResolveNoSelfLoop` | src/components/Diagram.tsx:92-95 | A commit never joins an id to itself. |
| `Editor.DiagramEditor.constructor` | src/components/Diagram.tsx:17-24 | Starts from the incoming document, or from empty lists. Nothing is selected, there is no gesture, and the state is quiet. It is consistent whenever the incoming connections resolve. |
| `Editor.DiagramEditor.CheckMatch` | src/components/Diagram.tsx:80-124 | The new connections and gesture are those `Resolve` gives. Elements and selection are untouched. The state ends quiet and stays consistent. |
| `Editor.DiagramEditor.Start` | src/components/Diagram.tsx:59-78 | For an absent element nothing changes. Otherwise a gesture from (id, side) at the pressed point is begun and resolved. Quietness and consistency are kept. |
| `Editor.DiagramEditor.Move` | src/components/Diagram.tsx:126-135 | While idle nothing changes. While dragging, only the pointer position is replaced, and the result is resolved. |
| `Editor.DiagramEditor.MouseUp` | src/components/Diagram.tsx:137-142 | The gesture becomes idle. No connection is added and nothing else changes. |
| `Editor.DiagramEditor.Drag` | src/components/Diagram.tsx:55-57 | The elements become the moved list. The gesture is then resolved against it. The selection is kept, and quietness and consistency hold after. |
| `Editor.DiagramEditor.Select` | src/components/Diagram.tsx:204 | Selects the id and changes nothing else. |
| `Editor.DiagramEditor.DeleteKey` | src/components/Diagram.tsx:144-150 | Applies to Delete or Backspace with a non-empty selection. It removes the element and its connections, clears the selection, and resolves. Otherwise nothing changes. From a quiet state the gesture is unchanged and the connections are exactly the survivors of the cascade. Consistency is kept unless the deleted element is the gesture's source. |
| `Editor.DiagramEditor.Replace` | src/components/Diagram.tsx:35-38 | Both lists are replaced wholesale by the incoming document, with no validation. The gesture is then resolved, and the selection is kept. The result is consistent when the document's connections resolve and the gesture's source is in it. |
| `Toolbar.App.constructor` | src/App.tsx:7-11 | Opens with colour #4CAF50 and an empty document. |
| `Toolbar.App.AddRectangle` | src/App.tsx:13-27 | Appends exactly one rectangle at (100, 100), 100 by 60, in the current colour. Existing elements, connections and the colour are unchanged. |
| `Toolbar.App.AddCircle` | src/App.tsx:29-43 | Appends exactly one circle with its box at (100, 100), 60 by 60, in the current colour. Everything else is unchanged. |
| `Toolbar.App.ChangeColor` | src/App.tsx:45-47 | Only the colour changes. |
| `Toolbar.RecolorThenAdd` | src/App.tsx:21 | After a colour change, existing elements keep their colours and the next element added carries the new one. |
| `Scenarios.ConnectAToB` | src/components/Diagram.tsx:104-120 | A gesture from A's right anchor, with the pointer on B's left anchor (290, 130), commits A.right to B.left and becomes idle. |
| `Scenarios.PressOnOwnAnchorCancels` | src/components/Diagram.tsx:92-95 | Pressing exactly on A's own right anchor cancels the gesture without adding a connection. |
| `Scenarios.PressBesideOwnAnchorStays` | src/components/Diagram.tsx:90 | Pressing 15 units right of that anchor leaves the gesture live. |
| `Scenarios.OrphanGestureCommits` | src/components/Diagram.tsx:104-119 | A gesture whose source is no longer listed still commits, leaving a connection that does not resolve. |
| `Scenarios.DeleteSourceMidGesture` | src/components/Diagram.tsx:144-150 | Select A, start from beside A's anchor, delete A, then move onto B's anchor. The result is the one connection A.right to B.left with only B left. |

## Left out

- Rendering is not modelled: the Konva stage, shapes, arrows, hover anchor circles, cursor
  styling and the live blue arrow. Only the endpoint pair of each drawn arrow is modelled.
- The circle's drag handler converts the circle's centre back to its top-left corner. That
  conversion is view code. `Drag` receives the top-left corner directly.
- The debounce on pointer moves is not modelled; a move takes effect at once. A delayed move
  that runs after mouse-up, spreading a null gesture, is therefore not represented.
- `Date.now()` id generation is not modelled. Element ids and connection ids are parameters.
- Console logging, the parent-notification effect and the first-mount flag are not modelled.
  So is the loop by which App feeds the document back into the component. `Replace` stands for
  one round of that sync.
- Registering the key listener on the window is not modelled. That listener is re-registered
  only when the selection changes, so it may see element and connection lists older than the
  current ones. The model applies `DeleteKey` to the current state.
- JSON export and import (stringify, file reading, parse, download link, alert) are I/O and are
  not modelled. They do no validation.
- Coordinates are modelled as exact reals, not IEEE doubles.
- `Matcher.Resolve`: its contract says what a commit adds but not which target and side are
  chosen. The first-match choice is stated by `Matcher.ResolveCommits`, `Matcher.ResolveSelfCancels`
  and `Matcher.ResolveNoTarget`.
