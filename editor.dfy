/** The diagram component: its state fields and the handlers that update them. */
module Editor {
  import opened Types
  import opened Geometry
  import opened Graph
  import opened Matcher

  /** The two keys that delete the selected element. */
  predicate IsDeleteKey(key: string)
  {
    key == "Delete" || key == "Backspace"
  }

  class DiagramEditor {
    var elements: seq<Element>
    var connections: seq<Connection>
    var selected: Option<string>
    var dragging: Option<Gesture>

    /** Every connection's endpoints exist, and so does a live gesture's source. */
    ghost predicate Consistent()
      reads this
    {
      Referenced(elements, connections) && (dragging.Some? ==> HasId(elements, dragging.value.fromId))
    }

    /** The match step has already run: no live gesture rests on an anchor. */
    predicate Quiet()
      reads this
    {
      Settled(elements, dragging)
    }

    /** Starts from the incoming document, if any, with nothing selected and no gesture. */
    constructor (initialData: Option<DiagramData>)
      ensures elements == (if initialData.Some? then initialData.value.elements else [])
      ensures connections == (if initialData.Some? then initialData.value.connections else [])
      ensures selected == None && dragging == None
      ensures Quiet()
      ensures Referenced(elements, connections) ==> Consistent()
    {
      elements := if initialData.Some? then initialData.value.elements else [];
      connections := if initialData.Some? then initialData.value.connections else [];
      selected := None;
      dragging := None;
    }

    /**
     * The layout effect: run after every change of `elements` or `dragging`. It commits or cancels
     * the gesture as Resolve says and leaves the state quiet.
     */
    method CheckMatch(connId: string)
      modifies this
      ensures Outcome(connections, dragging) == Resolve(old(elements), old(connections), old(dragging), connId)
      ensures elements == old(elements) && selected == old(selected)
      ensures Quiet()
      ensures old(Consistent()) ==> Consistent()
    {
      ResolveSettles(elements, connections, dragging, connId);
      if old(Consistent()) {
        ResolveKeepsReferenced(elements, connections, dragging, connId);
      }
      if dragging.Some? {
        var g := dragging.value;
        var target := FindTarget(elements, g.toPosition);
        if target.Some? {
          if g.fromId == target.value.id {
            dragging := None;
            return;
          }
          var side := FindSide(target.value, g.toPosition, Directions);
          if side.Some? {
            var c := Connection(connId, Endpoint(g.fromId, g.fromPosition), Endpoint(target.value.id, side.value));
            connections := connections + [c];
            dragging := None;
          }
        }
      }
    }

    /** Mouse-down on an anchor: begins a gesture from an existing element, then runs the match step. */
    method Start(elementId: string, position: Side, point: Point, connId: string)
      modifies this
      ensures HasId(old(elements), elementId) ==>
        Outcome(connections, dragging) == Resolve(old(elements), old(connections), Some(Gesture(elementId, position, point)), connId)
      ensures !HasId(old(elements), elementId) ==> connections == old(connections) && dragging == old(dragging)
      ensures elements == old(elements) && selected == old(selected)
      ensures old(Quiet()) ==> Quiet()
      ensures old(Consistent()) ==> Consistent()
    {
      var element := FindById(elements, elementId);
      if element.None? {
        return;
      }
      dragging := Some(Gesture(elementId, position, point));
      CheckMatch(connId);
    }

    /** Pointer move: while dragging, only the pointer position changes, then the match step runs. */
    method Move(point: Point, connId: string)
      modifies this
      ensures old(dragging).None? ==> connections == old(connections) && dragging == None
      ensures old(dragging).Some? ==>
        Outcome(connections, dragging) == Resolve(old(elements), old(connections), Some(old(dragging).value.(toPosition := point)), connId)
      ensures elements == old(elements) && selected == old(selected)
      ensures old(Quiet()) ==> Quiet()
      ensures old(Consistent()) ==> Consistent()
    {
      if dragging.None? {
        return;
      }
      dragging := Some(dragging.value.(toPosition := point));
      CheckMatch(connId);
    }

    /** Mouse-up on the stage: the gesture ends without adding a connection. */
    method MouseUp()
      modifies this
      ensures dragging == None
      ensures elements == old(elements) && connections == old(connections) && selected == old(selected)
      ensures Quiet()
      ensures old(Consistent()) ==> Consistent()
    {
      if dragging.Some? {
        dragging := None;
      }
    }

    /** Dragging an element: elements with this id move to (x, y), then the match step runs. */
    method Drag(id: string, x: real, y: real, connId: string)
      modifies this
      ensures elements == MoveElements(old(elements), id, x, y)
      ensures Outcome(connections, dragging) == Resolve(elements, old(connections), old(dragging), connId)
      ensures selected == old(selected)
      ensures Quiet()
      ensures old(Consistent()) ==> Consistent()
    {
      if old(Consistent()) {
        MoveKeepsReferenced(elements, connections, id, x, y);
        if dragging.Some? {
          MoveKeepsIds(elements, id, x, y, dragging.value.fromId);
        }
      }
      elements := MoveElements(elements, id, x, y);
      CheckMatch(connId);
    }

    /** Clicking an element selects it. */
    method Select(id: string)
      modifies this
      ensures selected == Some(id)
      ensures elements == old(elements) && connections == old(connections) && dragging == old(dragging)
    {
      selected := Some(id);
    }

    /**
     * Delete or Backspace with a (non-empty) selection removes the selected element and every
     * connection touching it, clears the selection, then runs the match step; otherwise nothing changes.
     */
    method DeleteKey(key: string, connId: string)
      modifies this
      ensures IsDeleteKey(key) && old(selected).Some? && old(selected).value != "" ==>
        elements == RemoveElements(old(elements), old(selected).value) && selected == None &&
        Outcome(connections, dragging) ==
          Resolve(elements, RemoveConnections(old(connections), old(selected).value), old(dragging), connId)
      ensures !(IsDeleteKey(key) && old(selected).Some? && old(selected).value != "") ==>
        elements == old(elements) && connections == old(connections) && selected == old(selected) && dragging == old(dragging)
      ensures old(Quiet()) ==> Quiet() && dragging == old(dragging)
      ensures old(Quiet()) && IsDeleteKey(key) && old(selected).Some? && old(selected).value != "" ==>
        connections == RemoveConnections(old(connections), old(selected).value)
      ensures old(Consistent()) && (old(dragging).Some? ==> old(selected) != Some(old(dragging).value.fromId)) ==> Consistent()
    {
      if IsDeleteKey(key) && selected.Some? && selected.value != "" {
        var id := selected.value;
        if old(Quiet()) {
          RemoveKeepsSettled(elements, dragging, id);
          ResolveOnSettled(RemoveElements(elements, id), RemoveConnections(connections, id), dragging, connId);
        }
        if old(Consistent()) {
          RemoveKeepsReferenced(elements, connections, id);
          if dragging.Some? && id != dragging.value.fromId {
            RemoveKeepsOtherIds(elements, id, dragging.value.fromId);
          }
        }
        elements := RemoveElements(elements, id);
        connections := RemoveConnections(connections, id);
        selected := None;
        CheckMatch(connId);
      }
    }

    /** The incoming document replaces both lists wholesale, then the match step runs. */
    method Replace(data: DiagramData, connId: string)
      modifies this
      ensures elements == data.elements
      ensures Outcome(connections, dragging) == Resolve(data.elements, data.connections, old(dragging), connId)
      ensures selected == old(selected)
      ensures Quiet()
      ensures (Referenced(data.elements, data.connections) &&
               (old(dragging).Some? ==> HasId(data.elements, old(dragging).value.fromId))) ==> Consistent()
    {
      elements := data.elements;
      connections := data.connections;
      CheckMatch(connId);
    }
  }
}
