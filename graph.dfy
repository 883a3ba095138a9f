/** List operations of the editor over its elements and connections. */
module Graph {
  import opened Types
  import opened Geometry

  /** Some element carries this id. */
  predicate HasId(elements: seq<Element>, id: string)
  {
    exists e :: e in elements && e.id == id
  }

  /** Looks an element up by id, as `elements.find(el => el.id === id)`. */
  function FindById(elements: seq<Element>, id: string): (r: Option<Element>)
    ensures r.Some? ==> r.value in elements && r.value.id == id
    ensures r.None? <==> !HasId(elements, id)
  {
    if |elements| == 0 then None
    else if elements[0].id == id then Some(elements[0])
    else
      var rest := FindById(elements[1..], id);
      assert forall e :: e in elements ==> e == elements[0] || e in elements[1..];
      rest
  }

  /** The element found is the first in list order carrying the id. */
  lemma {:induction false} FindByIdIsFirst(elements: seq<Element>, id: string, i: nat)
    requires i < |elements| && elements[i].id == id
    requires forall j :: 0 <= j < i ==> elements[j].id != id
    ensures FindById(elements, id) == Some(elements[i])
  {
    if i > 0 {
      FindByIdIsFirst(elements[1..], id, i - 1);
    }
  }

  /** Every connection's two endpoints name an element of the list. */
  ghost predicate Referenced(elements: seq<Element>, connections: seq<Connection>)
  {
    forall c :: c in connections ==> HasId(elements, c.from.elementId) && HasId(elements, c.to.elementId)
  }

  /** Moves every element with the given id to (x, y), as the drag handler's `map`. */
  function MoveElements(elements: seq<Element>, id: string, x: real, y: real): (r: seq<Element>)
    ensures |r| == |elements|
    ensures forall i :: 0 <= i < |r| ==>
      r[i].id == elements[i].id && r[i].kind == elements[i].kind &&
      r[i].width == elements[i].width && r[i].height == elements[i].height && r[i].color == elements[i].color
    ensures forall i :: 0 <= i < |r| ==> elements[i].id == id ==> r[i].x == x && r[i].y == y
    ensures forall i :: 0 <= i < |r| ==> elements[i].id != id ==> r[i] == elements[i]
  {
    if |elements| == 0 then []
    else
      var head := if elements[0].id == id then elements[0].(x := x, y := y) else elements[0];
      [head] + MoveElements(elements[1..], id, x, y)
  }

  /** Moving keeps every id present. */
  lemma MoveKeepsIds(elements: seq<Element>, id: string, x: real, y: real, other: string)
    requires HasId(elements, other)
    ensures HasId(MoveElements(elements, id, x, y), other)
  {
    var e :| e in elements && e.id == other;
    var i :| 0 <= i < |elements| && elements[i] == e;
    assert MoveElements(elements, id, x, y)[i] in MoveElements(elements, id, x, y);
  }

  /** Moving keeps every connection's endpoints resolvable. */
  lemma MoveKeepsReferenced(elements: seq<Element>, connections: seq<Connection>, id: string, x: real, y: real)
    requires Referenced(elements, connections)
    ensures Referenced(MoveElements(elements, id, x, y), connections)
  {
    forall c | c in connections
      ensures HasId(MoveElements(elements, id, x, y), c.from.elementId)
      ensures HasId(MoveElements(elements, id, x, y), c.to.elementId)
    {
      MoveKeepsIds(elements, id, x, y, c.from.elementId);
      MoveKeepsIds(elements, id, x, y, c.to.elementId);
    }
  }

  /** Drops every element with the given id, keeping the others in order. */
  function RemoveElements(elements: seq<Element>, id: string): (r: seq<Element>)
    ensures |r| <= |elements|
    ensures forall e :: e in r <==> e in elements && e.id != id
  {
    if |elements| == 0 then []
    else
      var rest := RemoveElements(elements[1..], id);
      assert forall e :: e in elements <==> e == elements[0] || e in elements[1..];
      if elements[0].id == id then rest else [elements[0]] + rest
  }

  /** Removal works piecewise, so survivors keep their relative order. */
  lemma {:induction false} RemoveElementsAppend(a: seq<Element>, b: seq<Element>, id: string)
    ensures RemoveElements(a + b, id) == RemoveElements(a, id) + RemoveElements(b, id)
  {
    if |a| > 0 {
      assert (a + b)[1..] == a[1..] + b;
      RemoveElementsAppend(a[1..], b, id);
    } else {
      assert a + b == b;
    }
  }

  /** True when the connection has an endpoint on the given element id. */
  predicate Touches(c: Connection, id: string)
  {
    c.from.elementId == id || c.to.elementId == id
  }

  /** Drops every connection with an endpoint on the given id, keeping the others in order. */
  function RemoveConnections(connections: seq<Connection>, id: string): (r: seq<Connection>)
    ensures |r| <= |connections|
    ensures forall c :: c in r <==> c in connections && !Touches(c, id)
  {
    if |connections| == 0 then []
    else
      var rest := RemoveConnections(connections[1..], id);
      assert forall c :: c in connections <==> c == connections[0] || c in connections[1..];
      if Touches(connections[0], id) then rest else [connections[0]] + rest
  }

  /** Removal works piecewise, so surviving connections keep their relative order. */
  lemma {:induction false} RemoveConnectionsAppend(a: seq<Connection>, b: seq<Connection>, id: string)
    ensures RemoveConnections(a + b, id) == RemoveConnections(a, id) + RemoveConnections(b, id)
  {
    if |a| > 0 {
      assert (a + b)[1..] == a[1..] + b;
      RemoveConnectionsAppend(a[1..], b, id);
    } else {
      assert a + b == b;
    }
  }

  /** Removing one id keeps every other id present. */
  lemma RemoveKeepsOtherIds(elements: seq<Element>, id: string, other: string)
    requires HasId(elements, other) && other != id
    ensures HasId(RemoveElements(elements, id), other)
  {
    var e :| e in elements && e.id == other;
    assert e in RemoveElements(elements, id);
  }

  /** The cascade keeps referential integrity: no survivor points at the removed id or at any missing element. */
  lemma RemoveKeepsReferenced(elements: seq<Element>, connections: seq<Connection>, id: string)
    requires Referenced(elements, connections)
    ensures Referenced(RemoveElements(elements, id), RemoveConnections(connections, id))
  {
    forall c | c in RemoveConnections(connections, id)
      ensures HasId(RemoveElements(elements, id), c.from.elementId)
      ensures HasId(RemoveElements(elements, id), c.to.elementId)
    {
      RemoveKeepsOtherIds(elements, id, c.from.elementId);
      RemoveKeepsOtherIds(elements, id, c.to.elementId);
    }
  }

  /** The two ends of an arrow as drawn. */
  datatype Segment = Segment(from: Point, to: Point)

  /** The arrow for one connection, or nothing when an endpoint's element is missing. */
  function ArrowOf(elements: seq<Element>, c: Connection): (r: Option<Segment>)
    ensures r.None? <==> !HasId(elements, c.from.elementId) || !HasId(elements, c.to.elementId)
    ensures r.Some? ==>
      exists f, t :: f in elements && t in elements && f.id == c.from.elementId && t.id == c.to.elementId &&
        r.value == Segment(ConnectionPoint(Some(f), c.from.position), ConnectionPoint(Some(t), c.to.position))
  {
    var fromElement := FindById(elements, c.from.elementId);
    var toElement := FindById(elements, c.to.elementId);
    if fromElement.None? || toElement.None? then None
    else
      Some(Segment(ConnectionPoint(fromElement, c.from.position), ConnectionPoint(toElement, c.to.position)))
  }

  /** The arrow runs between the anchors of the first elements, in list order, carrying the two ids. */
  lemma ArrowOfUsesFirst(elements: seq<Element>, c: Connection, i: nat, j: nat)
    requires i < |elements| && elements[i].id == c.from.elementId
    requires forall k :: 0 <= k < i ==> elements[k].id != c.from.elementId
    requires j < |elements| && elements[j].id == c.to.elementId
    requires forall k :: 0 <= k < j ==> elements[k].id != c.to.elementId
    ensures ArrowOf(elements, c) ==
      Some(Segment(ConnectionPoint(Some(elements[i]), c.from.position), ConnectionPoint(Some(elements[j]), c.to.position)))
  {
    FindByIdIsFirst(elements, c.from.elementId, i);
    FindByIdIsFirst(elements, c.to.elementId, j);
  }

  /** One arrow per connection, in connection order. */
  function ArrowEndpoints(elements: seq<Element>, connections: seq<Connection>): (r: seq<Option<Segment>>)
    ensures |r| == |connections|
    ensures forall i :: 0 <= i < |r| ==> r[i] == ArrowOf(elements, connections[i])
  {
    if |connections| == 0 then []
    else [ArrowOf(elements, connections[0])] + ArrowEndpoints(elements, connections[1..])
  }

  /** Under referential integrity every connection is drawn. */
  lemma AllArrowsDrawn(elements: seq<Element>, connections: seq<Connection>)
    requires Referenced(elements, connections)
    ensures forall i :: 0 <= i < |connections| ==> ArrowEndpoints(elements, connections)[i].Some?
  {
    forall i | 0 <= i < |connections| ensures ArrowEndpoints(elements, connections)[i].Some? {
      assert connections[i] in connections;
    }
  }
}
