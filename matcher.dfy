/** The drag-to-connect gesture and the step that resolves it against the elements' anchors. */
module Matcher {
  import opened Types
  import opened Geometry
  import opened Graph

  /** The order in which the sides of one element are tried. */
  const Directions: seq<Side> := [Top, Right, Bottom, Left]

  lemma DirectionsListEachSideOnce()
    ensures forall s: Side :: s in Directions
    ensures forall i, j :: 0 <= i < j < |Directions| ==> Directions[i] != Directions[j]
  {
    forall s: Side ensures s in Directions {
      match s
      case Top => assert Directions[0] == s;
      case Right => assert Directions[1] == s;
      case Bottom => assert Directions[2] == s;
      case Left => assert Directions[3] == s;
    }
  }

  /** The pointer is on e's anchor for the given side. */
  predicate AnchorNear(e: Element, side: Side, p: Point)
  {
    Near(ConnectionPoint(Some(e), side), p)
  }

  /** `sides.some(...)`: some listed side of e has its anchor under the pointer. */
  predicate SomeSideNear(e: Element, p: Point, sides: seq<Side>): (b: bool)
    ensures b <==> exists s :: s in sides && AnchorNear(e, s, p)
  {
    if |sides| == 0 then false
    else
      assert forall s :: s in sides <==> s == sides[0] || s in sides[1..];
      AnchorNear(e, sides[0], p) || SomeSideNear(e, p, sides[1..])
  }

  /** `sides.find(...)`: a listed side of e whose anchor is under the pointer. */
  function FindSide(e: Element, p: Point, sides: seq<Side>): (r: Option<Side>)
    ensures r.Some? ==> r.value in sides && AnchorNear(e, r.value, p)
    ensures r.None? ==> forall s :: s in sides ==> !AnchorNear(e, s, p)
  {
    if |sides| == 0 then None
    else if AnchorNear(e, sides[0], p) then Some(sides[0])
    else
      assert forall s :: s in sides ==> s == sides[0] || s in sides[1..];
      FindSide(e, p, sides[1..])
  }

  /** The side found is the first listed side whose anchor is under the pointer. */
  lemma {:induction false} FindSideIsFirst(e: Element, p: Point, sides: seq<Side>, k: nat)
    requires k < |sides| && AnchorNear(e, sides[k], p)
    requires forall j :: 0 <= j < k ==> !AnchorNear(e, sides[j], p)
    ensures FindSide(e, p, sides) == Some(sides[k])
  {
    if k > 0 {
      FindSideIsFirst(e, p, sides[1..], k - 1);
    }
  }

  /** An element is a candidate target when any of its four anchors is under the pointer. */
  predicate Matches(e: Element, p: Point): (b: bool)
    ensures b <==> exists s: Side :: AnchorNear(e, s, p)
  {
    DirectionsListEachSideOnce();
    SomeSideNear(e, p, Directions)
  }

  /** An element with no anchor under the pointer on any of the four sides does not match. */
  lemma NoSideNoMatch(e: Element, p: Point)
    requires !AnchorNear(e, Top, p) && !AnchorNear(e, Right, p) && !AnchorNear(e, Bottom, p) && !AnchorNear(e, Left, p)
    ensures !Matches(e, p)
  {
    forall s: Side ensures !AnchorNear(e, s, p) {
      match s
      case Top =>
      case Right =>
      case Bottom =>
      case Left =>
    }
  }

  /** Once an element matches, the side search over Directions finds a side: the second search never fails. */
  lemma FindSideAgreesWithMatches(e: Element, p: Point)
    ensures FindSide(e, p, Directions).Some? <==> Matches(e, p)
  {
    DirectionsListEachSideOnce();
  }

  /** `elements.find(...)`: an element with some anchor under the pointer. */
  function FindTarget(elements: seq<Element>, p: Point): (r: Option<Element>)
    ensures r.Some? ==> r.value in elements && Matches(r.value, p)
    ensures r.None? ==> forall e :: e in elements ==> !Matches(e, p)
  {
    if |elements| == 0 then None
    else if Matches(elements[0], p) then Some(elements[0])
    else
      assert forall e :: e in elements ==> e == elements[0] || e in elements[1..];
      FindTarget(elements[1..], p)
  }

  /** The target found is the first matching element in list order. */
  lemma {:induction false} FindTargetIsFirst(elements: seq<Element>, p: Point, i: nat)
    requires i < |elements| && Matches(elements[i], p)
    requires forall j :: 0 <= j < i ==> !Matches(elements[j], p)
    ensures FindTarget(elements, p) == Some(elements[i])
  {
    if i > 0 {
      FindTargetIsFirst(elements[1..], p, i - 1);
    }
  }

  /** Conversely, a target found sits at a position that no earlier element matches. */
  lemma {:induction false} FindTargetPosition(elements: seq<Element>, p: Point) returns (i: nat)
    requires FindTarget(elements, p).Some?
    ensures i < |elements| && elements[i] == FindTarget(elements, p).value
    ensures forall j :: 0 <= j < i ==> !Matches(elements[j], p)
  {
    if Matches(elements[0], p) {
      i := 0;
    } else {
      var k := FindTargetPosition(elements[1..], p);
      i := k + 1;
    }
  }

  /** An in-progress connection gesture: its source anchor and the pointer. */
  datatype Gesture = Gesture(fromId: string, fromPosition: Side, toPosition: Point)

  /** The part of the editor state the match step updates. */
  datatype Outcome = Outcome(connections: seq<Connection>, dragging: Option<Gesture>)

  /** No live gesture rests on an anchor: the match step has nothing left to do. */
  predicate Settled(elements: seq<Element>, dragging: Option<Gesture>)
  {
    dragging.None? || FindTarget(elements, dragging.value.toPosition).None?
  }

  /** The connection made by a commit: from the gesture's source to an anchor, of another element, under the pointer. */
  ghost predicate CommitOf(elements: seq<Element>, g: Gesture, connId: string, c: Connection)
  {
    c.id == connId && c.from == Endpoint(g.fromId, g.fromPosition) && c.to.elementId != g.fromId &&
    exists e :: e in elements && e.id == c.to.elementId && AnchorNear(e, c.to.position, g.toPosition)
  }

  /**
   * The layout effect run after each change of the elements or of the gesture: the first element
   * with an anchor under the pointer either is the source (gesture cancelled) or receives a new
   * connection (appended, gesture cleared); with no such element nothing changes.
   */
  function Resolve(elements: seq<Element>, connections: seq<Connection>, dragging: Option<Gesture>, connId: string): (r: Outcome)
    ensures r.dragging.None? || r.dragging == dragging
    ensures |connections| <= |r.connections| <= |connections| + 1
    ensures r.connections[..|connections|] == connections
    ensures r.dragging == dragging ==> r.connections == connections
    ensures |r.connections| > |connections| ==>
      dragging.Some? && r.dragging.None? && CommitOf(elements, dragging.value, connId, r.connections[|connections|])
  {
    match dragging
    case None => Outcome(connections, None)
    case Some(g) =>
      match FindTarget(elements, g.toPosition)
      case None => Outcome(connections, dragging)
      case Some(target) =>
        if g.fromId == target.id then Outcome(connections, None)
        else
          match FindSide(target, g.toPosition, Directions)
          case None => Outcome(connections, dragging)
          case Some(side) =>
            var c := Connection(connId, Endpoint(g.fromId, g.fromPosition), Endpoint(target.id, side));
            assert (connections + [c])[..|connections|] == connections;
            Outcome(connections + [c], None)
  }

  /** Without a gesture the step does nothing. */
  lemma ResolveIdle(elements: seq<Element>, connections: seq<Connection>, connId: string)
    ensures Resolve(elements, connections, None, connId) == Outcome(connections, None)
  {
  }

  /** With no anchor of any element under the pointer, the gesture and the connections stay as they are. */
  lemma ResolveNoTarget(elements: seq<Element>, connections: seq<Connection>, g: Gesture, connId: string)
    requires forall e :: e in elements ==> !Matches(e, g.toPosition)
    ensures Resolve(elements, connections, Some(g), connId) == Outcome(connections, Some(g))
  {
  }

  /** When the first matching element is the gesture's own source, the gesture is cancelled and nothing is added. */
  lemma ResolveSelfCancels(elements: seq<Element>, connections: seq<Connection>, g: Gesture, connId: string, i: nat)
    requires i < |elements| && Matches(elements[i], g.toPosition)
    requires forall j :: 0 <= j < i ==> !Matches(elements[j], g.toPosition)
    requires elements[i].id == g.fromId
    ensures Resolve(elements, connections, Some(g), connId) == Outcome(connections, None)
  {
    FindTargetIsFirst(elements, g.toPosition, i);
  }

  /**
   * When the first matching element is another element, exactly one connection is appended, from the
   * source anchor to that element's first matching side in the order top, right, bottom, left.
   */
  lemma ResolveCommits(elements: seq<Element>, connections: seq<Connection>, g: Gesture, connId: string, i: nat, k: nat)
    requires i < |elements| && Matches(elements[i], g.toPosition)
    requires forall j :: 0 <= j < i ==> !Matches(elements[j], g.toPosition)
    requires elements[i].id != g.fromId
    requires k < |Directions| && AnchorNear(elements[i], Directions[k], g.toPosition)
    requires forall j :: 0 <= j < k ==> !AnchorNear(elements[i], Directions[j], g.toPosition)
    ensures Resolve(elements, connections, Some(g), connId) ==
      Outcome(connections + [Connection(connId, Endpoint(g.fromId, g.fromPosition), Endpoint(elements[i].id, Directions[k]))], None)
  {
    FindTargetIsFirst(elements, g.toPosition, i);
    FindSideIsFirst(elements[i], g.toPosition, Directions, k);
  }

  /** After the step no live gesture rests on an anchor. */
  lemma ResolveSettles(elements: seq<Element>, connections: seq<Connection>, dragging: Option<Gesture>, connId: string)
    ensures Settled(elements, Resolve(elements, connections, dragging, connId).dragging)
  {
    if dragging.Some? {
      var target := FindTarget(elements, dragging.value.toPosition);
      if target.Some? {
        FindSideAgreesWithMatches(target.value, dragging.value.toPosition);
      }
    }
  }

  /** On a settled state the step does nothing, whatever id it would use. */
  lemma ResolveOnSettled(elements: seq<Element>, connections: seq<Connection>, dragging: Option<Gesture>, connId: string)
    requires Settled(elements, dragging)
    ensures Resolve(elements, connections, dragging, connId) == Outcome(connections, dragging)
  {
  }

  /** Removing elements only shrinks the set of candidates, so a settled state stays settled. */
  lemma RemoveKeepsSettled(elements: seq<Element>, dragging: Option<Gesture>, id: string)
    requires Settled(elements, dragging)
    ensures Settled(RemoveElements(elements, id), dragging)
  {
  }

  /** Running the step twice is running it once, so extra or coalesced runs change nothing. */
  lemma ResolveIdempotent(elements: seq<Element>, connections: seq<Connection>, dragging: Option<Gesture>, connId: string, connId2: string)
    ensures var r := Resolve(elements, connections, dragging, connId);
      Resolve(elements, r.connections, r.dragging, connId2) == r
  {
    var r := Resolve(elements, connections, dragging, connId);
    ResolveSettles(elements, connections, dragging, connId);
    ResolveOnSettled(elements, r.connections, r.dragging, connId2);
  }

  /** A gesture whose source exists commits only connections whose two endpoints exist. */
  lemma ResolveKeepsReferenced(elements: seq<Element>, connections: seq<Connection>, dragging: Option<Gesture>, connId: string)
    requires Referenced(elements, connections)
    requires dragging.Some? ==> HasId(elements, dragging.value.fromId)
    ensures Referenced(elements, Resolve(elements, connections, dragging, connId).connections)
  {
    var r := Resolve(elements, connections, dragging, connId);
    forall c | c in r.connections
      ensures HasId(elements, c.from.elementId) && HasId(elements, c.to.elementId)
    {
      var i :| 0 <= i < |r.connections| && r.connections[i] == c;
      if i < |connections| {
        assert c == r.connections[..|connections|][i];
        assert c in connections;
      }
    }
  }

  /** A committed connection never joins an element id to itself. */
  lemma ResolveNoSelfLoop(elements: seq<Element>, connections: seq<Connection>, dragging: Option<Gesture>, connId: string)
    requires forall c :: c in connections ==> c.from.elementId != c.to.elementId
    ensures forall c :: c in Resolve(elements, connections, dragging, connId).connections ==> c.from.elementId != c.to.elementId
  {
    var r := Resolve(elements, connections, dragging, connId);
    forall c | c in r.connections ensures c.from.elementId != c.to.elementId {
      var i :| 0 <= i < |r.connections| && r.connections[i] == c;
      if i < |connections| {
        assert c == r.connections[..|connections|][i];
        assert c in connections;
      }
    }
  }
}
