/** Concrete gestures on two rectangles side by side. */
module Scenarios {
  import opened Types
  import opened Geometry
  import opened Graph
  import opened Matcher
  import opened Editor

  /** A 100 by 60 rectangle at (100, 100): anchors (150, 90), (210, 130), (150, 170), (90, 130). */
  const A: Element := Element("A", Rectangle, 100.0, 100.0, 100.0, 60.0, "#4CAF50")

  /** A 100 by 60 rectangle at (300, 100): anchors (350, 90), (410, 130), (350, 170), (290, 130). */
  const B: Element := Element("B", Rectangle, 300.0, 100.0, 100.0, 60.0, "#4CAF50")

  /** Dragging from A's right anchor onto B's left anchor connects A.right to B.left and ends the gesture. */
  lemma ConnectAToB()
    ensures Resolve([A, B], [], Some(Gesture("A", Right, Point(290.0, 130.0))), "c1") ==
      Outcome([Connection("c1", Endpoint("A", Right), Endpoint("B", Left))], None)
  {
    var p := Point(290.0, 130.0);
    NoSideNoMatch(A, p);
    assert AnchorNear(B, Left, p);
    assert !AnchorNear(B, Top, p) && !AnchorNear(B, Right, p) && !AnchorNear(B, Bottom, p);
    ResolveCommits([A, B], [], Gesture("A", Right, p), "c1", 1, 3);
  }

  /**
   * The source is not excluded from the search: pressing exactly on A's own right anchor, with A first
   * in the list, cancels the gesture at once.
   */
  lemma PressOnOwnAnchorCancels()
    ensures Resolve([A, B], [], Some(Gesture("A", Right, Point(210.0, 130.0))), "c1") == Outcome([], None)
  {
    assert AnchorNear(A, Right, Point(210.0, 130.0));
    ResolveSelfCancels([A, B], [], Gesture("A", Right, Point(210.0, 130.0)), "c1", 0);
  }

  /** Pressing 15 units right of A's right anchor lands on no anchor: the gesture stays live. */
  lemma PressBesideOwnAnchorStays(elements: seq<Element>, connId: string)
    requires elements == [A, B] || elements == [B]
    ensures Resolve(elements, [], Some(Gesture("A", Right, Point(225.0, 130.0))), connId) ==
      Outcome([], Some(Gesture("A", Right, Point(225.0, 130.0))))
  {
    var press := Point(225.0, 130.0);
    NoSideNoMatch(A, press);
    NoSideNoMatch(B, press);
    ResolveNoTarget(elements, [], Gesture("A", Right, press), connId);
  }

  /** A gesture from a deleted element still commits when the pointer reaches B's left anchor. */
  lemma OrphanGestureCommits()
    ensures Resolve([B], [], Some(Gesture("A", Right, Point(290.0, 130.0))), "c3") ==
      Outcome([Connection("c3", Endpoint("A", Right), Endpoint("B", Left))], None)
    ensures !Referenced([B], [Connection("c3", Endpoint("A", Right), Endpoint("B", Left))])
  {
    var p := Point(290.0, 130.0);
    assert AnchorNear(B, Left, p);
    assert !AnchorNear(B, Top, p) && !AnchorNear(B, Right, p) && !AnchorNear(B, Bottom, p);
    ResolveCommits([B], [], Gesture("A", Right, p), "c3", 0, 3);
    assert !HasId([B], "A");
  }

  /**
   * Deleting the gesture's source mid-gesture does not cancel the gesture; a later move onto B's anchor
   * commits a connection from the deleted element, which is then left dangling.
   */
  method DeleteSourceMidGesture() returns (editor: DiagramEditor)
    ensures editor.connections == [Connection("c3", Endpoint("A", Right), Endpoint("B", Left))]
    ensures editor.elements == [B] && !Referenced(editor.elements, editor.connections)
  {
    editor := new DiagramEditor(Some(DiagramData([A, B], [])));
    editor.Select("A");
    assert A in editor.elements;
    PressBesideOwnAnchorStays([A, B], "c1");
    editor.Start("A", Right, Point(225.0, 130.0), "c1");
    assert RemoveElements([A, B], "A") == [B];
    assert RemoveConnections([], "A") == [];
    PressBesideOwnAnchorStays([B], "c2");
    editor.DeleteKey("Delete", "c2");
    OrphanGestureCommits();
    editor.Move(Point(290.0, 130.0), "c3");
  }
}
