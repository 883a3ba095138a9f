/** The application shell: the current colour, the document, and the toolbar's shape constructors. */
module Toolbar {
  import opened Types

  /** The colour selected when the application opens. */
  const DefaultColor: string := "#4CAF50"

  class App {
    var color: string
    var data: DiagramData

    /** Opens with the default colour and an empty document. */
    constructor ()
      ensures color == DefaultColor && data == DiagramData([], [])
    {
      color := DefaultColor;
      data := DiagramData([], []);
    }

    /** Appends a 100 by 60 rectangle at (100, 100) in the current colour. */
    method AddRectangle(id: string)
      modifies this
      ensures data.elements == old(data.elements) + [Element(id, Rectangle, 100.0, 100.0, 100.0, 60.0, old(color))]
      ensures data.connections == old(data.connections) && color == old(color)
    {
      var newElement := Element(id, Rectangle, 100.0, 100.0, 100.0, 60.0, color);
      data := data.(elements := data.elements + [newElement]);
    }

    /** Appends a 60 by 60 circle, its bounding box at (100, 100), in the current colour. */
    method AddCircle(id: string)
      modifies this
      ensures data.elements == old(data.elements) + [Element(id, Circle, 100.0, 100.0, 60.0, 60.0, old(color))]
      ensures data.connections == old(data.connections) && color == old(color)
    {
      var newElement := Element(id, Circle, 100.0, 100.0, 60.0, 60.0, color);
      data := data.(elements := data.elements + [newElement]);
    }

    /** Picks a new colour; existing elements keep theirs. */
    method ChangeColor(newColor: string)
      modifies this
      ensures color == newColor && data == old(data)
    {
      color := newColor;
    }
  }

  /** A colour change affects only the elements added after it. */
  method RecolorThenAdd(app: App, newColor: string, id: string)
    modifies app
    ensures |app.data.elements| == |old(app.data.elements)| + 1
    ensures app.data.elements[..|old(app.data.elements)|] == old(app.data.elements)
    ensures app.data.elements[|old(app.data.elements)|].color == newColor
  {
    app.ChangeColor(newColor);
    app.AddRectangle(id);
  }
}
