/** The diagram's value types: elements, connections and the document holding both. */
module Types {

  datatype Option<T> = None | Some(value: T)

  /** The four sides of an element's bounding box, each carrying one anchor. */
  datatype Side = Top | Right | Bottom | Left

  /** The two kinds of shape; a circle is inscribed in its bounding box. */
  datatype Kind = Rectangle | Circle

  /** A shape: (x, y) is the top-left corner of its bounding box. */
  datatype Element = Element(id: string, kind: Kind, x: real, y: real, width: real, height: real, color: string)

  /** One end of a connection: an element id and the side whose anchor it uses. */
  datatype Endpoint = Endpoint(elementId: string, position: Side)

  /** A directed arrow between two anchors. */
  datatype Connection = Connection(id: string, from: Endpoint, to: Endpoint)

  /** The document: ordered elements and ordered connections. */
  datatype DiagramData = DiagramData(elements: seq<Element>, connections: seq<Connection>)

  /** A point on the canvas. */
  datatype Point = Point(x: real, y: real)
}
