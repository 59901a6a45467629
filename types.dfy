/** Value types shared by the whole editor: points, walls, anchors,
    dimensions, hubs, cables and the layer switches. */
module Types {

  datatype Option<T> = None | Some(value: T)

  /** A point in drawing units. */
  datatype Point = Point(x: real, y: real)

  datatype Material = Concrete | Glass | Wood | Metal | Drywall

  /** A wall is a centreline segment (x1, y1) - (x2, y2) with a physical
      thickness in metres; material and attenuation are pass-through data. */
  datatype Wall = Wall(id: string, x1: real, y1: real, x2: real, y2: real,
                       thickness: real, material: Material, attenuation: real)
  {
    function Start(): Point { Point(x1, y1) }
    function End(): Point { Point(x2, y2) }
  }

  /** A wall as handed to `addWall`, before it has an id. */
  datatype WallDraft = WallDraft(x1: real, y1: real, x2: real, y2: real,
                                 thickness: real, material: Material, attenuation: real)

  datatype Shape = Circle | Square

  datatype Anchor = Anchor(id: string, x: real, y: real, power: real, range: real,
                           radius: Option<real>, shape: Option<Shape>, groupId: Option<string>)

  /** An anchor as handed to `addAnchor`, before it has an id. */
  datatype AnchorDraft = AnchorDraft(x: real, y: real, power: real, range: real,
                                     radius: Option<real>, shape: Option<Shape>, groupId: Option<string>)

  datatype DimensionKind = Free | WallDimension

  /** A dimension annotation; its point list holds the two end points. */
  datatype Dimension = Dimension(id: string, kind: DimensionKind,
                                 x1: real, y1: real, x2: real, y2: real,
                                 labelText: string, textOffset: Option<Point>)

  datatype DimensionDraft = DimensionDraft(kind: DimensionKind,
                                           x1: real, y1: real, x2: real, y2: real,
                                           labelText: string, textOffset: Option<Point>)

  /** A network hub with a number of ports. */
  datatype Hub = Hub(id: string, x: real, y: real, capacity: nat)

  /** A routed cable between two devices, with its real-world length. */
  datatype Cable = Cable(id: string, fromId: string, toId: string, points: seq<Point>, length: real)

  datatype Layers = Layers(walls: bool, heatmap: bool, floorplan: bool, dimensions: bool)

  datatype Layer = WallsLayer | HeatmapLayer | FloorplanLayer | DimensionsLayer
}
