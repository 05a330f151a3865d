/** The layer record: a base constructor that validates the type tag, and
    the two variants built on it, raster (image payload plus bounds) and
    vector (feature-collection payload). */
module Layers {
  import opened Wrappers
  import opened Exceptions

  /** The two layer types the base constructor admits. */
  datatype Kind = Raster | Vector {
    /** The type tag as the source spells it. */
    function TypeName(): string
    {
      match this
      case Raster => "raster"
      case Vector => "vector"
    }
  }

  /** A coordinate pair, kept as the text it is written with: the store
      never computes on coordinates, it only stores and writes them out. */
  datatype Point = Point(x: string, y: string)

  /** `[upper_left, lower_right]`; no ordering between the corners is checked. */
  datatype Bounds = Bounds(upperLeft: Point, lowerRight: Point)

  /** The fields the base constructor sets: the name and the validated type. */
  datatype LayerHeader = LayerHeader(name: string, kind: Kind)

  /** A layer of the store. The variant is the layer's class; its `type`
      attribute is `Kind().TypeName()`, so class and type always agree. */
  datatype Layer =
    | RasterLayer(name: string, data: string, bounds: Bounds)
    | VectorLayer(name: string, data: string)
  {
    function Kind(): Kind
    {
      if RasterLayer? then Raster else Vector
    }
  }

  /** The base constructor `Layer(name, layer_type)`: any type tag other than
      "raster" or "vector" raises; otherwise name and type are stored as given. */
  function InitLayer(name: string, layerType: string): (r: Result<LayerHeader, Error>)
    ensures r.Success? <==> layerType == "raster" || layerType == "vector"
    ensures r.Failure? ==> r.error == LayerCreating
    ensures r.Success? ==> r.value.name == name && r.value.kind.TypeName() == layerType
  {
    if layerType == "raster" then Success(LayerHeader(name, Raster))
    else if layerType == "vector" then Success(LayerHeader(name, Vector))
    else Failure(LayerCreating)
  }

  /** Every kind's own tag passes the base constructor unchanged. */
  lemma InitLayerAcceptsEveryKind(name: string, k: Kind)
    ensures InitLayer(name, k.TypeName()) == Success(LayerHeader(name, k))
  {
  }

  /** `RasterLayer(name, data, bounds)`: a layer of type "raster" with the
      bounds attached as given. */
  function NewRasterLayer(name: string, data: string, bounds: Bounds): (l: Layer)
    ensures l.Kind() == Raster
    ensures l.name == name && l.data == data
    ensures l.RasterLayer? && l.bounds == bounds
  {
    RasterLayer(name, data, bounds)
  }

  /** `VectorLayer(name, data)`: a layer of type "vector". */
  function NewVectorLayer(name: string, data: string): (l: Layer)
    ensures l.Kind() == Vector
    ensures l.name == name && l.data == data
  {
    VectorLayer(name, data)
  }

  /** Both variants are built through the base constructor: it accepts
      their type tags and records the name and type they end up with. */
  lemma VariantsPassBaseConstructor(name: string, data: string, bounds: Bounds)
    ensures InitLayer(name, "raster") == Success(LayerHeader(name, NewRasterLayer(name, data, bounds).Kind()))
    ensures InitLayer(name, "vector") == Success(LayerHeader(name, NewVectorLayer(name, data).Kind()))
    ensures NewRasterLayer(name, data, bounds).Kind().TypeName() == "raster"
    ensures NewVectorLayer(name, data).Kind().TypeName() == "vector"
  {
  }
}
