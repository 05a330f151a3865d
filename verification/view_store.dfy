/** The editor's view: the ordered layer store (insertion order is drawing
    order) and the selected tile set, with the operations that add and
    remove layers. Commands sent to the map renderer are not modelled. */
module MapView {
  import opened Wrappers
  import opened Exceptions
  import opened Text
  import opened Layers

  /** The tile sets a view can be created with: the keys of the tile table. */
  const TileNames: set<string> := {"OpenStreetMap"}

  datatype View = View(layers: seq<Layer>, mapTiles: string)

  /** The view constructor: unknown tile sets are refused, the store starts empty. */
  function NewView(mapTiles: string): (r: Result<View, Error>)
    ensures r.Success? <==> mapTiles == "OpenStreetMap"
    ensures r.Failure? ==> r.error == MapCreating
    ensures r.Success? ==> r.value.layers == [] && r.value.mapTiles == mapTiles
  {
    if mapTiles !in TileNames then Failure(MapCreating)
    else Success(View([], mapTiles))
  }

  /** `check_layer_name`: only the ' ' character is removed before the
      emptiness test, so a name of tabs or newlines is accepted. */
  function CheckLayerName(name: string): (ok: bool)
    ensures ok <==> exists i :: 0 <= i < |name| && name[i] != ' '
  {
    StripEmptyIff(name, ' ');
    |Strip(name, ' ')| > 0
  }

  /** `has_layer`: a scan over the whole store for an exactly equal name. */
  function HasLayer(layers: seq<Layer>, name: string): (found: bool)
    ensures found <==> exists i :: 0 <= i < |layers| && layers[i].name == name
  {
    if |layers| == 0 then false
    else HasLayer(layers[..|layers| - 1], name) || layers[|layers| - 1].name == name
  }

  /** The index of the first layer called `name`, if any. */
  function FirstIndex(layers: seq<Layer>, name: string): (r: Option<nat>)
    ensures r.Some? ==> r.value < |layers| && layers[r.value].name == name
    ensures r.Some? ==> forall j :: 0 <= j < r.value ==> layers[j].name != name
    ensures r.None? <==> !HasLayer(layers, name)
  {
    if |layers| == 0 then None
    else if layers[0].name == name then Some(0)
    else match FirstIndex(layers[1..], name)
      case None => None
      case Some(k) => Some(k + 1)
  }

  /** Names are pairwise distinct. */
  ghost predicate DistinctNames(layers: seq<Layer>)
  {
    forall i, j :: 0 <= i < j < |layers| ==> layers[i].name != layers[j].name
  }

  /** What every sequence of successful adds and removes keeps true: distinct
      names, each of which passed the name check. */
  ghost predicate Consistent(layers: seq<Layer>)
  {
    && DistinctNames(layers)
    && forall i :: 0 <= i < |layers| ==> CheckLayerName(layers[i].name)
  }

  /** `after` is `before` with `layer` appended and nothing else changed. */
  ghost predicate Appended(before: seq<Layer>, after: seq<Layer>, layer: Layer)
  {
    |after| == |before| + 1 && after[..|before|] == before && after[|before|] == layer
  }

  /** `add_map_layer`: a stub that only refuses a name already in the store;
      it adds nothing. */
  function AddMapLayer(v: View, name: string, mapType: string): (r: Result<View, Error>)
    ensures r.Success? <==> !HasLayer(v.layers, name)
    ensures r.Failure? ==> r.error == LayerAdding(DuplicateName)
    ensures r.Success? ==> r.value == v
  {
    if HasLayer(v.layers, name) then Failure(LayerAdding(DuplicateName))
    else Success(v)
  }

  /** `add_vector_layer`: the name check, then the duplicate check; a missing
      payload is read from `filePath` by `readGeoJson` (None: the file could
      not be read). A supplied payload, even an empty one, is used as is. */
  function AddVectorLayer(v: View, name: string, filePath: string, data: Option<string>,
                          readGeoJson: string -> Option<string>): (r: Result<View, Error>)
    ensures !CheckLayerName(name) ==> r == Failure(LayerAdding(IncorrectName))
    ensures CheckLayerName(name) && HasLayer(v.layers, name) ==> r == Failure(LayerAdding(DuplicateName))
    ensures (CheckLayerName(name) && !HasLayer(v.layers, name) && data.None? && readGeoJson(filePath).None?)
              ==> r == Failure(FileOpening(CannotRead))
    ensures r.Success? <==> CheckLayerName(name) && !HasLayer(v.layers, name)
                            && (data.Some? || readGeoJson(filePath).Some?)
    ensures r.Success? ==> r.value.mapTiles == v.mapTiles
    ensures r.Success? ==> Appended(v.layers, r.value.layers,
                                    VectorLayer(name, if data.Some? then data.value else readGeoJson(filePath).value))
    ensures r.Success? && Consistent(v.layers) ==> Consistent(r.value.layers)
  {
    if !CheckLayerName(name) then Failure(LayerAdding(IncorrectName))
    else if HasLayer(v.layers, name) then Failure(LayerAdding(DuplicateName))
    else
      var payload :=
        match data
        case Some(d) => Some(d)
        case None => readGeoJson(filePath);
      match payload
      case None => Failure(FileOpening(CannotRead))
      case Some(d) => Success(v.(layers := v.layers + [NewVectorLayer(name, d)]))
  }

  /** `add_raster_layer`: the name check, then the duplicate check; without a
      payload the path must exist (`pathExists`) and the file is turned into
      one by `imageToData`, which fails (None) when an existing path cannot
      be opened, a directory say; with a payload the path is never looked
      at. The bounds are stored as `[upperLeft, lowerRight]` without any check. */
  function AddRasterLayer(v: View, name: string, filePath: string, upperLeft: Point, lowerRight: Point,
                          data: Option<string>, pathExists: string -> bool,
                          imageToData: string -> Option<string>): (r: Result<View, Error>)
    ensures !CheckLayerName(name) ==> r == Failure(LayerAdding(IncorrectName))
    ensures CheckLayerName(name) && HasLayer(v.layers, name) ==> r == Failure(LayerAdding(DuplicateName))
    ensures (CheckLayerName(name) && !HasLayer(v.layers, name) && data.None? && !pathExists(filePath))
              ==> r == Failure(FileOpening(FileNotFound))
    ensures (CheckLayerName(name) && !HasLayer(v.layers, name) && data.None? && pathExists(filePath)
             && imageToData(filePath).None?) ==> r == Failure(Fault(OSError))
    ensures r.Success? <==> CheckLayerName(name) && !HasLayer(v.layers, name)
                            && (data.Some? || (pathExists(filePath) && imageToData(filePath).Some?))
    ensures r.Success? ==> r.value.mapTiles == v.mapTiles
    ensures r.Success? ==> Appended(v.layers, r.value.layers,
                                    RasterLayer(name, if data.Some? then data.value else imageToData(filePath).value,
                                                Bounds(upperLeft, lowerRight)))
    ensures r.Success? && Consistent(v.layers) ==> Consistent(r.value.layers)
  {
    if !CheckLayerName(name) then Failure(LayerAdding(IncorrectName))
    else if HasLayer(v.layers, name) then Failure(LayerAdding(DuplicateName))
    else if data.None? && !pathExists(filePath) then Failure(FileOpening(FileNotFound))
    else
      var payload := if data.Some? then data else imageToData(filePath);
      match payload
      case None => Failure(Fault(OSError))
      case Some(d) => Success(v.(layers := v.layers + [NewRasterLayer(name, d, Bounds(upperLeft, lowerRight))]))
  }

  /** `remove_layer`: deletes the first layer called `name`. With no such
      layer the index stays `None` and `pop(None)` raises a TypeError; the
      store is left as it was. */
  function RemoveLayer(v: View, name: string): (r: Result<View, Error>)
    ensures r.Success? <==> HasLayer(v.layers, name)
    ensures r.Failure? ==> r.error == Fault(TypeError)
    ensures r.Success? ==> r.value.mapTiles == v.mapTiles
    ensures r.Success? ==> exists i :: 0 <= i < |v.layers| && v.layers[i].name == name
                            && (forall j :: 0 <= j < i ==> v.layers[j].name != name)
                            && r.value.layers == v.layers[..i] + v.layers[i + 1..]
  {
    match FirstIndex(v.layers, name)
    case None => Failure(Fault(TypeError))
    case Some(i) => Success(v.(layers := v.layers[..i] + v.layers[i + 1..]))
  }

  /** In a consistent store every layer passed the name check and no layer
      before it carries its name. */
  lemma ConsistentEntry(layers: seq<Layer>, k: nat)
    requires Consistent(layers) && k < |layers|
    ensures CheckLayerName(layers[k].name)
    ensures !HasLayer(layers[..k], layers[k].name)
  {
  }

  /** Deleting one entry keeps a consistent store consistent. */
  lemma DeleteKeepsConsistent(layers: seq<Layer>, i: nat)
    requires Consistent(layers) && i < |layers|
    ensures Consistent(layers[..i] + layers[i + 1..])
    ensures !HasLayer(layers[..i] + layers[i + 1..], layers[i].name)
  {
    var rest := layers[..i] + layers[i + 1..];
    assert forall k :: 0 <= k < |rest| ==> rest[k] == layers[if k < i then k else k + 1];
  }

  /** Removing from a consistent store keeps it consistent, shortens it by
      one and leaves no layer of that name behind. */
  lemma RemoveKeepsConsistent(v: View, name: string)
    requires Consistent(v.layers)
    requires RemoveLayer(v, name).Success?
    ensures Consistent(RemoveLayer(v, name).value.layers)
    ensures |RemoveLayer(v, name).value.layers| == |v.layers| - 1
    ensures !HasLayer(RemoveLayer(v, name).value.layers, name)
  {
    var i := FirstIndex(v.layers, name).value;
    assert v.layers[i].name == name;
    assert RemoveLayer(v, name).value.layers == v.layers[..i] + v.layers[i + 1..];
    DeleteKeepsConsistent(v.layers, i);
  }

  /** Removing the layer an add just appended gives back the store before the add. */
  lemma RemoveUndoesAddVector(v: View, name: string, filePath: string, data: Option<string>,
                              readGeoJson: string -> Option<string>)
    requires AddVectorLayer(v, name, filePath, data, readGeoJson).Success?
    ensures RemoveLayer(AddVectorLayer(v, name, filePath, data, readGeoJson).value, name) == Success(v)
  {
    var w := AddVectorLayer(v, name, filePath, data, readGeoJson).value;
    assert FirstIndex(w.layers, name) == Some(|v.layers|) by {
      assert !HasLayer(v.layers, name);
      assert forall j :: 0 <= j < |v.layers| ==> w.layers[j] == v.layers[j];
    }
    assert w.layers[..|v.layers|] + w.layers[|v.layers| + 1..] == v.layers;
  }

  /** The same for a raster add. */
  lemma RemoveUndoesAddRaster(v: View, name: string, filePath: string, upperLeft: Point, lowerRight: Point,
                              data: Option<string>, pathExists: string -> bool, imageToData: string -> Option<string>)
    requires AddRasterLayer(v, name, filePath, upperLeft, lowerRight, data, pathExists, imageToData).Success?
    ensures RemoveLayer(AddRasterLayer(v, name, filePath, upperLeft, lowerRight, data, pathExists, imageToData).value,
                        name) == Success(v)
  {
    var w := AddRasterLayer(v, name, filePath, upperLeft, lowerRight, data, pathExists, imageToData).value;
    assert FirstIndex(w.layers, name) == Some(|v.layers|) by {
      assert !HasLayer(v.layers, name);
      assert forall j :: 0 <= j < |v.layers| ==> w.layers[j] == v.layers[j];
    }
    assert w.layers[..|v.layers|] + w.layers[|v.layers| + 1..] == v.layers;
  }

  /** A second vector add under a name already present is refused, whatever
      its payload, so the store never holds two layers of one name. */
  lemma SecondAddRefused(v: View, name: string, filePath: string, data: Option<string>,
                         readGeoJson: string -> Option<string>, data2: Option<string>)
    requires AddVectorLayer(v, name, filePath, data, readGeoJson).Success?
    ensures AddVectorLayer(AddVectorLayer(v, name, filePath, data, readGeoJson).value, name, filePath, data2,
                           readGeoJson) == Failure(LayerAdding(DuplicateName))
  {
    var w := AddVectorLayer(v, name, filePath, data, readGeoJson).value;
    assert w.layers[|v.layers|].name == name;
  }

  /** `add_vector_layer` as the repository's constructors would run it:
      `VectorLayer.__init__` takes only a name, so the call that builds the
      layer with its payload raises a TypeError once every check has passed. */
  function AddVectorLayerAsWritten(v: View, name: string, filePath: string, data: Option<string>,
                                   readGeoJson: string -> Option<string>): (r: Result<View, Error>)
    ensures r.Failure?
    ensures r.error == Fault(TypeError) <==> CheckLayerName(name) && !HasLayer(v.layers, name)
                                             && (data.Some? || readGeoJson(filePath).Some?)
  {
    if !CheckLayerName(name) then Failure(LayerAdding(IncorrectName))
    else if HasLayer(v.layers, name) then Failure(LayerAdding(DuplicateName))
    else if data.None? && readGeoJson(filePath).None? then Failure(FileOpening(CannotRead))
    else Failure(Fault(TypeError))
  }

  /** `add_raster_layer` as written: the payload is read from the file before
      the layer is built, and `RasterLayer.__init__` takes a name and bounds,
      so the three-argument call raises a TypeError after every check. */
  function AddRasterLayerAsWritten(v: View, name: string, filePath: string, upperLeft: Point, lowerRight: Point,
                                   data: Option<string>, pathExists: string -> bool,
                                   imageToData: string -> Option<string>): (r: Result<View, Error>)
    ensures r.Failure?
    ensures r.error == Fault(TypeError) <==> CheckLayerName(name) && !HasLayer(v.layers, name)
                                             && (data.Some? || (pathExists(filePath) && imageToData(filePath).Some?))
  {
    if !CheckLayerName(name) then Failure(LayerAdding(IncorrectName))
    else if HasLayer(v.layers, name) then Failure(LayerAdding(DuplicateName))
    else if data.None? && !pathExists(filePath) then Failure(FileOpening(FileNotFound))
    else if data.None? && imageToData(filePath).None? then Failure(Fault(OSError))
    else Failure(Fault(TypeError))
  }

  /** The as-written adds never add: they refuse exactly what the corrected
      adds refuse, and raise a TypeError wherever the corrected adds succeed. */
  lemma AsWrittenAddsNeverAdd(v: View, name: string, filePath: string, upperLeft: Point, lowerRight: Point,
                              data: Option<string>, readGeoJson: string -> Option<string>,
                              pathExists: string -> bool, imageToData: string -> Option<string>)
    ensures AddVectorLayer(v, name, filePath, data, readGeoJson).Failure?
            ==> AddVectorLayerAsWritten(v, name, filePath, data, readGeoJson)
                == AddVectorLayer(v, name, filePath, data, readGeoJson)
    ensures AddVectorLayer(v, name, filePath, data, readGeoJson).Success?
            ==> AddVectorLayerAsWritten(v, name, filePath, data, readGeoJson) == Failure(Fault(TypeError))
    ensures AddRasterLayer(v, name, filePath, upperLeft, lowerRight, data, pathExists, imageToData).Failure?
            ==> AddRasterLayerAsWritten(v, name, filePath, upperLeft, lowerRight, data, pathExists, imageToData)
                == AddRasterLayer(v, name, filePath, upperLeft, lowerRight, data, pathExists, imageToData)
    ensures AddRasterLayer(v, name, filePath, upperLeft, lowerRight, data, pathExists, imageToData).Success?
            ==> AddRasterLayerAsWritten(v, name, filePath, upperLeft, lowerRight, data, pathExists, imageToData)
                == Failure(Fault(TypeError))
  {
  }

  /** A concrete witness: adding the vector layer "roads" with a supplied
      payload to an empty view raises as written and succeeds corrected. */
  lemma VectorAddWitness(readGeoJson: string -> Option<string>)
    ensures AddVectorLayerAsWritten(View([], "OpenStreetMap"), "roads", "", Some("{}"), readGeoJson)
            == Failure(Fault(TypeError))
    ensures AddVectorLayer(View([], "OpenStreetMap"), "roads", "", Some("{}"), readGeoJson)
            == Success(View([VectorLayer("roads", "{}")], "OpenStreetMap"))
  {
    assert CheckLayerName("roads") by { assert "roads"[0] != ' '; }
  }
}
