/** `buffer`: the geometry of every feature of a vector layer is replaced by
    its buffer. The GeoJSON parser and the geometry backend are parameters
    whose behaviour is not modelled: `loads` turns the payload text into a
    JSON value (None: it raised), `shapely` buffers one geometry and returns
    the new geometry's type and coordinates (None: it raised). */
module Computing {
  import opened Wrappers
  import opened Exceptions
  import opened Layers

  /** A parsed JSON value. Numbers are kept as reals; nothing computes on them. */
  datatype Json =
    | JNull
    | JBool(b: bool)
    | JNum(num: real)
    | JStr(str: string)
    | JArr(items: seq<Json>)
    | JObj(members: map<string, Json>)

  /** The keyword arguments of `buffer`, passed through to the backend. */
  datatype BufferParams = BufferParams(distance: real, segments: int, capStyle: int, joinStyle: int, mitreLimit: real)

  /** The geometry the backend hands back, as `mapping()` lays it out. */
  datatype Mapped = Mapped(geomType: string, coordinates: Json)

  /** What a Python `for` loop visits: the items of a list. An empty mapping
      or string is visited zero times; a non-empty one yields strings, which
      fail as features, and anything else is not iterable: None. */
  function LoopItems(j: Json): (r: Option<seq<Json>>)
    ensures j.JArr? ==> r == Some(j.items)
    ensures r.Some? && !j.JArr? ==> r == Some([])
    ensures r.Some? <==> j.JArr? || (j.JObj? && |j.members| == 0) || (j.JStr? && |j.str| == 0)
  {
    match j
    case JArr(items) => Some(items)
    case JObj(m) => if |m| == 0 then Some([]) else None
    case JStr(s) => if |s| == 0 then Some([]) else None
    case _ => None
  }

  /** `g2` is `g` with its "coordinates" and "type" set from `m`, every
      other key of the geometry untouched. */
  ghost predicate GeometryReplaced(g: Json, g2: Json, m: Mapped)
  {
    && g.JObj? && g2.JObj?
    && g2.members.Keys == g.members.Keys + {"coordinates", "type"}
    && g2.members["coordinates"] == m.coordinates
    && g2.members["type"] == JStr(m.geomType)
    && forall k :: k in g.members && k != "coordinates" && k != "type" ==> g2.members[k] == g.members[k]
  }

  /** `f2` is feature `f` with only its geometry's coordinates and type
      replaced by the backend's buffer of that geometry. */
  ghost predicate FeatureBuffered(f: Json, f2: Json, p: BufferParams, shapely: (Json, BufferParams) -> Option<Mapped>)
  {
    && f.JObj? && f2.JObj?
    && "geometry" in f.members
    && shapely(f.members["geometry"], p).Some?
    && f2.members.Keys == f.members.Keys
    && (forall k :: k in f.members && k != "geometry" ==> f2.members[k] == f.members[k])
    && GeometryReplaced(f.members["geometry"], f2.members["geometry"], shapely(f.members["geometry"], p).value)
  }

  /** One loop iteration: subscripting a non-mapping is a TypeError, a
      missing "geometry" a KeyError, a backend failure a geometry failure. */
  function BufferFeature(f: Json, p: BufferParams, shapely: (Json, BufferParams) -> Option<Mapped>): (r: Result<Json, Error>)
    ensures r.Success? <==> && f.JObj? && "geometry" in f.members
                            && shapely(f.members["geometry"], p).Some? && f.members["geometry"].JObj?
    ensures r.Success? ==> FeatureBuffered(f, r.value, p, shapely)
    ensures !f.JObj? ==> r == Failure(Fault(TypeError))
    ensures f.JObj? && "geometry" !in f.members ==> r == Failure(Fault(KeyError))
  {
    if !f.JObj? then Failure(Fault(TypeError))
    else if "geometry" !in f.members then Failure(Fault(KeyError))
    else
      var g := f.members["geometry"];
      match shapely(g, p)
      case None => Failure(GeometryFailure)
      case Some(m) =>
        if !g.JObj? then Failure(Fault(TypeError))
        else
          var g2 := JObj(g.members["coordinates" := m.coordinates]["type" := JStr(m.geomType)]);
          Success(JObj(f.members["geometry" := g2]))
  }

  /** The loop over the features: all of them are buffered, in order, or the
      first failure is raised and nothing is returned. */
  function BufferFeatures(features: seq<Json>, p: BufferParams,
                          shapely: (Json, BufferParams) -> Option<Mapped>): (r: Result<seq<Json>, Error>)
    ensures r.Success? <==> forall i :: 0 <= i < |features| ==> BufferFeature(features[i], p, shapely).Success?
    ensures r.Success? ==> |r.value| == |features|
    ensures r.Success? ==> forall i :: 0 <= i < |features| ==> r.value[i] == BufferFeature(features[i], p, shapely).value
  {
    if |features| == 0 then Success([])
    else match BufferFeature(features[0], p, shapely)
      case Failure(e) => Failure(e)
      case Success(f2) =>
        match BufferFeatures(features[1..], p, shapely)
        case Failure(e) => Failure(e)
        case Success(rest) =>
          assert forall i :: 1 <= i < |features| ==> features[i] == features[1..][i - 1];
          Success([f2] + rest)
  }

  /** `buffer(layer, distance, ...)`: only vector layers are accepted (the
      variant is the layer's class and fixes its type, so the class check and
      the type check are one test here); the payload is parsed and every
      feature of `geo_data['features']` buffered. All other top-level keys of
      the parsed collection come back unchanged. */
  function Buffer(layer: Layer, p: BufferParams, loads: string -> Option<Json>,
                  shapely: (Json, BufferParams) -> Option<Mapped>): (r: Result<Json, Error>)
    ensures !layer.VectorLayer? ==> r == Failure(NotVectorLayer)
    ensures layer.VectorLayer? && loads(layer.data).None? ==> r == Failure(GeometryFailure)
    ensures r.Success? ==> layer.Kind() == Vector && loads(layer.data).Some?
    ensures r.Success? ==>
              var geo := loads(layer.data).value;
              && geo.JObj? && "features" in geo.members
              && r.value.JObj? && r.value.members.Keys == geo.members.Keys
              && (forall k :: k in geo.members && k != "features" ==> r.value.members[k] == geo.members[k])
    ensures r.Success? && loads(layer.data).value.members["features"].JArr? ==>
              var items := loads(layer.data).value.members["features"].items;
              var out := r.value.members["features"];
              && out.JArr? && |out.items| == |items|
              && forall i :: 0 <= i < |items| ==> FeatureBuffered(items[i], out.items[i], p, shapely)
    ensures r.Success? && !loads(layer.data).value.members["features"].JArr? ==>
              var features := loads(layer.data).value.members["features"];
              && ((features.JObj? && |features.members| == 0) || (features.JStr? && |features.str| == 0))
              && r.value == loads(layer.data).value
  {
    if !layer.VectorLayer? then Failure(NotVectorLayer)
    else match loads(layer.data)
      case None => Failure(GeometryFailure)
      case Some(geo) =>
        if !geo.JObj? then Failure(Fault(TypeError))
        else if "features" !in geo.members then Failure(Fault(KeyError))
        else match LoopItems(geo.members["features"])
          case None => Failure(Fault(TypeError))
          case Some(items) =>
            match BufferFeatures(items, p, shapely)
            case Failure(e) => Failure(e)
            case Success(out) =>
              if geo.members["features"].JArr? then Success(JObj(geo.members["features" := JArr(out)]))
              else Success(geo)
  }

  /** A buffer succeeds on a vector layer whose features form a list exactly
      when every one of its features can be buffered. */
  lemma BufferSucceedsIffEveryFeature(layer: Layer, p: BufferParams, loads: string -> Option<Json>,
                                      shapely: (Json, BufferParams) -> Option<Mapped>, items: seq<Json>)
    requires layer.VectorLayer? && loads(layer.data).Some?
    requires loads(layer.data).value.JObj?
    requires "features" in loads(layer.data).value.members
    requires loads(layer.data).value.members["features"] == JArr(items)
    ensures Buffer(layer, p, loads, shapely).Success?
            <==> forall i :: 0 <= i < |items| ==> BufferFeature(items[i], p, shapely).Success?
  {
  }
}
