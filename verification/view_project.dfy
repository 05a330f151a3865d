/** Saving and loading a project: a header line, the tile-set line, then
    one `;`-separated record per layer. Loading replays the records through
    the same add operations a user would call. File access is left out:
    `Save` produces the lines to be written, `Load` consumes the lines read
    (`None` when the file cannot be opened). */
module Project {
  import opened Wrappers
  import opened Exceptions
  import opened Text
  import opened Layers
  import opened MapView

  const SaveHeader := "[GISmin save]\n"

  /** One line per layer, in store order, each the serialiser's text plus a newline. */
  function SaveRecords(layers: seq<Layer>, toSave: Layer -> string): (lines: seq<string>)
    ensures |lines| == |layers|
    ensures forall i :: 0 <= i < |layers| ==> lines[i] == toSave(layers[i]) + "\n"
  {
    if |layers| == 0 then []
    else [toSave(layers[0]) + "\n"] + SaveRecords(layers[1..], toSave)
  }

  /** `save`: the header, the tile set, then every layer as the per-layer
      serialiser `toSave` writes it. */
  function Save(v: View, toSave: Layer -> string): (lines: seq<string>)
    ensures |lines| == 2 + |v.layers|
    ensures lines[0] == SaveHeader && lines[1] == v.mapTiles + "\n"
    ensures forall i :: 0 <= i < |v.layers| ==> lines[i + 2] == toSave(v.layers[i]) + "\n"
  {
    [SaveHeader, v.mapTiles + "\n"] + SaveRecords(v.layers, toSave)
  }

  /** The record fields a layer is written with, in the order load reads
      them: type, name, payload, then for a raster the upper-left and
      lower-right coordinates. */
  function Fields(l: Layer): seq<string>
  {
    match l
    case RasterLayer(name, data, b) =>
      ["raster", name, data, b.upperLeft.x, b.upperLeft.y, b.lowerRight.x, b.lowerRight.y]
    case VectorLayer(name, data) => ["vector", name, data]
  }

  /** A per-layer serialiser matching the layout load reads. */
  function ToSave(l: Layer): string
  {
    Join(Fields(l), ';')
  }

  /** The outcome of a load: the view as it stands afterwards, and the
      error raised, if any. A failed load does not undo what it did. */
  datatype LoadResult = LoadResult(view: View, error: Option<Error>)

  /** A record line split on ';', with newlines removed from the last field. */
  function RecordFields(line: string): (fields: seq<string>)
    ensures |fields| >= 1
  {
    var f := Split(line, ';');
    f[..|f| - 1] + [Strip(f[|f| - 1], '\n')]
  }

  /** Load supplies every payload itself, so the path oracles of the add
      operations are never consulted; these stand in for them. */
  function NoFile(path: string): bool { false }
  function NoImage(path: string): Option<string> { None }
  function NoGeoJson(path: string): Option<string> { None }

  /** One record: "raster" and "vector" records are replayed through the add
      operations (a missing field is an IndexError); any other type is skipped. */
  function ApplyRecord(v: View, line: string): (r: Result<View, Error>)
    ensures RecordFields(line)[0] != "raster" && RecordFields(line)[0] != "vector" ==> r == Success(v)
    ensures RecordFields(line)[0] == "raster" && |RecordFields(line)| < 7 ==> r == Failure(Fault(IndexError))
    ensures RecordFields(line)[0] == "vector" && |RecordFields(line)| < 3 ==> r == Failure(Fault(IndexError))
    ensures r.Success? ==> r.value.mapTiles == v.mapTiles
    ensures r.Success? ==> v.layers <= r.value.layers && |r.value.layers| <= |v.layers| + 1
    ensures r.Success? && Consistent(v.layers) ==> Consistent(r.value.layers)
    ensures r.Failure? ==> r.error.LayerAdding? || r.error == Fault(IndexError)
  {
    var f := RecordFields(line);
    if f[0] == "raster" then
      if |f| < 7 then Failure(Fault(IndexError))
      else AddRasterLayer(v, f[1], "", Point(f[3], f[4]), Point(f[5], f[6]), Some(f[2]), NoFile, NoImage)
    else if f[0] == "vector" then
      if |f| < 3 then Failure(Fault(IndexError))
      else AddVectorLayer(v, f[1], "", Some(f[2]), NoGeoJson)
    else Success(v)
  }

  /** Which add a record goes to: a raster record is `add_raster_layer(f1, "",
      [f3, f4], [f5, f6], f2)`, a vector record `add_vector_layer(f1, "", f2)`,
      each with the record's payload, so the path is never consulted. */
  lemma ApplyRecordDispatch(v: View, line: string)
    ensures RecordFields(line)[0] == "raster" && |RecordFields(line)| >= 7 ==>
              var f := RecordFields(line);
              ApplyRecord(v, line)
              == AddRasterLayer(v, f[1], "", Point(f[3], f[4]), Point(f[5], f[6]), Some(f[2]), NoFile, NoImage)
    ensures RecordFields(line)[0] == "vector" && |RecordFields(line)| >= 3 ==>
              var f := RecordFields(line);
              ApplyRecord(v, line) == AddVectorLayer(v, f[1], "", Some(f[2]), NoGeoJson)
  {
  }

  /** The record loop: records are applied in file order; the first failure
      stops the loop and is reported as a bad file, keeping the layers the
      earlier records added. */
  function Replay(v: View, records: seq<string>): (r: LoadResult)
    ensures r.view.mapTiles == v.mapTiles
    ensures v.layers <= r.view.layers
    ensures |r.view.layers| <= |v.layers| + |records|
    ensures r.error.Some? ==> r.error == Some(FileOpening(BadFile))
    ensures Consistent(v.layers) ==> Consistent(r.view.layers)
    decreases |records|
  {
    if |records| == 0 then LoadResult(v, None)
    else match ApplyRecord(v, records[0])
      case Failure(_) => LoadResult(v, Some(FileOpening(BadFile)))
      case Success(w) => Replay(w, records[1..])
  }

  /** `load`: an unopenable file is reported as unreadable; everything that
      goes wrong afterwards (a wrong header, an unknown tile set, a missing
      line or field, a refused add) is reported as a bad file. The tile set
      is switched before the records are replayed. */
  function Load(v: View, file: Option<seq<string>>): (r: LoadResult)
    ensures file.None? ==> r == LoadResult(v, Some(FileOpening(CannotRead)))
    ensures (file.Some? && (|file.value| == 0 || file.value[0] != SaveHeader))
              ==> r == LoadResult(v, Some(FileOpening(BadFile)))
    ensures (file.Some? && |file.value| >= 1 && file.value[0] == SaveHeader
             && (|file.value| < 2 || Strip(file.value[1], '\n') !in TileNames))
              ==> r == LoadResult(v, Some(FileOpening(BadFile)))
    ensures file.Some? && r.error.Some? ==> r.error == Some(FileOpening(BadFile))
    ensures r.error.None? ==> file.Some? && |file.value| >= 2 && file.value[0] == SaveHeader
                              && r.view.mapTiles == Strip(file.value[1], '\n') && r.view.mapTiles in TileNames
    ensures v.layers <= r.view.layers
    ensures Consistent(v.layers) ==> Consistent(r.view.layers)
  {
    match file
    case None => LoadResult(v, Some(FileOpening(CannotRead)))
    case Some(lines) =>
      if |lines| == 0 || lines[0] != SaveHeader then LoadResult(v, Some(FileOpening(BadFile)))
      else if |lines| < 2 then LoadResult(v, Some(FileOpening(BadFile)))
      else
        var tiles := Strip(lines[1], '\n');
        if tiles !in TileNames then LoadResult(v, Some(FileOpening(BadFile)))
        else Replay(v.(mapTiles := tiles), lines[2..])
  }

  /** No rollback: when the records before index `k` replay cleanly to `w`
      and record `k` is refused, the load ends in `w` with a bad-file error. */
  lemma {:induction false} ReplayStopsAtFirstFailure(v: View, records: seq<string>, k: nat, w: View)
    requires k < |records|
    requires Replay(v, records[..k]) == LoadResult(w, None)
    requires ApplyRecord(w, records[k]).Failure?
    ensures Replay(v, records) == LoadResult(w, Some(FileOpening(BadFile)))
    decreases k
  {
    if k == 0 {
      assert records[..0] == [];
    } else {
      assert records[..k][0] == records[0];
      assert records[..k][1..] == records[1..][..k - 1];
      var w0 := ApplyRecord(v, records[0]).value;
      ReplayStopsAtFirstFailure(w0, records[1..], k - 1, w);
    }
  }

  /** One step of the record loop: a record that applies cleanly hands the
      rest of the records to the view it produced. */
  lemma ReplayStep(v: View, records: seq<string>)
    requires |records| > 0 && ApplyRecord(v, records[0]).Success?
    ensures Replay(v, records) == Replay(ApplyRecord(v, records[0]).value, records[1..])
  {
  }

  /** A replay that ends without error applied its first record cleanly. */
  lemma CleanReplayHead(v: View, records: seq<string>)
    requires |records| > 0 && Replay(v, records).error.None?
    ensures ApplyRecord(v, records[0]).Success?
    ensures Replay(v, records) == Replay(ApplyRecord(v, records[0]).value, records[1..])
  {
  }

  /** Taking the head off a concatenation with a non-empty front. */
  lemma ConsTail(a: seq<string>, b: seq<string>)
    requires |a| > 0
    ensures |a + b| > 0 && (a + b)[0] == a[0] && (a + b)[1..] == a[1..] + b
  {
  }

  /** Records are applied in file order: once the records of `a` replay
      cleanly to `w`, the records after them are replayed onto `w`. */
  lemma {:induction false} ReplayConcat(v: View, a: seq<string>, b: seq<string>, w: View)
    requires Replay(v, a) == LoadResult(w, None)
    ensures Replay(v, a + b) == Replay(w, b)
    decreases |a|
  {
    if |a| == 0 {
      assert a + b == b;
    } else {
      CleanReplayHead(v, a);
      ConsTail(a, b);
      ReplayStep(v, a + b);
      ReplayConcat(ApplyRecord(v, a[0]).value, a[1..], b, w);
    }
  }

  /** A raster or vector record whose name fails the name check, or names a
      layer the earlier records already added, ends the load as a bad file;
      the layers added before it stay and the records after it are not read. */
  lemma RefusedRecordFailsLoad(v: View, a: seq<string>, line: string, b: seq<string>, w: View)
    requires Replay(v, a) == LoadResult(w, None)
    requires var f := RecordFields(line);
             (f[0] == "raster" && |f| >= 7) || (f[0] == "vector" && |f| >= 3)
    requires !CheckLayerName(RecordFields(line)[1]) || HasLayer(w.layers, RecordFields(line)[1])
    ensures Replay(v, a + [line] + b) == LoadResult(w, Some(FileOpening(BadFile)))
  {
    ApplyRecordDispatch(w, line);
    assert ApplyRecord(w, line).Failure?;
    ReplayConcat(v, a, [line] + b, w);
    assert a + [line] + b == a + ([line] + b);
    assert ([line] + b)[0] == line;
  }

  /** A text without ';', '\n' or '\r' survives being a record field and a
      line of a text-mode file. */
  ghost predicate Plain(s: string)
  {
    ';' !in s && '\n' !in s && '\r' !in s
  }

  /** A layer every field of which is plain. */
  ghost predicate Saveable(l: Layer)
  {
    forall i :: 0 <= i < |Fields(l)| ==> Plain(Fields(l)[i])
  }

  /** The trailing newline of a plain field is all that load strips. */
  lemma NewlineDropped(s: string)
    requires '\n' !in s
    ensures Strip(s + "\n", '\n') == s
  {
    StripConcat(s, "\n", '\n');
    StripAbsent(s, '\n');
    assert "\n"[1..] == "";
  }

  /** A saved record line reads back as the fields it was written from. */
  lemma RecordFieldsOfSaved(l: Layer)
    requires Saveable(l)
    ensures RecordFields(ToSave(l) + "\n") == Fields(l)
  {
    var fs := Fields(l);
    var n := |fs|;
    var gs := fs[..n - 1] + [fs[n - 1] + "\n"];
    JoinAppend(fs, "\n", ';');
    assert Plain(fs[n - 1]);
    assert forall i :: 0 <= i < |gs| ==> ';' !in gs[i] by {
      forall i | 0 <= i < |gs| ensures ';' !in gs[i] {
        if i < n - 1 { assert gs[i] == fs[i] && Plain(fs[i]); }
      }
    }
    SplitJoin(gs, ';');
    assert Split(ToSave(l) + "\n", ';') == gs;
    NewlineDropped(fs[n - 1]);
    assert gs[..n - 1] == fs[..n - 1];
    assert fs[..n - 1] + [fs[n - 1]] == fs;
  }

  /** Replaying one saved record appends exactly that layer. */
  lemma ApplySavedRecord(p: seq<Layer>, t: string, l: Layer)
    requires Saveable(l) && CheckLayerName(l.name) && !HasLayer(p, l.name)
    ensures ApplyRecord(View(p, t), ToSave(l) + "\n") == Success(View(p + [l], t))
  {
    RecordFieldsOfSaved(l);
    var r := ApplyRecord(View(p, t), ToSave(l) + "\n");
    assert r.Success?;
    assert r.value.layers == p + [l];
  }

  /** Replaying the records of `rest` onto `p` rebuilds `p + rest`. */
  lemma {:induction false} ReplaySaved(p: seq<Layer>, rest: seq<Layer>, t: string)
    requires Consistent(p + rest)
    requires forall i :: 0 <= i < |rest| ==> Saveable(rest[i])
    ensures Replay(View(p, t), SaveRecords(rest, ToSave)) == LoadResult(View(p + rest, t), None)
    decreases |rest|
  {
    if |rest| == 0 {
      assert p + rest == p;
    } else {
      var l := rest[0];
      ConsistentEntry(p + rest, |p|);
      assert (p + rest)[|p|] == l && (p + rest)[..|p|] == p;
      ApplySavedRecord(p, t, l);
      assert (p + [l]) + rest[1..] == p + rest;
      ReplaySaved(p + [l], rest[1..], t);
    }
  }

  /** Past a good header and a known tile set, a load is the replay of the
      remaining lines under that tile set. */
  lemma LoadIsReplay(v: View, lines: seq<string>)
    requires |lines| >= 2 && lines[0] == SaveHeader && Strip(lines[1], '\n') in TileNames
    ensures Load(v, Some(lines)) == Replay(v.(mapTiles := Strip(lines[1], '\n')), lines[2..])
  {
  }

  /** Design choice, not a promise of the code: with `ToSave` as the per-layer
      serialiser, loading a saved consistent store into a fresh view gives
      back the same layers, in the same order, and the same tile set. */
  lemma LoadSaveRoundTrip(v: View, initialTiles: string)
    requires Consistent(v.layers)
    requires v.mapTiles in TileNames
    requires forall i :: 0 <= i < |v.layers| ==> Saveable(v.layers[i])
    ensures Load(View([], initialTiles), Some(Save(v, ToSave))) == LoadResult(v, None)
  {
    var lines := Save(v, ToSave);
    assert '\n' !in v.mapTiles by {
      assert v.mapTiles == "OpenStreetMap";
    }
    NewlineDropped(v.mapTiles);
    LoadIsReplay(View([], initialTiles), lines);
    assert lines[2..] == SaveRecords(v.layers, ToSave);
    assert [] + v.layers == v.layers;
    ReplaySaved([], v.layers, v.mapTiles);
  }
}
