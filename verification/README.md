# GISmin core, modelled in Dafny

GISmin is a small desktop map editor. A map view keeps an ordered store of
named layers. Raster layers hold an image payload and its corner bounds.
Vector layers hold a GeoJSON feature collection. The view can add layers,
remove them, save the store to a text file and load it back. Two helpers
sit beside the store: a splitter that cuts a long payload into fixed-size
blocks, and a `buffer` tool that replaces every feature's geometry by its
buffer.

This project models that core as pure functions over immutable values:

- `wrappers.dfy`: `Option` and `Result`.
- `exceptions.dfy`: the editor's exception classes and the built-in Python
  exceptions the code can raise, as one `Error` datatype. The message text
  of each exception that escapes a core operation is given by
  `Exceptions.Message`.
- `text.dfy`: Python's `str.split`, `";".join` and `str.replace(c, "")`,
  with their round-trip lemmas.
- `layers.dfy`: the layer record as a tagged union. The base constructor
  validates the type tag.
- `view_store.dfy`: the view, with `check_layer_name`, `has_layer` and the
  add and remove operations.
- `view_project.dfy`: `save` and `load`.
- `utilities.dfy`: `split_data_to_blocks`.
- `computing.dfy`: `buffer`, over a small JSON datatype.

Effects become parameters:

- A failed operation returns `Failure(error)` and leaves the view as it was.
- A load returns the view it reached together with the error, because a
  failing load keeps the layers that earlier records already added.
- Reading files, probing paths, converting images, parsing GeoJSON and the
  geometry backend are passed in as functions.

Behaviour of the program that the model keeps:

- A load that fails part way keeps the layers that earlier records
  already added.
- Removing an absent layer raises the `TypeError` of `pop(None)`.
- Only the space character is removed before a name is tested for
  emptiness, so a name of tabs or newlines is accepted.
- A project file that `load` accepts is a header line, the tile-set line,
  then one `;`-separated record per layer: the type, the name, the
  payload and, for a raster, the four corner coordinates.

The repository's layer classes do not define `to_save`, and they do not
keep a payload. So `save` takes the per-layer serialiser as a parameter.
`Project.ToSave` is one serialiser that writes the fields in the order
`load` reads them. The save/load round trip is proved for that choice, so
it is a design decision of this model and not a promise of the code.

## Model

| member | source | states |
|---|---|---|
| `Layers.InitLayer` | Core/Layers.py:5-9 | The base constructor accepts exactly the tags "raster" and "vector" and otherwise fails with the layer-creating error; on success it keeps the name, and the stored kind spells the given tag. |
| `Layers.InitLayerAcceptsEveryKind` | Core/Layers.py:5-9 | The tag of every kind passes the base constructor and is recorded as that kind. |
| `Layers.NewRasterLayer` | Core/Layers.py:12-15 | A raster layer has kind raster and keeps the given name, payload and bounds. |
| `Layers.NewVectorLayer` | Core/Layers.py:18-20 | A vector layer has kind vector and keeps the given name and payload. |
| `Layers.VariantsPassBaseConstructor` | Core/Layers.py:12-20 | Both variants go through the base constructor with their own tag: it accepts the tag, and the header it returns names the variant's kind. |
| `Text.StripEmptyIff` | Core/View.py:102-105 | Deleting every occurrence of a character leaves the empty string exactly when the text consists of that character only. |
| `Text.JoinSplit` | Core/View.py:143 | Joining the fields of a split with the same separator gives back the text. |
| `Text.SplitJoin` | Core/View.py:143 | Splitting a join gives back the fields, provided none of them contains the separator. |
| `MapView.NewView` | Core/View.py:15-21 | A view can only be made with a known tile set (otherwise the map-creating error), and it starts with an empty store and that tile set. |
| `MapView.CheckLayerName` | Core/View.py:102-105 | A name is accepted exactly when it has a character other than ' '; tabs and newlines count as content. |
| `MapView.HasLayer` | Core/View.py:41-46 | True exactly when some stored layer's name equals the given name. |
| `MapView.FirstIndex` | Core/View.py:94-98 | The search of `remove_layer` finds the first layer with the name; it finds nothing exactly when no layer has it. |
| `MapView.AddMapLayer` | Core/View.py:48-50 | A name already in the store is refused as a duplicate; otherwise nothing changes. |
| `MapView.AddVectorLayer` | Core/View.py:74-91 | The name check comes first, then the duplicate check, then the file read when no payload is given. The add succeeds exactly when all three pass; it then appends one vector layer with the supplied or read payload, keeps the tile set and keeps the store's names distinct and valid. |
| `MapView.AddRasterLayer` | Core/View.py:52-72 | The name check, then the duplicate check, then, when no payload is given, a path-existence test and the conversion of the file, which raises an OS error when an existing path cannot be opened. The add succeeds exactly when all pass; it then appends one raster layer with the payload (supplied, or converted from the file) and the bounds as given, keeps the tile set and keeps the store consistent. |
| `MapView.RemoveLayer` | Core/View.py:93-99 | Removal succeeds exactly when the name is present; an absent name raises TypeError. On success the first layer with the name is deleted and every other layer keeps its order. |
| `MapView.ConsistentEntry` | Core/View.py:74-78 | In a store built by successful adds, every layer passed the name check and no earlier layer has its name. |
| `MapView.DeleteKeepsConsistent` | Core/View.py:93-99 | Deleting one entry from a consistent store leaves it consistent and without that entry's name. |
| `MapView.RemoveKeepsConsistent` | Core/View.py:93-99 | Removing from a consistent store keeps it consistent, shortens it by one and leaves no layer of that name. |
| `MapView.RemoveUndoesAddVector` | Core/View.py:74-99 | Removing the layer that a vector add just appended gives back the view from before the add. |
| `MapView.RemoveUndoesAddRaster` | Core/View.py:52-99 | Removing the layer that a raster add just appended gives back the view from before the add. |
| `MapView.SecondAddRefused` | Core/View.py:77-78 | After a successful add, a second add under the same name is refused as a duplicate, whatever its payload. |
| `MapView.AddVectorLayerAsWritten` | Core/View.py:74-91 | As written, the vector add never succeeds; it raises TypeError exactly when every check the corrected add makes has passed. |
| `MapView.AddRasterLayerAsWritten` | Core/View.py:52-72 | As written, the raster add never succeeds; it raises TypeError exactly when every check has passed and the file, if needed, was converted. |
| `MapView.AsWrittenAddsNeverAdd` | Core/View.py:52-91 | The as-written adds fail with the corrected adds' error wherever those fail, and with TypeError wherever those succeed. |
| `MapView.VectorAddWitness` | Core/View.py:89 | A concrete add of layer "roads" with a supplied payload: it raises as written and appends the layer when corrected. |
| `Project.SaveRecords` | Core/View.py:119-120 | One line per layer, in store order: the serialiser's text followed by a newline. |
| `Project.Save` | Core/View.py:116-122 | A save writes the header line, then the tile-set line, then one record line per layer in store order. |
| `Project.ApplyRecord` | Core/View.py:142-149 | A record line is split on ';' and its newline dropped. A raster or vector record too short for its fields raises IndexError; a record of any other type is skipped; any other failure is a refused add. A replayed record keeps the tile set, keeps every layer already there, appends at most one layer and keeps the store consistent (which add it goes to is `Project.ApplyRecordDispatch`). |
| `Project.ApplyRecordDispatch` | Core/View.py:145-149 | A raster record with all seven fields is the raster add of name f1 with path "", corners (f3, f4) and (f5, f6) and payload f2; a vector record with three fields is the vector add of name f1 with path "" and payload f2. |
| `Project.ReplayConcat` | Core/View.py:141-149 | Records are applied in file order: once a prefix of records replays cleanly to a view, the remaining records are replayed onto that view. |
| `Project.RefusedRecordFailsLoad` | Core/View.py:141-152 | A raster or vector record whose name fails the name check, or names a layer added earlier, ends the load as a bad file with exactly the layers added before it; later records are not read. |
| `Project.Replay` | Core/View.py:141-152 | The record loop keeps the tile set and every layer the view had, adds at most one layer per record, keeps the store consistent, and reports any failure as a bad file. Its order and its stop at the first failure are `Project.ReplayConcat`, `Project.RefusedRecordFailsLoad` and `Project.ReplayStopsAtFirstFailure`. |
| `Project.Load` | Core/View.py:124-153 | An unopenable file is "can't be read". A missing or wrong header, a missing tile line, an unknown tile set and every later failure are "bad file". A clean load has the header and sets the tile set from the second line without its newline. The layers already in the view are never dropped. |
| `Project.ReplayStopsAtFirstFailure` | Core/View.py:141-152 | There is no rollback. If the records before index k replay to view w and record k is refused, the load ends in w with a bad-file error. |
| `Project.NewlineDropped` | Core/View.py:134 | Removing newlines from a newline-free text followed by a newline gives back the text. |
| `Project.RecordFieldsOfSaved` | Core/View.py:143-144 | A record line written by `ToSave` reads back as exactly the fields it was written from, when no field holds ';' or a newline. |
| `Project.ApplySavedRecord` | Core/View.py:145-149 | Replaying one saved record of a layer whose name is valid and new appends exactly that layer. |
| `Project.ReplaySaved` | Core/View.py:141-149 | Replaying the saved records of consistent layers rebuilds those layers in order, with no error. |
| `Project.LoadSaveRoundTrip` | Core/View.py:116-153 | A consistent store with a known tile set and plain fields (no ';', '\n' or '\r'), saved with `ToSave` and loaded into a fresh view, comes back identical and without error. |
| `Utilities.ChunksShape` | Core/Utilities.py:92-107 | Concatenating the blocks gives back the data. Every block except the last holds exactly n characters. The last block holds between 1 and n. There are no blocks exactly when the data is empty. |
| `Utilities.ChunksCount` | Core/Utilities.py:92-107 | There are ceil(len(data) / n) blocks. |
| `Utilities.ChunksThenTail` | Core/Utilities.py:95-102 | A final partial block after a whole number of full blocks becomes one extra block. |
| `Utilities.CutBlocks` | Core/Utilities.py:93-102 | The loop that collects a block whenever (i + 1) % block_length is 0 produces the reference blocks of size abs(block_length), for negative lengths too. |
| `Utilities.SplitDataToBlocks` | Core/Utilities.py:92-107 | Fails, with ZeroDivisionError, exactly when the block length is 0 and the data is non-empty. Empty data gives no blocks. Otherwise the blocks concatenate to the data, all but the last hold abs(block_length) characters, and the last is non-empty and no longer. |
| `Computing.LoopItems` | Core/Computing.py:13 | The loop visits the items of a list. An empty mapping or empty string is visited zero times. Anything else fails: a number, null or bool is not iterable, and a non-empty mapping or string yields strings that cannot be subscripted as features. |
| `Computing.BufferFeature` | Core/Computing.py:14-19 | A feature is buffered exactly when it is a mapping with a "geometry" mapping that the backend can buffer. The result differs from the feature only in the geometry's "coordinates" and "type", which come from the backend. A non-mapping raises TypeError and a missing geometry raises KeyError. |
| `Computing.BufferFeatures` | Core/Computing.py:13-19 | The loop succeeds exactly when every feature can be buffered. It then returns the buffered features, one for each input, in order. |
| `Computing.Buffer` | Core/Computing.py:7-20 | A non-vector layer is refused, and a payload that does not parse fails. On success every top-level key other than "features" is unchanged, and each feature is buffered in place with nothing else altered. A successful buffer whose "features" is not a list had an empty mapping or empty string there and returns the collection unchanged. |
| `Computing.BufferSucceedsIffEveryFeature` | Core/Computing.py:12-20 | For a vector layer whose features form a list, the buffer succeeds exactly when every feature can be buffered. |

## Left out

- Rendering is not modelled. That covers the JavaScript sent to the embedded map, the `create_layer.js` file, `load_splitted_data`, the HTML templates and `on_load_finished`. The model keeps no renderer state.
- File input and output are not modelled. `save` returns the lines it would write. `load` takes the lines read, or `None` when the file cannot be opened. Path existence, image conversion (`image_to_data`, `write_png`, `_is_url`) and `folium.GeoJson` reading are parameters of the add operations.
- The progress `print` inside `split_data_to_blocks` is an output side effect only.
- Shapely and the `geojson` parser have no semantics here. The parser is a function from text to an optional JSON value, and the backend is a function from a geometry to an optional new type and coordinates.
- `Computing.Buffer`: the source checks the layer's class and then its `type` attribute, raising `NotVectorLayer` with two different messages. In the model a layer's variant fixes its type, so the two checks are one test, and the second message cannot arise.
- `Computing.Buffer`: the exact error that a bad payload or a backend failure raises is collapsed into one geometry-failure error.
- Coordinates and bounds are kept as text, not as numbers. The store never computes on them; it only stores and writes them out.
- `Computing.Buffer`: it reads the layer's payload. The repository's layer classes never set a `data` attribute, so as written `geojson.loads(layer.data)` raises AttributeError for every vector layer once both kind checks pass, and `buffer` never reaches its loop. The model runs on the payload-carrying layer of the corrected adds (see Findings).
- `Computing.Buffer`: the keyword defaults of `buffer` (one segment, cap and join style 1, mitre limit 1.0) are not modelled separately. The caller always passes all the parameters.
- `Project.LoadSaveRoundTrip`: `Load` takes the lines that text-mode `readlines` yields. Universal newlines end a line at '\n', '\r' or "\r\n", which is why plain fields exclude '\r'. Writing the saved lines and reading them back is taken to give the same lines.
- `Project.Load`: a file that opens but cannot be decoded raises inside the `try`, so the program reports "Bad file!". The model has no input for that case; its `None` file stands for a file that cannot be opened, reported as "can't be read".
- The view's window and its UI handle are not modelled; only the renderer and the dialogs use them. The save path goes with file input and output: `save` and `load` work on lines, not on a path.
- `Project.Load`: the load, the replay and the save/load round trip replay records through the corrected adds. With the layer constructors as the repository declares them, the first raster or vector record that passes its checks raises a TypeError inside the load's `try`, so a load as written ends "Bad file!" and brings back no layer (see Findings).

## Findings

| source | as written | input that shows it | evidently intended | confidence | as-written member | corrected member |
|---|---|---|---|---|---|---|
| Core/View.py:72-89 | `RasterLayer(layer_name, data, bounds)` and `VectorLayer(layer_name, data)` are called with one argument more than the constructors in Core/Layers.py:13 and Core/Layers.py:19 accept, so every add that passes its checks raises TypeError. | A vector add of "roads" with payload "{}" to an empty view. | The layer keeps the payload, and the add appends it. | high (not executed) | `MapView.AsWrittenAddsNeverAdd`, `MapView.VectorAddWitness` | `MapView.AddVectorLayer`, `MapView.AddRasterLayer` |
