# SwfShapeRGB shape reconstruction, modelled in Dafny

This project models the shape-reconstruction engine of SwfShapeExporter (class `SwfShapeRGB`) and proves properties about it. The engine turns a DefineShape record stream into drawing calls. It has five parts:

- **Edges** (`edges.dfy`). An edge is a straight or curved segment between integer points. It carries a fill index, a line index and a reverse flag. Its only operation is `ReverseWithStyle`.
- **Record interpreter** (`interpreter.dfy`, modules `Interpreter` and `Shape`). `CreateEdgeMaps` walks the style-change, straight-edge, curved-edge and end records. It tracks the cursor, the fill0/fill1/line indices and the style-table offsets. Each run of edges goes into per-group fill and line buckets (`ProcessSubPath`). A group is closed by a style change that sets all three indices to 0, and by the end record. `CreateEdgeMaps` runs only once per shape.
- **Filing** (`filing.dfy`). A stream-level statement of where `CreateEdgeMaps` puts each edge: which group, and which fill and line keys, as a multiset of canonical edges per key.
- **Contour stitcher** (`stitcher.dfy`). `CleanEdgeMap` reorders each bucket into connected chains. The loop as written is `StitchWithMaps`: it looks edges up in the forward and reverse coordinate maps it maintains, finds them in the pool by identity, and removes or moves them in the maps as they are taken or flipped. The maps are shown to agree at every step with a filter over the remaining pool. `StitchWithMapsIsStitch` shows the loop computes the same list as `Stitch`, a position-based recursive function over the loop state `(pool, idx, prev)`, and the stitching properties are proved about `Stitch`.
- **Path exporter** (`exporter.dfy`). `PathFromEdgeMap` (in `edgemaps.dfy`) concatenates buckets in ascending key order. `Export`, `ExportFillPath` and `ExportLinePath` drive the shape handler. Here the handler is a returned `seq<Command>`.
  - `ReplayFills` and `ReplayLines` are an independent reading of that command trace: they are what a drawing sink sees.
  - The export lemmas relate the replay back to the edge path.

Other files:
- `wrappers.dfy` holds `Option`/`Result`. An exception of the source becomes a `Failure` carrying a `ShapeError` (`styles.dfy`).
- `scenarios.dfy` proves what the model gives for concrete shapes.

Conventions:
- A stitched list is `Chained`: consecutive edges meet, and where they do not, nothing later in the list touches the point where the chain stopped. Closure of a chain is not claimed.
- `SameEdgesUpToReversal(a, b)` says two lists hold the same edges, each possibly flipped with its own fill, with multiplicities.

Points where the code's behaviour is easy to misread; the model keeps it as written:
- The move-to of a style change sets the cursor to the record's coordinates as an absolute point (`src/Shapes/SwfShapeRGB.cs:221-224`). It does not add them to the cursor.
- `ReverseWithStyle` negates the reverse flag, so reversing twice with the original fill restores the edge exactly, flag included.
- An end record neither clears the pending run nor replaces the current bucket maps (`src/Shapes/SwfShapeRGB.cs:244-251`).
  - The group it appends therefore shares its maps with the current maps, and later writes show through.
  - The model tracks this with `BuildState.shared`.

## Model

| member | source | states |
|---|---|---|
| Edges.Edge.ReverseWithStyle | src/Edges/StraightEdge.cs:10-17 | The result keeps the variant, traces the same points in reverse order, swaps from and to, keeps a curve's control point, takes the given fill, keeps the line index and negates the reverse flag. |
| Edges.DoubleReversalRestores | src/Edges/CurvedEdge.cs:13-21 | Reversing with any fill and then with the original fill gives back the original edge: endpoints, control point, both styles and the flag. |
| Edges.Edge.Canonical | src/Edges/CurvedEdge.cs:13-21 | Every edge has an unflagged representative, which is the edge itself or its reversal with its own fill. Conservation is stated over these representatives. |
| Interpreter.AddStraightEdge | src/Shapes/SwfShapeRGB.cs:226-233 | The new edge runs from the old cursor to the new cursor, which is displaced by the record's delta. It carries fill1 and the line index, is not flagged, and nothing else in the state changes. |
| Interpreter.AddCurvedEdge | src/Shapes/SwfShapeRGB.cs:234-243 | The control point is the cursor plus the control delta, and the new cursor is the control point plus the anchor delta. The curve runs from the old cursor to the new one and carries fill1 and the line index. Nothing else changes. |
| Interpreter.ProcessSubPath | src/Shapes/SwfShapeRGB.cs:260-283 | A nonzero fill0 gets the run reversed and each edge flipped and retagged with fill0. A nonzero fill1 and a nonzero line index get the run unchanged. When fill0 equals fill1, both appends land in order. No other key changes, key 0 is never created, and every edge under key k has style k. |
| Interpreter.ApplyStyleChange | src/Shapes/SwfShapeRGB.cs:170-225 | A style change keeps the invariant. It adds a group exactly when it is a reset, clears the run exactly when it names some index, sets the cursor to the move-to point when there is one, and only extends the style tables. |
| Interpreter.FillIndexResolution | src/Shapes/SwfShapeRGB.cs:209-218 | In a style change that is not a reset, an absent fill index keeps its value and an explicit 0 stays 0. A nonzero one is increased by the fill-table size from before the latest declaration. |
| Interpreter.LineIndexResolution | src/Shapes/SwfShapeRGB.cs:204-208 | The same holds for the line index, against the line-table size. |
| Interpreter.DeclaredFill1IsAddressed | src/Shapes/SwfShapeRGB.cs:178-184 | When the same record declares new styles, a nonzero fill1 index within the declared table points into the grown table. There it addresses the style the record declared at that position. |
| Interpreter.DeclaredFill0IsAddressed | src/Shapes/SwfShapeRGB.cs:178-184 | The same holds for fill0. |
| Interpreter.DeclaredLineIsAddressed | src/Shapes/SwfShapeRGB.cs:178-184 | The same holds for the line index, in the line table. |
| Interpreter.GroupResetClosesGroup | src/Shapes/SwfShapeRGB.cs:186-201 | A reset flushes the run and appends one fill map and one line map. The sizes still agree with the group count, all three indices become 0, and the buckets start empty. Unshared earlier groups are untouched, and the appended fill map is the stitched flushed buckets. |
| Interpreter.CloseGroup | src/Shapes/SwfShapeRGB.cs:246-250 | Stitching the current maps and appending them as a group: the appended maps are the stitched current maps and remain the current maps. The group count and the shared count grow by one, and groups not sharing the current maps are unchanged. |
| Interpreter.EndShape | src/Shapes/SwfShapeRGB.cs:244-251 | The end record dispatches the pending run with the current indices, then stitches and appends the buckets. The new last group is the current maps: under each key of the flushed buckets they hold a chained list of the same edges up to reversal. The run, the cursor and the three indices are kept, the shared count grows by one, and groups not sharing the current maps are unchanged. |
| Interpreter.ResetGroup | src/Shapes/SwfShapeRGB.cs:190-200 | A group reset appends the stitched current fill and line maps as the next group, then starts empty buckets, clears all three indices and ends the sharing. Groups not sharing the current maps are unchanged. |
| Interpreter.Step | src/Shapes/SwfShapeRGB.cs:165-254 | One record fails exactly when its type is unknown, with that type's error. It adds a group exactly for a reset or an end record, keeps the invariant, and only extends the style tables. |
| Interpreter.Interpret | src/Shapes/SwfShapeRGB.cs:165-255 | The record loop fails exactly when some record is of an unknown type, with the error of the first such record. Otherwise the group count grows by the number of resets and end records, and the invariant holds throughout. |
| Shape.CreateEdgeMaps | src/Shapes/SwfShapeRGB.cs:146-258 | On an unbuilt shape it fails exactly on an unknown record type. Otherwise the number of groups equals the number of group-closing records, the group lists match that count, and every bucket map is well keyed. A built shape is returned unchanged. |
| Shape.CreateEdgeMapsMemoised | src/Shapes/SwfShapeRGB.cs:146-148 | Building twice is the same as building once, so the style tables are extended only once. |
| Filing.CreateEdgeMapsFiles | src/Shapes/SwfShapeRGB.cs:146-258 | For a fresh shape whose only end record, if any, is its last, every edge record makes one edge. The edge of record i is made in group g, the number of resets and end records before i. Group g's fill key k holds, as canonical edges with multiplicity, exactly the edges made in g with fill1 = k, plus those made with fill0 = k restyled with k. Its line key k holds exactly the edges made in g with line index k. |
| Filing.InterpretFiles | src/Shapes/SwfShapeRGB.cs:165-255 | The record loop from the initial state leaves every group holding, key by key, exactly the fill and line shares of the edges made while that group was open. Only for streams whose only end record, if any, is the last record. |
| Filing.MadeGroups | src/Shapes/SwfShapeRGB.cs:165-255 | In a stream without unknown records there is one made edge per edge record, in stream order. The one of record i is tagged with the group count plus the number of group-closing records before i. |
| Filing.EdgeFiles | src/Shapes/SwfShapeRGB.cs:226-243 | An edge record keeps the filing invariant, with its new edge counted as made in the open group under the indices in force. |
| Filing.FlushFiles | src/Shapes/SwfShapeRGB.cs:172-176 | Dispatching and clearing the run keeps the filing invariant: what the run still owed the open group is now in its buckets, and closed groups are untouched. |
| Filing.ResetFiles | src/Shapes/SwfShapeRGB.cs:186-201 | A group reset keeps the filing invariant. The closed group holds exactly the shares of the edges made in it, and the new open group holds and is owed nothing. |
| Filing.EndGrouped | src/Shapes/SwfShapeRGB.cs:244-251 | An end record files the open group, pending run included, as the last group, holding exactly the shares of the edges made in it. Earlier groups are unchanged. |
| Filing.DispatchFillContent | src/Shapes/SwfShapeRGB.cs:262-274 | Dispatching an unflipped run adds to each fill key exactly the run's shares: the run restyled with the key where the key is fill0, and the run itself where it is fill1. |
| Filing.DispatchLineContent | src/Shapes/SwfShapeRGB.cs:276-281 | Dispatching an unflipped run adds the run to the line key equal to the line index, and nothing to any other line key. |
| Filing.CleanKeepsContent | src/Shapes/SwfShapeRGB.cs:285-341 | Stitching a map keeps the canonical edges under every key. |
| Stitcher.CreateCoordMap | src/Shapes/SwfShapeRGB.cs:385-405 | The forward (reverse) coordinate map built from a list holds, under every point, exactly the list's edges that start (end) there, in list order. |
| Stitcher.FindNextIsFirstMatch | src/Shapes/SwfShapeRGB.cs:343-363 | For a map that agrees with the pool, a lookup at a point gives the first pool edge starting (ending) there, or nothing exactly when no pool edge does. The maps agree at every step of the loop, not only when freshly built. |
| Stitcher.TakeKeepsAgreement | src/Shapes/SwfShapeRGB.cs:365-383 | Removing a taken edge from the list under its endpoint, and dropping the key when that list held only it, leaves a map that agrees with the pool without that edge. |
| Stitcher.FlipTakeKeepsAgreement | src/Shapes/SwfShapeRGB.cs:407-423 | Moving a flipped edge from the list under its old endpoint to the one under its new endpoint, then removing it when it is taken, leaves a map that agrees with the pool without that edge. The old endpoint is a key of the map, as the unguarded dictionary access needs. |
| Stitcher.StitchWithMapsIsStitch | src/Shapes/SwfShapeRGB.cs:295-337 | The loop as written, driven by its maintained coordinate maps and finding edges by identity, computes exactly what the position-based Stitch computes, whenever its maps agree with the pool. |
| Stitcher.FirstAt | src/Shapes/SwfShapeRGB.cs:304-314 | The index found is the first pool position whose endpoint is the point. It is absent exactly when no position has it. |
| Stitcher.Stitch | src/Shapes/SwfShapeRGB.cs:295-337 | The stitched list has the pool's size and the pool's edges up to reversal, nothing duplicated or lost. Consecutive edges meet except where no later edge touches the end of the chain so far. A chain that cannot be continued from the previous edge is not continued later. |
| Stitcher.StitchedEdgeOrigin | src/Shapes/SwfShapeRGB.cs:311-318 | Each stitched edge is a bucket edge, either unchanged or reversed with its own fill, and keeps that edge's fill and line index. |
| Stitcher.CleanEdgeMap | src/Shapes/SwfShapeRGB.cs:285-341 | The keys are kept and every list is replaced by a chained rearrangement of the same edges up to reversal. Edges stay under the key of their own style. |
| EdgeMaps.PathFromEdgeMap | src/Shapes/SwfShapeRGB.cs:425-426 | An edge is in the flattened path exactly when it is in some bucket. |
| EdgeMaps.PathFromTaggedEdgeMap | src/Shapes/SwfShapeRGB.cs:425-426 | For a map whose edges carry their key as style, the flattened path has ascending style indices. Its edges of style k are exactly bucket k, in bucket order. |
| Exporter.ExportFillPath | src/Shapes/SwfShapeRGB.cs:54-104 | An empty path emits nothing. A non-empty path that exports is bracketed by BeginFills and EndFills and draws exactly one LineTo or CurveTo per path edge. |
| Exporter.FillLoop | src/Shapes/SwfShapeRGB.cs:58-103 | A fill loop that completes emits exactly one drawing call per edge. |
| Exporter.FillLoopFails | src/Shapes/SwfShapeRGB.cs:63-86 | The fill loop throws exactly when some edge's fill index is out of range or names a gradient or bitmap style. |
| Exporter.FillLoopReplays | src/Shapes/SwfShapeRGB.cs:58-103 | A sink replaying the loop draws every edge in order, in its fill's colour (black for 0). A new fill begins exactly where the fill index changes, a move-to comes exactly where the path is broken, and the fills are properly opened and closed. |
| Exporter.ExportFillPathReplays | src/Shapes/SwfShapeRGB.cs:54-104 | For a non-empty path, the pass throws exactly when some fill does not resolve. Otherwise the sink sees every edge drawn in its colour, with fills begun at exactly the fill-index changes and move-tos at exactly the breaks. |
| Exporter.ExportLinePath | src/Shapes/SwfShapeRGB.cs:106-144 | An empty path emits nothing. A non-empty path that exports starts with BeginLines, ends with EndLines and draws exactly one LineTo or CurveTo per path edge. |
| Exporter.LineLoop | src/Shapes/SwfShapeRGB.cs:111-143 | A line loop that completes emits exactly one drawing call per edge. |
| Exporter.LineLoopFails | src/Shapes/SwfShapeRGB.cs:115-124 | The line loop throws exactly when some edge's line index is out of range. |
| Exporter.LineLoopReplays | src/Shapes/SwfShapeRGB.cs:111-143 | A sink replaying the loop strokes every edge in order with its line style ((0, black) for 0). A new style is set exactly where the line index changes, a move-to comes exactly where the path is broken, and the loop ends on its EndLines. |
| Exporter.LineLoopCloses | src/Shapes/SwfShapeRGB.cs:126-143 | The EndLines flag is true exactly when the pen ends where the last figure began. That is the last edge needing a move-to, or the figure already open before the path. |
| Exporter.ExportLinePathReplays | src/Shapes/SwfShapeRGB.cs:106-144 | For a non-empty path, the pass throws exactly when some line index is out of range. Otherwise the sink strokes every edge with its style, with styles set at exactly the index changes and move-tos at exactly the breaks. The path has a last figure, and EndLines closes exactly when the path ends where that figure began. |
| Exporter.Export | src/Shapes/SwfShapeRGB.cs:42-52 | The edge maps are built first and the result is the built, valid shape. The commands are bracketed by BeginShape and EndShape. Export fails exactly when building fails or some group's fill or line pass fails. Otherwise it draws one call per edge of every group's fill and line paths. |
| Exporter.ExportGroups | src/Shapes/SwfShapeRGB.cs:45-50 | The group loop from group i on fails exactly when the fill or line pass of some group from i on fails. Otherwise it draws one call per edge of the fill and line paths of those groups. |
| Exporter.ExportIsRepeatable | src/Shapes/SwfShapeRGB.cs:146-148 | Exporting the shape a previous export returned gives the same shape and the same commands. |
| Scenarios.TriangleStitchesToItself | src/Shapes/SwfShapeRGB.cs:295-337 | A triangle recorded in drawing order comes out of stitching unchanged. |
| Scenarios.TriangleFillCommands | src/Shapes/SwfShapeRGB.cs:54-104 | The triangle's fill pass is BeginFills, BeginFill(colour), MoveTo(0,0), three LineTo calls, EndFill, EndFills. |
| Scenarios.SharedEdgeIsFlipped | src/Shapes/SwfShapeRGB.cs:311-318 | A bucket holding a shared edge in the wrong direction is stitched into a closed loop with that edge flipped. |
| Scenarios.OpenPolylineStaysOpen | src/Shapes/SwfShapeRGB.cs:106-144 | An open three-edge polyline's line pass ends with EndLines(false). |

## Left out

- Foreign input and output are not modelled: the SWF loader, the image handler and rasteriser, the stream writer, the command-line program and colour conversion. Handler calls become `Command` values, colours are opaque `Rgba` values, and fill styles are `SolidFill(colour)` or `UnsupportedFill` (every gradient and bitmap type).
- The `default` branch of the fill-style switch (an invalid fill type) is not modelled. It is unreachable once fill styles are that two-case type.
- Integers are unbounded. The 32-bit wrap-around of coordinates, of offset-plus-index sums and of the group count is not modelled.
- `CurvedEdge.Control` is declared as a float point. It is modelled as an integer point, since it is only ever assigned a sum of integer points.
- The state left after an exception is not modelled. That includes tables already extended, groups already appended, and handler calls already made. The model returns `Failure` with the error.
- An edge object's reference identity is modelled inside the stitcher only, by the `id` of an `Entry`. `CleanEdgeMap` gives each position of a bucket list its own id. `IndexOf`, `List.Remove` and the coordinate-map updates compare these ids, and a flipped edge gets a fresh one. Outside the stitcher edges are values, so an edge object shared between a fill bucket and a line bucket is two equal values. No aliasing between buckets is observable, because stitching replaces flipped edges with new objects. A bucket that holds one object twice is not modelled faithfully; the next line says when that happens. Overwriting a dictionary entry during its own enumeration in `CleanEdgeMap` becomes a map comprehension over the keys.
- Stitcher.CleanEdgeMap: for a bucket list that holds one edge object twice, the order of the stitched list is not the source's. The model treats the two copies as different objects. The source's `List.Remove` and `IndexOf` act on the first copy, so its coordinate maps stop listing edges in pool order. Such a list arises only when an end record is followed by a style change that names a style, or by a second end record. Those records dispatch the run again, because an end record does not clear it. SwfLib, which builds the record list, is not part of this model. In streams whose only end record is the last, every run is dispatched once and then cleared (`src/Shapes/SwfShapeRGB.cs:172-176`). The fill0 side gets fresh reversed objects (:262-268). So no bucket holds an object twice, and the model's order is the source's.
- Stitcher.StitchWithMapsIsStitch: holds for pools of distinct objects only, the case above excluded.
- Stitcher.TakeKeepsAgreement: requires distinct ids. For a list holding one object twice, `List.Remove` drops the first copy rather than the taken one, and the map no longer agrees with the pool.
- Stitcher.FindNextIsFirstMatch: "the maps agree at every step" holds for pools of distinct objects only, the case above excluded.
- Stitcher.StitchWithMaps: a flip and the take of the flipped edge on the next pass are one step. The state between them, with the flipped edge moved to its new keys but not yet taken, is not a separate call. That pass always takes the flipped edge, since the edge starts where the chain ends.
- Exporter.FillLoopReplays: holds only for paths where no fill index is int.MaxValue and no edge starts at (int.MaxValue, int.MaxValue), the exporter's sentinels.
- Exporter.FillLoopFails: holds only under the same sentinel limit.
- Exporter.ExportFillPathReplays: holds only under the same sentinel limit.
- Exporter.LineLoopReplays: holds only for paths where no line index is int.MaxValue and no edge starts at (int.MaxValue, int.MaxValue), the exporter's sentinels.
- Exporter.LineLoopFails: holds only under the same sentinel limit.
- Exporter.LineLoopCloses: holds only under the same sentinel limit.
- Exporter.ExportLinePathReplays: holds only under the same sentinel limit.
- Exporter.Export: requires `ShapeValid`, the invariant every shape keeps from construction and `CreateEdgeMaps` on. Its own contract covers the framing, the failure cases and the number of drawing calls. The per-pass content is stated by ExportFillPathReplays and ExportLinePathReplays.
- Filing.CreateEdgeMapsFiles: covers streams whose only end record, if any, is the last record. After an end record the source keeps the pending run and the current maps, which stay shared with the group just appended. A later style change then dispatches that run a second time into maps the appended group sees. The per-group content statement does not describe that case. Edges of a run still pending when a stream ends without an end record are filed in no group.
- Filing.InterpretFiles: same end-record limit as Filing.CreateEdgeMapsFiles.
- Interpreter.Interpret: the filing of edges into groups is stated by Filing.InterpretFiles and Filing.CreateEdgeMapsFiles, under the same end-record limit.
