# gemlab_blender tag overlays and 2D `.msh` export, in Dafny

gemlab_blender is a Blender add-on for preparing 2D finite-element meshes.
Users attach integer markers ("tags") to the vertices, edges and faces of
a mesh object. The add-on then writes the mesh as a 2D `.msh` text file.
This project models that core of `src/__init__.py` and proves its
properties:

- **Tag overlays.** An object carries three ordered collections of
  records: `ObjectVertTag(tag, idx)`, `ObjectEdgeTag(tag, v0, v1)` and
  `ObjectCellTag(tag, idx)`. `TagStore` models them as one generic
  sequence of `Tag(key, tag)` records.
- **The "set tag" operators.** `SetVertexTag`, `SetEdgeTag` and
  `SetCellTag` give every selected feature the scene's default tag:
  - a feature whose key is in the key list snapshotted before the loop
    has the marker of its first record overwritten;
  - any other selected feature gets a new record appended.

  `TagStore.Upsert` is that loop step by step. `TagStore.UpsertResult` is
  an independent description of its result, and the two are proved equal.
  The operators are `TagOperators.SetVertexTag`, `SetEdgeTag` and
  `SetCellTag`.
- **The default-tag bounds.** The scene's defaults are declared with
  bounds: vertex in [-1000, 0], edge and cell in [-99, 0]. Their initial
  values are -100, -10 and -1. Under these bounds every overlay keeps
  unique keys and in-bounds markers through any session of operator calls.
- **`write_2d_msh_file`.** `MshExport.Build` runs the exporter's checks in
  the order of `src/__init__.py` and either cancels or builds the document.
  `MshFormat.Render` turns the document into the text of the file, one
  string per line. `MshExport.Export` combines the two. A cancelled export
  is a `Failure` carrying the reason, and nothing is written.
- **Reading the text back.** `MshFormat.Decode` reads that text back. It
  is not part of the add-on; it serves as the partner of `Render`.
  `Render`'s contract carries the round trip, proved by `DecodeLayout`.
  `ExportReadsBack` uses it to state
  what an export writes: header counts, one point per vertex, one cell per
  polygon, one marked edge per edge-tag record, and every marker.

Supporting modules:

- `Wrappers` provides `Option` and `Result`.
- `Decimal` provides the text Python prints for an `int`, with its parser.
- `Words` joins and splits blank-separated fields.
- `BlenderMesh` holds the mesh and object records, the scene defaults and
  the selections.

`src/__init__.py` writes only the `.msh` format and has no z-flattening
option.

When edges are marked but the mesh has no polygon, the comment above the
marked edges (`src/__init__.py:305`) reads `nnode`, which only the cell loop
binds. Python then raises before the file is opened. The model reports this
as the `UndefinedNnode` error rather than excluding the case by a
precondition.

## Model

| member | source | states |
|---|---|---|
| TagStore.IndexOf | src/__init__.py:164 | `list.index`: the result is a position holding the key, and no earlier position holds it |
| TagStore.Lookup | src/__init__.py:163-164 | a key is absent exactly when no record has it; otherwise the result is the marker of the first record with that key |
| TagStore.MarkerOf | src/__init__.py:268 | an untagged feature exports marker 0; with unique keys, a tagged feature exports its record's marker |
| TagStore.Step | src/__init__.py:163-168 | one loop step: a key in the snapshot has the marker of its first snapshot record set to `d`, with nothing else changed and no record added; any other key gets `(k, d)` appended after the unchanged store; records added earlier in the same run are untouched |
| TagStore.UpsertFrom | src/__init__.py:160-168 | the loop never removes or re-keys a record; every record it appends has a selected key and marker `d` |
| TagStore.Upsert | src/__init__.py:160-168 | the operator loop over the selected keys, with the key list snapshotted before it: existing records keep their keys and places, and every appended record has a selected key and marker `d` |
| TagStore.UpsertIsUpsertResult | src/__init__.py:160-168 | the operator loop with its key snapshot equals the reference result: first records of selected keys retagged in place, then one record per new selected key in selection order |
| TagStore.UpsertKeys | src/__init__.py:160-168 | afterwards the keys are the old keys in their old order, followed by the selected keys that were absent |
| TagStore.UpsertLength | src/__init__.py:163-168 | with a duplicate-free selection the store grows by exactly the number of selected keys it lacked; re-tagging only known features does not grow it |
| TagStore.UpsertKeepsRecords | src/__init__.py:161-168 | nothing else changes: unselected records are unchanged and in place, the first record of each selected key takes `d`, and new records come last |
| TagStore.UpsertUniqueRecords | src/__init__.py:163-168 | with unique keys, record `i` becomes `(key, d)` exactly when its key was selected and is otherwise unchanged |
| TagStore.UpsertPreservesUniqueKeys | src/__init__.py:160-168 | unique keys stay unique when the selection lists each feature once |
| TagStore.UpsertLookup | src/__init__.py:164-167 | afterwards a selected key reads `d` and every other key reads what it read before |
| TagStore.UpsertIdempotent | src/__init__.py:160-168 | running the operator twice with the same selection and default gives the same store as running it once |
| TagStore.UpsertTagsWithin | src/__init__.py:164-167 | markers stay within `[lo, hi]` when the old markers and the default lie in it |
| TagStore.UpsertRepeatedSelection | src/__init__.py:160-168 | because the key snapshot is taken before the loop, a key selected twice and absent before gets two records |
| BlenderMesh.SelectedVertices | src/__init__.py:161-162 | the selected vertex indices in mesh order: an index is listed exactly when that vertex is selected, and the list is strictly increasing |
| BlenderMesh.SelectedPolygons | src/__init__.py:214-215 | the selected polygon indices in mesh order: an index is listed exactly when that polygon is selected, and the list is strictly increasing |
| BlenderMesh.SelectedEdgeKeys | src/__init__.py:186-189 | the keys of the selected edges in mesh order: entry `j` is the key of the `j`-th selected edge, so every listed key belongs to a selected edge and every selected edge's key is listed; no key repeats when the mesh has no duplicate edges |
| TagOperators.SetVertexTag | src/__init__.py:156-170 | only `vtags` changes; a selected vertex reads the default vertex tag, every other index reads as before; valid overlays stay valid |
| TagOperators.SetEdgeTag | src/__init__.py:182-197 | only `etags` changes; the key of a selected edge reads the default edge tag, every other key reads as before; valid overlays stay valid |
| TagOperators.SetCellTag | src/__init__.py:209-223 | only `ctags` changes; a selected polygon reads the default cell tag, every other index reads as before; valid overlays stay valid |
| BlenderMesh.InitialSceneValid | src/__init__.py:381-391 | the initial default tags -100, -10 and -1 lie within the declared bounds [-1000, 0], [-99, 0] and [-99, 0] |
| TagOperators.ApplyAll | src/__init__.py:156-223 | a session of operator calls, each on the mesh and selection of its moment; the object stays a mesh object and ends with the last call's mesh |
| TagOperators.SessionKeepsTagsValid | src/__init__.py:381-391 | from valid overlays, any sequence of operator calls with in-bounds defaults, the selection and mesh changing freely between calls (without duplicate edges), leaves unique keys and markers within the declared bounds, all at most 0 |
| Decimal.IntToString | src/__init__.py:261 | Python's text for an int is non-empty, blank-free, and starts with `-` exactly for a negative number |
| Decimal.ParseIntToString | src/__init__.py:261 | reading back the printed text of an int gives the int |
| Words.SplitUnwords | src/__init__.py:269 | splitting blank-joined blank-free fields gives back the fields |
| MshFormat.ParseKind | src/__init__.py:291 | a kind name reads back as the kind, and nothing else reads as a kind |
| MshFormat.ParseHeaderLine | src/__init__.py:261 | the header line `2 npoint ncell nmarked_edge 0` reads back as its three counts |
| MshFormat.ParsePointLine | src/__init__.py:269 | a point line `id marker x y` with blank-free coordinates reads back as the point |
| MshFormat.ParseCellLine | src/__init__.py:295-300 | a cell line `id attribute kind nodes...` whose node count fits the kind reads back as the cell |
| MshFormat.ParseEdgeLine | src/__init__.py:312 | a marked-edge line `marker v0 v1` reads back as the edge |
| MshFormat.EdgeComment | src/__init__.py:305-308 | the comment over the marked edges names a marker and three points when the last cell written has three nodes, four points otherwise, although each marked-edge line holds two vertices |
| MshFormat.Render | src/__init__.py:253-312 | the file has 9 fixed and per-point/per-cell lines, plus 3 + nmarked_edge lines exactly when some edge is marked; it opens with the header `2 npoint ncell nmarked_edge 0`; reading the text of a well-formed document gives the document back |
| MshFormat.DecodeLayout | src/__init__.py:259-312 | reading the lines of a well-formed document gives the document back |
| MshExport.FirstFailing | src/__init__.py:241-245 | `None` exactly when every element passes; otherwise the first failing position |
| MshExport.PolygonError | src/__init__.py:277-288 | a face is rejected exactly when it fails a check; the reason is the first failed check, in the order normal direction, winding, node count |
| MshExport.KindOf | src/__init__.py:291 | the kind's node count is the polygon's: `lin3` for 3, `qua4` for 4 |
| MshExport.Points | src/__init__.py:266-269 | one point per vertex, in mesh order, with the vertex's index and coordinates; an untagged vertex gets marker 0; with unique keys, a tagged vertex gets its record's marker |
| MshExport.Cells | src/__init__.py:274-300 | one cell per polygon, in mesh order, with the polygon's index and nodes and a kind fitting the node count; an untagged polygon gets attribute 0; with unique keys, a tagged polygon gets its record's marker |
| MshExport.Edges | src/__init__.py:309-312 | one marked edge per edge-tag record, in store order, with that record's vertex pair and the marker of the first record with that key, which is its own marker when keys are unique |
| MshExport.MeshError | src/__init__.py:240-305 | the mesh passes exactly when all z are 0, all faces pass and marked edges imply a polygon; otherwise the first failed check, naming the first raised vertex or the first rejected face |
| MshExport.Build | src/__init__.py:226-312 | succeeds exactly when the object passes every check; otherwise it reports missing object, missing data or the mesh's first failure; on success it has one point per vertex, one cell per polygon and one edge per edge-tag record |
| MshExport.Export | src/__init__.py:226-321 | text is written exactly when the object passes every check; its length and its header line follow from the counts; with blank-free coordinate texts it reads back as the built document; a cancelled export reports the first failure |
| MshExport.ExportReadsBack | src/__init__.py:253-312 | reading an export back gives point `i` = vertex `i` with its marker, cell `i` = polygon `i` with its attribute, nodes and kind (`lin3` iff 3 nodes, `qua4` iff 4), and edge `j` = edge-tag record `j` with its key's marker |
| MshExport.ExportMarkers | src/__init__.py:266-312 | with valid overlays, each exported marker is the feature's own record marker, or 0 when it has none, and lies within its kind's bounds |
| MshExport.SessionExportMarkers | src/__init__.py:381-391 | after any session of "set tag" operators with in-bounds defaults, with the selection and mesh changing between calls, exporting the object with whatever mesh it then has writes no marker above 0 |

## Left out

- The tag display operator and its draw callback (`GemlabDisplayTags`, `draw_callback_px`) are GPU text drawing and event-loop plumbing.
- The side panel, the scene property registration and `register`/`unregister` are UI plumbing. Only the default-tag bounds and initial values are kept, as constants.
- The edit-mode condition of the operators' `poll` is not modelled. `Editable` only requires an active mesh object with mesh data.
- The `editmode_toggle` calls, the `report` messages, the file selector and the actual open/write/close of the file are host calls. `Export` returns the file's lines instead of writing them.
- Geometry enters already evaluated. Each vertex carries:
  - the printed text of its world x and y, after the `matrix_world @ v.co` transform;
  - whether the exporter's test `abs(co[2]) > 0.0` (`src/__init__.py:243`) stays silent.

  Each face carries whether its two normal tests (`src/__init__.py:277` and `280`) stay silent. A NaN coordinate or normal component makes those comparisons false, so such a vertex or face passes, and the flags are true for it. Float arithmetic and Python's float-to-text conversion are not modelled.
- The exporter writes `obj.data.vertices[p.vertices[i]].index` for a cell's nodes, which is `p.vertices[i]` in a valid Blender mesh. The model writes the polygon's vertex indices directly. An out-of-range index, which would raise in Python, is not modelled.
- How Blender computes `edge.key`, polygon normals and selection flags is not modelled. They are inputs.
- Blender clamps an assignment to a bounded `IntProperty`. The model does not clamp; it proves the bound properties for defaults that satisfy `ValidScene`.
- `MshExport.ExportReadsBack`: stated for coordinate texts without blanks (`PrintedCoordinates`), which holds for every float Python prints.
- `TagStore.UpsertLength`, `TagStore.UpsertPreservesUniqueKeys`: stated for a selection that lists each feature once. This is how the operators call them, since mesh selections never repeat a feature. `UpsertRepeatedSelection` shows what happens otherwise.
- `TagOperators.SetEdgeTag`: stated to keep edge keys unique only when the mesh has no two edges with the same key, which Blender guarantees.
