# TetMesh exporter: record building, modelled in Dafny

This project models the record-building core of the Blender TetMesh exporter add-on (`addons_contrib/io_export_TetMesh.py`). The exporter writes a `.tet` file made of four parts:
- a banner;
- a vertex section: a `# n vertices` header, then one `v x y z` line per vertex;
- a tetrahedron header `# n tetrahedra`;
- the tetrahedron records, one `t a b c d` line each.

The first face decides how the tetrahedron records are built:

- **Triangle mode.** The first face has exactly three vertices. The header reads `int(faceCount * 0.25)`, and `createFacets` rebuilds the tetrahedra. It walks the polygons in windows of four, collecting each window's vertex indices. It de-duplicates them with `unifyList`, keeping first occurrences. The first four distinct indices become one record.
- **Per-face mode.** Any other first face. The header reads `faceCount`, and each face gives one record made of its vertices 0..3.

There are four modules, one per file:

- `Unify` (`Unify.dfy`) covers `unifyList`.
  - `Unified` is the specification: add each index not yet present.
  - Lemmas prove it has no duplicates, holds exactly the input's indices, keeps first-occurrence order, and is idempotent.
  - Further lemmas show it absorbs repeated indices and is monotone in its input.
  - `UnifyList` is the loop, proved equal to `Unified`.
- `Facets` (`Facets.dfy`) covers `createFacets`.
  - `FacetRecords` is the specification. Group `g` is polygons `4g .. 4g+3`, with the last group possibly shorter. Each group's record is `unifyList` of its indices cut to four, or an `IndexError`. Records are written in order up to the first error.
  - `CreateFacets` is the source's loop as written: a `while` over passes, each pass a `for` over all polygons, appending the polygons inside the window `[startcount, endcount)`. It is proved equal to `FacetRecords`.
  - The proof keeps ghost bookkeeping: the current group, the number of completed re-scans of a trailing window, and whether the final record has been written.
- `TetExport` (`TetExport.dfy`) covers the record part of `process_mesh`:
  - mode detection;
  - the vertex section and the coordinate remap, with its inverse;
  - the two tetrahedron modes;
  - the whole file, as a sequence of `Line` records.
- `Scenarios` (`Scenarios.dfy`) holds worked examples on small meshes.

Behaviour worth knowing, as the code has it:

- **Trailing group.** When the polygon count is not a multiple of four, the final partial window is not dropped. Once a pass ends short of `endcount`, the `while` loop scans the same window again, re-appending its polygons until `count` reaches `endcount`. So `ceil(n/4)` records are written, the last built from the trailing polygons alone. In triangle mode the header then reads `n div 4`, one less than the number of records (`TetSection`, `SixTrianglesHeader`).
- **Fewer than four distinct indices.** A group like that is not padded or truncated: `unifyList(collection)[3]` raises `IndexError` and the export stops. The per-face mode does the same for a face with fewer than four vertices (`face.verts[3]`). The model returns `ok == false` together with the records written before the error.
- **Mode naming.** A triangle as the first face selects the grouping reconstruction (`createFacets`). Any other first face selects the per-face records.

## Model

| member | source | states |
|---|---|---|
| Unify.UnifyList | addons_contrib/io_export_TetMesh.py:243-255 | the loop's result is `Unified(collection)`: no duplicates, and exactly the indices of the input |
| Unify.UnifiedNoDup | addons_contrib/io_export_TetMesh.py:249-250 | no index appears twice in the de-duplicated list |
| Unify.UnifiedElements | addons_contrib/io_export_TetMesh.py:247-250 | an index is in the result iff it is in the input |
| Unify.UnifiedFirstOccurrenceOrder | addons_contrib/io_export_TetMesh.py:247-250 | the result lists indices in strictly increasing order of their first position in the input |
| Unify.UnifiedOfNoDup | addons_contrib/io_export_TetMesh.py:249-250 | a list without duplicates is left unchanged |
| Unify.UnifiedIdempotent | addons_contrib/io_export_TetMesh.py:243-255 | de-duplicating twice equals de-duplicating once |
| Unify.UnifiedAbsorbs | addons_contrib/io_export_TetMesh.py:249-252 | appending indices already present leaves the result unchanged |
| Unify.UnifiedPrefix | addons_contrib/io_export_TetMesh.py:247-250 | the result for a prefix of the input is a prefix of the result for the whole input |
| Facets.FirstFourStable | addons_contrib/io_export_TetMesh.py:218-229 | once the collection has four distinct indices, appending more does not change its record |
| Facets.GroupTetDistinct | addons_contrib/io_export_TetMesh.py:218-229 | a group's record is `unifyList(...)[0..3]`, so its four indices are pairwise distinct and all come from the group; there is no record (an `IndexError`) iff the group has fewer than four distinct indices |
| Facets.FacetRecordsGroups | addons_contrib/io_export_TetMesh.py:211-238 | record `g` is the record of polygons `4g .. 4g+3`; the run completes iff all `ceil(n/4)` groups give a record; otherwise it stops at the first group with fewer than four distinct indices |
| Facets.FacetRecordsOk | addons_contrib/io_export_TetMesh.py:224-229 | a run completes iff every group has at least four distinct indices |
| Facets.MultipleOfFourRecords | addons_contrib/io_export_TetMesh.py:211-235 | for `4k` polygons, a completed run writes exactly `k` records, and record `i` is built only from polygons `4i .. 4i+3` |
| Facets.TrailingGroupRecord | addons_contrib/io_export_TetMesh.py:211-238 | for `n` polygons with `n % 4 != 0`, a completed run writes `n/4 + 1` records, the last built from the trailing `n % 4` polygons |
| Facets.RescanKeepsRecord | addons_contrib/io_export_TetMesh.py:211-222 | re-scanning a trailing window until four polygons are appended collects indices whose de-duplication equals that of the window alone |
| Facets.CollectedIsRepeat | addons_contrib/io_export_TetMesh.py:211-222 | after `p` full scans and `k` polygons of the window, the collection is the window's indices `p` times followed by its first `k` polygons, and `count` has grown by that number of polygons |
| Facets.CollectedRecord | addons_contrib/io_export_TetMesh.py:215-229 | when four polygons have been appended, the collection yields the record of the current group |
| Facets.RecordOf | addons_contrib/io_export_TetMesh.py:229 | the record is `unifyList(collection)[0..3]`; it exists iff there are four distinct indices, and then its indices are distinct and taken from the collection |
| Facets.WriteRecord | addons_contrib/io_export_TetMesh.py:229 | writing the current group's record advances the written records from group `g` to group `g + 1`; on `IndexError` the run ends with the records written so far |
| Facets.AppendKeeps | addons_contrib/io_export_TetMesh.py:215-222 | appending a polygon of the window keeps the loop state, and one more polygon of the current scan is collected |
| Facets.SkipKeeps | addons_contrib/io_export_TetMesh.py:215 | a polygon outside the window changes nothing, and the count cannot then equal `endcount` |
| Facets.NotFullKeeps | addons_contrib/io_export_TetMesh.py:224 | when the count has not reached `endcount`, the scan moves on to the next polygon |
| Facets.CompleteWindow | addons_contrib/io_export_TetMesh.py:224-238 | on a full window the record is written; if polygons remain past the window, the window advances by four and `collection` is cleared; after the final window the written records are the complete result |
| Facets.Visit | addons_contrib/io_export_TetMesh.py:212-238 | one iteration of the polygon loop keeps the loop state, or ends the run with `IndexError` and the records written so far |
| Facets.NextPass | addons_contrib/io_export_TetMesh.py:211-212 | each pass over the polygons appends at least one polygon, so the `while` loop terminates; unless the final record is written, the next pass re-scans the same window |
| Facets.CreateFacets | addons_contrib/io_export_TetMesh.py:198-238 | for a non-empty polygon list, the records written and whether the run ends without `IndexError` equal `FacetRecords` |
| TetExport.PlacedRoundTrip | addons_contrib/io_export_TetMesh.py:140-154 | the `v` coordinates (the vertex moved by the object origin, as `(x, y, z)` for Arthros or `(x, z, -y)` for Hystsim) determine the vertex: `Unplaced` recovers it, and every point is the record of exactly the vertex `Unplaced` gives |
| TetExport.PlacedInjective | addons_contrib/io_export_TetMesh.py:140-154 | two vertices give the same `v` record iff they are the same vertex, so the vertex section never merges two vertices |
| TetExport.HystsimIsRotatedArthros | addons_contrib/io_export_TetMesh.py:150-154 | a Hystsim vertex record is the Arthros record with `y` and `z` swapped and the new `z` negated |
| TetExport.DetectMode | addons_contrib/io_export_TetMesh.py:158-166 | `realtets` holds iff there is a first face and it has exactly three vertices, whatever the later faces are |
| TetExport.DirectTetsSpec | addons_contrib/io_export_TetMesh.py:182-183 | the per-face mode writes one record per face, in face order, holding the face's vertices 0..3; it completes iff every face has at least four vertices, and otherwise stops at the first face with fewer |
| TetExport.WriteFaceTets | addons_contrib/io_export_TetMesh.py:182-183 | the per-face loop writes exactly `DirectTets(faces)` |
| TetExport.WriteVertices | addons_contrib/io_export_TetMesh.py:140-154 | the vertex loop writes one `v` record per vertex, in vertex order |
| TetExport.WriteTLines | addons_contrib/io_export_TetMesh.py:229 | the `t` lines of the records, one per record, in order; the same writer serves the per-face `file.write` of line 183 |
| TetExport.ProcessMesh | addons_contrib/io_export_TetMesh.py:124-183 | the file written (banner, vertex header, `v` records, tetrahedron header, `t` records) and the `IndexError` outcome equal `Export(sim, mesh)` |
| TetExport.VertexSection | addons_contrib/io_export_TetMesh.py:124-154 | the vertex header states the number of vertices, and exactly that many `v` records follow it, one per vertex in vertex order |
| TetExport.TetSection | addons_contrib/io_export_TetMesh.py:169-183 | the tetrahedron header follows the `v` records and only `t` records follow it. In per-face mode a completed export has `faceCount` records, matching the header. In triangle mode it has `ceil(faceCount/4)` records, and the header `faceCount div 4` equals that count iff `faceCount % 4 == 0` |
| Scenarios.QuadGroupRecord | addons_contrib/io_export_TetMesh.py:218-229 | the quads `{0,1,2,3}, {0,1,4,5}, {0,2,4,6}, {1,3,5,7}` give the record `t 0 1 2 3` |
| Scenarios.SixTrianglesRecords | addons_contrib/io_export_TetMesh.py:211-238 | six triangles over distinct vertices give two records; the second comes from the trailing two triangles |
| Scenarios.SixTrianglesHeader | addons_contrib/io_export_TetMesh.py:169-175 | exporting those six triangles writes the header `1` tetrahedra, followed by two `t` records |

## Left out

- The Blender host API is not modelled: `bpy`/`bmesh`, `object.to_mesh`, mode switching and object lookup. These are calls into Blender. The mesh becomes a `Mesh` value: the object origin, the vertex coordinates, and each face's vertex indices.
- Operator classes, the file dialog, menu functions, `register`/`unregister` and `bl_info` are user interface and add-on registration, so they are not modelled.
- The selection loop and the single/multiple-object dispatch in `save_TetMesh`/`export_TetMesh` are host-state plumbing and are left out. So is the construction of the file path.
- Facets.CreateFacets requires at least one polygon. With zero polygons the source loop never terminates: a pass over no polygons appends nothing, so `count` stays 0 below `endcount` 4. The model excludes that call by the precondition rather than modelling the divergence. `process_mesh` reaches `createFacets` only when there is a first face, so `ProcessMesh` always meets the requirement.
- The model uses one face list for both `bm.faces` (mode detection, the per-face mode) and `mesh.polygons` (`createFacets`). `bm` is built from `mesh`, and a polygon's `index` is taken to be its position.
- Unify.UnifyList models the one call form the exporter uses, `unifyList(collection)` with a single list. The variadic outer loop over `*args` is not modelled.
- The vertex loop `for vert in poly.vertices: collection.append(vert)` is modelled as one concatenation of the polygon's indices.
- The source evaluates `unifyList(collection)` five times per record: once in the `print` on line 226 and four times in the `file.write` on line 229. The model evaluates it once, which gives the same result, since the call has no side effects.
- TetExport.Placed computes with exact reals. Floating-point rounding of the origin addition is not modelled, nor is `str(float)` formatting.
- No record is rendered as text. `Line` constructors stand for the banner, the two comment headers with their blank lines, and the `v` and `t` lines.
- `int(faceCount * 0.25)` is modelled as `faceCount / 4`. That is exact for face counts below 2^53, where the float product is exact.
- `process_mesh` is only called with the Arthros and Hystsim formats, so `SimType` has just those two. For any other value the source would write no `v` lines.
- File opening and closing, and all `print` output, are I/O and not modelled. The file is the sequence of records appended to it. On `IndexError` the source raises past `file.close()`; the model returns the records written up to that point, with `ok == false`.
- TetExport.DetectMode replaces the `break` that ends the face loop after the first face with a flag that stops the loop. Both branches of the source break, so the loop runs at most once either way.
