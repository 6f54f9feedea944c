# Planar Edges, modelled in Dafny

Planar Edges is a Blender add-on. It selects the mesh edges that lie parallel to one of the base planes XY, YZ or XZ, within a tolerance. This project models its core, `planar_edges.py`:

- `Planar.plane_normal` maps a plane tag to the plane's unit normal. The model is the function `Planar.PlaneNormal`. Its argument is a string, as in the source, so the fallback for other tags is modelled too.
- `Planar._deselect_all` clears every face, edge and vertex selection flag. The model is the method `Planar.DeselectAll`, which has three loops over the flag arrays of the editable copy.
- `Planar.select_edges_perpendicular_vector` is the selector. The model is the method `Planar.SelectEdgesPerpendicularVector`, which runs the same steps:
  1. It records the mode and leaves EDIT mode for OBJECT mode.
  2. It forces the edge-only select mode.
  3. It makes the editable copy (`Host.BMesh.FromMesh`) and clears its flags.
  4. It builds the list comprehension (`Planar.PerpendicularEdges`).
  5. It selects the listed edges (`Planar.SelectListed`).
  6. It writes the copy back (`Host.BMesh.ToMesh`) and restores the mode.
- `Planar_OT_select_edges.execute` is `PlanarOperator.Execute`. It resolves the normal and runs the selector with the scene's threshold.

The host state becomes classes in module `Host`:

- `Mesh` is the object's mesh data.
- `BMesh` is the editable copy made by `bmesh`.
- `Context` holds the active object's mode, `tool_settings.mesh_select_mode`, `scene.planar_props_threshold` and the active object's mesh.

Vertex coordinates are `real` triples. Edges are pairs of vertex indices. Faces carry only their selection flag.

The selector is proved against the value-level function `Planar.SelectPerpendicular`. That function clears every flag on a `MeshState`, then sets the flag of each edge the comprehension lists. The lemmas about it state what the add-on promises:

- An edge is selected iff `|direction · vector| <= threshold`.
- No face or vertex stays selected.
- Coordinates, edges and element counts do not change.
- The result does not depend on the flags on entry.
- Running the selector twice gives the same result as running it once.

`math.isclose(a, 0, abs_tol=t)` is modelled with its default relative tolerance 1e-9 (`Geometry.IsClose`). For `t >= 0` it is exactly `|a| <= t`. For `t < 0` Python raises `ValueError` before comparing anything, and the model keeps that error path:

- The selector's comprehension raises as soon as the mesh has an edge.
- By then the mode has been switched and the select mode forced.
- The copy is never written back, so the mesh data is unchanged.
- The mode of entry is not restored.
- `execute` then ends with the exception (`Raised`) instead of `{'FINISHED'}`.

With no edges, a negative threshold raises nothing.

Points worth noting about the code:

- Only EDIT mode is left for OBJECT mode. An object in another mode, such as SCULPT, is processed in that mode. The ghost out-parameter `processedIn` of the selector records the mode in which edges are processed.
- On an axis-aligned cube with plane XY and tolerance 0.0001, the code selects eight edges: the four of the bottom square and the four of the top square. `PlanarOperator.CubeXYSelectsHorizontalEdges` proves eight.
- The threshold property, `FloatProperty(name='Threshold', default=0.001)`, sets no `min`, so a negative threshold is possible. See the error path above.

## Model

| member | source | states |
|---|---|---|
| `Geometry.Sub` | planar_edges.py:51 | the difference `a - b` is the vector that carries `b` to `a`: adding it to `b` gives `a`, component by component |
| `Geometry.Dot` | planar_edges.py:51 | no contract of its own: the dot product `Vector.dot`, `a.x*b.x + a.y*b.y + a.z*b.z`; `Geometry.DotWithAxes` states what the operator relies on |
| `Geometry.DotWithAxes` | planar_edges.py:51 | the dot product with a coordinate axis unit vector, as `plane_normal` returns, is the matching component |
| `Host.Direction` | planar_edges.py:51 | an edge's direction `verts[1].co - verts[0].co` runs from its first vertex to its second: the first vertex plus the direction is the second |
| `Geometry.IsClose` | planar_edges.py:51 | `isclose` fails only for a negative tolerance; within the absolute tolerance it is true; against 0 it is exactly `abs(a) <= abs_tol` |
| `Geometry.AxisUnitHasUnitLength` | planar_edges.py:61-68 | a coordinate-axis unit vector, as `plane_normal` returns, has length 1 |
| `Planar.PlaneNormal` | planar_edges.py:61-68 | `plane_normal` is total and every result is the unit vector of a coordinate axis |
| `Planar.PlaneNormalIsNormalToPlane` | planar_edges.py:61-68 | for XY, YZ and XZ the normal has no component along either axis the tag names and a unit component along the third |
| `Planar.PlaneNormalIsUnit` | planar_edges.py:61-68 | for every tag, known or not, the normal has length 1 |
| `Planar.PlaneNormalFallback` | planar_edges.py:63-68 | every tag other than XZ and YZ, XY included, resolves to (0, 0, 1) |
| `Planar.PerpendicularEdges` | planar_edges.py:50-51 | the comprehension raises iff the threshold is negative and there is an edge; otherwise it lists, in increasing order and without repeats, exactly the edges with `abs(direction · vector) <= threshold` |
| `Planar.MarkSelected` | planar_edges.py:52-53 | the value after `edge.select = True` for each listed edge: the flag count is kept; `Planar.MarkSelectedAt` states which flags are set |
| `Planar.MarkSelectedAt` | planar_edges.py:52-53 | after the select loop a flag is set iff it was set before or its edge was listed |
| `Planar.SelectListed` | planar_edges.py:52-53 | the loop `edge.select = True` sets the listed edges' flags and changes nothing else |
| `Planar.DeselectAll` | planar_edges.py:71-78 | afterwards every face, edge and vertex flag is false; counts, coordinates and edges are unchanged |
| `Planar.Deselected` | planar_edges.py:71-78 | the mesh value after `_deselect_all`: every face, edge and vertex flag is false; coordinates, edges and counts are kept; a well-formed mesh stays well-formed |
| `Planar.SelectPerpendicular` | planar_edges.py:44-56 | the mesh value the selector writes back, `None` when `isclose` raises; on success the result is well-formed with the coordinates, edges and face and vertex counts on entry; the lemmas below state which edges are selected |
| `Planar.SelectPerpendicularFails` | planar_edges.py:48-53 | the selection fails exactly when the threshold is negative and the mesh has an edge |
| `Planar.SelectPerpendicularSelectsExactly` | planar_edges.py:48-53 | for threshold >= 0: edge i is selected iff `abs((co[v1] - co[v0]) · vector) <= threshold`; no face or vertex is selected; coordinates, edges and counts are those on entry |
| `Planar.SelectPerpendicularEdgeFlags` | planar_edges.py:48-53 | when the edges passing the test are known, the edge flags afterwards are exactly that list |
| `Planar.SelectPerpendicularIgnoresPriorSelection` | planar_edges.py:48-53 | two meshes that differ only in their flags on entry end in the same state |
| `Planar.SelectPerpendicularIdempotent` | planar_edges.py:48-53 | running the selection on its own result gives that result again |
| `Planar.SelectEdgesPerpendicularVector` | planar_edges.py:33-58 | processes edges in OBJECT mode if entered in EDIT mode, otherwise in the mode of entry; sets select mode (False, True, False); on success restores the entry mode and leaves the mesh as `SelectPerpendicular` says; when `isclose` raises, leaves the mesh data unchanged and the mode un-restored |
| `Host.BMesh.FromMesh` | planar_edges.py:44-46 | the editable copy holds the mesh's value in fresh arrays |
| `Host.BMesh.ToMesh` | planar_edges.py:55 | afterwards the mesh data holds the copy's value and the copy is unchanged |
| `PlanarOperator.Execute` | planar_edges.py:118-130 | `execute` finishes iff the scene threshold is non-negative or there are no edges; then the mode is restored and the mesh is the selection for the plane's normal; otherwise `ValueError` escapes with the mesh data unchanged |
| `PlanarOperator.ExecuteSelectsPlaneParallelEdges` | planar_edges.py:123-129 | the operator selects the edges parallel to the chosen plane: for YZ those with `abs(dx) <= threshold`, for XZ `abs(dy)`, for XY and any other tag `abs(dz)` |
| `PlanarOperator.ZeroThresholdSelectsExactlyPerpendicular` | planar_edges.py:51 | with threshold 0 an edge is selected iff its dot product with the vector is exactly 0 |
| `PlanarOperator.CubeXYSelectsHorizontalEdges` | planar_edges.py:123-129 | on the unit cube with XY and threshold 0.0001 the eight edges of the bottom and top squares are selected and the four vertical ones are not, whatever was selected before |
| `PlanarOperator.DiagonalEdgeNotSelected` | planar_edges.py:123-129 | an edge along (1, 1, 1) is not selected for XY at threshold 0.0001 |

## Left out

- Floating point: coordinates, dot products and `isclose` are over the reals. Rounding, infinities and NaN of `Vector.dot` and `math.isclose` are not modelled.
- `bmesh.new`, `from_mesh`, `to_mesh`, `free` and `ensure_lookup_table` are host calls. They are modelled as a copy of all five arrays into fresh arrays and a copy back. `ensure_lookup_table` and `free` have no effect in the model.
- `Host.BMesh.ToMesh`: it overwrites the mesh's arrays in place, so it requires equal element counts. Blender's `to_mesh` rebuilds the mesh whatever the counts. The two agree here, because the copy comes from the same mesh and nothing is added or removed.
- `bpy.ops.object.mode_set` is modelled as an assignment to the mode. Its host effects, such as syncing edit-mode data into the mesh, are not modelled.
- Selection flushing: Blender may propagate an edge's selection to its vertices. That is not visible in this code and is not modelled.
- Host errors, such as a missing active object or a non-mesh object, are not modelled. The context always has a mesh.
- The undo step that `bl_options = {'REGISTER', 'UNDO'}` requests is host behaviour and is not modelled.
- `Planar.ui` and `Planar_PT_panel.draw` are UI drawing, not selection logic.
- `register`, `unregister`, the two scene properties' registration and `bl_info` are host plumbing with no behaviour to verify.
