/**
 * The host state the add-on reads and writes: the active object's mode, the
 * tool settings' mesh select mode, the scene's threshold property, the
 * object's mesh data and the temporary editable `bmesh` copy of it.
 */
module Host {
  import opened Geometry

  /** The object interaction modes of the host editor. */
  datatype Mode =
    | ObjectMode | EditMode | PoseMode | SculptMode
    | VertexPaintMode | WeightPaintMode | TexturePaintMode | ParticleEditMode

  /** An edge, by the indices of its two vertices `verts[0]` and `verts[1]`. */
  datatype Edge = Edge(v0: nat, v1: nat)

  /**
   * The value of a mesh: vertex coordinates, edges, and the selection flags
   * of its faces, edges and vertices. Faces only carry their flag here.
   */
  datatype MeshState = MeshState(
    co: seq<Vector3>,
    edges: seq<Edge>,
    faceSelect: seq<bool>,
    edgeSelect: seq<bool>,
    vertSelect: seq<bool>)

  predicate EdgesInRange(co: seq<Vector3>, edges: seq<Edge>) {
    forall i :: 0 <= i < |edges| ==> edges[i].v0 < |co| && edges[i].v1 < |co|
  }

  /** Every edge names existing vertices and there is one flag per edge and per vertex. */
  predicate WellFormed(s: MeshState) {
    EdgesInRange(s.co, s.edges) && |s.edgeSelect| == |s.edges| && |s.vertSelect| == |s.co|
  }

  /** The direction `verts[1].co - verts[0].co` of an edge. */
  function Direction(co: seq<Vector3>, e: Edge): (d: Vector3)
    requires e.v0 < |co| && e.v1 < |co|
    ensures co[e.v0].x + d.x == co[e.v1].x
    ensures co[e.v0].y + d.y == co[e.v1].y
    ensures co[e.v0].z + d.z == co[e.v1].z
  {
    Sub(co[e.v1], co[e.v0])
  }

  /** The persistent mesh data of the active object (`src_obj.data`). */
  class Mesh {
    const co: array<Vector3>
    const edges: array<Edge>
    const faceSelect: array<bool>
    const edgeSelect: array<bool>
    const vertSelect: array<bool>

    ghost predicate Valid()
      reads co, edges, faceSelect, edgeSelect, vertSelect
    {
      && WellFormed(State())
      && faceSelect != edgeSelect && faceSelect != vertSelect && edgeSelect != vertSelect
    }

    function State(): MeshState
      reads co, edges, faceSelect, edgeSelect, vertSelect
    {
      MeshState(co[..], edges[..], faceSelect[..], edgeSelect[..], vertSelect[..])
    }

    /** A mesh holding the value `s`, as the host loads it. */
    constructor (s: MeshState)
      requires WellFormed(s)
      ensures Valid() && State() == s
      ensures fresh(co) && fresh(edges) && fresh(faceSelect) && fresh(edgeSelect) && fresh(vertSelect)
    {
      co := new Vector3[|s.co|](i requires 0 <= i < |s.co| => s.co[i]);
      edges := new Edge[|s.edges|](i requires 0 <= i < |s.edges| => s.edges[i]);
      faceSelect := new bool[|s.faceSelect|](i requires 0 <= i < |s.faceSelect| => s.faceSelect[i]);
      edgeSelect := new bool[|s.edgeSelect|](i requires 0 <= i < |s.edgeSelect| => s.edgeSelect[i]);
      vertSelect := new bool[|s.vertSelect|](i requires 0 <= i < |s.vertSelect| => s.vertSelect[i]);
    }
  }

  /** The editable copy made by `bmesh.new()` and `from_mesh`, written back by `to_mesh`. */
  class BMesh {
    const co: array<Vector3>
    const edges: array<Edge>
    const faceSelect: array<bool>
    const edgeSelect: array<bool>
    const vertSelect: array<bool>

    ghost predicate Valid()
      reads co, edges, faceSelect, edgeSelect, vertSelect
    {
      && WellFormed(State())
      && faceSelect != edgeSelect && faceSelect != vertSelect && edgeSelect != vertSelect
    }

    function State(): MeshState
      reads co, edges, faceSelect, edgeSelect, vertSelect
    {
      MeshState(co[..], edges[..], faceSelect[..], edgeSelect[..], vertSelect[..])
    }

    /** No array of this copy is an array of `m`. */
    ghost predicate SeparateFrom(m: Mesh) {
      && co != m.co && edges != m.edges
      && {faceSelect, edgeSelect, vertSelect} !! {m.faceSelect, m.edgeSelect, m.vertSelect}
    }

    /** `bm = bmesh.new(); bm.from_mesh(m)`: a fresh copy of every array of `m`. */
    constructor FromMesh(m: Mesh)
      requires m.Valid()
      ensures Valid() && State() == m.State()
      ensures fresh(co) && fresh(edges) && fresh(faceSelect) && fresh(edgeSelect) && fresh(vertSelect)
    {
      co := new Vector3[m.co.Length](i reads m.co requires 0 <= i < m.co.Length => m.co[i]);
      edges := new Edge[m.edges.Length](i reads m.edges requires 0 <= i < m.edges.Length => m.edges[i]);
      faceSelect := new bool[m.faceSelect.Length](
        i reads m.faceSelect requires 0 <= i < m.faceSelect.Length => m.faceSelect[i]);
      edgeSelect := new bool[m.edgeSelect.Length](
        i reads m.edgeSelect requires 0 <= i < m.edgeSelect.Length => m.edgeSelect[i]);
      vertSelect := new bool[m.vertSelect.Length](
        i reads m.vertSelect requires 0 <= i < m.vertSelect.Length => m.vertSelect[i]);
    }

    /**
     * `bm.to_mesh(m)`: the mesh data takes this copy's value. The arrays are
     * overwritten in place, so the element counts must agree, as they do for
     * a copy made from `m` to which nothing was added.
     */
    method ToMesh(m: Mesh)
      requires Valid() && m.Valid() && SeparateFrom(m)
      requires co.Length == m.co.Length && edges.Length == m.edges.Length
      requires faceSelect.Length == m.faceSelect.Length
      modifies m.co, m.edges, m.faceSelect, m.edgeSelect, m.vertSelect
      ensures m.Valid() && m.State() == State()
      ensures State() == old(State())
    {
      forall i | 0 <= i < co.Length { m.co[i] := co[i]; }
      forall i | 0 <= i < edges.Length { m.edges[i] := edges[i]; }
      forall i | 0 <= i < faceSelect.Length { m.faceSelect[i] := faceSelect[i]; }
      forall i | 0 <= i < edgeSelect.Length { m.edgeSelect[i] := edgeSelect[i]; }
      forall i | 0 <= i < vertSelect.Length { m.vertSelect[i] := vertSelect[i]; }
    }
  }

  /**
   * What the operator sees of `context`: the active object's mode and mesh,
   * `tool_settings.mesh_select_mode` and `scene.planar_props_threshold`.
   */
  class Context {
    var mode: Mode
    var meshSelectMode: (bool, bool, bool)
    var threshold: real
    const mesh: Mesh

    constructor (mode: Mode, meshSelectMode: (bool, bool, bool), threshold: real, mesh: Mesh)
      ensures this.mode == mode && this.meshSelectMode == meshSelectMode
      ensures this.threshold == threshold && this.mesh == mesh
    {
      this.mode := mode;
      this.meshSelectMode := meshSelectMode;
      this.threshold := threshold;
      this.mesh := mesh;
    }
  }
}
