/**
 * The `Planar` class of the add-on: the plane-normal resolver, the
 * deselect-all helper and the selector of edges perpendicular to a vector,
 * together with the value-level functions that specify them.
 */
module Planar {
  import opened Wrappers
  import opened Geometry
  import opened Host

  // ---------------------------------------------------------------------------
  // Plane-normal resolver

  /** `Planar.plane_normal`: the normal of the base plane named by `plane`; any tag other than XZ and YZ is XY. */
  function PlaneNormal(plane: string := "XY"): (n: Vector3)
    ensures IsAxisUnit(n)
  {
    if plane == "XZ" then Vector3(0.0, 1.0, 0.0)
    else if plane == "YZ" then Vector3(1.0, 0.0, 0.0)
    else Vector3(0.0, 0.0, 1.0)
  }

  predicate IsAxisLetter(c: char) {
    c == 'X' || c == 'Y' || c == 'Z'
  }

  /** The coordinate of `v` along the axis named by a letter of a plane tag. */
  function Component(v: Vector3, c: char): real
    requires IsAxisLetter(c)
  {
    if c == 'X' then v.x else if c == 'Y' then v.y else v.z
  }

  /**
   * For each of the three tags, the resolved normal has no component along
   * either axis the tag names and a unit component along the third axis.
   */
  lemma PlaneNormalIsNormalToPlane()
    ensures Component(PlaneNormal("XY"), 'X') == Component(PlaneNormal("XY"), 'Y') == 0.0
    ensures Component(PlaneNormal("XY"), 'Z') == 1.0
    ensures Component(PlaneNormal("YZ"), 'Y') == Component(PlaneNormal("YZ"), 'Z') == 0.0
    ensures Component(PlaneNormal("YZ"), 'X') == 1.0
    ensures Component(PlaneNormal("XZ"), 'X') == Component(PlaneNormal("XZ"), 'Z') == 0.0
    ensures Component(PlaneNormal("XZ"), 'Y') == 1.0
  {
  }

  /** Whatever the tag, the resolved normal has unit length. */
  lemma PlaneNormalIsUnit(plane: string)
    ensures Dot(PlaneNormal(plane), PlaneNormal(plane)) == 1.0
  {
    AxisUnitHasUnitLength(PlaneNormal(plane));
  }

  /** Every tag other than XZ and YZ, whether XY or not a tag at all, resolves like XY. */
  lemma PlaneNormalFallback(plane: string)
    requires plane != "XZ" && plane != "YZ"
    ensures PlaneNormal(plane) == PlaneNormal("XY") == Vector3(0.0, 0.0, 1.0)
  {
  }

  // ---------------------------------------------------------------------------
  // The perpendicularity test

  /** The predicate the selector applies, for a non-negative threshold: `|direction . vector| <= threshold`. */
  predicate IsPerpendicular(co: seq<Vector3>, e: Edge, vector: Vector3, threshold: real)
    requires e.v0 < |co| && e.v1 < |co|
  {
    Abs(Dot(Direction(co, e), vector)) <= threshold
  }

  /**
   * The list comprehension of the selector: in edge order, the indices of the
   * edges whose direction's dot product with `vector` is `isclose` to 0 with
   * `abs_tol = threshold`. `None` when `isclose` raises, which it does on the
   * first edge when the threshold is negative.
   */
  function PerpendicularEdges(co: seq<Vector3>, edges: seq<Edge>, vector: Vector3, threshold: real)
    : (r: Option<seq<nat>>)
    requires EdgesInRange(co, edges)
    ensures r.None? <==> threshold < 0.0 && |edges| > 0
    ensures r.Some? ==> forall j :: 0 <= j < |r.value| ==> r.value[j] < |edges|
    ensures r.Some? ==> forall k :: 0 <= k < |edges| ==>
                          (k in r.value <==> IsPerpendicular(co, edges[k], vector, threshold))
    ensures r.Some? ==> forall i, j :: 0 <= i < j < |r.value| ==> r.value[i] < r.value[j]
    decreases |edges|
  {
    if edges == [] then Some([])
    else
      var last := |edges| - 1;
      match PerpendicularEdges(co, edges[..last], vector, threshold)
      case None => None
      case Some(prefix) =>
        match IsClose(Dot(Direction(co, edges[last]), vector), 0.0, threshold)
        case None => None
        case Some(close) => Some(if close then prefix + [last] else prefix)
  }

  // ---------------------------------------------------------------------------
  // Value-level specification of the selector

  function AllFalse(n: nat): (r: seq<bool>) {
    seq(n, _ => false)
  }

  /** The value of a mesh after `_deselect_all`. */
  function Deselected(s: MeshState): (r: MeshState)
    ensures r.co == s.co && r.edges == s.edges
    ensures |r.faceSelect| == |s.faceSelect| && |r.edgeSelect| == |s.edgeSelect| && |r.vertSelect| == |s.vertSelect|
    ensures forall i :: 0 <= i < |r.faceSelect| ==> !r.faceSelect[i]
    ensures forall i :: 0 <= i < |r.edgeSelect| ==> !r.edgeSelect[i]
    ensures forall i :: 0 <= i < |r.vertSelect| ==> !r.vertSelect[i]
    ensures WellFormed(s) ==> WellFormed(r)
  {
    s.(faceSelect := AllFalse(|s.faceSelect|),
       edgeSelect := AllFalse(|s.edgeSelect|),
       vertSelect := AllFalse(|s.vertSelect|))
  }

  /** The flags after `flags[k] := True` for each `k` of `idx`, in order. */
  function MarkSelected(flags: seq<bool>, idx: seq<nat>): (r: seq<bool>)
    requires forall j :: 0 <= j < |idx| ==> idx[j] < |flags|
    ensures |r| == |flags|
    decreases |idx|
  {
    if idx == [] then flags
    else MarkSelected(flags, idx[..|idx| - 1])[idx[|idx| - 1] := true]
  }

  /** A flag is set after marking exactly when it was set before or its index was marked. */
  lemma {:induction false} MarkSelectedAt(flags: seq<bool>, idx: seq<nat>, k: nat)
    requires forall j :: 0 <= j < |idx| ==> idx[j] < |flags|
    requires k < |flags|
    ensures MarkSelected(flags, idx)[k] <==> flags[k] || k in idx
    decreases |idx|
  {
    if idx != [] {
      var front := idx[..|idx| - 1];
      MarkSelectedAt(flags, front, k);
      assert idx == front + [idx[|idx| - 1]];
    }
  }

  /**
   * What `select_edges_perpendicular_vector` does to the mesh value: clear
   * every flag, then select the edges the comprehension lists. `None` when
   * the comprehension raises; the mesh is then not written back.
   */
  function SelectPerpendicular(s: MeshState, vector: Vector3, threshold: real): (r: Option<MeshState>)
    requires WellFormed(s)
    ensures r.Some? ==> WellFormed(r.value) && r.value.co == s.co && r.value.edges == s.edges
    ensures r.Some? ==> |r.value.faceSelect| == |s.faceSelect| && |r.value.vertSelect| == |s.vertSelect|
  {
    match PerpendicularEdges(s.co, s.edges, vector, threshold)
    case None => None
    case Some(idx) =>
      var d := Deselected(s);
      Some(d.(edgeSelect := MarkSelected(d.edgeSelect, idx)))
  }

  /** The selector fails exactly when the threshold is negative and there is an edge to test. */
  lemma SelectPerpendicularFails(s: MeshState, vector: Vector3, threshold: real)
    requires WellFormed(s)
    ensures SelectPerpendicular(s, vector, threshold).None? <==> threshold < 0.0 && |s.edges| > 0
  {
  }

  /**
   * For a non-negative threshold the selector succeeds; afterwards edge `i`
   * is selected iff `|direction(i) . vector| <= threshold`, no face or vertex
   * is selected, and coordinates, edges and element counts are those of `s`.
   */
  lemma SelectPerpendicularSelectsExactly(s: MeshState, vector: Vector3, threshold: real)
    requires WellFormed(s) && threshold >= 0.0
    ensures SelectPerpendicular(s, vector, threshold).Some?
    ensures var t := SelectPerpendicular(s, vector, threshold).value;
      && t.co == s.co && t.edges == s.edges
      && |t.faceSelect| == |s.faceSelect| && |t.edgeSelect| == |s.edges| && |t.vertSelect| == |s.co|
      && (forall f :: 0 <= f < |t.faceSelect| ==> !t.faceSelect[f])
      && (forall v :: 0 <= v < |t.vertSelect| ==> !t.vertSelect[v])
      && (forall i :: 0 <= i < |s.edges| ==>
            (t.edgeSelect[i] <==> IsPerpendicular(s.co, s.edges[i], vector, threshold)))
  {
    var idx := PerpendicularEdges(s.co, s.edges, vector, threshold).value;
    var cleared := AllFalse(|s.edgeSelect|);
    forall i | 0 <= i < |s.edges|
      ensures MarkSelected(cleared, idx)[i] <==> IsPerpendicular(s.co, s.edges[i], vector, threshold)
    {
      MarkSelectedAt(cleared, idx, i);
    }
  }

  /** When the edges satisfying the test are known, so are the edge flags afterwards. */
  lemma SelectPerpendicularEdgeFlags(s: MeshState, vector: Vector3, threshold: real, expected: seq<bool>)
    requires WellFormed(s) && threshold >= 0.0 && |expected| == |s.edges|
    requires forall i :: 0 <= i < |s.edges| ==>
               (expected[i] <==> IsPerpendicular(s.co, s.edges[i], vector, threshold))
    ensures SelectPerpendicular(s, vector, threshold).Some?
    ensures SelectPerpendicular(s, vector, threshold).value.edgeSelect == expected
  {
    SelectPerpendicularSelectsExactly(s, vector, threshold);
  }

  /** The outcome depends on coordinates, edges and element counts only, never on the flags on entry. */
  lemma SelectPerpendicularIgnoresPriorSelection(s1: MeshState, s2: MeshState, vector: Vector3, threshold: real)
    requires WellFormed(s1) && WellFormed(s2)
    requires s1.co == s2.co && s1.edges == s2.edges && |s1.faceSelect| == |s2.faceSelect|
    ensures SelectPerpendicular(s1, vector, threshold) == SelectPerpendicular(s2, vector, threshold)
  {
    assert Deselected(s1) == Deselected(s2);
  }

  /** Running the selector on its own result changes nothing. */
  lemma SelectPerpendicularIdempotent(s: MeshState, vector: Vector3, threshold: real)
    requires WellFormed(s)
    requires SelectPerpendicular(s, vector, threshold).Some?
    ensures var t := SelectPerpendicular(s, vector, threshold).value;
      WellFormed(t) && SelectPerpendicular(t, vector, threshold) == Some(t)
  {
    var t := SelectPerpendicular(s, vector, threshold).value;
    assert WellFormed(t);
    SelectPerpendicularIgnoresPriorSelection(s, t, vector, threshold);
  }

  // ---------------------------------------------------------------------------
  // The imperative operations

  /** `Planar._deselect_all`: clear the selection flag of every face, edge and vertex. */
  method DeselectAll(bm: BMesh)
    requires bm.Valid()
    modifies bm.faceSelect, bm.edgeSelect, bm.vertSelect
    ensures bm.Valid()
    ensures bm.State() == Deselected(old(bm.State()))
  {
    for i := 0 to bm.faceSelect.Length
      modifies bm.faceSelect
      invariant forall k :: 0 <= k < i ==> !bm.faceSelect[k]
    {
      bm.faceSelect[i] := false;
    }
    for i := 0 to bm.edgeSelect.Length
      modifies bm.edgeSelect
      invariant forall k :: 0 <= k < i ==> !bm.edgeSelect[k]
    {
      bm.edgeSelect[i] := false;
    }
    for i := 0 to bm.vertSelect.Length
      modifies bm.vertSelect
      invariant forall k :: 0 <= k < i ==> !bm.vertSelect[k]
    {
      bm.vertSelect[i] := false;
    }
    assert bm.faceSelect[..] == AllFalse(bm.faceSelect.Length);
    assert bm.edgeSelect[..] == AllFalse(bm.edgeSelect.Length);
    assert bm.vertSelect[..] == AllFalse(bm.vertSelect.Length);
  }

  /** The loop `for edge in edges: edge.select = True` of the selector, over edge indices. */
  method SelectListed(bm: BMesh, idx: seq<nat>)
    requires bm.Valid()
    requires forall j :: 0 <= j < |idx| ==> idx[j] < bm.edgeSelect.Length
    modifies bm.edgeSelect
    ensures bm.Valid()
    ensures bm.State() == old(bm.State()).(edgeSelect := MarkSelected(old(bm.edgeSelect[..]), idx))
  {
    ghost var before := bm.edgeSelect[..];
    for j := 0 to |idx|
      invariant bm.edgeSelect[..] == MarkSelected(before, idx[..j])
    {
      assert idx[..j + 1][..j] == idx[..j];
      bm.edgeSelect[idx[j]] := true;
    }
    assert idx[..|idx|] == idx;
  }

  /**
   * `Planar.select_edges_perpendicular_vector`. Leaves EDIT mode for OBJECT
   * mode, forces edge select mode, copies the mesh, clears every flag,
   * selects the edges the comprehension lists, writes the copy back and
   * restores the mode of entry. `ok` is false when `isclose` raises: the
   * exception leaves the mesh data untouched and the mode un-restored.
   * `processedIn` is the mode in which the edges are processed.
   */
  method SelectEdgesPerpendicularVector(
    ctx: Context, vector: Vector3 := Vector3(0.0, 0.0, 1.0), threshold: real := 0.0001)
    returns (ok: bool, ghost processedIn: Mode)
    requires ctx.mesh.Valid()
    modifies ctx, ctx.mesh.co, ctx.mesh.edges, ctx.mesh.faceSelect, ctx.mesh.edgeSelect, ctx.mesh.vertSelect
    ensures ctx.mesh.Valid()
    ensures processedIn == if old(ctx.mode) == EditMode then ObjectMode else old(ctx.mode)
    ensures ctx.meshSelectMode == (false, true, false)
    ensures ctx.threshold == old(ctx.threshold)
    ensures ok <==> SelectPerpendicular(old(ctx.mesh.State()), vector, threshold).Some?
    ensures ok ==> ctx.mode == old(ctx.mode)
    ensures ok ==> ctx.mesh.State() == SelectPerpendicular(old(ctx.mesh.State()), vector, threshold).value
    ensures !ok ==> ctx.mode == processedIn && ctx.mesh.State() == old(ctx.mesh.State())
  {
    var mode := ctx.mode;
    if ctx.mode == EditMode {
      ctx.mode := ObjectMode;
    }
    ctx.meshSelectMode := (false, true, false);
    processedIn := ctx.mode;
    var bm := new BMesh.FromMesh(ctx.mesh);
    DeselectAll(bm);
    ghost var cleared := bm.State();
    var found := PerpendicularEdges(bm.co[..], bm.edges[..], vector, threshold);
    if found.None? {
      ok := false;
      return;
    }
    SelectListed(bm, found.value);
    bm.ToMesh(ctx.mesh);
    ctx.mode := mode;
    ok := true;
  }
}
