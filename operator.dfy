/**
 * The operator `planar.select_edges` (`Planar_OT_select_edges`): resolve the
 * chosen plane's normal and select the edges perpendicular to it, with the
 * threshold read from the scene. Also the worked scenarios of the add-on.
 */
module PlanarOperator {
  import opened Wrappers
  import opened Geometry
  import opened Host
  import opened Planar

  /** What `execute` gives back to the host: `{'FINISHED'}`, or the exception that escaped it. */
  datatype Status = Finished | Raised(error: string)

  /** The message of the `ValueError` that `math.isclose` raises for a negative tolerance. */
  const ToleranceError: string := "tolerances must be non-negative"

  /**
   * `Planar_OT_select_edges.execute`. On success the mode is that of entry and
   * the mesh is what the selector makes of it for the plane's normal; when
   * the scene threshold is negative and the mesh has an edge, `isclose`
   * raises and the mesh data is left as it was.
   */
  method Execute(ctx: Context, plane: string) returns (status: Status)
    requires ctx.mesh.Valid()
    modifies ctx, ctx.mesh.co, ctx.mesh.edges, ctx.mesh.faceSelect, ctx.mesh.edgeSelect, ctx.mesh.vertSelect
    ensures ctx.mesh.Valid()
    ensures ctx.meshSelectMode == (false, true, false) && ctx.threshold == old(ctx.threshold)
    ensures status == Finished <==> ctx.threshold >= 0.0 || ctx.mesh.edges.Length == 0
    ensures status == Finished ==> ctx.mode == old(ctx.mode)
    ensures status == Finished ==>
      ctx.mesh.State() == SelectPerpendicular(old(ctx.mesh.State()), PlaneNormal(plane), ctx.threshold).value
    ensures status != Finished ==> status == Raised(ToleranceError)
    ensures status != Finished ==>
      && ctx.mesh.State() == old(ctx.mesh.State())
      && ctx.mode == if old(ctx.mode) == EditMode then ObjectMode else old(ctx.mode)
  {
    ghost var before := ctx.mesh.State();
    var normal := PlaneNormal(plane);
    var ok;
    ghost var processedIn;
    ok, processedIn := SelectEdgesPerpendicularVector(ctx, normal, ctx.threshold);
    SelectPerpendicularFails(before, normal, ctx.threshold);
    status := if ok then Finished else Raised(ToleranceError);
  }

  /**
   * The operator selects the edges parallel to the chosen plane: for YZ those
   * whose x-extent is within the threshold, for XZ the y-extent, and for XY
   * (and any other tag) the z-extent.
   */
  lemma ExecuteSelectsPlaneParallelEdges(s: MeshState, plane: string, threshold: real, i: nat)
    requires WellFormed(s) && threshold >= 0.0 && i < |s.edges|
    ensures SelectPerpendicular(s, PlaneNormal(plane), threshold).Some?
    ensures var selected := SelectPerpendicular(s, PlaneNormal(plane), threshold).value.edgeSelect[i];
            var d := Direction(s.co, s.edges[i]);
      && (plane == "YZ" ==> (selected <==> Abs(d.x) <= threshold))
      && (plane == "XZ" ==> (selected <==> Abs(d.y) <= threshold))
      && (plane != "YZ" && plane != "XZ" ==> (selected <==> Abs(d.z) <= threshold))
  {
    SelectPerpendicularSelectsExactly(s, PlaneNormal(plane), threshold);
    DotWithAxes(Direction(s.co, s.edges[i]));
  }

  /** With a zero threshold exactly the edges whose dot product is exactly zero are selected. */
  lemma ZeroThresholdSelectsExactlyPerpendicular(s: MeshState, vector: Vector3, i: nat)
    requires WellFormed(s) && i < |s.edges|
    ensures SelectPerpendicular(s, vector, 0.0).Some?
    ensures SelectPerpendicular(s, vector, 0.0).value.edgeSelect[i]
        <==> Dot(Direction(s.co, s.edges[i]), vector) == 0.0
  {
    SelectPerpendicularSelectsExactly(s, vector, 0.0);
  }

  /** The unit cube's 8 vertices, bottom face first. */
  function CubeCoords(): seq<Vector3> {
    [Vector3(0.0, 0.0, 0.0), Vector3(1.0, 0.0, 0.0), Vector3(1.0, 1.0, 0.0), Vector3(0.0, 1.0, 0.0),
     Vector3(0.0, 0.0, 1.0), Vector3(1.0, 0.0, 1.0), Vector3(1.0, 1.0, 1.0), Vector3(0.0, 1.0, 1.0)]
  }

  /** The unit cube's 12 edges: bottom square, top square, then the four vertical edges. */
  function CubeEdges(): seq<Edge> {
    [Edge(0, 1), Edge(1, 2), Edge(2, 3), Edge(3, 0),
     Edge(4, 5), Edge(5, 6), Edge(6, 7), Edge(7, 4),
     Edge(0, 4), Edge(1, 5), Edge(2, 6), Edge(3, 7)]
  }

  /** Of the cube's edges, the eight of the bottom and top squares are parallel to XY at threshold 0.0001. */
  lemma CubeEdgePerpendicularToZ(i: nat)
    requires i < 12
    ensures IsPerpendicular(CubeCoords(), CubeEdges()[i], PlaneNormal("XY"), 0.0001) <==> i < 8
  {
    var d := Direction(CubeCoords(), CubeEdges()[i]);
    assert d.z == if i < 8 then 0.0 else 1.0;
    PlaneNormalFallback("XY");
    DotWithAxes(d);
  }

  /**
   * On the unit cube, whatever was selected before, plane XY with threshold
   * 0.0001 selects the eight horizontal edges (bottom and top squares) and
   * not the four vertical ones, and leaves no face or vertex selected.
   */
  lemma CubeXYSelectsHorizontalEdges(s: MeshState)
    requires WellFormed(s) && s.co == CubeCoords() && s.edges == CubeEdges()
    ensures SelectPerpendicular(s, PlaneNormal("XY"), 0.0001).Some?
    ensures var t := SelectPerpendicular(s, PlaneNormal("XY"), 0.0001).value;
      && t.edgeSelect == [true, true, true, true, true, true, true, true, false, false, false, false]
      && t.vertSelect == seq(8, _ => false)
      && t.faceSelect == seq(|s.faceSelect|, _ => false)
  {
    var n := PlaneNormal("XY");
    var expected := [true, true, true, true, true, true, true, true, false, false, false, false];
    forall i | 0 <= i < 12 ensures expected[i] <==> IsPerpendicular(s.co, s.edges[i], n, 0.0001) {
      CubeEdgePerpendicularToZ(i);
    }
    SelectPerpendicularEdgeFlags(s, n, 0.0001, expected);
    SelectPerpendicularSelectsExactly(s, n, 0.0001);
    var t := SelectPerpendicular(s, n, 0.0001).value;
    assert t.faceSelect == seq(|s.faceSelect|, _ => false);
    assert t.vertSelect == seq(8, _ => false);
  }

  /** The diagonal edge from (0, 0, 0) to (1, 1, 1) is not parallel to XY at threshold 0.0001. */
  lemma DiagonalNotPerpendicularToZ(co: seq<Vector3>)
    requires co == [Vector3(0.0, 0.0, 0.0), Vector3(1.0, 1.0, 1.0)]
    ensures !IsPerpendicular(co, Edge(0, 1), PlaneNormal("XY"), 0.0001)
  {
    var d := Direction(co, Edge(0, 1));
    assert d.z == 1.0;
    PlaneNormalFallback("XY");
    DotWithAxes(d);
  }

  /** A mesh whose one edge is that diagonal ends up with that edge unselected for XY at threshold 0.0001. */
  lemma DiagonalEdgeNotSelected(s: MeshState)
    requires WellFormed(s) && s.co == [Vector3(0.0, 0.0, 0.0), Vector3(1.0, 1.0, 1.0)] && s.edges == [Edge(0, 1)]
    ensures SelectPerpendicular(s, PlaneNormal("XY"), 0.0001).Some?
    ensures SelectPerpendicular(s, PlaneNormal("XY"), 0.0001).value.edgeSelect == [false]
  {
    DiagonalNotPerpendicularToZ(s.co);
    SelectPerpendicularEdgeFlags(s, PlaneNormal("XY"), 0.0001, [false]);
  }
}
