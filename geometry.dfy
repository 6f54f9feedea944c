/**
 * The parts of `mathutils.Vector` and `math.isclose` that the add-on relies on,
 * over the reals instead of IEEE doubles.
 */
module Geometry {
  import opened Wrappers

  /** A three-component vector, as `mathutils.Vector((x, y, z))`. */
  datatype Vector3 = Vector3(x: real, y: real, z: real)

  /** Component-wise difference `a - b`. */
  function Sub(a: Vector3, b: Vector3): (r: Vector3)
    ensures b.x + r.x == a.x && b.y + r.y == a.y && b.z + r.z == a.z
  {
    Vector3(a.x - b.x, a.y - b.y, a.z - b.z)
  }

  /** `a.dot(b)`. */
  function Dot(a: Vector3, b: Vector3): real {
    a.x * b.x + a.y * b.y + a.z * b.z
  }

  function Abs(a: real): real {
    if a < 0.0 then -a else a
  }

  function Max(a: real, b: real): real {
    if a < b then b else a
  }

  /** The dot product with a coordinate axis unit vector is the matching component. */
  lemma DotWithAxes(d: Vector3)
    ensures Dot(d, Vector3(1.0, 0.0, 0.0)) == d.x
    ensures Dot(d, Vector3(0.0, 1.0, 0.0)) == d.y
    ensures Dot(d, Vector3(0.0, 0.0, 1.0)) == d.z
  {
  }

  /** True of the unit vector along the positive direction of one of the three coordinate axes. */
  predicate IsAxisUnit(n: Vector3) {
    || (n.x == 1.0 && n.y == 0.0 && n.z == 0.0)
    || (n.x == 0.0 && n.y == 1.0 && n.z == 0.0)
    || (n.x == 0.0 && n.y == 0.0 && n.z == 1.0)
  }

  /** An axis unit vector has length 1. */
  lemma AxisUnitHasUnitLength(n: Vector3)
    requires IsAxisUnit(n)
    ensures Dot(n, n) == 1.0
  {
  }

  /** The default relative tolerance of `math.isclose`. */
  const RelTol: real := 0.000000001

  /**
   * `math.isclose(a, b, abs_tol=absTol)` with the default relative tolerance:
   * `|a - b| <= max(rel_tol * max(|a|, |b|), abs_tol)`. A negative tolerance
   * raises `ValueError` before anything is compared, modelled as `None`.
   */
  function IsClose(a: real, b: real, absTol: real): (r: Option<bool>)
    ensures r.None? <==> absTol < 0.0
    ensures r.Some? && Abs(a - b) <= absTol ==> r.value
    ensures r.Some? && b == 0.0 ==> (r.value <==> Abs(a) <= absTol)
  {
    if RelTol < 0.0 || absTol < 0.0 then None
    else Some(Abs(a - b) <= Max(RelTol * Max(Abs(a), Abs(b)), absTol))
  }
}
