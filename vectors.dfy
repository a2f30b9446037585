/**
 * Three-dimensional vectors over the reals, standing in for the simulator's
 * double-precision vector type, and the two operations of it that need a square
 * root (the Euclidean norm and the unit vector), which are taken as parameters.
 */
module Vectors {

  datatype Vector3 = Vector3(x: real, y: real, z: real)
  {
    function Add(o: Vector3): Vector3 { Vector3(x + o.x, y + o.y, z + o.z) }

    function Sub(o: Vector3): Vector3 { Vector3(x - o.x, y - o.y, z - o.z) }

    function Neg(): Vector3 { Vector3(-x, -y, -z) }

    /** Multiplication by a scalar (`v * c` and `c * v` in the source). */
    function Scale(c: real): Vector3 { Vector3(c * x, c * y, c * z) }

    /** Division by a scalar (`v / c` in the source). */
    function Div(c: real): Vector3
      requires c != 0.0
    {
      Vector3(x / c, y / c, z / c)
    }
  }

  const Zero := Vector3(0.0, 0.0, 0.0)

  /**
   * The square-root based operations of the vector type. The model does not
   * compute them; every statement about them that a proof needs is an explicit
   * hypothesis (see Lawful).
   */
  datatype Geometry = Geometry(norm: Vector3 -> real, unit: Vector3 -> Vector3)

  /**
   * What a Euclidean norm and unit vector satisfy and the constraint pass relies
   * on: norms are non-negative, and scaling the unit vector of a non-zero vector
   * by c >= 0 gives a vector of norm c.
   */
  ghost predicate Lawful(geo: Geometry)
  {
    && (forall v :: geo.norm(v) >= 0.0)
    && (forall v, c :: 0.0 <= c && geo.norm(v) > 0.0 ==> geo.norm(geo.unit(v).Scale(c)) == c)
  }

  lemma AddAssoc(u: Vector3, v: Vector3, w: Vector3)
    ensures u.Add(v).Add(w) == u.Add(v.Add(w))
  {
  }

  lemma AddZero(v: Vector3)
    ensures v.Add(Zero) == v && Zero.Add(v) == v
  {
  }

  /** The sum of a sequence of vectors, accumulated from the front. */
  function Sum(vs: seq<Vector3>): Vector3
  {
    if vs == [] then Zero else Sum(vs[..|vs| - 1]).Add(vs[|vs| - 1])
  }

  /** Replacing one summand changes the sum by the difference. */
  lemma {:induction false} SumUpdate(vs: seq<Vector3>, i: nat, v: Vector3)
    requires i < |vs|
    ensures Sum(vs[i := v]) == Sum(vs).Sub(vs[i]).Add(v)
  {
    var n := |vs| - 1;
    var ws := vs[i := v];
    if i < n {
      assert ws[..n] == vs[..n][i := v];
      SumUpdate(vs[..n], i, v);
    } else {
      assert ws[..n] == vs[..n];
    }
  }
}
