/** Exact three-dimensional vector algebra over the reals, standing in for the
    numpy arrays of shape (3,) that the planner passes around. */
module Vectors {

  datatype Vec3 = Vec3(x: real, y: real, z: real) {

    function Add(o: Vec3): Vec3 {
      Vec3(x + o.x, y + o.y, z + o.z)
    }

    function Sub(o: Vec3): Vec3 {
      Vec3(x - o.x, y - o.y, z - o.z)
    }

    function Scale(k: real): Vec3 {
      Vec3(k * x, k * y, k * z)
    }

    function Neg(): Vec3 {
      Vec3(-x, -y, -z)
    }
  }

  const Zero := Vec3(0.0, 0.0, 0.0)

  datatype Option<T> = None | Some(value: T) {
    function GetOr(default: T): T {
      if Some? then value else default
    }
  }

  /** The weighted sum `w[0]*rows[0] + ... + w[n-1]*rows[n-1]`: a row vector of
      weights multiplied with a table of vectors, as `np.matmul` does it. */
  function Combine(w: seq<real>, rows: seq<Vec3>): Vec3
    requires |w| == |rows|
  {
    CombineFrom(w, rows, 0)
  }

  /** The part of `Combine(w, rows)` that starts at index `i`. */
  function CombineFrom(w: seq<real>, rows: seq<Vec3>, i: nat): Vec3
    requires |w| == |rows| && i <= |w|
    decreases |w| - i
  {
    if i == |w| then Zero else rows[i].Scale(w[i]).Add(CombineFrom(w, rows, i + 1))
  }

  /** Coordinate `k` of `v` (0 for x, 1 for y, anything else for z). */
  function Coord(v: Vec3, k: nat): real {
    if k == 0 then v.x else if k == 1 then v.y else v.z
  }

  /** Coordinate `k` of every vector in `c`. */
  function Coords(c: seq<Vec3>, k: nat): (r: seq<real>)
    ensures |r| == |c|
  {
    seq(|c|, i requires 0 <= i < |c| => Coord(c[i], k))
  }

  lemma CoordsEqual(a: Vec3, b: Vec3)
    requires Coord(a, 0) == Coord(b, 0) && Coord(a, 1) == Coord(b, 1) && Coord(a, 2) == Coord(b, 2)
    ensures a == b
  {
  }

  /** The scalar counterpart of `CombineFrom`. */
  function DotFrom(w: seq<real>, v: seq<real>, i: nat): real
    requires |w| == |v| && i <= |w|
    decreases |w| - i
  {
    if i == |w| then 0.0 else w[i] * v[i] + DotFrom(w, v, i + 1)
  }

  /** A weighted sum of vectors is taken coordinate by coordinate. */
  lemma {:induction false} CombineCoord(w: seq<real>, rows: seq<Vec3>, i: nat, k: nat)
    requires |w| == |rows| && i <= |w|
    ensures Coord(CombineFrom(w, rows, i), k) == DotFrom(w, Coords(rows, k), i)
    decreases |w| - i
  {
    if i < |w| {
      CombineCoord(w, rows, i + 1, k);
    }
  }

  lemma MulNonneg(a: real, b: real)
    requires 0.0 <= a && 0.0 <= b
    ensures 0.0 <= a * b
  {
  }
}
