/** `propose_geometric_spline_path`: two quintic segments through three
    waypoints that share position, tangent and curvature at the middle one.
    The interior tangent's direction comes from a Rodrigues rotation (arccos,
    cos, sin, a normalised cross product), which is not modelled: the unit
    vector it yields is an input, and so is the Euclidean norm. */
module GeometricPath {
  import opened Vectors
  import opened Quintic
  import opened QuinticProperties

  /** Monomial table (t^3 first) of the cubic Hermite curve that leaves `p0`
      with tangent `m0` and arrives at `p1` with tangent `m1`. */
  function CubicHermite(p0: Vec3, m0: Vec3, p1: Vec3, m1: Vec3): (c: seq<Vec3>)
    ensures |c| == 4
  {
    [ p0.Scale(2.0).Add(m0).Sub(p1.Scale(2.0)).Add(m1),
      p0.Scale(-3.0).Sub(m0.Scale(2.0)).Add(p1.Scale(3.0)).Sub(m1),
      m0,
      p0 ]
  }

  /** Second derivative of that cubic Hermite curve at `t`. */
  function CubicHermiteAccel(p0: Vec3, m0: Vec3, p1: Vec3, m1: Vec3, t: real): Vec3 {
    Horner(Derivative(Derivative(CubicHermite(p0, m0, p1, m1))), t)
  }

  /** The cubic Hermite curve does interpolate its end data. */
  lemma CubicHermiteEnds(p0: Vec3, m0: Vec3, p1: Vec3, m1: Vec3)
    ensures Horner(CubicHermite(p0, m0, p1, m1), 0.0) == p0
    ensures Horner(CubicHermite(p0, m0, p1, m1), 1.0) == p1
    ensures Horner(Derivative(CubicHermite(p0, m0, p1, m1)), 0.0) == m0
    ensures Horner(Derivative(CubicHermite(p0, m0, p1, m1)), 1.0) == m1
  {
    var c := CubicHermite(p0, m0, p1, m1);
    var d := Derivative(c);
    HornerAtZero(c);
    HornerAtZero(d);
    HornerAtOne(c, 4);
    HornerAtOne(d, 3);
    assert SumUpTo(c, 4) == c[0].Add(c[1]).Add(c[2]).Add(c[3]) by {
      SumUnfold(c, 4); SumUnfold(c, 3); SumUnfold(c, 2); SumUnfold(c, 1);
    }
    assert SumUpTo(d, 3) == d[0].Add(d[1]).Add(d[2]) by {
      SumUnfold(d, 3); SumUnfold(d, 2); SumUnfold(d, 1);
    }
  }

  /** The two curvature demands that `spline.py`, lines 88-90, blends: the
      end of a cubic Hermite curve p1 -> p2 and the start of one p2 -> p3. */
  lemma CubicHermiteAccelEnds(p0: Vec3, m0: Vec3, p1: Vec3, m1: Vec3)
    ensures CubicHermiteAccel(p0, m0, p1, m1, 1.0) == p0.Scale(6.0).Add(m0.Scale(2.0)).Add(m1.Scale(4.0)).Sub(p1.Scale(6.0))
    ensures CubicHermiteAccel(p0, m0, p1, m1, 0.0) == p0.Scale(-6.0).Sub(m0.Scale(4.0)).Sub(m1.Scale(2.0)).Add(p1.Scale(6.0))
  {
    var c := CubicHermite(p0, m0, p1, m1);
    var d2 := Derivative(Derivative(c));
    assert d2 == [c[0].Scale(3.0).Scale(2.0), c[1].Scale(2.0).Scale(1.0)];
    HornerAtZero(d2);
    HornerAtOne(d2, 2);
    assert SumUpTo(d2, 2) == d2[0].Add(d2[1]) by {
      SumUnfold(d2, 2); SumUnfold(d2, 1);
    }
  }

  /** The chord weights of `spline.py`, lines 88-89: `alpha = n23 / (n12 +
      n23)` and `beta = n12 / (n12 + n23)`. They sum to 1, and the curve
      over the shorter chord gets the larger weight. */
  function ChordWeights(norm12: real, norm23: real): (w: (real, real))
    requires norm12 > 0.0 && norm23 > 0.0
    ensures w.0 + w.1 == 1.0
    ensures 0.0 < w.0 < 1.0 && 0.0 < w.1 < 1.0
    ensures norm12 < norm23 <==> w.0 > w.1
  {
    var sum := norm12 + norm23;
    WeightFacts(norm23, norm12, sum);
    WeightFacts(norm12, norm23, sum);
    (norm23 / sum, norm12 / sum)
  }

  /** Dividing two positive reals by their sum gives weights in (0, 1) that
      sum to 1 and keep the order of the two reals. */
  lemma WeightFacts(a: real, b: real, sum: real)
    requires 0.0 < a && 0.0 < b && sum == a + b
    ensures a / sum + b / sum == 1.0
    ensures 0.0 < a / sum < 1.0
    ensures a / sum - b / sum == (a - b) / sum
    ensures a < b <==> a / sum < b / sum
  {
    assert a / sum + b / sum == (a + b) / sum;
    assert a / sum * sum == a;
    assert a / sum - b / sum == (a - b) / sum;
    assert (a - b) / sum * sum == a - b;
  }

  /** The interior curvature `a2` of `spline.py`, line 90. */
  function InteriorCurvature(p1: Vec3, p2: Vec3, p3: Vec3, t1: Vec3, t2: Vec3, t3: Vec3, norm12: real, norm23: real): Vec3
    requires norm12 > 0.0 && norm23 > 0.0
  {
    var (alpha, beta) := ChordWeights(norm12, norm23);
    p1.Scale(6.0).Add(t1.Scale(2.0)).Add(t2.Scale(4.0)).Sub(p2.Scale(6.0)).Scale(alpha)
      .Add(p2.Scale(-6.0).Sub(t2.Scale(4.0)).Sub(t3.Scale(2.0)).Add(p3.Scale(6.0)).Scale(beta))
  }

  /** `a2` is the chord-weighted blend of the curvature that the cubic
      Hermite curve over the first chord has on arriving at `p2` and the
      curvature that the one over the second chord has on leaving it. */
  lemma InteriorCurvatureIsBlend(p1: Vec3, p2: Vec3, p3: Vec3, t1: Vec3, t2: Vec3, t3: Vec3, norm12: real, norm23: real)
    requires norm12 > 0.0 && norm23 > 0.0
    ensures var (alpha, beta) := ChordWeights(norm12, norm23);
      InteriorCurvature(p1, p2, p3, t1, t2, t3, norm12, norm23)
        == CubicHermiteAccel(p1, t1, p2, t2, 1.0).Scale(alpha).Add(CubicHermiteAccel(p2, t2, p3, t3, 0.0).Scale(beta))
  {
    CubicHermiteAccelEnds(p1, t1, p2, t2);
    CubicHermiteAccelEnds(p2, t2, p3, t3);
  }

  /** When both cubic curves demand the same curvature at `p2`, the blend
      is that curvature; otherwise each coordinate of the blend lies between
      the two demands. */
  lemma BlendIsConvex(p1: Vec3, p2: Vec3, p3: Vec3, t1: Vec3, t2: Vec3, t3: Vec3, norm12: real, norm23: real)
    requires norm12 > 0.0 && norm23 > 0.0
    ensures var a2 := InteriorCurvature(p1, p2, p3, t1, t2, t3, norm12, norm23);
      var u, v := CubicHermiteAccel(p1, t1, p2, t2, 1.0), CubicHermiteAccel(p2, t2, p3, t3, 0.0);
      (u == v ==> a2 == u) &&
      forall k :: 0 <= k < 3 ==>
        (Coord(u, k) <= Coord(a2, k) <= Coord(v, k) || Coord(v, k) <= Coord(a2, k) <= Coord(u, k))
  {
    var u, v := CubicHermiteAccel(p1, t1, p2, t2, 1.0), CubicHermiteAccel(p2, t2, p3, t3, 0.0);
    var w := ChordWeights(norm12, norm23);
    InteriorCurvatureIsBlend(p1, p2, p3, t1, t2, t3, norm12, norm23);
    ConvexBlend(u, v, w.0, w.1);
  }

  lemma ConvexBlend(u: Vec3, v: Vec3, alpha: real, beta: real)
    requires 0.0 < alpha && 0.0 < beta && alpha + beta == 1.0
    ensures var a := u.Scale(alpha).Add(v.Scale(beta));
      (u == v ==> a == u) &&
      forall k :: 0 <= k < 3 ==>
        (Coord(u, k) <= Coord(a, k) <= Coord(v, k) || Coord(v, k) <= Coord(a, k) <= Coord(u, k))
  {
    var a := u.Scale(alpha).Add(v.Scale(beta));
    forall k | 0 <= k < 3
      ensures Coord(u, k) <= Coord(a, k) <= Coord(v, k) || Coord(v, k) <= Coord(a, k) <= Coord(u, k)
      ensures Coord(u, k) == Coord(v, k) ==> Coord(a, k) == Coord(u, k)
    {
      var x, y := Coord(u, k), Coord(v, k);
      CoordBlend(u, v, alpha, beta, k);
      assert Coord(a, k) == alpha * x + beta * y;
      Between(alpha, beta, x, y);
    }
    if u == v {
      CoordsEqual(a, u);
    }
  }

  lemma CoordBlend(u: Vec3, v: Vec3, alpha: real, beta: real, k: nat)
    ensures Coord(u.Scale(alpha).Add(v.Scale(beta)), k) == alpha * Coord(u, k) + beta * Coord(v, k)
  {
    if k == 0 {
    } else if k == 1 {
    } else {
    }
  }

  /** A convex combination of two reals lies between them. */
  lemma Between(alpha: real, beta: real, x: real, y: real)
    requires 0.0 < alpha && 0.0 < beta && alpha + beta == 1.0
    ensures x <= alpha * x + beta * y <= y || y <= alpha * x + beta * y <= x
    ensures x == y ==> alpha * x + beta * y == x
  {
    if x <= y {
      MulNonneg(alpha, y - x);
      MulNonneg(beta, y - x);
      assert alpha * x + beta * y == x + beta * (y - x);
      assert alpha * x + beta * y == y - alpha * (y - x);
    } else {
      MulNonneg(alpha, x - y);
      MulNonneg(beta, x - y);
      assert alpha * x + beta * y == y + alpha * (x - y);
      assert alpha * x + beta * y == x - beta * (x - y);
    }
  }

  function Min(a: real, b: real): real {
    if a <= b then a else b
  }

  /** `propose_geometric_spline_path(p1, p2, p3, t1, t3, a1, a3)`, with
      `None` for an omitted argument. `norm` is the Euclidean norm and
      `rotated` the unit direction that `spline.py`, lines 79-85, obtain by
      turning `(p2 - p1) / |p2 - p1|` by half the angle between the two
      chords. */
  function ProposeGeometricSplinePath(p1: Vec3, p2: Vec3, p3: Vec3,
                                      t1: Option<Vec3>, t3: Option<Vec3>, a1: Option<Vec3>, a3: Option<Vec3>,
                                      norm: Vec3 -> real, rotated: Vec3): (path: seq<Spline>)
    requires norm(p2.Sub(p1)) > 0.0 && norm(p3.Sub(p2)) > 0.0
    ensures |path| == 2
  {
    var direct12 := p2.Sub(p1);
    var direct23 := p3.Sub(p2);
    var t1 := t1.GetOr(direct12.Scale(0.5));
    var t3 := t3.GetOr(direct23.Scale(0.5));
    var a1 := a1.GetOr(Zero);
    var a3 := a3.GetOr(Zero);
    var norm12 := norm(direct12);
    var norm23 := norm(direct23);
    var t2 := rotated.Scale(Min(norm12, norm23));
    var a2 := InteriorCurvature(p1, p2, p3, t1, t2, t3, norm12, norm23);
    [NewQuinticSpline(p1, p2, t1, t2, a1, a2), NewQuinticSpline(p2, p3, t2, t3, a2, a3)]
  }

  /** Two segments built from boundary data that shares the middle point's
      position, tangent and curvature meet there with equal position,
      tangent and curvature, and keep their outer boundary data. */
  lemma SharedJoint(p1: Vec3, p2: Vec3, p3: Vec3, t1: Vec3, t2: Vec3, t3: Vec3, a1: Vec3, a2: Vec3, a3: Vec3)
    ensures var s1, s2 := NewQuinticSpline(p1, p2, t1, t2, a1, a2), NewQuinticSpline(p2, p3, t2, t3, a2, a3);
      Evaluate(s1, 0.0, 0) == p1 && Evaluate(s1, 0.0, 1) == t1 && Evaluate(s1, 0.0, 2) == a1 &&
      Evaluate(s1, 1.0, 0) == p2 == Evaluate(s2, 0.0, 0) &&
      Evaluate(s1, 1.0, 1) == t2 == Evaluate(s2, 0.0, 1) &&
      Evaluate(s1, 1.0, 2) == a2 == Evaluate(s2, 0.0, 2) &&
      Evaluate(s2, 1.0, 0) == p3 && Evaluate(s2, 1.0, 1) == t3 && Evaluate(s2, 1.0, 2) == a3
  {
    BoundaryPosition(p1, p2, t1, t2, a1, a2);
    BoundaryTangent(p1, p2, t1, t2, a1, a2);
    BoundaryCurvature(p1, p2, t1, t2, a1, a2);
    BoundaryPosition(p2, p3, t2, t3, a2, a3);
    BoundaryTangent(p2, p3, t2, t3, a2, a3);
    BoundaryCurvature(p2, p3, t2, t3, a2, a3);
  }

  /** The path starts at `p1` and ends at `p3` with the given tangents and
      curvatures, or, where one is omitted, with half the adjacent chord as
      tangent and the zero vector as curvature. */
  lemma ProposalEnds(p1: Vec3, p2: Vec3, p3: Vec3, t1: Option<Vec3>, t3: Option<Vec3>, a1: Option<Vec3>, a3: Option<Vec3>,
                     norm: Vec3 -> real, rotated: Vec3)
    requires norm(p2.Sub(p1)) > 0.0 && norm(p3.Sub(p2)) > 0.0
    ensures var path := ProposeGeometricSplinePath(p1, p2, p3, t1, t3, a1, a3, norm, rotated);
      Evaluate(path[0], 0.0, 0) == p1 &&
      Evaluate(path[0], 0.0, 1) == t1.GetOr(p2.Sub(p1).Scale(0.5)) &&
      Evaluate(path[0], 0.0, 2) == a1.GetOr(Zero) &&
      Evaluate(path[1], 1.0, 0) == p3 &&
      Evaluate(path[1], 1.0, 1) == t3.GetOr(p3.Sub(p2).Scale(0.5)) &&
      Evaluate(path[1], 1.0, 2) == a3.GetOr(Zero)
  {
    var direct12, direct23 := p2.Sub(p1), p3.Sub(p2);
    var norm12, norm23 := norm(direct12), norm(direct23);
    var T1, T3 := t1.GetOr(direct12.Scale(0.5)), t3.GetOr(direct23.Scale(0.5));
    var A1, A3 := a1.GetOr(Zero), a3.GetOr(Zero);
    var t2 := rotated.Scale(Min(norm12, norm23));
    var a2 := InteriorCurvature(p1, p2, p3, T1, t2, T3, norm12, norm23);
    assert ProposeGeometricSplinePath(p1, p2, p3, t1, t3, a1, a3, norm, rotated)
        == [NewQuinticSpline(p1, p2, T1, t2, A1, a2), NewQuinticSpline(p2, p3, t2, T3, a2, A3)];
    SharedJoint(p1, p2, p3, T1, t2, T3, A1, a2, A3);
  }

  /** The two segments join at `p2` with the same tangent there: the
      rotated chord direction scaled by the shorter chord. */
  lemma ProposalJoint(p1: Vec3, p2: Vec3, p3: Vec3, t1: Option<Vec3>, t3: Option<Vec3>, a1: Option<Vec3>, a3: Option<Vec3>,
                      norm: Vec3 -> real, rotated: Vec3)
    requires norm(p2.Sub(p1)) > 0.0 && norm(p3.Sub(p2)) > 0.0
    ensures var path := ProposeGeometricSplinePath(p1, p2, p3, t1, t3, a1, a3, norm, rotated);
      Evaluate(path[0], 1.0, 0) == p2 == Evaluate(path[1], 0.0, 0)
    ensures var path := ProposeGeometricSplinePath(p1, p2, p3, t1, t3, a1, a3, norm, rotated);
      Evaluate(path[0], 1.0, 1) == rotated.Scale(Min(norm(p2.Sub(p1)), norm(p3.Sub(p2)))) == Evaluate(path[1], 0.0, 1)
  {
    var direct12, direct23 := p2.Sub(p1), p3.Sub(p2);
    var norm12, norm23 := norm(direct12), norm(direct23);
    var T1, T3 := t1.GetOr(direct12.Scale(0.5)), t3.GetOr(direct23.Scale(0.5));
    var A1, A3 := a1.GetOr(Zero), a3.GetOr(Zero);
    var t2 := rotated.Scale(Min(norm12, norm23));
    var a2 := InteriorCurvature(p1, p2, p3, T1, t2, T3, norm12, norm23);
    assert ProposeGeometricSplinePath(p1, p2, p3, t1, t3, a1, a3, norm, rotated)
        == [NewQuinticSpline(p1, p2, T1, t2, A1, a2), NewQuinticSpline(p2, p3, t2, T3, a2, A3)];
    SharedJoint(p1, p2, p3, T1, t2, T3, A1, a2, A3);
  }

  /** Both segments have the blended curvature `a2` at the joint, so the
      path's second derivative is continuous there. */
  lemma ProposalJointCurvature(p1: Vec3, p2: Vec3, p3: Vec3, t1: Option<Vec3>, t3: Option<Vec3>, a1: Option<Vec3>, a3: Option<Vec3>,
                      norm: Vec3 -> real, rotated: Vec3)
    requires norm(p2.Sub(p1)) > 0.0 && norm(p3.Sub(p2)) > 0.0
    ensures var path := ProposeGeometricSplinePath(p1, p2, p3, t1, t3, a1, a3, norm, rotated);
      var norm12, norm23 := norm(p2.Sub(p1)), norm(p3.Sub(p2));
      Evaluate(path[0], 1.0, 2) == Evaluate(path[1], 0.0, 2) ==
        InteriorCurvature(p1, p2, p3, t1.GetOr(p2.Sub(p1).Scale(0.5)), rotated.Scale(Min(norm12, norm23)),
                          t3.GetOr(p3.Sub(p2).Scale(0.5)), norm12, norm23)
  {
    var direct12, direct23 := p2.Sub(p1), p3.Sub(p2);
    var norm12, norm23 := norm(direct12), norm(direct23);
    var T1, T3 := t1.GetOr(direct12.Scale(0.5)), t3.GetOr(direct23.Scale(0.5));
    var A1, A3 := a1.GetOr(Zero), a3.GetOr(Zero);
    var t2 := rotated.Scale(Min(norm12, norm23));
    var a2 := InteriorCurvature(p1, p2, p3, T1, t2, T3, norm12, norm23);
    assert ProposeGeometricSplinePath(p1, p2, p3, t1, t3, a1, a3, norm, rotated)
        == [NewQuinticSpline(p1, p2, T1, t2, A1, a2), NewQuinticSpline(p2, p3, t2, T3, a2, A3)];
    SharedJoint(p1, p2, p3, T1, t2, T3, A1, a2, A3);
  }
}
