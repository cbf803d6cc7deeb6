/** One quintic polynomial segment of a path, parametrised over t in [0, 1],
    built from Hermite boundary data (position, first and second derivative at
    both ends) through the virtual control points of Sprunk (2008), eq. 3.12
    and 3.13. The segment never changes after construction. */
module Quintic {
  import opened Vectors

  /** Coefficient tables, highest power first: `cm` for the position
      polynomial (t^5 .. t^0), `cmD1` for its first derivative (t^4 .. t^0)
      and `cmD2` for its second derivative (t^3 .. t^0). */
  datatype QuinticSpline = QuinticSpline(cm: seq<Vec3>, cmD1: seq<Vec3>, cmD2: seq<Vec3>)

  type Spline = q: QuinticSpline | |q.cm| == 6 && |q.cmD1| == 5 && |q.cmD2| == 4
    witness QuinticSpline([Zero, Zero, Zero, Zero, Zero, Zero], [Zero, Zero, Zero, Zero, Zero], [Zero, Zero, Zero, Zero])

  /** The formal derivative of a polynomial whose coefficients are listed
      highest power first: the coefficient of t^k becomes k times itself and
      the constant term drops out. */
  function Derivative(c: seq<Vec3>): (d: seq<Vec3>)
    requires |c| > 0
    ensures |d| == |c| - 1
  {
    seq(|c| - 1, i requires 0 <= i < |c| - 1 => c[i].Scale((|c| - 1 - i) as real))
  }

  /** Value of the polynomial with coefficients `c` (highest power first) at
      `t`, by Horner's rule: the reference the evaluation is checked against. */
  function Horner(c: seq<Vec3>, t: real): Vec3
  {
    HornerUpTo(c, t, |c|)
  }

  /** Horner's rule applied to the first `n` coefficients of `c`. */
  function HornerUpTo(c: seq<Vec3>, t: real, n: nat): Vec3
    requires n <= |c|
  {
    if n == 0 then Zero else HornerUpTo(c, t, n - 1).Scale(t).Add(c[n - 1])
  }

  /** The virtual control points `[p_s, p1, p2, p3, p4, p_e]` of Sprunk
      (2008), eq. 3.12 and 3.13: those of the quintic Bezier curve whose end
      derivatives are the given Hermite data. */
  function ControlPoints(pS: Vec3, pE: Vec3, d1S: Vec3, d1E: Vec3, d2S: Vec3, d2E: Vec3): (b: seq<Vec3>)
    ensures |b| == 6 && b[0] == pS && b[5] == pE
    ensures b[1].Sub(b[0]).Scale(5.0) == d1S
    ensures b[5].Sub(b[4]).Scale(5.0) == d1E
    ensures b[0].Sub(b[1].Scale(2.0)).Add(b[2]).Scale(20.0) == d2S
    ensures b[5].Sub(b[4].Scale(2.0)).Add(b[3]).Scale(20.0) == d2E
  {
    var p1 := d1S.Scale(0.2).Add(pS);
    var p4 := pE.Sub(d1E.Scale(0.2));
    var p2 := d2S.Scale(0.05).Add(p1.Scale(2.0)).Sub(pS);
    var p3 := d2E.Scale(0.05).Add(p4.Scale(2.0)).Sub(pE);
    [pS, p1, p2, p3, p4, pE]
  }

  /** The monomial coefficients (t^5 first) of the quintic Bezier curve with
      control points `b`. */
  function MonomialTable(b: seq<Vec3>): (cm: seq<Vec3>)
    requires |b| == 6
    ensures |cm| == 6
  {
    [
      b[0].Neg().Add(b[1].Scale(5.0)).Sub(b[2].Scale(10.0)).Add(b[3].Scale(10.0)).Sub(b[4].Scale(5.0)).Add(b[5]),
      b[0].Scale(5.0).Sub(b[1].Scale(20.0)).Add(b[2].Scale(30.0)).Sub(b[3].Scale(20.0)).Add(b[4].Scale(5.0)),
      b[0].Scale(-10.0).Add(b[1].Scale(30.0)).Sub(b[2].Scale(30.0)).Add(b[3].Scale(10.0)),
      b[0].Scale(10.0).Sub(b[1].Scale(20.0)).Add(b[2].Scale(10.0)),
      b[0].Scale(-5.0).Add(b[1].Scale(5.0)),
      b[0]
    ]
  }

  /** The constructor `QuinticSpline(p_s, p_e, d1_s, d1_e, d2_s, d2_e)`. */
  function NewQuinticSpline(pS: Vec3, pE: Vec3, d1S: Vec3, d1E: Vec3, d2S: Vec3, d2E: Vec3): (r: Spline)
    ensures r.cmD1 == Derivative(r.cm)
    ensures r.cmD2 == Derivative(r.cmD1)
  {
    var cm := MonomialTable(ControlPoints(pS, pE, d1S, d1E, d2S, d2E));
    var cmD1 := [cm[0].Scale(5.0), cm[1].Scale(4.0), cm[2].Scale(3.0), cm[3].Scale(2.0), cm[4]];
    var cmD2 := [cmD1[0].Scale(4.0), cmD1[1].Scale(3.0), cmD1[2].Scale(2.0), cmD1[3]];
    QuinticDerivative(cm);
    QuarticDerivative(cmD1);
    QuinticSpline(cm, cmD1, cmD2)
  }

  lemma QuinticDerivative(c: seq<Vec3>)
    requires |c| == 6
    ensures Derivative(c) == [c[0].Scale(5.0), c[1].Scale(4.0), c[2].Scale(3.0), c[3].Scale(2.0), c[4]]
  {
    var table := [c[0].Scale(5.0), c[1].Scale(4.0), c[2].Scale(3.0), c[3].Scale(2.0), c[4]];
    assert c[4].Scale(1.0) == c[4];
    assert forall i :: 0 <= i < 5 ==> Derivative(c)[i] == table[i];
  }

  lemma QuarticDerivative(c: seq<Vec3>)
    requires |c| == 5
    ensures Derivative(c) == [c[0].Scale(4.0), c[1].Scale(3.0), c[2].Scale(2.0), c[3]]
  {
    var table := [c[0].Scale(4.0), c[1].Scale(3.0), c[2].Scale(2.0), c[3]];
    assert c[3].Scale(1.0) == c[3];
    assert forall i :: 0 <= i < 4 ==> Derivative(c)[i] == table[i];
  }

  /** The monomial rows `evaluate` multiplies with the coefficient tables,
      with the powers of t formed as it forms them. */
  function PowerRow(t: real, derivative: int): (row: seq<real>)
    ensures |row| == if derivative == 0 then 6 else if derivative == 1 then 5 else 4
  {
    var t2 := t * t;
    var t3 := t * t2;
    var t4 := t2 * t2;
    var t5 := t2 * t3;
    if derivative == 0 then [t5, t4, t3, t2, t, 1.0]
    else if derivative == 1 then [t4, t3, t2, t, 1.0]
    else [t3, t2, t, 1.0]
  }

  /** `evaluate(t, derivative)`: the position (0), the first derivative (1) or,
      for any other order, the second derivative at `t`; `t` is not clamped. */
  function Evaluate(q: Spline, t: real, derivative: int): (r: Vec3)
    ensures derivative == 0 ==> r == Horner(q.cm, t)
    ensures derivative == 1 ==> r == Horner(q.cmD1, t)
    ensures derivative != 0 && derivative != 1 ==> r == Horner(q.cmD2, t)
  {
    var row := PowerRow(t, derivative);
    if derivative == 0 then HornerQuintic(q.cm, t); Combine(row, q.cm)
    else if derivative == 1 then HornerQuartic(q.cmD1, t); Combine(row, q.cmD1)
    else HornerCubic(q.cmD2, t); Combine(row, q.cmD2)
  }

  /** The scalar counterpart of `HornerUpTo`. */
  function HornerRealUpTo(v: seq<real>, t: real, n: nat): real
    requires n <= |v|
  {
    if n == 0 then 0.0 else t * HornerRealUpTo(v, t, n - 1) + v[n - 1]
  }

  /** Horner's rule is applied coordinate by coordinate. */
  lemma {:induction false} HornerCoord(c: seq<Vec3>, t: real, n: nat, k: nat)
    requires n <= |c|
    ensures Coord(HornerUpTo(c, t, n), k) == HornerRealUpTo(Coords(c, k), t, n)
  {
    if n > 0 {
      HornerCoord(c, t, n - 1, k);
    }
  }

  /** `evaluate_with_derivatives(t)`: position, first and second derivative
      at `t` in one call. The powers of `t` are formed once for all three;
      over the reals that sharing changes no value. */
  function EvaluateWithDerivatives(q: Spline, t: real): (r: (Vec3, Vec3, Vec3))
    ensures r == (Evaluate(q, t, 0), Evaluate(q, t, 1), Evaluate(q, t, 2))
  {
    (Combine(PowerRow(t, 0), q.cm), Combine(PowerRow(t, 1), q.cmD1), Combine(PowerRow(t, 2), q.cmD2))
  }

  /** The monomial row of `evaluate` times a cubic coefficient table is the
      polynomial's value by Horner's rule. */
  lemma HornerCubic(c: seq<Vec3>, t: real)
    requires |c| == 4
    ensures Combine(PowerRow(t, 2), c) == Horner(c, t)
  {
    forall k | 0 <= k < 3
      ensures Coord(Combine(PowerRow(t, 2), c), k) == Coord(Horner(c, t), k)
    {
      CombineCoord(PowerRow(t, 2), c, 0, k);
      HornerCoord(c, t, 4, k);
      CubicRowIsHorner(Coords(c, k), t);
    }
    CoordsEqual(Combine(PowerRow(t, 2), c), Horner(c, t));
  }

  /** The monomial row of `evaluate` times a quartic coefficient table is the
      polynomial's value by Horner's rule. */
  lemma HornerQuartic(c: seq<Vec3>, t: real)
    requires |c| == 5
    ensures Combine(PowerRow(t, 1), c) == Horner(c, t)
  {
    forall k | 0 <= k < 3
      ensures Coord(Combine(PowerRow(t, 1), c), k) == Coord(Horner(c, t), k)
    {
      CombineCoord(PowerRow(t, 1), c, 0, k);
      HornerCoord(c, t, 5, k);
      QuarticRowIsHorner(Coords(c, k), t);
    }
    CoordsEqual(Combine(PowerRow(t, 1), c), Horner(c, t));
  }

  /** The monomial row of `evaluate` times a quintic coefficient table is the
      polynomial's value by Horner's rule. */
  lemma HornerQuintic(c: seq<Vec3>, t: real)
    requires |c| == 6
    ensures Combine(PowerRow(t, 0), c) == Horner(c, t)
  {
    forall k | 0 <= k < 3
      ensures Coord(Combine(PowerRow(t, 0), c), k) == Coord(Horner(c, t), k)
    {
      CombineCoord(PowerRow(t, 0), c, 0, k);
      HornerCoord(c, t, 6, k);
      QuinticRowIsHorner(Coords(c, k), t);
    }
    CoordsEqual(Combine(PowerRow(t, 0), c), Horner(c, t));
  }

  lemma CubicRowIsHorner(v: seq<real>, t: real)
    requires |v| == 4
    ensures DotFrom(PowerRow(t, 2), v, 0) == HornerRealUpTo(v, t, 4)
  {
    var w := PowerRow(t, 2);
    DotUnfold4(w, v);
    HornerUnfold4(v, t);
    CubicIdentity(v[0], v[1], v[2], v[3], w[0], w[1], w[2], w[3], t);
  }

  lemma DotUnfold4(w: seq<real>, v: seq<real>)
    requires |w| == |v| == 4
    ensures DotFrom(w, v, 0) == w[0] * v[0] + (w[1] * v[1] + (w[2] * v[2] + (w[3] * v[3] + 0.0)))
  {
    assert DotFrom(w, v, 3) == w[3] * v[3] + DotFrom(w, v, 4);
    assert DotFrom(w, v, 2) == w[2] * v[2] + DotFrom(w, v, 3);
    assert DotFrom(w, v, 1) == w[1] * v[1] + DotFrom(w, v, 2);
    assert DotFrom(w, v, 0) == w[0] * v[0] + DotFrom(w, v, 1);
  }

  lemma HornerUnfold4(v: seq<real>, t: real)
    requires |v| == 4
    ensures HornerRealUpTo(v, t, 4) == t * (t * (t * (t * 0.0 + v[0]) + v[1]) + v[2]) + v[3]
  {
    assert HornerRealUpTo(v, t, 1) == t * HornerRealUpTo(v, t, 0) + v[0];
    assert HornerRealUpTo(v, t, 2) == t * HornerRealUpTo(v, t, 1) + v[1];
    assert HornerRealUpTo(v, t, 3) == t * HornerRealUpTo(v, t, 2) + v[2];
    assert HornerRealUpTo(v, t, 4) == t * HornerRealUpTo(v, t, 3) + v[3];
  }

  lemma CubicIdentity(a: real, b: real, c: real, d: real, w0: real, w1: real, w2: real, w3: real, t: real)
    requires w0 == t * (t * t) && w1 == t * t && w2 == t && w3 == 1.0
    ensures w0 * a + (w1 * b + (w2 * c + (w3 * d + 0.0))) == t * (t * (t * (t * 0.0 + a) + b) + c) + d
  {
  }

  lemma QuarticRowIsHorner(v: seq<real>, t: real)
    requires |v| == 5
    ensures DotFrom(PowerRow(t, 1), v, 0) == HornerRealUpTo(v, t, 5)
  {
    var w := PowerRow(t, 1);
    DotUnfold5(w, v);
    HornerUnfold5(v, t);
    QuarticIdentity(v[0], v[1], v[2], v[3], v[4], w[0], w[1], w[2], w[3], w[4], t);
  }

  lemma DotUnfold5(w: seq<real>, v: seq<real>)
    requires |w| == |v| == 5
    ensures DotFrom(w, v, 0) == w[0] * v[0] + (w[1] * v[1] + (w[2] * v[2] + (w[3] * v[3] + (w[4] * v[4] + 0.0))))
  {
    assert DotFrom(w, v, 4) == w[4] * v[4] + DotFrom(w, v, 5);
    assert DotFrom(w, v, 3) == w[3] * v[3] + DotFrom(w, v, 4);
    assert DotFrom(w, v, 2) == w[2] * v[2] + DotFrom(w, v, 3);
    assert DotFrom(w, v, 1) == w[1] * v[1] + DotFrom(w, v, 2);
    assert DotFrom(w, v, 0) == w[0] * v[0] + DotFrom(w, v, 1);
  }

  lemma HornerUnfold5(v: seq<real>, t: real)
    requires |v| == 5
    ensures HornerRealUpTo(v, t, 5) == t * (t * (t * (t * (t * 0.0 + v[0]) + v[1]) + v[2]) + v[3]) + v[4]
  {
    assert HornerRealUpTo(v, t, 1) == t * HornerRealUpTo(v, t, 0) + v[0];
    assert HornerRealUpTo(v, t, 2) == t * HornerRealUpTo(v, t, 1) + v[1];
    assert HornerRealUpTo(v, t, 3) == t * HornerRealUpTo(v, t, 2) + v[2];
    assert HornerRealUpTo(v, t, 4) == t * HornerRealUpTo(v, t, 3) + v[3];
    assert HornerRealUpTo(v, t, 5) == t * HornerRealUpTo(v, t, 4) + v[4];
  }

  lemma QuarticIdentity(a: real, b: real, c: real, d: real, e: real, w0: real, w1: real, w2: real, w3: real, w4: real, t: real)
    requires w0 == (t * t) * (t * t) && w1 == t * (t * t) && w2 == t * t && w3 == t && w4 == 1.0
    ensures w0 * a + (w1 * b + (w2 * c + (w3 * d + (w4 * e + 0.0)))) == t * (t * (t * (t * (t * 0.0 + a) + b) + c) + d) + e
  {
  }

  lemma QuinticRowIsHorner(v: seq<real>, t: real)
    requires |v| == 6
    ensures DotFrom(PowerRow(t, 0), v, 0) == HornerRealUpTo(v, t, 6)
  {
    var w := PowerRow(t, 0);
    DotUnfold6(w, v);
    HornerUnfold6(v, t);
    QuinticIdentity(v[0], v[1], v[2], v[3], v[4], v[5], w[0], w[1], w[2], w[3], w[4], w[5], t);
  }

  lemma DotUnfold6(w: seq<real>, v: seq<real>)
    requires |w| == |v| == 6
    ensures DotFrom(w, v, 0) == w[0] * v[0] + (w[1] * v[1] + (w[2] * v[2] + (w[3] * v[3] + (w[4] * v[4] + (w[5] * v[5] + 0.0)))))
  {
    assert DotFrom(w, v, 5) == w[5] * v[5] + DotFrom(w, v, 6);
    assert DotFrom(w, v, 4) == w[4] * v[4] + DotFrom(w, v, 5);
    assert DotFrom(w, v, 3) == w[3] * v[3] + DotFrom(w, v, 4);
    assert DotFrom(w, v, 2) == w[2] * v[2] + DotFrom(w, v, 3);
    assert DotFrom(w, v, 1) == w[1] * v[1] + DotFrom(w, v, 2);
    assert DotFrom(w, v, 0) == w[0] * v[0] + DotFrom(w, v, 1);
  }

  lemma HornerUnfold6(v: seq<real>, t: real)
    requires |v| == 6
    ensures HornerRealUpTo(v, t, 6) == t * (t * (t * (t * (t * (t * 0.0 + v[0]) + v[1]) + v[2]) + v[3]) + v[4]) + v[5]
  {
    assert HornerRealUpTo(v, t, 1) == t * HornerRealUpTo(v, t, 0) + v[0];
    assert HornerRealUpTo(v, t, 2) == t * HornerRealUpTo(v, t, 1) + v[1];
    assert HornerRealUpTo(v, t, 3) == t * HornerRealUpTo(v, t, 2) + v[2];
    assert HornerRealUpTo(v, t, 4) == t * HornerRealUpTo(v, t, 3) + v[3];
    assert HornerRealUpTo(v, t, 5) == t * HornerRealUpTo(v, t, 4) + v[4];
    assert HornerRealUpTo(v, t, 6) == t * HornerRealUpTo(v, t, 5) + v[5];
  }

  lemma QuinticIdentity(a: real, b: real, c: real, d: real, e: real, f: real, w0: real, w1: real, w2: real, w3: real, w4: real, w5: real, t: real)
    requires w0 == (t * t) * (t * (t * t)) && w1 == (t * t) * (t * t) && w2 == t * (t * t) && w3 == t * t && w4 == t && w5 == 1.0
    ensures w0 * a + (w1 * b + (w2 * c + (w3 * d + (w4 * e + (w5 * f + 0.0))))) == t * (t * (t * (t * (t * (t * 0.0 + a) + b) + c) + d) + e) + f
  {
  }
}

/** What the constructed segment satisfies: it is the quintic Bezier curve
    over its control points and meets its Hermite boundary data exactly. */
module QuinticProperties {
  import opened Vectors
  import opened Quintic

  /** The running vector sum `c[0] + ... + c[n-1]`. */
  function SumUpTo(c: seq<Vec3>, n: nat): Vec3
    requires n <= |c|
  {
    if n == 0 then Zero else SumUpTo(c, n - 1).Add(c[n - 1])
  }

  /** At t = 0 a polynomial takes the value of its constant term. */
  lemma HornerAtZero(c: seq<Vec3>)
    requires |c| > 0
    ensures Horner(c, 0.0) == c[|c| - 1]
  {
  }

  /** At t = 1 a polynomial takes the sum of its coefficients. */
  lemma {:induction false} HornerAtOne(c: seq<Vec3>, n: nat)
    requires n <= |c|
    ensures HornerUpTo(c, 1.0, n) == SumUpTo(c, n)
  {
    if n > 0 {
      HornerAtOne(c, n - 1);
    }
  }

  lemma {:induction false} SumUnfold(c: seq<Vec3>, n: nat)
    requires n <= |c|
    ensures SumUpTo(c, n) == if n == 0 then Zero else SumUpTo(c, n - 1).Add(c[n - 1])
  {
  }

  /** The quintic Bezier curve starts at its first control point and ends
      at its last. */
  lemma BezierPositionEnds(b: seq<Vec3>)
    requires |b| == 6
    ensures Horner(MonomialTable(b), 0.0) == b[0]
    ensures Horner(MonomialTable(b), 1.0) == b[5]
  {
    var cm := MonomialTable(b);
    HornerAtZero(cm);
    HornerAtOne(cm, 6);
    assert SumUpTo(cm, 6) == cm[0].Add(cm[1]).Add(cm[2]).Add(cm[3]).Add(cm[4]).Add(cm[5]) by {
      SumUnfold(cm, 6); SumUnfold(cm, 5); SumUnfold(cm, 4); SumUnfold(cm, 3); SumUnfold(cm, 2); SumUnfold(cm, 1);
    }
  }

  /** Its first derivative is 5 (b1 - b0) at the start and 5 (b5 - b4) at
      the end. */
  lemma BezierTangentEnds(b: seq<Vec3>)
    requires |b| == 6
    ensures Horner(Derivative(MonomialTable(b)), 0.0) == b[1].Sub(b[0]).Scale(5.0)
    ensures Horner(Derivative(MonomialTable(b)), 1.0) == b[5].Sub(b[4]).Scale(5.0)
  {
    var d1 := Derivative(MonomialTable(b));
    QuinticDerivative(MonomialTable(b));
    HornerAtZero(d1);
    HornerAtOne(d1, 5);
    assert SumUpTo(d1, 5) == d1[0].Add(d1[1]).Add(d1[2]).Add(d1[3]).Add(d1[4]) by {
      SumUnfold(d1, 5); SumUnfold(d1, 4); SumUnfold(d1, 3); SumUnfold(d1, 2); SumUnfold(d1, 1);
    }
  }

  /** Its second derivative is 20 (b0 - 2 b1 + b2) at the start and
      20 (b5 - 2 b4 + b3) at the end. */
  lemma BezierCurvatureEnds(b: seq<Vec3>)
    requires |b| == 6
    ensures Horner(Derivative(Derivative(MonomialTable(b))), 0.0) == b[0].Sub(b[1].Scale(2.0)).Add(b[2]).Scale(20.0)
    ensures Horner(Derivative(Derivative(MonomialTable(b))), 1.0) == b[5].Sub(b[4].Scale(2.0)).Add(b[3]).Scale(20.0)
  {
    var d1 := Derivative(MonomialTable(b));
    var d2 := Derivative(d1);
    QuinticDerivative(MonomialTable(b));
    QuarticDerivative(d1);
    HornerAtZero(d2);
    HornerAtOne(d2, 4);
    assert SumUpTo(d2, 4) == d2[0].Add(d2[1]).Add(d2[2]).Add(d2[3]) by {
      SumUnfold(d2, 4); SumUnfold(d2, 3); SumUnfold(d2, 2); SumUnfold(d2, 1);
    }
  }

  /** The quintic Bernstein weights C(5, i) t^i (1 - t)^(5 - i), i = 0 .. 5. */
  function BernsteinWeights(t: real): (w: seq<real>)
    ensures |w| == 6
  {
    var s := 1.0 - t;
    [s * s * s * s * s, 5.0 * t * s * s * s * s, 10.0 * t * t * s * s * s,
     10.0 * t * t * t * s * s, 5.0 * t * t * t * t * s, t * t * t * t * t]
  }

  /** The quintic Bezier curve with control points `b`, in Bernstein form. */
  function Bezier(b: seq<Vec3>, t: real): Vec3
    requires |b| == 6
  {
    Combine(BernsteinWeights(t), b)
  }

  /** Coordinate `k` of the monomial table, written out. */
  lemma TableCoords(b: seq<Vec3>, k: nat)
    requires |b| == 6
    ensures var c, v := Coords(MonomialTable(b), k), Coords(b, k);
      c[0] == -v[0] + 5.0 * v[1] - 10.0 * v[2] + 10.0 * v[3] - 5.0 * v[4] + v[5] &&
      c[1] == 5.0 * v[0] - 20.0 * v[1] + 30.0 * v[2] - 20.0 * v[3] + 5.0 * v[4] &&
      c[2] == -10.0 * v[0] + 30.0 * v[1] - 30.0 * v[2] + 10.0 * v[3] &&
      c[3] == 10.0 * v[0] - 20.0 * v[1] + 10.0 * v[2] &&
      c[4] == -5.0 * v[0] + 5.0 * v[1] &&
      c[5] == v[0]
  {
    if k == 0 {
    } else if k == 1 {
    } else {
    }
  }

  lemma BernsteinIdentity(v: seq<real>, c: seq<real>, w: seq<real>, t: real)
    requires |v| == 6 && |c| == 6 && w == BernsteinWeights(t)
    requires c[0] == -v[0] + 5.0 * v[1] - 10.0 * v[2] + 10.0 * v[3] - 5.0 * v[4] + v[5]
    requires c[1] == 5.0 * v[0] - 20.0 * v[1] + 30.0 * v[2] - 20.0 * v[3] + 5.0 * v[4]
    requires c[2] == -10.0 * v[0] + 30.0 * v[1] - 30.0 * v[2] + 10.0 * v[3]
    requires c[3] == 10.0 * v[0] - 20.0 * v[1] + 10.0 * v[2]
    requires c[4] == -5.0 * v[0] + 5.0 * v[1]
    requires c[5] == v[0]
    ensures t * (t * (t * (t * (t * (t * 0.0 + c[0]) + c[1]) + c[2]) + c[3]) + c[4]) + c[5]
      == w[0] * v[0] + (w[1] * v[1] + (w[2] * v[2] + (w[3] * v[3] + (w[4] * v[4] + (w[5] * v[5] + 0.0)))))
  {
  }

  /** The segment is the quintic Bezier curve over its virtual control
      points: the monomial table is the Bernstein form multiplied out. */
  lemma BezierForm(b: seq<Vec3>, t: real)
    requires |b| == 6
    ensures Horner(MonomialTable(b), t) == Bezier(b, t)
  {
    var cm := MonomialTable(b);
    forall k | 0 <= k < 3
      ensures Coord(Horner(cm, t), k) == Coord(Bezier(b, t), k)
    {
      var c, v, w := Coords(cm, k), Coords(b, k), BernsteinWeights(t);
      HornerCoord(cm, t, 6, k);
      HornerUnfold6(c, t);
      assert Coord(Horner(cm, t), k) == t * (t * (t * (t * (t * (t * 0.0 + c[0]) + c[1]) + c[2]) + c[3]) + c[4]) + c[5];
      CombineCoord(w, b, 0, k);
      DotUnfold6(w, v);
      assert Coord(Bezier(b, t), k) == w[0] * v[0] + (w[1] * v[1] + (w[2] * v[2] + (w[3] * v[3] + (w[4] * v[4] + (w[5] * v[5] + 0.0)))));
      TableCoords(b, k);
      BernsteinIdentity(v, c, w, t);
    }
    CoordsEqual(Horner(cm, t), Bezier(b, t));
  }

  /** The position of a constructed segment at any t is that of the Bezier
      curve over the control points of eq. 3.12 and 3.13. */
  lemma SegmentIsBezier(pS: Vec3, pE: Vec3, d1S: Vec3, d1E: Vec3, d2S: Vec3, d2E: Vec3, t: real)
    ensures Evaluate(NewQuinticSpline(pS, pE, d1S, d1E, d2S, d2E), t, 0) == Bezier(ControlPoints(pS, pE, d1S, d1E, d2S, d2E), t)
  {
    BezierForm(ControlPoints(pS, pE, d1S, d1E, d2S, d2E), t);
  }

  /** The derivative tables are degree-reduced copies of the position table:
      row `i` of `cmD1` is `5 - i` times row `i` of `cm`, and row `i` of
      `cmD2` is `4 - i` times row `i` of `cmD1`. */
  lemma DerivativeTables(pS: Vec3, pE: Vec3, d1S: Vec3, d1E: Vec3, d2S: Vec3, d2E: Vec3)
    ensures var q := NewQuinticSpline(pS, pE, d1S, d1E, d2S, d2E);
      q.cmD1 == [q.cm[0].Scale(5.0), q.cm[1].Scale(4.0), q.cm[2].Scale(3.0), q.cm[3].Scale(2.0), q.cm[4]] &&
      q.cmD2 == [q.cmD1[0].Scale(4.0), q.cmD1[1].Scale(3.0), q.cmD1[2].Scale(2.0), q.cmD1[3]]
  {
    var q := NewQuinticSpline(pS, pE, d1S, d1E, d2S, d2E);
    QuinticDerivative(q.cm);
    QuarticDerivative(q.cmD1);
  }

  /** `evaluate` treats every order other than 0 and 1 as the second
      derivative. */
  lemma OtherOrders(q: Spline, t: real, derivative: int)
    requires derivative != 0 && derivative != 1
    ensures Evaluate(q, t, derivative) == Evaluate(q, t, 2)
  {
  }

  /** The segment passes through its boundary positions (`evaluate(0, 0)` and
      `evaluate(1, 0)`). */
  lemma BoundaryPosition(pS: Vec3, pE: Vec3, d1S: Vec3, d1E: Vec3, d2S: Vec3, d2E: Vec3)
    ensures Evaluate(NewQuinticSpline(pS, pE, d1S, d1E, d2S, d2E), 0.0, 0) == pS
    ensures Evaluate(NewQuinticSpline(pS, pE, d1S, d1E, d2S, d2E), 1.0, 0) == pE
  {
    BezierPositionEnds(ControlPoints(pS, pE, d1S, d1E, d2S, d2E));
  }

  /** Its first derivative at the ends is the given tangent (`evaluate(0, 1)`
      and `evaluate(1, 1)`). */
  lemma BoundaryTangent(pS: Vec3, pE: Vec3, d1S: Vec3, d1E: Vec3, d2S: Vec3, d2E: Vec3)
    ensures Evaluate(NewQuinticSpline(pS, pE, d1S, d1E, d2S, d2E), 0.0, 1) == d1S
    ensures Evaluate(NewQuinticSpline(pS, pE, d1S, d1E, d2S, d2E), 1.0, 1) == d1E
  {
    BezierTangentEnds(ControlPoints(pS, pE, d1S, d1E, d2S, d2E));
  }

  /** Its second derivative at the ends is the given curvature vector
      (`evaluate(0, 2)` and `evaluate(1, 2)`). */
  lemma BoundaryCurvature(pS: Vec3, pE: Vec3, d1S: Vec3, d1E: Vec3, d2S: Vec3, d2E: Vec3)
    ensures Evaluate(NewQuinticSpline(pS, pE, d1S, d1E, d2S, d2E), 0.0, 2) == d2S
    ensures Evaluate(NewQuinticSpline(pS, pE, d1S, d1E, d2S, d2E), 1.0, 2) == d2E
  {
    BezierCurvatureEnds(ControlPoints(pS, pE, d1S, d1E, d2S, d2E));
  }
}
