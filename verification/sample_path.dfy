/** `sample_path`: evaluate every segment of a path on an even parameter grid,
    integrate the speed along the grid with the trapezoid rule, and keep the
    samples at which the arc length gained since the last kept sample has
    reached `ds`. */
module ArcLengthSampler {
  import opened Vectors
  import opened Quintic

  /** `np.linspace(0, 1, n)`: `n` evenly spaced values from 0 to 1 inclusive,
      the single value 0 when `n` is 1 and no value when `n` is 0. */
  function Linspace(n: nat): (xs: seq<real>)
    ensures |xs| == n
    ensures n >= 1 ==> xs[0] == 0.0
    ensures n >= 2 ==> xs[n - 1] == 1.0
    ensures forall j :: 0 <= j < n ==> 0.0 <= xs[j] <= 1.0
    ensures forall i, j :: 0 <= i < j < n ==> xs[i] < xs[j]
  {
    if n == 1 then [0.0]
    else
      var xs := seq(n, k requires 0 <= k < n => k as real / (n - 1) as real);
      LinspaceSteps(n, xs);
      xs
  }

  lemma LinspaceSteps(n: nat, xs: seq<real>)
    requires n != 1 && xs == seq(n, k requires 0 <= k < n => k as real / (n - 1) as real)
    ensures n >= 2 ==> xs[n - 1] == 1.0
    ensures forall j :: 0 <= j < n ==> 0.0 <= xs[j] <= 1.0
    ensures forall i, j :: 0 <= i < j < n ==> xs[i] < xs[j]
  {
    if n >= 2 {
      var d := (n - 1) as real;
      DivBetween(d, d);
      forall j | 0 <= j < n
        ensures 0.0 <= xs[j] <= 1.0
      {
        assert xs[j] == j as real / d;
        DivBetween(j as real, d);
      }
      forall i, j | 0 <= i < j < n
        ensures xs[i] < xs[j]
      {
        assert xs[i] == i as real / d && xs[j] == j as real / d;
        DivLess(i as real, j as real, d);
      }
    }
  }

  lemma DivBetween(a: real, d: real)
    requires 0.0 <= a <= d && 0.0 < d
    ensures 0.0 <= a / d <= 1.0 && d / d == 1.0
  {
    assert a / d * d == a;
  }

  lemma DivLess(a: real, b: real, d: real)
    requires a < b && 0.0 < d
    ensures a / d < b / d
  {
    assert b / d - a / d == (b - a) / d;
  }

  /** One entry of the raw grid: global parameter `g` and the position, first
      and second derivative there. */
  datatype RawSample = RawSample(g: real, pt: Vec3, d1: Vec3, d2: Vec3)

  /** One output entry `((s, t), (pt, d1, d2))`. */
  datatype Sample = Sample(s: real, t: real, pt: Vec3, d1: Vec3, d2: Vec3)

  /** Segment `i` evaluated at local parameter `x`, keyed by `x + i`. */
  function RawAt(seg: Spline, i: nat, x: real): RawSample {
    var (pt, d1, d2) := EvaluateWithDerivatives(seg, x);
    RawSample(x + i as real, pt, d1, d2)
  }

  /** The raw samples contributed by segment `i`. */
  function SegmentRow(seg: Spline, i: nat, xs: seq<real>): (row: seq<RawSample>)
    ensures |row| == |xs|
  {
    seq(|xs|, j requires 0 <= j < |xs| => RawAt(seg, i, xs[j]))
  }

  /** The raw samples of the first `m` segments, segment after segment. */
  function RawGrid(path: seq<Spline>, xs: seq<real>, m: nat): seq<RawSample>
    requires m <= |path|
  {
    if m == 0 then [] else RawGrid(path, xs, m - 1) + SegmentRow(path[m - 1], m - 1, xs)
  }

  lemma MulLe(a: nat, b: nat, n: nat)
    requires a <= b
    ensures a * n <= b * n
  {
  }

  lemma {:induction false} GridSize(path: seq<Spline>, xs: seq<real>, m: nat)
    requires m <= |path|
    ensures |RawGrid(path, xs, m)| == m * |xs|
  {
    if m > 0 {
      GridSize(path, xs, m - 1);
      assert (m - 1) * |xs| + |xs| == m * |xs|;
    }
  }

  /** Entry `i * |xs| + j` of the raw grid is segment `i` at local parameter
      `xs[j]`, with global parameter `xs[j] + i`. */
  lemma {:induction false} GridEntry(path: seq<Spline>, xs: seq<real>, m: nat, i: nat, j: nat)
    requires m <= |path| && i < m && j < |xs|
    ensures i * |xs| + j < |RawGrid(path, xs, m)|
    ensures RawGrid(path, xs, m)[i * |xs| + j] == RawAt(path[i], i, xs[j])
    ensures RawGrid(path, xs, m)[i * |xs| + j].g == xs[j] + i as real
  {
    var n := |xs|;
    GridSize(path, xs, m - 1);
    var prefix := RawGrid(path, xs, m - 1);
    var row := SegmentRow(path[m - 1], m - 1, xs);
    assert RawGrid(path, xs, m) == prefix + row;
    var p := i * n + j;
    if i < m - 1 {
      GridEntry(path, xs, m - 1, i, j);
    } else {
      assert p == |prefix| + j;
      assert (prefix + row)[p] == row[j];
    }
  }

  predicate Sorted(xs: seq<real>) {
    forall i, j :: 0 <= i < j < |xs| ==> xs[i] <= xs[j]
  }

  predicate InUnit(xs: seq<real>) {
    forall j :: 0 <= j < |xs| ==> 0.0 <= xs[j] <= 1.0
  }

  /** The global parameters of a raw sequence never decrease. */
  predicate NonDecreasing(raw: seq<RawSample>) {
    forall p :: 0 < p < |raw| ==> raw[p - 1].g <= raw[p].g
  }

  /** Over a sorted local grid in [0, 1], the global parameters never
      decrease and stay below the number of segments. They do not strictly
      increase: with 0 and 1 both in the grid, segment `i` ends and segment
      `i + 1` starts at the same global parameter `i + 1`. */
  lemma {:induction false} GridNonDecreasing(path: seq<Spline>, xs: seq<real>, m: nat)
    requires m <= |path| && Sorted(xs) && InUnit(xs)
    ensures NonDecreasing(RawGrid(path, xs, m))
    ensures forall p :: 0 <= p < |RawGrid(path, xs, m)| ==> RawGrid(path, xs, m)[p].g <= m as real
  {
    if m > 0 {
      GridNonDecreasing(path, xs, m - 1);
      var row := SegmentRow(path[m - 1], m - 1, xs);
      assert forall j :: 0 <= j < |row| ==> row[j].g == xs[j] + (m - 1) as real;
      AppendRow(RawGrid(path, xs, m - 1), row, xs, (m - 1) as real);
    }
  }

  /** Appending a segment's row, keyed `xs[j] + base`, to samples that do
      not go past `base` keeps the parameters non-decreasing and at most
      `base + 1`. */
  lemma AppendRow(prefix: seq<RawSample>, row: seq<RawSample>, xs: seq<real>, base: real)
    requires NonDecreasing(prefix) && forall p :: 0 <= p < |prefix| ==> prefix[p].g <= base
    requires |row| == |xs| && Sorted(xs) && InUnit(xs)
    requires forall j :: 0 <= j < |row| ==> row[j].g == xs[j] + base
    ensures NonDecreasing(prefix + row)
    ensures forall p :: 0 <= p < |prefix + row| ==> (prefix + row)[p].g <= base + 1.0
  {
    var raw := prefix + row;
    forall p | 0 < p < |raw|
      ensures raw[p - 1].g <= raw[p].g
    {
      if p < |prefix| {
        assert raw[p - 1] == prefix[p - 1] && raw[p] == prefix[p];
      } else if p == |prefix| {
        assert raw[p] == row[0];
      } else {
        assert raw[p - 1] == row[p - 1 - |prefix|] && raw[p] == row[p - |prefix|];
      }
    }
    forall p | 0 <= p < |raw|
      ensures raw[p].g <= base + 1.0
    {
      if p >= |prefix| {
        assert raw[p] == row[p - |prefix|];
      }
    }
  }

  /** Where the local grid contains both 0 and 1, the last sample of segment
      `i` and the first sample of segment `i + 1` share the global parameter
      `i + 1`, so the trapezoid step across the joint adds nothing. */
  lemma JointDuplicate(path: seq<Spline>, n: nat, i: nat)
    requires n >= 2 && i + 1 < |path|
    ensures var raw := RawGrid(path, Linspace(n), |path|);
      (i + 1) * n < |raw| && raw[i * n + n - 1].g == raw[(i + 1) * n].g == (i + 1) as real
  {
    var xs := Linspace(n);
    GridEntry(path, xs, |path|, i, n - 1);
    GridEntry(path, xs, |path|, i + 1, 0);
    assert (i + 1) * n + 0 == i * n + (n - 1) + 1;
  }

  /** The arc length the loop has accumulated on reaching raw sample `k`: the
      trapezoid rule on the speed `norm(d1)` over the global parameter. */
  function Arc(raw: seq<RawSample>, norm: Vec3 -> real, k: nat): real
    requires k < |raw|
  {
    if k == 0 then 0.0
    else Arc(raw, norm, k - 1) + 0.5 * (norm(raw[k].d1) + norm(raw[k - 1].d1)) * (raw[k].g - raw[k - 1].g)
  }

  /** The loop's update of `s` from the previous sample's arc length, speed
      and parameter. */
  lemma ArcStep(raw: seq<RawSample>, norm: Vec3 -> real, k: nat, s: real, lastD1Norm: real, lastT: real)
    requires 1 <= k < |raw| && s == Arc(raw, norm, k - 1)
    requires lastD1Norm == norm(raw[k - 1].d1) && lastT == raw[k - 1].g
    ensures s + 0.5 * (norm(raw[k].d1) + lastD1Norm) * (raw[k].g - lastT) == Arc(raw, norm, k)
  {
  }

  ghost predicate NonNegative(norm: Vec3 -> real) {
    forall v :: norm(v) >= 0.0
  }

  /** With nonnegative speeds over a non-decreasing grid, the arc length never
      decreases. */
  lemma {:induction false} ArcMonotone(raw: seq<RawSample>, norm: Vec3 -> real, j: nat, k: nat)
    requires NonNegative(norm) && NonDecreasing(raw) && j <= k < |raw|
    ensures 0.0 <= Arc(raw, norm, j) <= Arc(raw, norm, k)
    decreases k
  {
    if k > 0 {
      ArcMonotone(raw, norm, if j < k then j else k - 1, k - 1);
      var speed := 0.5 * (norm(raw[k].d1) + norm(raw[k - 1].d1));
      assert norm(raw[k].d1) >= 0.0 && norm(raw[k - 1].d1) >= 0.0;
      MulNonneg(speed, raw[k].g - raw[k - 1].g);
    }
  }

  /** Indices of the raw samples from `k` on that the loop emits, given that
      the arc length at the last emission was `lastS`. */
  function Emitted(raw: seq<RawSample>, norm: Vec3 -> real, ds: real, k: nat, lastS: real): (idx: seq<nat>)
    requires 1 <= k <= |raw|
    ensures forall m :: 0 <= m < |idx| ==> k <= idx[m] < |raw|
    ensures forall m, m' :: 0 <= m < m' < |idx| ==> idx[m] < idx[m']
    decreases |raw| - k
  {
    if k == |raw| then []
    else if Arc(raw, norm, k) - lastS >= ds then [k] + Emitted(raw, norm, ds, k + 1, Arc(raw, norm, k))
    else Emitted(raw, norm, ds, k + 1, lastS)
  }

  /** Raw sample `j` as an output entry, with its arc length. */
  function Pick(raw: seq<RawSample>, norm: Vec3 -> real, j: nat): Sample
    requires j < |raw|
  {
    Sample(Arc(raw, norm, j), raw[j].g, raw[j].pt, raw[j].d1, raw[j].d2)
  }

  function Picks(raw: seq<RawSample>, norm: Vec3 -> real, idx: seq<nat>): (r: seq<Sample>)
    requires forall m :: 0 <= m < |idx| ==> idx[m] < |raw|
    ensures |r| == |idx|
  {
    seq(|idx|, m requires 0 <= m < |idx| => Pick(raw, norm, idx[m]))
  }

  /** The whole output: raw sample 0 with arc length and parameter 0, then
      the emitted samples. */
  function Resample(raw: seq<RawSample>, norm: Vec3 -> real, ds: real): seq<Sample>
    requires |raw| >= 1
  {
    [Sample(0.0, 0.0, raw[0].pt, raw[0].d1, raw[0].d2)] + Picks(raw, norm, Emitted(raw, norm, ds, 1, 0.0))
  }

  /** One step of the emission loop: raw sample `k`, whose arc length is `s`,
      is emitted exactly when `s` is at least `ds` past `lastS`, so the
      output so far followed by what remains to be emitted stays the same. */
  lemma EmitStep(raw: seq<RawSample>, norm: Vec3 -> real, ds: real, k: nat, lastS: real, s: real,
                 result: seq<Sample>, target: seq<Sample>)
    requires 1 <= k < |raw| && s == Arc(raw, norm, k)
    requires result + Picks(raw, norm, Emitted(raw, norm, ds, k, lastS)) == target
    ensures s - lastS >= ds ==>
      result + [Sample(s, raw[k].g, raw[k].pt, raw[k].d1, raw[k].d2)] + Picks(raw, norm, Emitted(raw, norm, ds, k + 1, s)) == target
    ensures s - lastS < ds ==>
      result + Picks(raw, norm, Emitted(raw, norm, ds, k + 1, lastS)) == target
  {
    if s - lastS >= ds {
      var rest := Emitted(raw, norm, ds, k + 1, s);
      assert Emitted(raw, norm, ds, k, lastS) == [k] + rest;
      PicksCons(raw, norm, k, rest);
    } else {
      assert Emitted(raw, norm, ds, k, lastS) == Emitted(raw, norm, ds, k + 1, lastS);
    }
  }

  /** Picking an index list with `k` in front picks raw sample `k` first. */
  lemma PicksCons(raw: seq<RawSample>, norm: Vec3 -> real, k: nat, rest: seq<nat>)
    requires k < |raw| && forall m :: 0 <= m < |rest| ==> rest[m] < |raw|
    ensures Picks(raw, norm, [k] + rest) == [Pick(raw, norm, k)] + Picks(raw, norm, rest)
  {
    var l := [k] + rest;
    assert forall m :: 1 <= m < |l| ==> l[m] == rest[m - 1];
  }

  /** Nothing from `k` up to (not including) `to` reaches `ds` past `base`. */
  ghost predicate Quiet(raw: seq<RawSample>, norm: Vec3 -> real, ds: real, k: nat, to: nat, base: real)
    requires to <= |raw|
  {
    forall j :: k <= j < to ==> Arc(raw, norm, j) - base < ds
  }

  /** The first emission from `k` on is the first raw sample whose arc length
      has reached `ds` past `lastS`; when there is none, no sample reaches it. */
  lemma {:induction false} FirstEmission(raw: seq<RawSample>, norm: Vec3 -> real, ds: real, k: nat, lastS: real)
    requires 1 <= k <= |raw|
    ensures var idx := Emitted(raw, norm, ds, k, lastS);
      (idx == [] ==> Quiet(raw, norm, ds, k, |raw|, lastS)) &&
      (idx != [] ==> Arc(raw, norm, idx[0]) - lastS >= ds && Quiet(raw, norm, ds, k, idx[0], lastS))
    decreases |raw| - k
  {
    if k < |raw| && Arc(raw, norm, k) - lastS < ds {
      FirstEmission(raw, norm, ds, k + 1, lastS);
    }
  }

  /** Each emission after the first is the first raw sample whose arc length
      has reached `ds` past the previous emission's. */
  lemma {:induction false} NextEmission(raw: seq<RawSample>, norm: Vec3 -> real, ds: real, k: nat, lastS: real, m: nat)
    requires 1 <= k <= |raw| && m + 1 < |Emitted(raw, norm, ds, k, lastS)|
    ensures var idx := Emitted(raw, norm, ds, k, lastS);
      Arc(raw, norm, idx[m + 1]) - Arc(raw, norm, idx[m]) >= ds &&
      Quiet(raw, norm, ds, idx[m] + 1, idx[m + 1], Arc(raw, norm, idx[m]))
    decreases |raw| - k
  {
    var s := Arc(raw, norm, k);
    if s - lastS >= ds {
      var rest := Emitted(raw, norm, ds, k + 1, s);
      assert Emitted(raw, norm, ds, k, lastS) == [k] + rest;
      if m == 0 {
        FirstEmission(raw, norm, ds, k + 1, s);
      } else {
        NextEmission(raw, norm, ds, k + 1, s, m - 1);
      }
    } else {
      assert Emitted(raw, norm, ds, k, lastS) == Emitted(raw, norm, ds, k + 1, lastS);
      NextEmission(raw, norm, ds, k + 1, lastS, m);
    }
  }

  /** After the last emission no raw sample reaches `ds` past it. */
  lemma {:induction false} LastEmission(raw: seq<RawSample>, norm: Vec3 -> real, ds: real, k: nat, lastS: real)
    requires 1 <= k <= |raw|
    ensures var idx := Emitted(raw, norm, ds, k, lastS);
      idx != [] ==> Quiet(raw, norm, ds, idx[|idx| - 1] + 1, |raw|, Arc(raw, norm, idx[|idx| - 1]))
    decreases |raw| - k
  {
    if k < |raw| {
      var s := Arc(raw, norm, k);
      if s - lastS >= ds {
        LastEmission(raw, norm, ds, k + 1, s);
        FirstEmission(raw, norm, ds, k + 1, s);
        var rest := Emitted(raw, norm, ds, k + 1, s);
        assert Emitted(raw, norm, ds, k, lastS) == [k] + rest;
      } else {
        LastEmission(raw, norm, ds, k + 1, lastS);
      }
    }
  }

  /** Consecutive outputs are at least `ds` apart in arc length. */
  lemma Spacing(raw: seq<RawSample>, norm: Vec3 -> real, ds: real)
    requires |raw| >= 1
    ensures var r := Resample(raw, norm, ds);
      1 <= |r| <= |raw| && r[0].s == 0.0 &&
      forall m :: 1 <= m < |r| ==> r[m].s - r[m - 1].s >= ds
  {
    var idx := Emitted(raw, norm, ds, 1, 0.0);
    IndicesFit(idx, 1, |raw|);
    var r := Resample(raw, norm, ds);
    forall m | 1 <= m < |r|
      ensures r[m].s - r[m - 1].s >= ds
    {
      assert r[m] == Pick(raw, norm, idx[m - 1]);
      if m > 1 {
        assert r[m - 1] == Pick(raw, norm, idx[m - 2]);
        NextEmission(raw, norm, ds, 1, 0.0, m - 2);
      } else {
        FirstEmission(raw, norm, ds, 1, 0.0);
      }
    }
  }

  /** Strictly increasing indices in `[lo, hi)` number at most `hi - lo`. */
  lemma {:induction false} IndicesFit(idx: seq<nat>, lo: nat, hi: nat)
    requires lo <= hi && forall m :: 0 <= m < |idx| ==> lo <= idx[m] < hi
    requires forall m, m' :: 0 <= m < m' < |idx| ==> idx[m] < idx[m']
    ensures |idx| <= hi - lo
    decreases |idx|
  {
    if idx != [] {
      IndicesFit(idx[1..], idx[0] + 1, hi);
    }
  }

  /** The output ends within `ds` of the total arc length: the last raw
      sample is emitted only when it reaches the threshold itself. */
  lemma Tail(raw: seq<RawSample>, norm: Vec3 -> real, ds: real)
    requires |raw| >= 1
    ensures var r := Resample(raw, norm, ds);
      var total := Arc(raw, norm, |raw| - 1);
      r[|r| - 1].s == total || total - r[|r| - 1].s < ds
  {
    var idx := Emitted(raw, norm, ds, 1, 0.0);
    FirstEmission(raw, norm, ds, 1, 0.0);
    LastEmission(raw, norm, ds, 1, 0.0);
    var r := Resample(raw, norm, ds);
    if idx != [] {
      assert r[|r| - 1] == Pick(raw, norm, idx[|idx| - 1]);
    }
  }

  /** With nonnegative speeds over a non-decreasing grid that starts at 0,
      the outputs follow raw order: their arc lengths and parameters never
      decrease, and no arc length exceeds the total. */
  lemma Ordered(raw: seq<RawSample>, norm: Vec3 -> real, ds: real)
    requires |raw| >= 1 && raw[0].g == 0.0 && NonNegative(norm) && NonDecreasing(raw)
    ensures var r := Resample(raw, norm, ds);
      (forall m, m' :: 0 <= m < m' < |r| ==> r[m].s <= r[m'].s && r[m].t <= r[m'].t) &&
      forall m :: 0 <= m < |r| ==> 0.0 <= r[m].s <= Arc(raw, norm, |raw| - 1)
  {
    var r := Resample(raw, norm, ds);
    forall m, m' | 0 <= m < m' < |r|
      ensures r[m].s <= r[m'].s && r[m].t <= r[m'].t
    {
      var p := OutputOrigin(raw, norm, ds, m);
      var p' := OutputOrigin(raw, norm, ds, m');
      ArcMonotone(raw, norm, p, p');
      GridOrder(raw, p, p');
    }
    forall m | 0 <= m < |r|
      ensures 0.0 <= r[m].s <= Arc(raw, norm, |raw| - 1)
    {
      var p := OutputOrigin(raw, norm, ds, m);
      ArcMonotone(raw, norm, p, |raw| - 1);
    }
  }

  /** Output `m` is raw sample `RawIndex(raw, norm, ds, m)` with its arc length. */
  ghost function RawIndex(raw: seq<RawSample>, norm: Vec3 -> real, ds: real, m: nat): nat
    requires 1 <= |raw| && m <= |Emitted(raw, norm, ds, 1, 0.0)|
  {
    if m == 0 then 0 else Emitted(raw, norm, ds, 1, 0.0)[m - 1]
  }

  lemma OutputOrigin(raw: seq<RawSample>, norm: Vec3 -> real, ds: real, m: nat) returns (p: nat)
    requires |raw| >= 1 && raw[0].g == 0.0 && m < |Resample(raw, norm, ds)|
    ensures p == RawIndex(raw, norm, ds, m) && p < |raw|
    ensures Resample(raw, norm, ds)[m] == Sample(Arc(raw, norm, p), raw[p].g, raw[p].pt, raw[p].d1, raw[p].d2)
    ensures forall m' :: m < m' < |Resample(raw, norm, ds)| ==> p < RawIndex(raw, norm, ds, m')
  {
    p := RawIndex(raw, norm, ds, m);
  }

  lemma {:induction false} GridOrder(raw: seq<RawSample>, i: nat, j: nat)
    requires NonDecreasing(raw) && i <= j < |raw|
    ensures raw[i].g <= raw[j].g
    decreases j
  {
    if i < j {
      GridOrder(raw, i, j - 1);
    }
  }

  /** The raw grid of a path is non-empty, starts at global parameter 0 with
      the path's start, and never goes back. */
  lemma GridStart(path: seq<Spline>, n: nat)
    requires |path| >= 1 && n >= 1
    ensures var raw := RawGrid(path, Linspace(n), |path|);
      1 <= |raw| == |path| * n && raw[0] == RawAt(path[0], 0, 0.0) && raw[0].g == 0.0 && NonDecreasing(raw)
  {
    var xs := Linspace(n);
    GridSize(path, xs, |path|);
    MulLe(1, |path|, n);
    GridEntry(path, xs, |path|, 0, 0);
    GridNonDecreasing(path, xs, |path|);
  }

  /** What `sample_path` returns on a path: at least one entry and no more
      than the raw grid holds, the path's start first (position, tangent and
      curvature of segment 0 at parameter 0, with arc length and parameter
      0), and consecutive entries at least `ds` apart. */
  lemma SampledPath(path: seq<Spline>, n: nat, norm: Vec3 -> real, ds: real)
    requires |path| >= 1 && n >= 1
    ensures var r := Resample(RawGrid(path, Linspace(n), |path|), norm, ds);
      1 <= |r| <= |path| * n &&
      r[0] == Sample(0.0, 0.0, Evaluate(path[0], 0.0, 0), Evaluate(path[0], 0.0, 1), Evaluate(path[0], 0.0, 2)) &&
      forall m :: 1 <= m < |r| ==> r[m].s - r[m - 1].s >= ds
  {
    GridStart(path, n);
    Spacing(RawGrid(path, Linspace(n), |path|), norm, ds);
  }

  /** With nonnegative speeds, the entries `sample_path` returns come in raw
      order: arc lengths and parameters never decrease. */
  lemma SampledPathOrdered(path: seq<Spline>, n: nat, norm: Vec3 -> real, ds: real)
    requires |path| >= 1 && n >= 1 && NonNegative(norm)
    ensures var r := Resample(RawGrid(path, Linspace(n), |path|), norm, ds);
      forall m, m' :: 0 <= m < m' < |r| ==> r[m].s <= r[m'].s && r[m].t <= r[m'].t
  {
    GridStart(path, n);
    Ordered(RawGrid(path, Linspace(n), |path|), norm, ds);
  }

  /** `sample_path(path, ds, samples_per_seg)` with the Euclidean norm passed
      in as `norm`. `sample_path` reads `samples[0]`, so it needs a non-empty
      path and at least one sample per segment. */
  method SamplePath(path: seq<Spline>, ds: real, samplesPerSeg: nat, norm: Vec3 -> real) returns (result: seq<Sample>)
    requires |path| >= 1 && samplesPerSeg >= 1
    ensures result == Resample(RawGrid(path, Linspace(samplesPerSeg), |path|), norm, ds)
  {
    var samples := RawSamples(path, samplesPerSeg);
    GridSize(path, Linspace(samplesPerSeg), |path|);
    MulLe(1, |path|, samplesPerSeg);
    result := Thin(samples, ds, norm);
  }

  /** The first phase of `sample_path`: every segment evaluated on the local
      grid, segment after segment. */
  method RawSamples(path: seq<Spline>, samplesPerSeg: nat) returns (samples: seq<RawSample>)
    ensures samples == RawGrid(path, Linspace(samplesPerSeg), |path|)
  {
    var xs := Linspace(samplesPerSeg);
    samples := [];
    var i := 0;
    while i < |path|
      invariant 0 <= i <= |path|
      invariant samples == RawGrid(path, xs, i)
    {
      var j := 0;
      while j < |xs|
        invariant 0 <= j <= |xs|
        invariant samples == RawGrid(path, xs, i) + SegmentRow(path[i], i, xs)[..j]
      {
        var (pt, d1, d2) := EvaluateWithDerivatives(path[i], xs[j]);
        assert RawSample(xs[j] + i as real, pt, d1, d2) == SegmentRow(path[i], i, xs)[j];
        assert SegmentRow(path[i], i, xs)[..j + 1] == SegmentRow(path[i], i, xs)[..j] + [SegmentRow(path[i], i, xs)[j]];
        samples := samples + [RawSample(xs[j] + i as real, pt, d1, d2)];
        j := j + 1;
      }
      assert SegmentRow(path[i], i, xs)[..j] == SegmentRow(path[i], i, xs);
      i := i + 1;
    }
  }

  /** The second phase of `sample_path`: the arc-length integration and the
      emission loop over the raw samples. */
  method Thin(samples: seq<RawSample>, ds: real, norm: Vec3 -> real) returns (result: seq<Sample>)
    requires |samples| >= 1
    ensures result == Resample(samples, norm, ds)
  {
    var lastT := samples[0].g;
    var lastD1Norm := norm(samples[0].d1);
    var lastS := 0.0;
    result := [Sample(0.0, 0.0, samples[0].pt, samples[0].d1, samples[0].d2)];
    var s := 0.0;
    var k := 1;
    ghost var target := Resample(samples, norm, ds);
    while k < |samples|
      invariant 1 <= k <= |samples|
      invariant s == Arc(samples, norm, k - 1)
      invariant lastT == samples[k - 1].g && lastD1Norm == norm(samples[k - 1].d1)
      invariant result + Picks(samples, norm, Emitted(samples, norm, ds, k, lastS)) == target
    {
      ArcStep(samples, norm, k, s, lastD1Norm, lastT);
      var d1Norm := norm(samples[k].d1);
      s := s + 0.5 * (d1Norm + lastD1Norm) * (samples[k].g - lastT);
      lastD1Norm := d1Norm;
      lastT := samples[k].g;
      EmitStep(samples, norm, ds, k, lastS, s, result, target);
      if s - lastS >= ds {
        lastS := s;
        result := result + [Sample(s, samples[k].g, samples[k].pt, samples[k].d1, samples[k].d2)];
      }
      k := k + 1;
    }
  }
}
