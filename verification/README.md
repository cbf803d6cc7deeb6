# Quintic spline planner, modelled in Dafny

This project models `spline_planner/scripts/spline.py`. That file holds three pieces:

- **`QuinticSpline`** turns Hermite boundary data into a quintic polynomial. The data is position, first derivative and second derivative at both ends. The constructor builds four virtual control points (Sprunk 2008, eq. 3.12 and 3.13) and from them six monomial coefficient vectors. It then derives the coefficient tables of the first and second derivative. `evaluate(t, derivative)` and `evaluate_with_derivatives(t)` multiply a row of powers of `t` with those tables.
- **`propose_geometric_spline_path`** builds two quintic segments through three waypoints. It fills in omitted end tangents and curvatures and computes an interior tangent `t2`. It blends an interior curvature `a2` from the two chords, so that both segments share `(p2, t2, a2)`.
- **`sample_path`** evaluates every segment on an even grid `np.linspace(0, 1, samples_per_seg)`. It integrates speed along the raw samples with the trapezoid rule. It keeps a sample whenever the arc length gained since the last kept sample reaches `ds`.

All arithmetic is exact real arithmetic. The project has four files:

- `vec3.dfy`, module `Vectors`: three-dimensional vectors and the weighted sum that stands for `np.matmul`.
- `quintic_spline.dfy`: `QuinticSpline` as an immutable datatype. Module `Quintic` holds its construction and evaluation, and module `QuinticProperties` the boundary and Bezier facts.
- `geometric_path.dfy`, module `GeometricPath`: the path proposal, with the cubic Hermite curves that serve as the reference definition of the `a2` blend.
- `sample_path.dfy`, module `ArcLengthSampler`: the sampler. It is written as methods with loops (`SamplePath`, `RawSamples`, `Thin`). Each method is proved equal to a function specification (`RawGrid`, `Resample`), and the properties of `sample_path`'s output are proved about that specification.

## Model

| member | source | states |
|---|---|---|
| Quintic.ControlPoints | spline_planner/scripts/spline.py:6-10 | The control points begin at `p_s` and end at `p_e`. Five times the first and last control-point differences are `d1_s` and `d1_e`. Twenty times the second differences at each end are `d2_s` and `d2_e`. These are the Bezier end conditions that eq. 3.12 and 3.13 solve. |
| Quintic.NewQuinticSpline | spline_planner/scripts/spline.py:5-33 | The constructor's `cm_d1` is the formal derivative of `cm`, and `cm_d2` is the formal derivative of `cm_d1`. |
| Quintic.Evaluate | spline_planner/scripts/spline.py:35-45 | The monomial row times a table is the Horner value of that table at `t`. This holds for `cm` at order 0, `cm_d1` at order 1, and `cm_d2` at every other order. |
| Quintic.EvaluateWithDerivatives | spline_planner/scripts/spline.py:47-54 | For every `t`, the triple equals `(evaluate(t,0), evaluate(t,1), evaluate(t,2))`. |
| Quintic.HornerQuintic | spline_planner/scripts/spline.py:41 | `[t^5, t^4, t^3, t^2, t, 1]` times a six-row table equals Horner's rule on that table. |
| Quintic.HornerQuartic | spline_planner/scripts/spline.py:43 | `[t^4, t^3, t^2, t, 1]` times a five-row table equals Horner's rule on that table. |
| Quintic.HornerCubic | spline_planner/scripts/spline.py:45 | `[t^3, t^2, t, 1]` times a four-row table equals Horner's rule on that table. |
| QuinticProperties.OtherOrders | spline_planner/scripts/spline.py:40-45 | Any `derivative` other than 0 or 1 gives the same value as order 2. |
| QuinticProperties.DerivativeTables | spline_planner/scripts/spline.py:20-33 | `cm_d1[i] == (5-i) * cm[i]` for i in 0..4, and `cm_d2[i] == (4-i) * cm_d1[i]` for i in 0..3. |
| QuinticProperties.BezierForm | spline_planner/scripts/spline.py:11-18 | For every `t`, the monomial table evaluates to the quintic Bernstein sum over the control points. |
| QuinticProperties.SegmentIsBezier | spline_planner/scripts/spline.py:5-41 | For every `t`, a constructed segment's position is the Bezier curve over its eq. 3.12/3.13 control points. |
| QuinticProperties.BezierPositionEnds | spline_planner/scripts/spline.py:11-18 | The monomial table takes the first control point at 0 and the last at 1. |
| QuinticProperties.BezierTangentEnds | spline_planner/scripts/spline.py:20-26 | The derivative table takes `5(b1-b0)` at 0 and `5(b5-b4)` at 1. |
| QuinticProperties.BezierCurvatureEnds | spline_planner/scripts/spline.py:28-33 | The second-derivative table takes `20(b0-2b1+b2)` at 0 and `20(b5-2b4+b3)` at 1. |
| QuinticProperties.BoundaryPosition | spline_planner/scripts/spline.py:5-41 | `evaluate(0,0) == p_s` and `evaluate(1,0) == p_e`. |
| QuinticProperties.BoundaryTangent | spline_planner/scripts/spline.py:5-43 | `evaluate(0,1) == d1_s` and `evaluate(1,1) == d1_e`. |
| QuinticProperties.BoundaryCurvature | spline_planner/scripts/spline.py:5-45 | `evaluate(0,2) == d2_s` and `evaluate(1,2) == d2_e`. |
| GeometricPath.CubicHermiteEnds | spline_planner/scripts/spline.py:88-90 | The reference cubic Hermite curve interpolates its end positions and tangents. |
| GeometricPath.CubicHermiteAccelEnds | spline_planner/scripts/spline.py:90 | The two bracketed terms of the `a2` line are the second derivatives of cubic Hermite curves. The first is the curve p1 -> p2 at its end, and the second is the curve p2 -> p3 at its start. |
| GeometricPath.ChordWeights | spline_planner/scripts/spline.py:88-89 | With positive chord norms, `alpha + beta == 1` and both weights lie strictly between 0 and 1. `alpha > beta` holds exactly when the first chord is the shorter. |
| GeometricPath.InteriorCurvatureIsBlend | spline_planner/scripts/spline.py:88-90 | `a2` equals `alpha` times the arrival curvature over the first chord plus `beta` times the departure curvature over the second. |
| GeometricPath.BlendIsConvex | spline_planner/scripts/spline.py:88-90 | Each coordinate of `a2` lies between the two curvature demands. When the demands agree, `a2` equals them. |
| GeometricPath.ProposeGeometricSplinePath | spline_planner/scripts/spline.py:56-93 | Exactly two segments are returned. |
| GeometricPath.SharedJoint | spline_planner/scripts/spline.py:92-93 | The segments built from `(p1,p2,t1,t2,a1,a2)` and `(p2,p3,t2,t3,a2,a3)` agree at the joint in position `p2`, tangent `t2` and curvature `a2`. They keep their outer boundary data. |
| GeometricPath.ProposalEnds | spline_planner/scripts/spline.py:63-75 | The path starts at `p1` and ends at `p3`. Its end tangents are the given ones or, when omitted, half the adjacent chord. Its end curvatures are the given ones or, when omitted, zero. |
| GeometricPath.ProposalJoint | spline_planner/scripts/spline.py:86-93 | Both segments are at `p2` at the joint. Both have the tangent `rotated * min(n12, n23)` there. |
| GeometricPath.ProposalJointCurvature | spline_planner/scripts/spline.py:88-93 | Both segments have the blended curvature `a2` at the joint, computed from the effective (defaulted) end tangents. |
| ArcLengthSampler.Linspace | spline_planner/scripts/spline.py:101 | `n` values are returned, starting at 0 and, for `n >= 2`, ending at 1. All lie in [0, 1], strictly increasing. |
| ArcLengthSampler.GridSize | spline_planner/scripts/spline.py:102-105 | The raw grid of `m` segments has `m * len(t)` entries. |
| ArcLengthSampler.GridEntry | spline_planner/scripts/spline.py:102-105 | Entry `i * len(t) + j` is segment `i` evaluated at `t[j]`, with global parameter `t[j] + i`. |
| ArcLengthSampler.GridNonDecreasing | spline_planner/scripts/spline.py:102-105 | Over a sorted local grid in [0,1], the global parameters never decrease and stay at most the segment count. |
| ArcLengthSampler.JointDuplicate | spline_planner/scripts/spline.py:101-105 | With at least two grid points, the last sample of segment `i` and the first of segment `i+1` share the global parameter `i+1`. |
| ArcLengthSampler.GridStart | spline_planner/scripts/spline.py:100-105 | The raw grid of a non-empty path is non-empty, has `len(path) * samples_per_seg` entries, and starts with segment 0 at parameter 0. It never decreases. |
| ArcLengthSampler.ArcStep | spline_planner/scripts/spline.py:116-119 | One loop update of `s` from the previous sample's speed and parameter gives the trapezoid arc length at the next sample. |
| ArcLengthSampler.ArcMonotone | spline_planner/scripts/spline.py:114-119 | With nonnegative speeds over a non-decreasing grid, the accumulated arc length is nonnegative and never decreases. |
| ArcLengthSampler.Emitted | spline_planner/scripts/spline.py:114-123 | The emitted raw indices lie past the starting index and inside the grid, strictly increasing. |
| ArcLengthSampler.EmitStep | spline_planner/scripts/spline.py:121-123 | A sample is appended exactly when `s - last_s >= ds`, and `last_s` then becomes `s`. Either way the output so far plus what remains to be emitted is unchanged. |
| ArcLengthSampler.FirstEmission | spline_planner/scripts/spline.py:114-123 | The first emission is the first raw sample whose arc length reaches `ds` past the start. If there is none, no sample reaches it. |
| ArcLengthSampler.NextEmission | spline_planner/scripts/spline.py:114-123 | Each later emission is the first raw sample that reaches `ds` past the previous emission. |
| ArcLengthSampler.LastEmission | spline_planner/scripts/spline.py:114-123 | After the last emission, no raw sample reaches `ds` past it. |
| ArcLengthSampler.Spacing | spline_planner/scripts/spline.py:107-123 | The output has between 1 and `len(samples)` entries. The first has `s == 0`. Consecutive entries are at least `ds` apart in arc length. |
| ArcLengthSampler.Tail | spline_planner/scripts/spline.py:114-125 | The last output is at the total arc length or within `ds` of it. |
| ArcLengthSampler.Ordered | spline_planner/scripts/spline.py:107-123 | With nonnegative speeds over a non-decreasing grid from 0, outputs follow raw order. Their `s` and `t` never decrease, and every `s` lies in [0, total]. |
| ArcLengthSampler.OutputOrigin | spline_planner/scripts/spline.py:121-123 | Each output is one raw sample: its position, tangent and curvature, with that sample's arc length and global parameter. Later outputs come from later raw samples. |
| ArcLengthSampler.SampledPath | spline_planner/scripts/spline.py:96-125 | The output has between 1 and `len(path) * samples_per_seg` entries. The first is `((0, 0), evaluate_with_derivatives(0))` of segment 0. Consecutive entries are at least `ds` apart. |
| ArcLengthSampler.SampledPathOrdered | spline_planner/scripts/spline.py:96-125 | With nonnegative speeds, the entries come in raw order: `s` and `t` never decrease. |
| ArcLengthSampler.SamplePath | spline_planner/scripts/spline.py:96-125 | The method returns exactly the specified resampling of the raw grid of the path. |
| ArcLengthSampler.RawSamples | spline_planner/scripts/spline.py:100-105 | The nested loops build exactly the raw grid, segment after segment. |
| ArcLengthSampler.Thin | spline_planner/scripts/spline.py:107-125 | The integration and emission loop returns exactly the specified resampling of the raw samples. |

## Left out

- The Rodrigues rotation that gives the interior tangent's direction (`spline.py` lines 77-85) is not modelled. It uses `arccos`, `cos`, `sin`, a normalised cross product and square roots. The unit vector it produces is an input `rotated` of `ProposeGeometricSplinePath`. The scaling by the shorter chord (line 86) is modelled.
- The Euclidean norm (`np.linalg.norm`, lines 77-78, 108 and 116) is a function parameter `norm`. The proposal requires both chord norms to be positive, and the ordering results require the norm to be nonnegative. Nothing else about the norm is assumed.
- Floating-point rounding, numpy dtypes, `reshape`, and the matrix layout of `np.matmul` are not modelled. Arithmetic is exact over the reals, and a weighted sum of vectors stands for the matrix product.
- Degenerate geometry is not modelled. A zero-length chord gives NaN in the code, so positive chord norms are a precondition. Parallel chords make the rotation axis undefined, but the rotation itself is not modelled. The code raises no error for a zero or parallel chord, for `ds <= 0` or for too few samples per segment; the model has no error results either, and `ds` is unconstrained.
- SamplePath: requires a non-empty path and at least one sample per segment. The code reads `samples[0]` and fails on an empty raw grid.
- Default argument values are not modelled: `evaluate`'s `derivative=0` (line 35) and `sample_path`'s `ds=0.1` and `samples_per_seg=300` (line 96). `Quintic.Evaluate` and `ArcLengthSampler.SamplePath` take every argument explicitly. Only the omitted tangents and curvatures of `propose_geometric_spline_path` are modelled, as `Option` arguments, because their defaults are computed.
