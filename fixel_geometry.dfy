/**
 * Fixel directions and the nearest-fixel rule of fixelcfestats: among a
 * range of candidate fixel directions, the one with the strictly largest
 * absolute dot product with a given direction, found by a scan that starts
 * from a best value of 0 and keeps the first maximum. The rule is the same
 * for streamline tangents (TrackProcessor) and for subject fixels.
 *
 * Single-precision rounding is not modelled: values are reals, and cos, exp,
 * pow and sqrt are supplied as function values.
 */
module FixelGeometry {

  import opened Wrappers

  datatype Vec3 = Vec3(x: real, y: real, z: real)

  /** One fixel of a sparse image: its direction, size and value. */
  datatype FixelMetric = FixelMetric(dir: Vec3, size: real, value: real)

  /** The mathematical functions of the C library that are used, as inputs. */
  datatype Maths = Maths(sqrt: real -> real, exp: real -> real, pow: (real, real) -> real, cos: real -> real)

  /** M_PI */
  const PI: real := 3.141592653589793

  function Dot(a: Vec3, b: Vec3): real
  {
    a.x * b.x + a.y * b.y + a.z * b.z
  }

  function Neg(v: Vec3): Vec3
  {
    Vec3(-v.x, -v.y, -v.z)
  }

  function Abs(x: real): (r: real)
    ensures r >= 0.0 && (r == x || r == -x)
  {
    if x < 0.0 then -x else x
  }

  /** |a . b|, the quantity the rule maximises. */
  function AbsDot(a: Vec3, b: Vec3): (r: real)
    ensures r >= 0.0
  {
    Abs(Dot(a, b))
  }

  /**
   * `Point::normalise`: divide by the norm. A zero vector is left as it is;
   * the source divides by zero, and the resulting NaN dot products never
   * beat the running best, which is what a zero vector's zero products give.
   */
  function Normalised(m: Maths, v: Vec3): Vec3
  {
    var n := m.sqrt(Dot(v, v));
    if n == 0.0 then v else Vec3(v.x / n, v.y / n, v.z / n)
  }

  /** `cos (angle * (M_PI/180.0))`: the dot-product threshold of an angle in degrees. */
  function AngularThresholdDp(m: Maths, angleDegrees: real): real
  {
    m.cos(angleDegrees * (PI / 180.0))
  }

  /**
   * The running (closest index, largest |dot|) pair after scanning the
   * candidates lo .. hi-1 in order, starting from (-1, 0.0) and replacing it
   * only on a strictly larger value. The contract characterises the result
   * without reference to the scan: -1 exactly when every candidate is
   * orthogonal to dir, otherwise the first index attaining the maximum.
   */
  function Nearest(dir: Vec3, dirs: seq<Vec3>, lo: nat, hi: nat): (r: (int, real))
    requires hi <= |dirs|
    ensures r.1 >= 0.0
    ensures r.0 == -1 <==> forall j :: lo <= j < hi ==> AbsDot(dir, dirs[j]) == 0.0
    ensures r.0 == -1 ==> r.1 == 0.0
    ensures r.0 != -1 ==> lo <= r.0 < hi && r.1 == AbsDot(dir, dirs[r.0]) && r.1 > 0.0
    ensures r.0 != -1 ==> forall j :: lo <= j < hi ==> AbsDot(dir, dirs[j]) <= r.1
    ensures r.0 != -1 ==> forall j :: lo <= j < r.0 ==> AbsDot(dir, dirs[j]) < r.1
    decreases hi
  {
    if hi <= lo then (-1, 0.0)
    else
      var prev := Nearest(dir, dirs, lo, hi - 1);
      var dp := AbsDot(dir, dirs[hi - 1]);
      if dp > prev.1 then (hi - 1, dp) else prev
  }

  /**
   * The inner scan of the source: the loop over the candidate range that
   * keeps the first strict maximum of |dot|.
   */
  method ClosestFixel(dir: Vec3, dirs: seq<Vec3>, lo: nat, hi: nat) returns (closest: int, largest: real)
    requires hi <= |dirs|
    ensures (closest, largest) == Nearest(dir, dirs, lo, hi)
  {
    closest, largest := -1, 0.0;
    if hi <= lo {
      return;
    }
    var j := lo;
    while j < hi
      invariant lo <= j <= hi
      invariant (closest, largest) == Nearest(dir, dirs, lo, j)
    {
      var dp := AbsDot(dir, dirs[j]);
      if dp > largest {
        largest := dp;
        closest := j;
      }
      j := j + 1;
    }
  }

  /** The match the source accepts: the nearest fixel, if it beats the threshold. */
  function Match(dir: Vec3, dirs: seq<Vec3>, lo: nat, hi: nat, threshold: real): (r: Option<nat>)
    requires hi <= |dirs|
    requires threshold >= 0.0
    ensures r.Some? <==> exists j :: lo <= j < hi && AbsDot(dir, dirs[j]) > threshold
    ensures r.Some? ==> lo <= r.value < hi && AbsDot(dir, dirs[r.value]) > threshold
    ensures r.Some? ==> forall j :: lo <= j < hi ==> AbsDot(dir, dirs[j]) <= AbsDot(dir, dirs[r.value])
    ensures r.Some? ==> forall j :: lo <= j < r.value ==> AbsDot(dir, dirs[j]) < AbsDot(dir, dirs[r.value])
  {
    var n := Nearest(dir, dirs, lo, hi);
    if n.1 > threshold then Some(n.0 as nat) else None
  }

  lemma NegTimes(u: real, v: real)
    ensures (-u) * v == -(u * v)
  {
  }

  lemma DotNeg(a: Vec3, b: Vec3)
    ensures AbsDot(Neg(a), b) == AbsDot(a, b)
  {
    NegTimes(a.x, b.x);
    NegTimes(a.y, b.y);
    NegTimes(a.z, b.z);
    assert Dot(Neg(a), b) == -Dot(a, b);
  }

  /** The rule is sign-agnostic: a reversed direction finds the same fixel. */
  lemma {:induction false} NearestNeg(dir: Vec3, dirs: seq<Vec3>, lo: nat, hi: nat)
    requires hi <= |dirs|
    ensures Nearest(Neg(dir), dirs, lo, hi) == Nearest(dir, dirs, lo, hi)
    decreases hi
  {
    if hi > lo {
      NearestNeg(dir, dirs, lo, hi - 1);
      DotNeg(dir, dirs[hi - 1]);
    }
  }

  /** Normalising commutes with reversing. */
  lemma NormalisedNeg(m: Maths, v: Vec3)
    ensures Normalised(m, Neg(v)) == Neg(Normalised(m, v))
  {
    assert Dot(Neg(v), Neg(v)) == Dot(v, v);
  }

  /** A reversed streamline tangent is matched to the same fixel. */
  lemma MatchNeg(m: Maths, dir: Vec3, dirs: seq<Vec3>, lo: nat, hi: nat, threshold: real)
    requires hi <= |dirs| && threshold >= 0.0
    ensures Match(Normalised(m, Neg(dir)), dirs, lo, hi, threshold) == Match(Normalised(m, dir), dirs, lo, hi, threshold)
  {
    NormalisedNeg(m, dir);
    NearestNeg(Normalised(m, dir), dirs, lo, hi);
  }

  /** An empty candidate range, or one orthogonal to dir, never matches. */
  lemma NoMatchWhenOrthogonal(dir: Vec3, dirs: seq<Vec3>, lo: nat, hi: nat, threshold: real)
    requires hi <= |dirs| && threshold >= 0.0
    requires forall j :: lo <= j < hi ==> Dot(dir, dirs[j]) == 0.0
    ensures Match(dir, dirs, lo, hi, threshold) == None
  {
  }

  /** Ties go to the earlier fixel: two equally aligned candidates select the first. */
  lemma TieGoesToFirst(dir: Vec3, d: Vec3)
    requires Dot(dir, d) != 0.0
    ensures Nearest(dir, [d, Neg(d)], 0, 2) == (0, AbsDot(dir, d))
  {
    assert Nearest(dir, [d, Neg(d)], 0, 1) == (0, AbsDot(dir, d));
    DotNeg(d, dir);
    assert Dot(dir, Neg(d)) == -Dot(dir, d);
  }
}
