/** Clamped piecewise-linear interpolation over a keyframe list.

    This is the behaviour the card deck relies on from the animation
    library's `useTransform(progress, positions, values)`: below the first
    position the first value holds, above the last position the last value
    holds, and in between the value moves linearly along the bracketing
    segment. The library itself is not part of this model; this module is
    the assumed meaning of the call. */
module Keyframes {

  /** Keyframe positions in strictly increasing order. */
  predicate StrictlyIncreasing(ps: seq<real>) {
    forall i, j :: 0 <= i < j < |ps| ==> ps[i] < ps[j]
  }

  /** A keyframe list: positions and values of equal, non-zero length. */
  predicate WellFormed(ps: seq<real>, vs: seq<real>) {
    |ps| == |vs| >= 1 && StrictlyIncreasing(ps)
  }

  /** Every value lies within [lo, hi]. */
  predicate AllWithin(vs: seq<real>, lo: real, hi: real) {
    forall i :: 0 <= i < |vs| ==> lo <= vs[i] <= hi
  }

  /** The straight line through (p0, v0) and (p1, v1), evaluated at x. */
  function Lerp(p0: real, p1: real, v0: real, v1: real, x: real): real
    requires p0 < p1
  {
    v0 + (v1 - v0) * ((x - p0) / (p1 - p0))
  }

  /** The line meets its two anchor points. */
  lemma LerpEndpoints(p0: real, p1: real, v0: real, v1: real)
    requires p0 < p1
    ensures Lerp(p0, p1, v0, v1, p0) == v0
    ensures Lerp(p0, p1, v0, v1, p1) == v1
  {
    assert (p1 - p0) / (p1 - p0) == 1.0;
  }

  /** A part of a positive whole is a fraction in [0, 1]; a proper part
      is strictly inside. */
  lemma FractionInUnit(a: real, d: real)
    requires d > 0.0 && 0.0 <= a <= d
    ensures 0.0 <= a / d <= 1.0
    ensures 0.0 < a < d ==> 0.0 < a / d < 1.0
  {
    assert (a / d) * d == a;
  }

  lemma ProductPositive(a: real, b: real)
    requires a > 0.0 && b > 0.0
    ensures a * b > 0.0
  {
  }

  /** Between its anchors the line never leaves the band spanned by the
      two anchor values: no overshoot. */
  lemma LerpBetween(p0: real, p1: real, v0: real, v1: real, x: real, lo: real, hi: real)
    requires p0 < p1 && p0 <= x <= p1
    requires lo <= v0 <= hi && lo <= v1 <= hi
    ensures lo <= Lerp(p0, p1, v0, v1, x) <= hi
  {
    var t := (x - p0) / (p1 - p0);
    FractionInUnit(x - p0, p1 - p0);
    assert Lerp(p0, p1, v0, v1, x) == (1.0 - t) * v0 + t * v1;
    assert (1.0 - t) * lo <= (1.0 - t) * v0 <= (1.0 - t) * hi;
    assert t * lo <= t * v1 <= t * hi;
  }

  /** Strictly inside the segment, a line that rises (or falls) has not yet
      reached its upper (lower) anchor value. */
  lemma LerpStrictlyInside(p0: real, p1: real, v0: real, v1: real, x: real)
    requires p0 < x < p1
    ensures v0 < v1 ==> v0 < Lerp(p0, p1, v0, v1, x) < v1
    ensures v1 < v0 ==> v1 < Lerp(p0, p1, v0, v1, x) < v0
  {
    var t := (x - p0) / (p1 - p0);
    FractionInUnit(x - p0, p1 - p0);
    assert Lerp(p0, p1, v0, v1, x) == v0 + (v1 - v0) * t;
    if v0 < v1 {
      ProductPositive(v1 - v0, t);
      ProductPositive(v1 - v0, 1.0 - t);
      assert Lerp(p0, p1, v0, v1, x) == v1 - (v1 - v0) * (1.0 - t);
    }
    if v1 < v0 {
      var fall := v0 - v1;
      var rest := 1.0 - t;
      ProductPositive(fall, t);
      ProductPositive(fall, rest);
      assert Lerp(p0, p1, v0, v1, x) == v0 - fall * t;
      assert Lerp(p0, p1, v0, v1, x) == v1 + fall * rest;
    }
  }

  /** The interpolated value at progress x: clamped to the first value
      before the first position and to the last value after the last one. */
  function Interpolate(ps: seq<real>, vs: seq<real>, x: real): (r: real)
    requires WellFormed(ps, vs)
    ensures x <= ps[0] ==> r == vs[0]
    ensures x >= ps[|ps| - 1] ==> r == vs[|vs| - 1]
    decreases |ps|
  {
    if x <= ps[0] || |ps| == 1 then vs[0]
    else if x <= ps[1] then
      LerpEndpoints(ps[0], ps[1], vs[0], vs[1]);
      Lerp(ps[0], ps[1], vs[0], vs[1], x)
    else Interpolate(ps[1..], vs[1..], x)
  }

  /** On the segment between keyframes i and i+1 the interpolation is the
      line through those two keyframes, whatever the other keyframes are. */
  lemma {:induction false} InterpolateOnSegment(ps: seq<real>, vs: seq<real>, i: nat, x: real)
    requires WellFormed(ps, vs)
    requires i + 1 < |ps| && ps[i] <= x <= ps[i + 1]
    ensures Interpolate(ps, vs, x) == Lerp(ps[i], ps[i + 1], vs[i], vs[i + 1], x)
    decreases i
  {
    LerpEndpoints(ps[i], ps[i + 1], vs[i], vs[i + 1]);
    if i == 0 {
    } else {
      assert ps[0] < ps[i];
      if x <= ps[1] {
        // Then i == 1 and x == ps[1]: both lines meet at that keyframe.
        assert i == 1 && x == ps[1];
        LerpEndpoints(ps[0], ps[1], vs[0], vs[1]);
      } else {
        InterpolateOnSegment(ps[1..], vs[1..], i - 1, x);
      }
    }
  }

  /** Each keyframe is hit exactly. */
  lemma InterpolateAtKnot(ps: seq<real>, vs: seq<real>, i: nat)
    requires WellFormed(ps, vs) && i < |ps|
    ensures Interpolate(ps, vs, ps[i]) == vs[i]
  {
    if i + 1 < |ps| {
      InterpolateOnSegment(ps, vs, i, ps[i]);
      LerpEndpoints(ps[i], ps[i + 1], vs[i], vs[i + 1]);
    }
  }

  /** Two equal neighbouring values hold the output still across their
      whole segment. */
  lemma InterpolateFlat(ps: seq<real>, vs: seq<real>, i: nat, x: real)
    requires WellFormed(ps, vs)
    requires i + 1 < |ps| && ps[i] <= x <= ps[i + 1] && vs[i] == vs[i + 1]
    ensures Interpolate(ps, vs, x) == vs[i]
  {
    InterpolateOnSegment(ps, vs, i, x);
  }

  /** No overshoot: if every keyframe value lies in [lo, hi], so does every
      interpolated value. */
  lemma {:induction false} InterpolateBounded(ps: seq<real>, vs: seq<real>, x: real, lo: real, hi: real)
    requires WellFormed(ps, vs) && AllWithin(vs, lo, hi)
    ensures lo <= Interpolate(ps, vs, x) <= hi
    decreases |ps|
  {
    if x <= ps[0] || |ps| == 1 {
      assert lo <= vs[0] <= hi;
    } else if x <= ps[1] {
      assert lo <= vs[0] <= hi && lo <= vs[1] <= hi;
      LerpBetween(ps[0], ps[1], vs[0], vs[1], x, lo, hi);
    } else {
      assert AllWithin(vs[1..], lo, hi) by {
        forall k | 0 <= k < |vs[1..]| ensures lo <= vs[1..][k] <= hi {
          assert vs[1..][k] == vs[k + 1];
        }
      }
      InterpolateBounded(ps[1..], vs[1..], x, lo, hi);
    }
  }
}
