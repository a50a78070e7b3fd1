/** The 4-bit affine quantiser of scripts/astrea.py over exact reals: the min/max fit, the
    alternating least-squares refit, and the reconstruction through the inverse rotation. */
module Mq4 {
  import opened Wrappers
  import opened Arithmetic
  import opened Hadamard
  import opened Fwht

  /** A block's 4-bit codes with its affine scale and zero point. */
  datatype Fit = Fit(q: seq<int>, scale: real, zero: real)

  datatype Mode = MinMax | LeastSquares(iters: int)

  predicate IsCode(c: int) {
    0 <= c <= 15
  }

  predicate IsCodes(q: seq<int>) {
    forall i :: 0 <= i < |q| ==> IsCode(q[i])
  }

  function Square(x: real): (s: real)
    ensures s >= 0.0
  {
    x * x
  }

  function Residual(scale: real, zero: real, q: int, r: real): (e: real)
    ensures e >= 0.0
  {
    Square(scale * (q as real) + zero - r)
  }

  /** Squared error of decoding codes q with scale and zero against r. */
  function SquaredError(r: seq<real>, q: seq<int>, scale: real, zero: real): (e: real)
    requires |r| == |q|
    ensures e >= 0.0
  {
    if r == [] then 0.0
    else Residual(scale, zero, q[0], r[0]) + SquaredError(r[1..], q[1..], scale, zero)
  }

  function FitError(r: seq<real>, f: Fit): (e: real)
    requires |r| == |f.q|
  {
    SquaredError(r, f.q, f.scale, f.zero)
  }

  // ---- sums behind the means ----

  function SumQ(q: seq<int>): real {
    if q == [] then 0.0 else (q[0] as real) + SumQ(q[1..])
  }

  function SumQQ(q: seq<int>): real {
    if q == [] then 0.0 else (q[0] as real) * (q[0] as real) + SumQQ(q[1..])
  }

  function SumR(r: seq<real>): real {
    if r == [] then 0.0 else r[0] + SumR(r[1..])
  }

  function SumRR(r: seq<real>): real {
    if r == [] then 0.0 else r[0] * r[0] + SumRR(r[1..])
  }

  function SumQR(q: seq<int>, r: seq<real>): real
    requires |q| == |r|
  {
    if q == [] then 0.0 else (q[0] as real) * r[0] + SumQR(q[1..], r[1..])
  }

  /** The value of s*s*qq + n*z*z + rr + 2*s*z*q - 2*s*qr - 2*z*r. */
  function Quadratic(n: real, q: real, qq: real, r: real, rr: real, qr: real, s: real, z: real): real {
    s * s * qq + n * (z * z) + rr + 2.0 * (s * z * q) - 2.0 * (s * qr) - 2.0 * (z * r)
  }

  lemma QuadraticStep(n: real, q: real, qq: real, r: real, rr: real, qr: real, s: real, z: real, c: int, b: real,
                      n': real, q': real, qq': real, r': real, rr': real, qr': real)
    requires var a := c as real;
      n' == n + 1.0 && q' == a + q && qq' == a * a + qq && r' == b + r && rr' == b * b + rr
      && qr' == a * b + qr
    ensures Quadratic(n', q', qq', r', rr', qr', s, z)
         == Residual(s, z, c, b) + Quadratic(n, q, qq, r, rr, qr, s, z)
  {
    var a := c as real;
    assert s * s * (a * a + qq) == s * s * (a * a) + s * s * qq;
    assert (n + 1.0) * (z * z) == n * (z * z) + z * z;
    assert s * z * (a + q) == s * z * a + s * z * q;
    assert s * (a * b + qr) == s * (a * b) + s * qr;
    assert z * (b + r) == z * b + z * r;
    assert Square(s * a + z - b)
        == s * s * (a * a) + z * z + b * b + 2.0 * (s * z * a) - 2.0 * (s * (a * b)) - 2.0 * (z * b);
  }

  lemma {:induction false} ErrorIsQuadratic(r: seq<real>, q: seq<int>, s: real, z: real)
    requires |r| == |q|
    ensures SquaredError(r, q, s, z)
         == Quadratic(|r| as real, SumQ(q), SumQQ(q), SumR(r), SumRR(r), SumQR(q, r), s, z)
  {
    hide *;
    if r == [] {
      EmptySums(r, q, s, z);
    } else {
      var n := (|r| - 1) as real;
      ErrorIsQuadratic(r[1..], q[1..], s, z);
      FirstTerms(r, q, s, z);
      QuadraticStep(n, SumQ(q[1..]), SumQQ(q[1..]), SumR(r[1..]), SumRR(r[1..]),
                    SumQR(q[1..], r[1..]), s, z, q[0], r[0],
                    |r| as real, SumQ(q), SumQQ(q), SumR(r), SumRR(r), SumQR(q, r));
    }
  }

  lemma {:induction false} EmptySums(r: seq<real>, q: seq<int>, s: real, z: real)
    requires |r| == |q| == 0
    ensures SquaredError(r, q, s, z) == 0.0
         == Quadratic(|r| as real, SumQ(q), SumQQ(q), SumR(r), SumRR(r), SumQR(q, r), s, z)
  {
    assert (|r| as real) * (z * z) == 0.0;
  }

  lemma {:induction false} FirstTerms(r: seq<real>, q: seq<int>, s: real, z: real)
    requires |r| == |q| && r != []
    ensures SumQ(q) == (q[0] as real) + SumQ(q[1..])
    ensures SumQQ(q) == (q[0] as real) * (q[0] as real) + SumQQ(q[1..])
    ensures SumR(r) == r[0] + SumR(r[1..]) && SumRR(r) == r[0] * r[0] + SumRR(r[1..])
    ensures SumQR(q, r) == (q[0] as real) * r[0] + SumQR(q[1..], r[1..])
    ensures SquaredError(r, q, s, z) == Residual(s, z, q[0], r[0]) + SquaredError(r[1..], q[1..], s, z)
  {
  }

  // ---- (a) solve for scale and zero with the codes fixed ----

  const VARIANCE_FLOOR: real := 0.000000000001

  function Variance(q: seq<int>): real
    requires q != []
  {
    var n := |q| as real;
    SumQQ(q) / n - (SumQ(q) / n) * (SumQ(q) / n)
  }

  function Covariance(q: seq<int>, r: seq<real>): real
    requires |q| == |r| && q != []
  {
    var n := |q| as real;
    SumQR(q, r) / n - (SumQ(q) / n) * (SumR(r) / n)
  }

  function Slope(variance: real, covariance: real, fallback: real): real {
    if variance > VARIANCE_FLOOR then covariance / variance else fallback
  }

  function CandidateScale(r: seq<real>, f: Fit): real
    requires |r| == |f.q| && r != []
  {
    Slope(Variance(f.q), Covariance(f.q, r), f.scale)
  }

  function CandidateZero(r: seq<real>, f: Fit): real
    requires |r| == |f.q| && r != []
  {
    SumR(r) / (|r| as real) - CandidateScale(r, f) * (SumQ(f.q) / (|r| as real))
  }

  /** The affine part after one solve: the candidate, unless its scale is not positive. */
  function Solve(r: seq<real>, f: Fit): (g: Fit)
    requires |r| == |f.q| && r != []
    ensures g.q == f.q && (f.scale > 0.0 ==> g.scale > 0.0)
  {
    if CandidateScale(r, f) > 0.0
    then f.(scale := CandidateScale(r, f), zero := CandidateZero(r, f))
    else f
  }

  /** The quadratic in completed-square form, per element. */
  lemma CompletedSquare(m: real, a: real, p: real, c: real, b: real, s: real, z: real)
    ensures Quadratic(1.0, m, a, p, c, b, s, z)
         == Square(z + s * m - p) + (s * s * (a - m * m) - 2.0 * (s * (b - m * p))) + (c - p * p)
  {
    assert Square(z + s * m - p) == z * z + s * s * (m * m) + p * p
      + 2.0 * (s * z * m) - 2.0 * (z * p) - 2.0 * (s * (m * p));
    assert s * s * (a - m * m) == s * s * a - s * s * (m * m);
    assert s * (b - m * p) == s * b - s * (m * p);
  }

  lemma QuadraticMeans(n: real, q: real, qq: real, r: real, rr: real, qr: real, s: real, z: real)
    requires n > 0.0
    ensures Quadratic(n, q, qq, r, rr, qr, s, z)
         == n * Quadratic(1.0, q / n, qq / n, r / n, rr / n, qr / n, s, z)
  {
    var a, b, c, d, e := q / n, qq / n, r / n, rr / n, qr / n;
    assert q == n * a && qq == n * b && r == n * c && rr == n * d && qr == n * e;
    assert n * (s * s * b) == s * s * (n * b);
    assert n * (s * z * a) == s * z * (n * a);
    assert n * (s * e) == s * (n * e);
    assert n * (z * c) == z * (n * c);
  }

  /** No scale beats covariance / variance when the zero point follows it. */
  lemma BestScale(v: real, k: real, t: real, s: real)
    requires v > 0.0 && t * v == k
    ensures t * t * v - 2.0 * (t * k) <= s * s * v - 2.0 * (s * k)
  {
    assert s * k == s * t * v && t * k == t * t * v;
    assert (s * s * v - 2.0 * (s * k)) - (t * t * v - 2.0 * (t * k)) == Square(s - t) * v;
  }

  lemma {:induction false} CandidateBeats(r: seq<real>, f: Fit, s: real)
    requires |r| == |f.q| && r != []
    requires Variance(f.q) > VARIANCE_FLOOR || s == f.scale
    ensures var t, v, k := CandidateScale(r, f), Variance(f.q), Covariance(f.q, r);
      t * t * v - 2.0 * (t * k) <= s * s * v - 2.0 * (s * k)
  {
    hide Variance, Covariance;
    SlopeBeats(Variance(f.q), Covariance(f.q, r), f.scale, s);
  }

  lemma SlopeBeats(v: real, k: real, fallback: real, s: real)
    requires v > VARIANCE_FLOOR || s == fallback
    ensures var t := Slope(v, k, fallback); t * t * v - 2.0 * (t * k) <= s * s * v - 2.0 * (s * k)
  {
    if v > VARIANCE_FLOOR {
      var t := k / v;
      assert t * v == k;
      BestScale(v, k, t, s);
    }
  }

  /** With the codes fixed, the solved scale and zero are at least as good as every other pair when the
      codes vary and the covariance is positive, and as every other zero when the codes do not vary. Where
      neither holds the fit is kept. */
  lemma {:induction false} SolveIsOptimal(r: seq<real>, f: Fit, s: real, z: real)
    requires |r| == |f.q| && r != []
    ensures var n := |r| as real;
      var v := SumQQ(f.q) / n - (SumQ(f.q) / n) * (SumQ(f.q) / n);
      var c := SumQR(f.q, r) / n - (SumQ(f.q) / n) * (SumR(r) / n);
      && (v > 0.000000000001 && c > 0.0 ==> FitError(r, Solve(r, f)) <= SquaredError(r, f.q, s, z))
      && (v > 0.000000000001 && c <= 0.0 ==> Solve(r, f) == f)
      && (v <= 0.000000000001 && f.scale > 0.0 && s == f.scale ==>
            FitError(r, Solve(r, f)) <= SquaredError(r, f.q, s, z) && Solve(r, f).scale == f.scale)
      && (v <= 0.000000000001 && f.scale <= 0.0 ==> Solve(r, f) == f)
  {
    hide SquaredError, SumQ, SumQQ, SumR, SumQR, Solve, CandidateScale, FitError;
    var v, c := Variance(f.q), Covariance(f.q, r);
    SolveCases(r, f);
    hide Variance, Covariance;
    if CandidateScale(r, f) > 0.0 && (v > 0.000000000001 || s == f.scale) {
      SolvedBeats(r, f, s, z);
    }
  }

  lemma {:induction false} SolveCases(r: seq<real>, f: Fit)
    requires |r| == |f.q| && r != []
    ensures var v, c := Variance(f.q), Covariance(f.q, r);
      && (v > 0.000000000001 ==> (CandidateScale(r, f) > 0.0 <==> c > 0.0))
      && (v <= 0.000000000001 ==> CandidateScale(r, f) == f.scale)
      && (CandidateScale(r, f) > 0.0 ==> Solve(r, f).scale == CandidateScale(r, f))
      && (CandidateScale(r, f) <= 0.0 ==> Solve(r, f) == f)
  {
    hide Variance, Covariance, CandidateZero;
    SignOfSlope(Variance(f.q), Covariance(f.q, r));
  }

  lemma SignOfSlope(v: real, c: real)
    ensures v > 0.000000000001 ==> (c / v > 0.0 <==> c > 0.0)
  {
    if v > 0.000000000001 {
      var q := c / v;
      assert q * v == c;
      assert q > 0.0 ==> q * v > 0.0;
      assert q <= 0.0 ==> q * v <= 0.0;
    }
  }

  lemma {:induction false} SolvedBeats(r: seq<real>, f: Fit, s: real, z: real)
    requires |r| == |f.q| && r != []
    requires CandidateScale(r, f) > 0.0
    requires Variance(f.q) > VARIANCE_FLOOR || s == f.scale
    ensures FitError(r, Solve(r, f)) <= SquaredError(r, f.q, s, z)
  {
    hide Quadratic, Square, SquaredError, SumQ, SumQQ, SumR, SumRR, SumQR, CandidateScale;
    CandidateBeats(r, f, s);
    MeansError(r, f.q, CandidateScale(r, f), CandidateZero(r, f), s, z);
  }

  lemma {:induction false} MeansError(r: seq<real>, q: seq<int>, t: real, w: real, s: real, z: real)
    requires |r| == |q| && r != []
    requires w == SumR(r) / (|r| as real) - t * (SumQ(q) / (|r| as real))
    requires var v, k := Variance(q), Covariance(q, r); t * t * v - 2.0 * (t * k) <= s * s * v - 2.0 * (s * k)
    ensures SquaredError(r, q, t, w) <= SquaredError(r, q, s, z)
  {
    hide Quadratic, Square, SquaredError, SumQ, SumQQ, SumR, SumRR, SumQR;
    var n := |r| as real;
    var m, a, p, c, b := SumQ(q) / n, SumQQ(q) / n, SumR(r) / n, SumRR(r) / n, SumQR(q, r) / n;
    MeansOptimal(m, a, p, c, b, t, w, s, z);
    ErrorIsQuadratic(r, q, s, z);
    ErrorIsQuadratic(r, q, t, w);
    QuadraticMeans(n, SumQ(q), SumQQ(q), SumR(r), SumRR(r), SumQR(q, r), s, z);
    QuadraticMeans(n, SumQ(q), SumQQ(q), SumR(r), SumRR(r), SumQR(q, r), t, w);
    Monotone(n, Quadratic(1.0, m, a, p, c, b, t, w), Quadratic(1.0, m, a, p, c, b, s, z));
  }

  lemma MeansOptimal(m: real, a: real, p: real, c: real, b: real, t: real, w: real, s: real, z: real)
    requires w == p - t * m
    requires var v, k := a - m * m, b - m * p; t * t * v - 2.0 * (t * k) <= s * s * v - 2.0 * (s * k)
    ensures Quadratic(1.0, m, a, p, c, b, t, w) <= Quadratic(1.0, m, a, p, c, b, s, z)
  {
    hide Quadratic;
    CompletedSquare(m, a, p, c, b, s, z);
    CompletedSquare(m, a, p, c, b, t, w);
    assert w + t * m - p == 0.0;
  }

  lemma Monotone(n: real, x: real, y: real)
    requires n >= 0.0 && x <= y
    ensures n * x <= n * y
  {
  }

  // ---- (b) requantise with scale and zero fixed ----

  function Clip(x: int): (c: int)
    ensures IsCode(c)
  {
    if x < 0 then 0 else if x > 15 then 15 else x
  }

  /** Where r falls on the code axis. */
  function Position(r: real, zero: real, inv: real): real {
    (r - zero) * inv
  }

  /** clip(floor(t + 0.5), 0, 15) */
  function Code(t: real): (c: int)
    ensures IsCode(c)
  {
    Clip((t + 0.5).Floor)
  }

  function Codes(r: seq<real>, zero: real, inv: real): (q: seq<int>)
    ensures |q| == |r| && IsCodes(q)
  {
    if r == [] then [] else [Code(Position(r[0], zero, inv))] + Codes(r[1..], zero, inv)
  }

  function InverseScale(scale: real): real {
    if scale > 0.0 then 1.0 / scale else 0.0
  }

  lemma CodeNearestPosition(t: real, c: int)
    requires IsCode(c)
    ensures Square((Code(t) as real) - t) <= Square((c as real) - t)
  {
    var x := (t + 0.5).Floor;
    var d, e := (Clip(x) as real) - t, (c as real) - t;
    assert -e <= d <= e || e <= d <= -e by {
      if c > x {
        assert c >= x + 1;
      } else if c < x {
        assert c <= x - 1;
      }
    }
    SquareOrder(d, e);
  }

  lemma SquareOrder(d: real, e: real)
    requires -e <= d <= e || e <= d <= -e
    ensures Square(d) <= Square(e)
  {
    var g := if e >= 0.0 then e else -e;
    assert (g - d) * (g + d) >= 0.0;
    assert (g - d) * (g + d) == g * g - d * d;
    assert g * g == e * e;
  }

  lemma ScaleCancels(scale: real, inv: real, d: real)
    requires scale * inv == 1.0
    ensures scale * (d * inv) == d
  {
    assert scale * (d * inv) == (scale * inv) * d;
  }

  /** The chosen code decodes to a value no 4-bit code improves on. */
  lemma CodeIsNearest(r: real, scale: real, zero: real, c: int)
    requires scale > 0.0 && IsCode(c)
    ensures Residual(scale, zero, Code(Position(r, zero, InverseScale(scale))), r) <= Residual(scale, zero, c, r)
  {
    var inv := InverseScale(scale);
    assert scale * inv == 1.0;
    var t := Position(r, zero, inv);
    ScaleCancels(scale, inv, r - zero);
    hide *;
    CodeNearestPosition(t, c);
    ScaledOrder(scale, Code(t), c, t, zero, r);
  }

  lemma ScaledOrder(scale: real, x: int, y: int, t: real, zero: real, r: real)
    requires scale * t == r - zero && Square((x as real) - t) <= Square((y as real) - t)
    ensures Residual(scale, zero, x, r) <= Residual(scale, zero, y, r)
  {
    hide *;
    ScaledSquare(scale, x, t, zero, r);
    ScaledSquare(scale, y, t, zero, r);
    var a, b := Square((x as real) - t), Square((y as real) - t);
    Monotone(scale * scale, a, b);
    assert Residual(scale, zero, x, r) == (scale * scale) * a;
    assert Residual(scale, zero, y, r) == (scale * scale) * b;
  }

  lemma ScaledSquare(scale: real, x: int, t: real, zero: real, r: real)
    requires scale * t == r - zero
    ensures Residual(scale, zero, x, r) == (scale * scale) * Square((x as real) - t)
  {
    var d := (x as real) - t;
    assert scale * (x as real) + zero - r == scale * d;
    assert (scale * d) * (scale * d) == (scale * scale) * (d * d);
  }

  lemma {:induction false} CodesAreOptimal(r: seq<real>, scale: real, zero: real, q: seq<int>)
    requires scale > 0.0 && |q| == |r| && IsCodes(q)
    ensures SquaredError(r, Codes(r, zero, InverseScale(scale)), scale, zero) <= SquaredError(r, q, scale, zero)
  {
    var inv := InverseScale(scale);
    if r != [] {
      var t := Codes(r, zero, inv);
      FirstCode(r, zero, inv);
      hide Code, Position, InverseScale, Residual, Codes, SquaredError, SumQ, SumQQ, SumR, SumRR, SumQR;
      CodesAreOptimal(r[1..], scale, zero, q[1..]);
      CodeIsNearest(r[0], scale, zero, q[0]);
      FirstTerms(r, q, scale, zero);
      FirstTerms(r, t, scale, zero);
    }
  }

  lemma {:induction false} FirstCode(r: seq<real>, zero: real, inv: real)
    requires r != []
    ensures Codes(r, zero, inv)[0] == Code(Position(r[0], zero, inv))
      && Codes(r, zero, inv)[1..] == Codes(r[1..], zero, inv)
  {
    hide Code, Position;
  }

  // ---- the alternating loop ----

  function Refit(r: seq<real>, f: Fit): (g: Fit)
    requires |r| == |f.q| && r != []
    ensures |g.q| == |r| && IsCodes(g.q) && (f.scale > 0.0 ==> g.scale > 0.0)
  {
    var s := Solve(r, f);
    s.(q := Codes(r, s.zero, InverseScale(s.scale)))
  }

  function Refits(r: seq<real>, f: Fit, n: nat): (g: Fit)
    requires |r| == |f.q| && r != []
    ensures |g.q| == |r|
    decreases n
  {
    if n == 0 then f else Refits(r, Refit(r, f), n - 1)
  }

  function Rounds(iters: int): (n: nat)
    ensures n >= 1
  {
    if iters < 1 then 1 else iters
  }

  /** One round of solving and requantising does not increase the squared error. */
  lemma {:induction false} RefitImproves(r: seq<real>, f: Fit)
    requires |r| == |f.q| && r != [] && f.scale > 0.0 && IsCodes(f.q)
    ensures FitError(r, Refit(r, f)) <= FitError(r, f)
    ensures Refit(r, f).scale > 0.0
  {
    hide CandidateScale, CandidateZero, SquaredError, Codes, InverseScale, Variance;
    if CandidateScale(r, f) > 0.0 {
      SolvedBeats(r, f, f.scale, f.zero);
    }
    var s := Solve(r, f);
    CodesAreOptimal(r, s.scale, s.zero, f.q);
  }

  lemma {:induction false} RefitsImprove(r: seq<real>, f: Fit, n: nat)
    requires |r| == |f.q| && r != [] && f.scale > 0.0 && IsCodes(f.q)
    ensures FitError(r, Refits(r, f, n)) <= FitError(r, f)
    ensures Refits(r, f, n).scale > 0.0 && IsCodes(Refits(r, f, n).q)
    decreases n
  {
    if n > 0 {
      hide Refit, FitError, IsCodes;
      RefitImproves(r, f);
      RefitsImprove(r, Refit(r, f), n - 1);
    }
  }

  /** The rounds in the order they run: no round keeps the fit, and one more solves and requantises. */
  lemma {:induction false} RefitsRounds(r: seq<real>, f: Fit, n: nat)
    requires |r| == |f.q| && r != []
    ensures Refits(r, f, 0) == f
    ensures var g := Refits(r, f, n); var s := Solve(r, g);
      Refits(r, f, n + 1) == Fit(Codes(r, s.zero, if s.scale > 0.0 then 1.0 / s.scale else 0.0), s.scale, s.zero)
    decreases n
  {
    hide Solve, Codes;
    if n > 0 {
      RefitsRounds(r, Refit(r, f), n - 1);
    }
  }

  method AffineLsRefit(r: seq<real>, q: seq<int>, scale: real, zero: real, iters: int) returns (best: Fit)
    requires |r| == |q| && r != []
    ensures best == Refits(r, Fit(q, scale, zero), if iters < 1 then 1 else iters) && IsCodes(best.q)
    ensures scale > 0.0 && IsCodes(q) ==>
      best.scale > 0.0 && FitError(r, best) <= SquaredError(r, q, scale, zero)
  {
    hide Refit, SquaredError, IsCodes;
    best := Fit(q, scale, zero);
    var n := if iters < 1 then 1 else iters;
    for i := 0 to n
      invariant |best.q| == |r| && (i > 0 ==> IsCodes(best.q))
      invariant Refits(r, best, n - i) == Refits(r, Fit(q, scale, zero), n)
    {
      best := Refit(r, best);
    }
    if scale > 0.0 && IsCodes(q) {
      RefitsImprove(r, Fit(q, scale, zero), n);
    }
  }

  // ---- whole blocks, rows and matrices ----

  function Least(r: seq<real>): (m: real)
    requires r != []
    ensures m in r && forall i :: 0 <= i < |r| ==> m <= r[i]
  {
    if |r| == 1 then r[0] else
      var m := Least(r[1..]);
      if r[0] <= m then r[0] else m
  }

  function Greatest(r: seq<real>): (m: real)
    requires r != []
    ensures m in r && forall i :: 0 <= i < |r| ==> r[i] <= m
  {
    if |r| == 1 then r[0] else
      var m := Greatest(r[1..]);
      if r[0] >= m then r[0] else m
  }

  /** The min/max fit; a constant block gets scale 1 and all-zero codes. */
  function MinMaxFit(r: seq<real>): (f: Fit)
    requires r != []
    ensures |f.q| == |r| && IsCodes(f.q) && f.scale > 0.0
  {
    var lo := Least(r);
    var range := Greatest(r) - lo;
    var scale := if range > 0.0 then range / 15.0 else 1.0;
    Fit(Codes(r, lo, if range > 0.0 then 1.0 / scale else 0.0), scale, lo)
  }

  function FitBlock(r: seq<real>, mode: Mode): (f: Fit)
    requires r != []
    ensures |f.q| == |r|
  {
    match mode
    case MinMax => MinMaxFit(r)
    case LeastSquares(iters) => Refits(r, MinMaxFit(r), Rounds(iters))
  }

  function Decode(q: seq<int>, scale: real, zero: real): (r: seq<real>)
    ensures |r| == |q|
  {
    if q == [] then [] else [(q[0] as real) * scale + zero] + Decode(q[1..], scale, zero)
  }

  /** Rotate, quantise, decode, rotate back. */
  ghost function Reconstruct(x: seq<real>, mode: Mode): (y: seq<real>)
    requires |x| == 256
    ensures |y| == 256
  {
    var f := FitBlock(Forward(x), mode);
    Inverse(Decode(f.q, f.scale, f.zero))
  }

  lemma {:induction false} DecodeDistance(r: seq<real>, q: seq<int>, scale: real, zero: real)
    requires |r| == |q|
    ensures Distance(Decode(q, scale, zero), r) == SquaredError(r, q, scale, zero)
  {
    if r != [] {
      hide *;
      DecodeDistance(r[1..], q[1..], scale, zero);
      FirstTerms(r, q, scale, zero);
      DecodeFirst(r, q, scale, zero);
    } else {
      assert Sub(Decode(q, scale, zero), r) == [];
    }
  }

  lemma {:induction false} DecodeFirst(r: seq<real>, q: seq<int>, scale: real, zero: real)
    requires |r| == |q| && r != []
    ensures Distance(Decode(q, scale, zero), r)
         == Residual(scale, zero, q[0], r[0]) + Distance(Decode(q[1..], scale, zero), r[1..])
  {
    var d := Decode(q, scale, zero);
    assert d[0] == scale * (q[0] as real) + zero && d[1..] == Decode(q[1..], scale, zero);
    hide Decode;
    assert Sub(d, r)[0] == d[0] - r[0] && Sub(d, r)[1..] == Sub(d[1..], r[1..]);
  }

  // ---- how close the min/max fit is ----

  lemma CodeWithin(t: real)
    requires 0.0 <= t <= 15.0
    ensures Abs((Code(t) as real) - t) <= 0.5
    ensures (t == 0.0 ==> Code(t) == 0) && (t == 15.0 ==> Code(t) == 15)
  {
  }

  lemma {:induction false} CodesAt(r: seq<real>, zero: real, inv: real, i: nat)
    requires i < |r|
    ensures Codes(r, zero, inv)[i] == Code(Position(r[i], zero, inv))
  {
    if i > 0 {
      hide Code, Position;
      CodesAt(r[1..], zero, inv, i - 1);
    }
  }

  lemma {:induction false} DecodeAt(q: seq<int>, scale: real, zero: real, i: nat)
    requires i < |q|
    ensures Decode(q, scale, zero)[i] == (q[i] as real) * scale + zero
  {
    if i > 0 {
      DecodeAt(q[1..], scale, zero, i - 1);
    }
  }

  /** A value between lo and lo + range, on the code axis of a fifteenth of the range and back. */
  lemma {:induction false} StepError(x: real, lo: real, range: real)
    requires range > 0.0 && 0.0 <= x - lo <= range
    ensures var s := range / 15.0; var c := Code(Position(x, lo, 1.0 / s));
      && Abs((c as real) * s + lo - x) <= range / 30.0
      && (x == lo ==> c == 0) && (x - lo == range ==> c == 15)
  {
    var s := range / 15.0;
    var inv := 1.0 / s;
    var t := Position(x, lo, inv);
    assert s * inv == 1.0;
    assert t * s == x - lo by { ScaleCancels(s, inv, x - lo); }
    NotBelow(t, s);
    Below(t, s, range);
    Reaches(t, s, range);
    var c := Code(t);
    CodeWithin(t);
    hide *;
    ScaledWithin((c as real) - t, s);
    Spread(c as real, t, s);
  }

  lemma NotBelow(t: real, s: real)
    requires s > 0.0 && t * s >= 0.0
    ensures t >= 0.0 && (t * s == 0.0 ==> t == 0.0)
  {
  }

  lemma Spread(a: real, b: real, s: real)
    ensures (a - b) * s == a * s - b * s
  {
  }

  lemma Below(t: real, s: real, range: real)
    requires s > 0.0 && 15.0 * s == range && t * s <= range
    ensures t <= 15.0
  {
    assert (t - 15.0) * s <= 0.0;
  }

  lemma Reaches(t: real, s: real, range: real)
    requires s > 0.0 && 15.0 * s == range
    ensures t * s == range ==> t == 15.0
  {
    assert (t - 15.0) * s == t * s - range;
  }

  lemma ScaledWithin(d: real, s: real)
    requires Abs(d) <= 0.5 && s > 0.0
    ensures Abs(d * s) <= s / 2.0
  {
    assert d * s <= 0.5 * s && -0.5 * s <= d * s;
  }

  lemma {:induction false} FitParts(r: seq<real>, i: nat)
    requires i < |r|
    ensures var f, lo, range := FitBlock(r, MinMax), Least(r), Greatest(r) - Least(r);
      && f.zero == lo && 0.0 <= r[i] - lo <= range
      && (range > 0.0 ==> f.scale == range / 15.0 && f.q[i] == Code(Position(r[i], lo, 1.0 / (range / 15.0))))
      && (range <= 0.0 ==> f.q[i] == Code(Position(r[i], lo, 0.0)))
  {
    hide Least, Greatest, Codes, Code, Position;
    var lo, range := Least(r), Greatest(r) - Least(r);
    CodesAt(r, lo, if range > 0.0 then 1.0 / (range / 15.0) else 0.0, i);
  }

  lemma ZeroCode(x: real, lo: real, scale: real)
    ensures Code(Position(x, lo, 0.0)) == 0 && (0 as real) * scale + lo == lo
  {
  }

  lemma EndCode(lo: real, range: real)
    ensures (0 as real) * (range / 15.0) + lo == lo && (15 as real) * (range / 15.0) + lo == lo + range
  {
  }

  /** A block of equal values gets scale 1, its value as zero point and all-zero codes. */
  lemma {:induction false} ConstantBlock(r: seq<real>, i: nat)
    requires i < |r| && forall j :: 0 <= j < |r| ==> r[j] == r[0]
    ensures var f := MinMaxFit(r); f.scale == 1.0 && f.zero == r[0] && f.q[i] == 0
  {
    hide Codes;
    CodesAt(r, Least(r), 0.0, i);
  }

  /** The rounds a least-squares fit makes from the min/max fit: as many as asked for, but at least one. */
  lemma FitRounds(r: seq<real>, iters: int)
    requires r != []
    ensures FitBlock(r, LeastSquares(iters)) == Refits(r, MinMaxFit(r), if iters < 1 then 1 else iters)
  {
    hide Refits, MinMaxFit;
  }

  /** Every value decodes to within a thirtieth of the block's range of itself, the least and the greatest
      exactly. */
  lemma {:induction false} MinMaxError(r: seq<real>, i: nat)
    requires i < |r|
    ensures var f := FitBlock(r, MinMax);
      var d := Decode(f.q, f.scale, f.zero)[i];
      && Abs(d - r[i]) <= (Greatest(r) - Least(r)) / 30.0
      && (r[i] == Least(r) || r[i] == Greatest(r) ==> d == r[i])
  {
    hide Least, Greatest, Decode, FitBlock, Code, Position;
    var f, lo, range := FitBlock(r, MinMax), Least(r), Greatest(r) - Least(r);
    FitParts(r, i);
    DecodeAt(f.q, f.scale, f.zero, i);
    if range > 0.0 {
      StepError(r[i], lo, range);
      EndCode(lo, range);
    } else {
      ZeroCode(r[i], lo, f.scale);
    }
  }

  ghost predicate AllClose(a: seq<real>, b: seq<real>, e: real) {
    |a| == |b| && forall i :: 0 <= i < |a| ==> Abs(a[i] - b[i]) <= e
  }

  lemma {:induction false} DistanceBound(a: seq<real>, b: seq<real>, e: real)
    requires AllClose(a, b, e) && e >= 0.0
    ensures |a| == |b| && Distance(a, b) <= (|a| as real) * Square(e)
  {
    if a == [] {
      assert Sub(a, b) == [];
    } else {
      hide *;
      FirstClose(a, b, e);
      FirstDistance(a, b);
      DistanceBound(a[1..], b[1..], e);
      OneMore(|a[1..]|, |a|, Square(e));
    }
  }

  lemma FirstClose(a: seq<real>, b: seq<real>, e: real)
    requires AllClose(a, b, e) && e >= 0.0 && a != []
    ensures |a| == |b| && AllClose(a[1..], b[1..], e) && Square(a[0] - b[0]) <= Square(e)
  {
    hide Square;
    SquareOrder(a[0] - b[0], e);
  }

  lemma {:induction false} FirstDistance(a: seq<real>, b: seq<real>)
    requires |a| == |b| && a != []
    ensures Distance(a, b) == Square(a[0] - b[0]) + Distance(a[1..], b[1..])
  {
    assert Sub(a, b)[0] == a[0] - b[0] && Sub(a, b)[1..] == Sub(a[1..], b[1..]);
  }

  lemma OneMore(n: nat, m: nat, x: real)
    requires m == n + 1
    ensures (m as real) * x == (n as real) * x + x
  {
    assert m as real == (n as real) + 1.0;
  }

  /** The min/max reconstruction of a block, rotation and all: each of its 256 rotated values is off by at
      most a thirtieth of their range. */
  lemma {:induction false} MinMaxDistance(x: seq<real>)
    requires |x| == 256
    ensures var r := Forward(x);
      Distance(Reconstruct(x, MinMax), x) <= 256.0 * Square((Greatest(r) - Least(r)) / 30.0)
  {
    hide Forward, Inverse, FitBlock, Decode, Distance, Least, Greatest, Square, Abs;
    var r := Forward(x);
    var f, e := FitBlock(r, MinMax), (Greatest(r) - Least(r)) / 30.0;
    var d := Decode(f.q, f.scale, f.zero);
    forall i | 0 <= i < |r|
      ensures Abs(d[i] - r[i]) <= e
    {
      MinMaxError(r, i);
    }
    assert AllClose(d, r, e);
    assert Least(r) <= r[0] <= Greatest(r);
    DistanceBound(d, r, e);
    ForwardInverse(x, d);
  }

  /** At least one round runs: the least-squares fit is no worse than any scale and zero for the min/max
      codes, where the codes vary and the covariance is positive. */
  lemma {:induction false} LeastSquaresFits(r: seq<real>, iters: int, s: real, z: real)
    requires r != []
    requires var q, n := MinMaxFit(r).q, |r| as real;
      && SumQQ(q) / n - (SumQ(q) / n) * (SumQ(q) / n) > 0.000000000001
      && SumQR(q, r) / n - (SumQ(q) / n) * (SumR(r) / n) > 0.0
    ensures FitError(r, FitBlock(r, LeastSquares(iters))) <= SquaredError(r, MinMaxFit(r).q, s, z)
  {
    hide SquaredError, Codes, Solve, MinMaxFit, SumQ, SumQQ, SumR, SumQR, Refits, IsCodes;
    var f := MinMaxFit(r);
    SolveIsOptimal(r, f, s, z);
    FirstRound(r, f, Rounds(iters));
  }

  lemma {:induction false} FirstRound(r: seq<real>, f: Fit, n: nat)
    requires |r| == |f.q| && r != [] && f.scale > 0.0 && IsCodes(f.q) && n >= 1
    ensures FitError(r, Refits(r, f, n)) <= FitError(r, Solve(r, f))
  {
    hide SquaredError, Codes, Solve, IsCodes, InverseScale;
    var g := Solve(r, f);
    CodesAreOptimal(r, g.scale, g.zero, f.q);
    RefitsImprove(r, Refit(r, f), n - 1);
  }

  /** For every block the least-squares reconstruction is at least as close to the original
      values, after the inverse rotation, as the min/max one. */
  lemma {:induction false} BlockNeverWorse(x: seq<real>, iters: int)
    requires |x| == 256
    ensures Distance(Reconstruct(x, LeastSquares(iters)), x) <= Distance(Reconstruct(x, MinMax), x)
  {
    var r := Forward(x);
    var f, g := FitBlock(r, MinMax), FitBlock(r, LeastSquares(iters));
    assert g == Refits(r, f, Rounds(iters));
    hide Forward, Inverse, Refits, MinMaxFit, Decode, Distance, SquaredError;
    RefitsImprove(r, f, Rounds(iters));
    DecodeDistance(r, f.q, f.scale, f.zero);
    DecodeDistance(r, g.q, g.scale, g.zero);
    ForwardInverse(x, Decode(f.q, f.scale, f.zero));
    ForwardInverse(x, Decode(g.q, g.scale, g.zero));
  }

  /** A row of K values, K a multiple of 256, block by block. */
  ghost function ReconstructRow(row: seq<real>, mode: Mode): (y: seq<real>)
    requires Multiple(|row|, 256)
    ensures |y| == |row|
    decreases |row|
  {
    if row == [] then [] else Reconstruct(row[..256], mode) + ReconstructRow(row[256..], mode)
  }

  lemma {:induction false} DistanceConcat(a: seq<real>, b: seq<real>, c: seq<real>, d: seq<real>)
    requires |a| == |c| && |b| == |d|
    ensures Distance(a + b, c + d) == Distance(a, c) + Distance(b, d)
  {
    hide Energy, Sub;
    AddConcat(a, b, c, d);
    EnergyConcat(Sub(a, c), Sub(b, d));
  }

  lemma {:induction false} RowNeverWorse(row: seq<real>, iters: int)
    requires Multiple(|row|, 256)
    ensures Distance(ReconstructRow(row, LeastSquares(iters)), row) <= Distance(ReconstructRow(row, MinMax), row)
    decreases |row|
  {
    hide Reconstruct, Distance;
    if row != [] {
      var a, b := row[..256], row[256..];
      assert row == a + b;
      BlockNeverWorse(a, iters);
      RowNeverWorse(b, iters);
      DistanceConcat(Reconstruct(a, MinMax), ReconstructRow(b, MinMax), a, b);
      DistanceConcat(Reconstruct(a, LeastSquares(iters)), ReconstructRow(b, LeastSquares(iters)), a, b);
    }
  }

  function AbsRow(row: seq<real>): (a: seq<real>)
    ensures |a| == |row|
  {
    seq(|row|, i requires 0 <= i < |row| => Abs(row[i]))
  }

  function Clamp(x: real, t: real): real {
    if x < -t then -t else if x > t then t else x
  }

  /** Clip to a share of the row's largest magnitude; a ratio of 1 or more copies the row. */
  function ClipRow(row: seq<real>, ratio: real): (c: seq<real>)
    requires row != [] || ratio >= 1.0
    ensures |c| == |row| && (ratio >= 1.0 ==> c == row)
  {
    if ratio >= 1.0 then row else ClampRow(row, Threshold(row, ratio))
  }

  function Threshold(row: seq<real>, ratio: real): (t: real)
    requires row != []
  {
    Greatest(AbsRow(row)) * ratio
  }

  function ClampRow(row: seq<real>, t: real): (c: seq<real>)
    ensures |c| == |row| && forall i :: 0 <= i < |row| ==> c[i] == Clamp(row[i], t)
  {
    seq(|row|, i requires 0 <= i < |row| => Clamp(row[i], t))
  }

  /** The threshold is the share of the row's largest magnitude. */
  lemma {:induction false} ThresholdIs(row: seq<real>, ratio: real) returns (j: nat)
    requires row != [] && ratio > 0.0
    ensures j < |row| && (forall k :: 0 <= k < |row| ==> Abs(row[k]) <= Abs(row[j]))
    ensures Threshold(row, ratio) == Abs(row[j]) * ratio >= 0.0
  {
    hide *;
    j := LargestMagnitude(row);
    ThresholdShare(row, ratio, Abs(row[j]));
  }

  lemma ThresholdShare(row: seq<real>, ratio: real, g: real)
    requires row != [] && ratio > 0.0 && g == Greatest(AbsRow(row)) >= 0.0
    ensures Threshold(row, ratio) == g * ratio >= 0.0
  {
    hide Greatest, AbsRow;
  }

  /** A clipped row keeps every value within the threshold and moves the others to its nearer end. */
  lemma {:induction false} ClipExactly(row: seq<real>, ratio: real, i: nat)
    requires i < |row| && 0.0 < ratio < 1.0
    ensures var t, c := Threshold(row, ratio), ClipRow(row, ratio)[i];
      && Abs(c) <= t && (Abs(row[i]) <= t ==> c == row[i])
      && (row[i] > t ==> c == t) && (row[i] < -t ==> c == -t)
  {
    hide Clamp, Threshold, Abs;
    var j := ThresholdIs(row, ratio);
    ClampExactly(row[i], Threshold(row, ratio));
  }

  lemma {:induction false} LargestMagnitude(row: seq<real>) returns (j: nat)
    requires row != []
    ensures j < |row| && (forall k :: 0 <= k < |row| ==> Abs(row[k]) <= Abs(row[j]))
    ensures Abs(row[j]) == Greatest(AbsRow(row)) >= 0.0
  {
    hide Greatest, Abs;
    var a := AbsRow(row);
    j :| j < |a| && a[j] == Greatest(a);
    forall k | 0 <= k < |row|
      ensures Abs(row[k]) <= Abs(row[j])
    {
      assert a[k] == Abs(row[k]) && a[k] <= Greatest(a);
    }
  }

  lemma ClampExactly(x: real, t: real)
    requires t >= 0.0
    ensures var c := Clamp(x, t);
      && Abs(c) <= t && (Abs(x) <= t ==> c == x) && (x > t ==> c == t) && (x < -t ==> c == -t)
  {
  }

  ghost predicate IsMatrix(rows: seq<seq<real>>, k: nat) {
    forall i :: 0 <= i < |rows| ==> |rows[i]| == k
  }

  ghost function ReconstructRows(rows: seq<seq<real>>, k: nat, mode: Mode): (y: seq<seq<real>>)
    requires IsMatrix(rows, k) && Multiple(k, 256)
    ensures |y| == |rows| && IsMatrix(y, k)
  {
    if rows == [] then []
    else
      var first, rest := ReconstructRow(rows[0], mode), ReconstructRows(rows[1..], k, mode);
      MatrixFrom(first, rest, k);
      [first] + rest
  }

  lemma MatrixFrom(first: seq<real>, rest: seq<seq<real>>, k: nat)
    requires |first| == k && IsMatrix(rest, k)
    ensures IsMatrix([first] + rest, k)
  {
  }

  function ClipRows(rows: seq<seq<real>>, ratio: real): (c: seq<seq<real>>)
    requires ratio >= 1.0 || forall i :: 0 <= i < |rows| ==> rows[i] != []
    ensures |c| == |rows| && (forall i :: 0 <= i < |rows| ==> |c[i]| == |rows[i]|)
    ensures ratio >= 1.0 ==> c == rows
  {
    if rows == [] then [] else [ClipRow(rows[0], ratio)] + ClipRows(rows[1..], ratio)
  }

  /** Dequantised weights of an m-by-k matrix; None where the code raises. */
  ghost function Dequantize(rows: seq<seq<real>>, k: nat, ratio: real, mode: Mode): (y: Option<seq<seq<real>>>)
    requires IsMatrix(rows, k)
  {
    if !Multiple(k, 256) || ratio <= 0.0 || (k == 0 && rows != [] && ratio < 1.0) then None
    else Some(ReconstructRows(ClipRows(rows, ratio), k, mode))
  }

  ghost function MatrixDistance(a: seq<seq<real>>, b: seq<seq<real>>, k: nat): (e: real)
    requires |a| == |b| && IsMatrix(a, k) && IsMatrix(b, k)
  {
    if a == [] then 0.0 else Distance(a[0], b[0]) + MatrixDistance(a[1..], b[1..], k)
  }

  lemma {:induction false} RowsNeverWorse(rows: seq<seq<real>>, k: nat, iters: int)
    requires IsMatrix(rows, k) && Multiple(k, 256)
    ensures MatrixDistance(ReconstructRows(rows, k, LeastSquares(iters)), rows, k)
         <= MatrixDistance(ReconstructRows(rows, k, MinMax), rows, k)
  {
    if rows != [] {
      hide ReconstructRow, Distance, Multiple;
      RowNeverWorse(rows[0], iters);
      RowsNeverWorse(rows[1..], k, iters);
    }
  }

  /** End to end: for every matrix, every accepted clip ratio and every iteration count, the
      least-squares fit reconstructs the clipped matrix at least as closely as min/max does, and
      with a ratio of 1 or more the clipped matrix is the input itself. */
  lemma {:induction false} LeastSquaresNeverLoses(rows: seq<seq<real>>, k: nat, ratio: real, iters: int)
    requires IsMatrix(rows, k)
    ensures Dequantize(rows, k, ratio, LeastSquares(iters)).Some? <==> Dequantize(rows, k, ratio, MinMax).Some?
    ensures Dequantize(rows, k, ratio, MinMax).Some? ==>
      var clipped := ClipRows(rows, ratio);
      && (ratio >= 1.0 ==> clipped == rows)
      && MatrixDistance(Dequantize(rows, k, ratio, LeastSquares(iters)).value, clipped, k)
         <= MatrixDistance(Dequantize(rows, k, ratio, MinMax).value, clipped, k)
  {
    if Dequantize(rows, k, ratio, MinMax).Some? {
      hide ReconstructRows, MatrixDistance, ClipRows, Multiple;
      RowsNeverWorse(ClipRows(rows, ratio), k, iters);
    }
  }

  // ---- which matrices are accepted, and what becomes of each block ----

  lemma {:induction false} MultipleIs(n: nat)
    ensures Multiple(n, 256) <==> n % 256 == 0
    decreases n
  {
    if n >= 256 {
      MultipleIs(n - 256);
    }
  }

  /** The code raises exactly on a width that is no multiple of 256, a ratio that is not positive, and rows of
      width 0 that a ratio below 1 would have to find the maximum of. */
  lemma {:induction false} AcceptedExactly(rows: seq<seq<real>>, k: nat, ratio: real, mode: Mode)
    requires IsMatrix(rows, k)
    ensures Dequantize(rows, k, ratio, mode).Some? <==>
      k % 256 == 0 && ratio > 0.0 && (k > 0 || rows == [] || ratio >= 1.0)
  {
    MultipleIs(k);
    hide Multiple;
  }

  lemma {:induction false} ClipRowsAt(rows: seq<seq<real>>, ratio: real, i: nat)
    requires (ratio >= 1.0 || forall j :: 0 <= j < |rows| ==> rows[j] != []) && i < |rows|
    ensures ClipRows(rows, ratio)[i] == ClipRow(rows[i], ratio)
    decreases |rows|
  {
    hide ClipRow;
    if i > 0 {
      ClipRowsAt(rows[1..], ratio, i - 1);
    }
  }

  lemma {:induction false} ReconstructRowsAt(rows: seq<seq<real>>, k: nat, mode: Mode, i: nat)
    requires IsMatrix(rows, k) && Multiple(k, 256) && i < |rows|
    ensures ReconstructRows(rows, k, mode)[i] == ReconstructRow(rows[i], mode)
    decreases |rows|
  {
    hide ReconstructRow, Multiple;
    if i > 0 {
      ReconstructRowsAt(rows[1..], k, mode, i - 1);
    }
  }

  lemma {:induction false} ReconstructRowAt(row: seq<real>, mode: Mode, b: nat)
    requires Multiple(|row|, 256) && 256 * b + 256 <= |row|
    ensures ReconstructRow(row, mode)[256 * b..256 * b + 256] == Reconstruct(row[256 * b..256 * b + 256], mode)
    decreases b
  {
    hide Reconstruct;
    var first, rest := Reconstruct(row[..256], mode), ReconstructRow(row[256..], mode);
    assert ReconstructRow(row, mode) == first + rest;
    if b > 0 {
      ReconstructRowAt(row[256..], mode, b - 1);
      var c := b - 1;
      assert row[256..][256 * c..256 * c + 256] == row[256 * b..256 * b + 256];
      assert (first + rest)[256 * b..256 * b + 256] == rest[256 * c..256 * c + 256];
    } else {
      assert row[256 * b..256 * b + 256] == row[..256];
      assert (first + rest)[..256] == first;
    }
  }

  /** Block b of row i of the result is that block of the clipped row, fitted and rotated back on its own. */
  lemma {:induction false} DequantizedBlock(rows: seq<seq<real>>, k: nat, ratio: real, mode: Mode, i: nat, b: nat)
    requires IsMatrix(rows, k) && Dequantize(rows, k, ratio, mode).Some? && i < |rows| && 256 * b + 256 <= k
    ensures Dequantize(rows, k, ratio, mode).value[i][256 * b..256 * b + 256]
         == Reconstruct(ClipRow(rows[i], ratio)[256 * b..256 * b + 256], mode)
  {
    hide Multiple, ClipRow, Reconstruct, ReconstructRow, ReconstructRows, ClipRows;
    ClipRowsAt(rows, ratio, i);
    ReconstructRowsAt(ClipRows(rows, ratio), k, mode, i);
    ReconstructRowAt(ClipRow(rows[i], ratio), mode, b);
  }
}
