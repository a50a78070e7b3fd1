/** The 4-bit E2M1 codes of scripts/astrea.py and the power-of-two block exponent, over exact reals. */
module E2m1 {
  import opened Wrappers
  import opened Arithmetic

  const TABLE: seq<real> := [0.0, 0.5, 1.0, 1.5, 2.0, 3.0, 4.0, 6.0, 0.0, -0.5, -1.0, -1.5, -2.0, -3.0, -4.0, -6.0]

  /** Code k of the table as a value; the two zeros are the same real. */
  function Code(k: nat): real
    requires k < 16
  {
    TABLE[k]
  }

  function Err(k: nat, v: real): real
    requires k < 16
  {
    Abs(Code(k) - v)
  }

  /** k is the first code of least error among the first n. */
  ghost predicate FirstNearest(k: nat, n: nat, v: real)
    requires n <= 16
  {
    && k < n
    && (forall i :: 0 <= i < n ==> Err(k, v) <= Err(i, v))
    && (forall i :: 0 <= i < k ==> Err(k, v) < Err(i, v))
  }

  lemma {:induction false} FirstNearestUnique(a: nat, b: nat, n: nat, v: real)
    requires n <= 16 && FirstNearest(a, n, v) && FirstNearest(b, n, v)
    ensures a == b
  {
    var ea, eb := Err(a, v), Err(b, v);
  }

  // ---- the two encoders ----

  /** e2m1_round_numpy on one value: thresholds on the magnitude. */
  function ByThreshold(v: real): (k: nat)
    ensures k < 16
  {
    var m := Abs(v);
    var idx: nat :=
      if m > 5.0 then 7 else if m > 3.5 then 6 else if m > 2.5 then 5 else if m > 1.75 then 4
      else if m > 1.25 then 3 else if m > 0.75 then 2 else if m > 0.25 then 1 else 0;
    if v < 0.0 && idx > 0 then idx + 8 else idx
  }

  /** All sixteen errors, written out. */
  lemma Codes()
    ensures Code(0) == 0.0 && Code(1) == 0.5 && Code(2) == 1.0 && Code(3) == 1.5
    ensures Code(4) == 2.0 && Code(5) == 3.0 && Code(6) == 4.0 && Code(7) == 6.0
    ensures Code(8) == 0.0 && Code(9) == -0.5 && Code(10) == -1.0 && Code(11) == -1.5
    ensures Code(12) == -2.0 && Code(13) == -3.0 && Code(14) == -4.0 && Code(15) == -6.0
  {
  }

  lemma {:induction false} ThresholdAgainst(v: real, i: nat)
    requires i < 16
    ensures Err(ByThreshold(v), v) <= Err(i, v)
    ensures i < ByThreshold(v) ==> Err(ByThreshold(v), v) < Err(i, v)
  {
    Codes();
    hide Code;
  }

  /** The thresholds pick the first nearest code, for every real. */
  lemma {:induction false} ThresholdIsNearest(v: real)
    ensures FirstNearest(ByThreshold(v), 16, v)
  {
    forall i | 0 <= i < 16
      ensures Err(ByThreshold(v), v) <= Err(i, v)
      ensures i < ByThreshold(v) ==> Err(ByThreshold(v), v) < Err(i, v)
    {
      ThresholdAgainst(v, i);
    }
    hide Err, ByThreshold;
  }

  /** e2m1_round: the scan keeps the first least error. */
  method Round(v: real) returns (best: nat)
    ensures best < 16 && FirstNearest(best, 16, v)
    ensures best == ByThreshold(v)
  {
    hide ByThreshold, Err;
    best := 0;
    var bestErr: Option<real> := None;
    for i := 0 to 16
      invariant i == 0 ==> bestErr.None?
      invariant i > 0 ==> FirstNearest(best, i, v) && bestErr == Some(Err(best, v))
      invariant best < 16
    {
      var err := Err(i, v);
      if bestErr.None? || err < bestErr.value {
        bestErr := Some(err);
        best := i;
      }
    }
    ThresholdIsNearest(v);
    FirstNearestUnique(best, ByThreshold(v), 16, v);
  }

  /** Inside magnitude 6 no value is further than 1 from its code: nothing saturates. */
  lemma {:induction false} InRangeError(v: real)
    requires Abs(v) <= 6.0
    ensures Err(ByThreshold(v), v) <= 1.0
  {
    Codes();
    hide Code;
  }

  // ---- the block exponent ----

  function Pow2(e: int): (r: real)
    ensures r > 0.0
    decreases if e < 0 then -e else e
  {
    if e == 0 then 1.0 else if e > 0 then 2.0 * Pow2(e - 1) else Pow2(e + 1) / 2.0
  }

  lemma {:induction false} Pow2Next(e: int)
    ensures Pow2(e + 1) == 2.0 * Pow2(e)
  {
  }

  lemma {:induction false} Pow2Monotone(a: int, b: int)
    requires a <= b
    ensures Pow2(a) <= Pow2(b)
    decreases b - a
  {
    if a < b {
      Pow2Monotone(a, b - 1);
      Pow2Next(b - 1);
    }
  }

  function Size(q: real): nat
    requires q > 0.0
  {
    if q > 1.0 then q.Floor else Flipped(q).Floor
  }

  function Flipped(q: real): (r: real)
    requires q > 0.0
    ensures r > 0.0
  {
    1.0 / q
  }

  lemma HalveSmaller(q: real)
    requires q > 1.0
    ensures q / 2.0 > 1.0 ==> Size(q / 2.0) < Size(q)
  {
  }

  lemma DoubleSmaller(q: real)
    requires 0.0 < q <= 0.5
    ensures Size(2.0 * q) < Size(q)
  {
    var r := Flipped(q);
    assert r >= 2.0 && Flipped(2.0 * q) == r / 2.0;
    hide Flipped;
  }

  /** ceil(log2(q)) over exact reals. */
  function CeilLog2(q: real): int
    requires q > 0.0
    decreases Size(q)
  {
    if q > 2.0 then HalveSmaller(q); CeilLog2(q / 2.0) + 1
    else if q > 1.0 then 1
    else if q <= 0.5 then DoubleSmaller(q); CeilLog2(2.0 * q) - 1
    else 0
  }

  /** The least power of two that is at least q. */
  lemma {:induction false} CeilLog2Brackets(q: real)
    requires q > 0.0
    ensures Pow2(CeilLog2(q) - 1) < q <= Pow2(CeilLog2(q))
    decreases Size(q)
  {
    var e := CeilLog2(q);
    if q > 2.0 {
      HalveSmaller(q);
      CeilLog2Brackets(q / 2.0);
      Pow2Next(e - 1);
      Pow2Next(e - 2);
    } else if q <= 0.5 {
      DoubleSmaller(q);
      CeilLog2Brackets(2.0 * q);
      Pow2Next(e);
      Pow2Next(e - 1);
    } else {
      assert Pow2(1) == 2.0 && Pow2(0) == 1.0 && Pow2(-1) == 0.5;
    }
  }

  /** It is the only such exponent. */
  lemma {:induction false} CeilLog2Unique(q: real, e: int)
    requires q > 0.0 && Pow2(e - 1) < q <= Pow2(e)
    ensures e == CeilLog2(q)
  {
    var f := CeilLog2(q);
    CeilLog2Brackets(q);
    if e < f {
      Pow2Monotone(e, f - 1);
    } else if f < e {
      Pow2Monotone(f, e - 1);
    }
  }
}
