/** The HFP4G32 row encoder of scripts/astrea.py (quantize_hfp4g32_row) over exact reals: one row
    scale, a power-of-two exponent per block of 32, and an E2M1 code per value. */
module Hfp4 {
  import opened Arithmetic
  import opened E2m1

  function Max(x: real, y: real): (r: real)
    ensures r >= x && r >= y && (r == x || r == y)
  {
    if x >= y then x else y
  }

  /** The largest magnitude, 0 of no values. */
  function MaxAbs(row: seq<real>): (r: real)
    ensures r >= 0.0
  {
    if row == [] then 0.0 else Max(MaxAbs(row[..|row| - 1]), Abs(row[|row| - 1]))
  }

  lemma {:induction false} MaxAbsBounds(row: seq<real>, i: nat)
    requires i < |row|
    ensures Abs(row[i]) <= MaxAbs(row)
  {
    if i < |row| - 1 {
      MaxAbsBounds(row[..|row| - 1], i);
    }
  }

  lemma {:induction false} MaxAbsLeast(row: seq<real>, bound: real)
    requires bound >= 0.0 && forall i :: 0 <= i < |row| ==> Abs(row[i]) <= bound
    ensures MaxAbs(row) <= bound
  {
    if row != [] {
      MaxAbsLeast(row[..|row| - 1], bound);
    }
  }

  /** Products, reciprocals: named so that proofs can treat them as given. */
  function Mul(x: real, y: real): real {
    x * y
  }

  function Inv(x: real): real
    requires x > 0.0
  {
    1.0 / x
  }

  function RowScale(row: seq<real>): (s: real)
    ensures s > 0.0
  {
    var m := MaxAbs(row);
    if m > 0.0 then m / 6.0 else 1.0
  }

  /** The reciprocal of RowScale, but 0 for a row of zeros. */
  function InvRow(row: seq<real>): real {
    if MaxAbs(row) > 0.0 then Inv(RowScale(row)) else 0.0
  }

  function Clamp(e: int): nat {
    if e < 0 then 0 else if e > 254 then 254 else e
  }

  /** The exponent byte for a block whose largest normalised magnitude is m. */
  function BlockExp(m: real): (e: nat)
    ensures e <= 254
  {
    if m > 0.0 then Clamp(CeilLog2(m / 6.0) + 127) else 0
  }

  /** What an exponent byte stands for. */
  function BlockScale(e: nat): (r: real)
    ensures r > 0.0
  {
    Pow2(e - 127)
  }

  /** A value as the code table sees it. */
  function Scaled(x: real, inv: real, e: nat): real {
    Mul(Mul(x, inv), Inv(BlockScale(e)))
  }

  /** What a code stands for. */
  function Decoded(scale: real, e: nat, k: nat): real
    requires k < 16
  {
    Mul(Code(k), Mul(scale, BlockScale(e)))
  }

  // ---- products ----

  lemma MulMonotone(x: real, m: real, y: real)
    requires y >= 0.0 && Abs(x) <= m
    ensures Abs(Mul(x, y)) <= Mul(m, y)
  {
    MulOrder(x, m, y);
    MulOrder(-m, x, y);
    assert (-m) * y == -(m * y);
  }

  lemma MulOrder(a: real, b: real, y: real)
    requires y >= 0.0 && a <= b
    ensures a * y <= b * y
  {
    assert (b - a) * y >= 0.0;
  }

  lemma MulInverse(x: real, y: real)
    requires y > 0.0
    ensures Inv(y) > 0.0 && Mul(Mul(x, Inv(y)), y) == x && Mul(y, Inv(y)) == 1.0
  {
  }

  lemma Cancel(x: real, y: real, p: real)
    requires p > 0.0 && Mul(x, p) <= Mul(y, p)
    ensures x <= y
  {
  }

  lemma SixTimes(p: real)
    ensures Mul(6.0, p) == 6.0 * p && Mul(-6.0, p) == -6.0 * p && Mul(0.0, p) == 0.0 && Mul(1.0, p) == p
  {
  }

  lemma Regroup(c: real, s: real, u: real, p: real)
    ensures Mul(c - s, Mul(u, p)) == Mul(c, Mul(u, p)) - Mul(Mul(s, p), u)
  {
    assert s * (u * p) == (s * p) * u;
  }

  lemma Positive(x: real, y: real)
    requires x > 0.0 && y > 0.0
    ensures Mul(x, y) > 0.0
  {
  }

  /** |y| <= 6p gives |y / p| <= 6. */
  lemma {:induction false} DivideBound(y: real, p: real)
    requires p > 0.0 && Abs(y) <= 6.0 * p
    ensures Abs(Mul(y, Inv(p))) <= 6.0
  {
    MulInverse(y, p);
    SixTimes(p);
    hide Mul, Inv;
    var r := Mul(y, Inv(p));
    Cancel(r, 6.0, p);
    Cancel(-6.0, r, p);
  }

  // ---- the exponent fits the block ----

  /** For a normalised maximum of at most 6 the exponent's power of two covers m / 6, and never
      needs the upper clamp. */
  lemma {:induction false} ExpCovers(m: real)
    requires 0.0 <= m <= 6.0
    ensures m <= 6.0 * BlockScale(BlockExp(m)) && BlockExp(m) <= 127
  {
    if m > 0.0 {
      var q := m / 6.0;
      var e := CeilLog2(q);
      CeilLog2Brackets(q);
      if e > 0 {
        Pow2Monotone(0, e - 1);
      }
      assert e <= 0;
      Pow2Monotone(e, BlockExp(m) - 127);
    }
  }

  /** Unless it is clamped at 0 the exponent is the least that covers m / 6. */
  lemma {:induction false} ExpIsLeast(m: real, e: nat)
    requires 0.0 < m <= 6.0 && e < BlockExp(m)
    ensures 6.0 * BlockScale(e) < m
  {
    ExpCovers(m);
    CeilLog2Brackets(m / 6.0);
    Pow2Monotone(e - 127, BlockExp(m) - 128);
  }

  /** Nothing saturates: with a maximum m over the block, every scaled value is within magnitude 6. */
  lemma {:induction false} ScaledInRange(x: real, m: real, inv: real)
    requires inv >= 0.0 && Abs(x) <= m && 0.0 <= Mul(m, inv) <= 6.0
    ensures Abs(Scaled(x, inv, BlockExp(Mul(m, inv)))) <= 6.0
  {
    MulMonotone(x, m, inv);
    ExpCovers(Mul(m, inv));
    hide BlockExp, BlockScale, Mul, Inv;
    DivideBound(Mul(x, inv), BlockScale(BlockExp(Mul(m, inv))));
  }

  // ---- a code in the row's own units ----

  lemma {:induction false} ScaleBack(x: real, scale: real, p: real, c: real)
    requires scale > 0.0 && p > 0.0 && Abs(c - Mul(Mul(x, Inv(scale)), Inv(p))) <= 1.0
    ensures Abs(Mul(c, Mul(scale, p)) - x) <= Mul(scale, p)
  {
    var s := Mul(Mul(x, Inv(scale)), Inv(p));
    MulInverse(x, scale);
    MulInverse(Mul(x, Inv(scale)), p);
    Regroup(c, s, scale, p);
    Positive(scale, p);
    SixTimes(Mul(scale, p));
    hide Mul, Inv;
    MulMonotone(c - s, 1.0, Mul(scale, p));
  }

  lemma {:induction false} BlockInRow(row: seq<real>, block: seq<real>)
    requires forall j :: 0 <= j < |block| ==> block[j] in row
    ensures MaxAbs(block) <= MaxAbs(row)
  {
    forall j | 0 <= j < |block|
      ensures Abs(block[j]) <= MaxAbs(row)
    {
      var i :| 0 <= i < |row| && row[i] == block[j];
      MaxAbsBounds(row, i);
    }
    MaxAbsLeast(block, MaxAbs(row));
  }

  lemma {:induction false} BlockNormalised(row: seq<real>, block: seq<real>)
    requires forall j :: 0 <= j < |block| ==> block[j] in row
    ensures InvRow(row) >= 0.0 && 0.0 <= Mul(MaxAbs(block), InvRow(row)) <= 6.0
  {
    BlockInRow(row, block);
    if MaxAbs(row) > 0.0 {
      MulInverse(0.0, RowScale(row));
      hide Mul, Inv, MaxAbs;
      DivideBound(MaxAbs(block), RowScale(row));
      MulMonotone(MaxAbs(block), MaxAbs(block), InvRow(row));
    }
  }

  lemma {:induction false} NonzeroCode(x: real, scale: real, e: nat)
    requires scale > 0.0 && Abs(Scaled(x, Inv(scale), e)) <= 6.0
    ensures Abs(Decoded(scale, e, ByThreshold(Scaled(x, Inv(scale), e))) - x) <= Mul(scale, BlockScale(e))
  {
    var v := Scaled(x, Inv(scale), e);
    InRangeError(v);
    hide ByThreshold, BlockScale, Code, Mul, Inv;
    ScaleBack(x, scale, BlockScale(e), Code(ByThreshold(v)));
  }

  lemma {:induction false} ZeroCode(scale: real, e: nat)
    requires scale > 0.0
    ensures Decoded(scale, e, ByThreshold(Scaled(0.0, 0.0, e))) == 0.0 && Mul(scale, BlockScale(e)) > 0.0
  {
    SixTimes(0.0);
    SixTimes(Inv(BlockScale(e)));
    SixTimes(Mul(scale, BlockScale(e)));
    Positive(scale, BlockScale(e));
    hide Mul, Inv, BlockScale;
  }

  lemma {:induction false} ZeroRow(row: seq<real>)
    requires MaxAbs(row) <= 0.0
    ensures forall i :: 0 <= i < |row| ==> row[i] == 0.0
  {
    forall i | 0 <= i < |row|
      ensures row[i] == 0.0
    {
      MaxAbsBounds(row, i);
    }
  }

  /** What a value's code stands for is within one block step of the value. */
  lemma {:induction false} CodeError(row: seq<real>, block: seq<real>, i: nat)
    requires i < |block| && forall j :: 0 <= j < |block| ==> block[j] in row
    ensures var inv, e := InvRow(row), BlockExp(Mul(MaxAbs(block), InvRow(row)));
      Abs(Decoded(RowScale(row), e, ByThreshold(Scaled(block[i], inv, e))) - block[i])
        <= Mul(RowScale(row), BlockScale(e))
  {
    hide MaxAbs, BlockExp, Scaled, Decoded, RowScale, ByThreshold, Mul, Inv, BlockScale, Abs;
    var m := MaxAbs(block);
    var e := BlockExp(Mul(m, InvRow(row)));
    MaxAbsBounds(block, i);
    BlockNormalised(row, block);
    ScaledInRange(block[i], m, InvRow(row));
    if MaxAbs(row) > 0.0 {
      NonzeroCode(block[i], RowScale(row), e);
    } else {
      assert block[i] in row;
      ZeroRow(row);
      ZeroCode(RowScale(row), e);
    }
  }

  // ---- the largest magnitude uses the whole range ----

  lemma {:induction false} FullExponent()
    ensures BlockExp(6.0) == 127 && BlockScale(127) == 1.0
  {
    CeilLog2Brackets(1.0);
    var e := CeilLog2(1.0);
    if e > 0 {
      Pow2Monotone(0, e - 1);
    }
    if e < 0 {
      Pow2Monotone(e + 1, 0);
    }
  }

  lemma {:induction false} MaxAbsAttained(row: seq<real>, i: nat)
    requires i < |row| && forall j :: 0 <= j < |row| ==> Abs(row[j]) <= Abs(row[i])
    ensures MaxAbs(row) == Abs(row[i])
  {
    MaxAbsBounds(row, i);
    MaxAbsLeast(row, Abs(row[i]));
  }

  lemma Signed(x: real, inv: real, m: real)
    requires Abs(x) == m
    ensures Mul(x, inv) == if x < 0.0 then -Mul(m, inv) else Mul(m, inv)
  {
  }

  lemma Sixth(m: real)
    requires m > 0.0
    ensures Mul(m, Inv(m / 6.0)) == 6.0
  {
    var y := m / 6.0;
    MulInverse(0.0, y);
    assert m == 6.0 * y;
  }

  /** The largest magnitude of a row is six row scales; its block has exponent byte 127, which stands for 1,
      and its code is that of 6 or of -6. */
  lemma {:induction false} LargestCode(row: seq<real>, block: seq<real>, i: nat)
    requires i < |block| && block[i] != 0.0 && forall j :: 0 <= j < |block| ==> block[j] in row
    requires forall x :: x in row ==> Abs(x) <= Abs(block[i])
    ensures 6.0 * RowScale(row) == Abs(block[i])
    ensures BlockExp(Mul(MaxAbs(block), InvRow(row))) == 127
    ensures ByThreshold(Scaled(block[i], InvRow(row), 127)) == if block[i] > 0.0 then 7 else 15
  {
    var x := block[i];
    assert x in row;
    var k :| 0 <= k < |row| && row[k] == x;
    forall j | 0 <= j < |block|
      ensures Abs(block[j]) <= Abs(x)
    {
      assert block[j] in row;
    }
    MaxAbsAttained(row, k);
    MaxAbsAttained(block, i);
    FullExponent();
    Sixth(Abs(x));
    Signed(x, InvRow(row), Abs(x));
    hide Mul, Inv, MaxAbs, BlockScale, BlockExp;
    TimesOne(Mul(x, InvRow(row)));
  }

  lemma TimesOne(v: real)
    ensures Mul(v, Inv(1.0)) == v
  {
  }
}
