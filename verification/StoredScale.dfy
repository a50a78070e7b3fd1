/** The row scale as an HFP4G32 header stores it: struct.pack("<f") rounds it to binary32, and
    f32_to_f16_bits (scripts/astrea.py) truncates that to binary16. Magnitudes are in units of 2^-149. */
module StoredScale {
  import opened Wrappers
  import opened Arithmetic
  import opened E2m1
  import B = Binary16

  /** The nearest integer, an even one of two. */
  function HalfEven(t: real): (n: nat)
    requires t >= 0.0
    ensures -0.5 <= (n as real) - t <= 0.5
  {
    var f := t.Floor;
    var d := t - (f as real);
    if d < 0.5 then f else if d > 0.5 then f + 1 else if f % 2 == 0 then f else f + 1
  }

  /** The pattern of a magnitude rounded to 24 significant bits. Each doubling past 2^24 adds one to
      the exponent field, and a carry out of the fraction does the same. */
  function Bits32(u: real): (p: nat)
    requires u >= 0.0
    decreases u.Floor
  {
    if u < 16777216.0 then HalfEven(u) else 0x80_0000 + Bits32(u / 2.0)
  }

  /** A number in units of 2^-149. */
  function Units(x: real): (u: real)
    requires x > 0.0
    ensures u > 0.0
  {
    x * Pow2(149)
  }

  /** struct.pack("<f", x) of a positive number: its bits, None where it raises. */
  function Pack32(x: real): (bits: Option<nat>)
    requires x > 0.0
    ensures bits.Some? ==> B.IsWord(bits.value)
  {
    var p := Bits32(Units(x));
    if p >= 255 * 0x80_0000 then None else Some(p)
  }

  /** The magnitude of a pattern. */
  function Value(p: nat): nat {
    B.Value32(p / 0x80_0000, p % 0x80_0000)
  }

  lemma {:induction false} ValueLow(p: nat)
    requires p <= 0x100_0000
    ensures Value(p) == p
  {
    assert Two(0) == 1 && Two(1) == 2;
    B.TimesOne(p);
    if p == 0x100_0000 {
      assert p / 0x80_0000 == 2 && p % 0x80_0000 == 0;
    }
  }

  lemma {:induction false} ValueDoubles(p: nat)
    requires p >= 0x80_0000
    ensures Value(p + 0x80_0000) == 2 * Value(p)
  {
    var e, f := p / 0x80_0000, p % 0x80_0000;
    assert (p + 0x80_0000) / 0x80_0000 == e + 1 && (p + 0x80_0000) % 0x80_0000 == f;
    assert Two(e) == 2 * Two(e - 1);
    B.TimesTwo(0x80_0000 + f, Two(e - 1));
  }

  lemma {:induction false} BitsNormal(u: real)
    requires u >= 8388608.0
    ensures Bits32(u) >= 0x80_0000
  {
    if u < 16777216.0 {
      assert u.Floor >= 8388608;
    }
  }

  function Off(v: nat, u: real): real {
    Abs((v as real) - u)
  }

  /** The pattern's value is nearest to the number among all binary32 values. */
  lemma {:induction false} PackIsNearest(u: real, w: nat)
    requires u >= 0.0
    ensures Off(Value(Bits32(u)), u) <= Off(Value(w), u)
    decreases u.Floor
  {
    hide Value;
    if u < 16777216.0 {
      var n := HalfEven(u);
      assert n <= 0x100_0000;
      ValueLow(n);
      IntegerNearest(n, Value(w), u);
    } else {
      BitsNormal(u / 2.0);
      ValueDoubles(Bits32(u / 2.0));
      if w >= 0x100_0000 {
        PackIsNearest(u / 2.0, w - 0x80_0000);
        ValueDoubles(w - 0x80_0000);
      } else {
        ValueLow(w);
        ValueLow(0x80_0000);
        PackIsNearest(u / 2.0, 0x80_0000);
      }
    }
  }

  lemma IntegerNearest(n: nat, v: nat, u: real)
    requires -0.5 <= (n as real) - u <= 0.5
    ensures Off(n, u) <= Off(v, u)
  {
    if v < n {
      assert (v as real) <= (n as real) - 1.0;
    } else if v > n {
      assert (v as real) >= (n as real) + 1.0;
    }
  }

  // ---- what the header's 16 bits stand for ----

  function Exp(bits: nat): nat {
    bits / 0x80_0000
  }

  function Frac(bits: nat): nat {
    bits % 0x80_0000
  }

  /** The stored scale of a finite header. */
  function Stored(h: nat): real {
    (B.Value16(h) as real) * Pow2(-149)
  }

  /** The header of a positive finite binary32 has no sign bit. */
  lemma {:induction false} HeaderBits(bits: nat)
    requires bits < 255 * 0x80_0000
    ensures B.IsWord(bits) && B.Convert(bits) == B.Magnitude(Exp(bits), Frac(bits)) <= B.INFINITY
  {
    var f := B.Split(bits);
    assert f.sign == 0 && f.exp == Exp(bits) && f.frac == Frac(bits);
    B.OverflowsFrom(f.exp, f.frac);
  }

  /** Exactly when the stored scale is zero: when the packed one is below the smallest positive binary16
      (2^-24). Exactly when it is infinite: from 2^16 on. In between it is the largest binary16 not above
      the packed scale. */
  lemma {:induction false} HeaderExactly(bits: nat)
    requires bits < 255 * 0x80_0000
    ensures B.IsWord(bits)
    ensures B.Convert(bits) == 0 <==> Value(bits) < B.Value16(1)
    ensures B.Convert(bits) == B.INFINITY <==> Value(bits) >= B.Value16(B.INFINITY)
    ensures B.Convert(bits) < B.INFINITY ==> B.IsFloor(B.Convert(bits), Value(bits))
  {
    var e, f := Exp(bits), Frac(bits);
    HeaderBits(bits);
    B.OverflowsFrom(e, f);
    hide B.Value16, B.Value32, B.Magnitude, B.Convert, B.INFINITY;
    InfinityIsLarge();
    if e <= 142 {
      B.Truncates(e, f);
      B.LargestBelow(e, f, 1);
    } else {
      LargeExponent(e, f);
      B.Value16Monotone(1, B.INFINITY);
    }
  }

  lemma InfinityIsLarge()
    ensures B.INFINITY >= 1
  {
  }

  lemma LargeExponent(e: nat, f: nat)
    requires 142 < e < 255
    ensures B.Magnitude(e, f) == B.INFINITY
  {
  }

  // ---- how far the stored scale is off ----

  /** n times 2^m is a binary32 magnitude. */
  lemma {:induction false} Representable(n: nat, m: nat) returns (w: nat)
    requires n <= 0x100_0000
    ensures Value(w) == B.Times(n, Two(m)) && (n >= 0x80_0000 ==> w >= 0x80_0000)
    decreases m
  {
    hide Value, B.Times;
    if m == 0 {
      w := n;
      ValueLow(n);
      TimesUnit(n);
    } else {
      B.TimesTwo(n, Two(m - 1));
      if n <= 0x80_0000 {
        w := Representable(2 * n, m - 1);
      } else {
        var v := Representable(n, m - 1);
        ValueDoubles(v);
        w := v + 0x80_0000;
      }
    }
  }

  lemma TimesUnit(n: nat)
    ensures B.Times(n, Two(0)) == n
  {
  }

  /** Every binary16 magnitude is a binary32 magnitude. */
  lemma {:induction false} HalfIsSingle(h: nat) returns (w: nat)
    ensures Value(w) == B.Value16(h)
  {
    hide Value, B.Times, Two;
    if h < 1024 {
      w := Representable(h, 125);
    } else {
      w := Representable(1024 + h % 1024, 124 + h / 1024);
    }
  }

  /** The distance from a binary16 magnitude to the next. */
  function Step(h: nat): nat {
    Two(if h < 1024 then 125 else 124 + h / 1024)
  }

  lemma {:induction false} StepIs(h: nat)
    ensures B.Value16(h + 1) == B.Value16(h) + Step(h)
  {
    if h < 1024 {
      B.Value16Low(h);
      B.Value16Low(h + 1);
      hide B.Value16, Two;
    } else {
      B.Value16Normal(h / 1024, h % 1024);
      B.Value16Normal(h / 1024, h % 1024 + 1);
      hide B.Value16, Two;
      B.Distribute(1024 + h % 1024, 1, Two(124 + h / 1024));
    }
  }

  lemma {:induction false} StepsGrow(h: nat)
    requires h > 0
    ensures Step(h - 1) <= Step(h)
  {
    B.TwoMonotone(if h - 1 < 1024 then 125 else 124 + (h - 1) / 1024, if h < 1024 then 125 else 124 + h / 1024);
  }

  /** A nearest single v of u, truncated to the half h: h is within one step of u. */
  lemma {:induction false} NearAfterTruncation(h: nat, v: nat, u: real)
    requires B.IsFloor(h, v) && u >= 0.0
    requires Off(v, u) <= Off(B.Value16(h), u) && Off(v, u) <= Off(B.Value16(h + 1), u)
    requires h > 0 ==> Off(v, u) <= Off(B.Value16(h - 1), u)
    ensures Off(B.Value16(h), u) <= Step(h) as real
  {
    StepIs(h);
    if h > 0 {
      StepIs(h - 1);
      StepsGrow(h);
    } else {
      ZeroHalf();
    }
    hide B.Value16, Step;
  }

  lemma ZeroHalf()
    ensures B.Value16(0) == 0
  {
    B.TimesOne(Two(125));
  }

  /** The stored scale, in units, is within one binary16 step of the scale. */
  lemma {:induction false} StoredNear(u: real)
    requires u >= 0.0 && Bits32(u) < 255 * 0x80_0000 && B.IsWord(Bits32(u)) && B.Convert(Bits32(u)) < B.INFINITY
    ensures var h := B.Convert(Bits32(u));
      Off(B.Value16(h), u) <= Step(h) as real
  {
    var bits := Bits32(u);
    var h := B.Convert(bits);
    HeaderExactly(bits);
    hide Value, B.Value16, B.IsFloor, B.Convert, Bits32, Off, Step, B.INFINITY;
    var w := HalfIsSingle(h);
    PackIsNearest(u, w);
    var next := HalfIsSingle(h + 1);
    PackIsNearest(u, next);
    if h > 0 {
      var last := HalfIsSingle(h - 1);
      PackIsNearest(u, last);
    }
    NearAfterTruncation(h, Value(bits), u);
  }

  // ---- from units to the scale itself ----

  lemma {:induction false} UnitInverse(n: nat)
    ensures Pow2(n) * Pow2(0 - n) == 1.0
  {
    if n > 0 {
      UnitInverse(n - 1);
      assert Pow2(n) == 2.0 * Pow2(n - 1) && Pow2(0 - n) == Pow2(1 - n) / 2.0;
      Halves(Pow2(n - 1), Pow2(1 - n));
    }
  }

  lemma Halves(a: real, b: real)
    ensures (2.0 * a) * (b / 2.0) == a * b
  {
  }

  /** One binary16 step above h. */
  function StepSize(h: nat): real {
    (Step(h) as real) * Pow2(-149)
  }

  lemma {:induction false} ScaleDown(v: real, x: real, d: real, p: real, q: real)
    requires p * q == 1.0 && q > 0.0 && Abs(v - x * p) <= d
    ensures Abs(v * q - x) <= d * q
  {
    assert (x * p) * q == x * (p * q) == x;
    Order(v - x * p, d, q);
    Order(-(v - x * p), d, q);
    assert (v - x * p) * q == v * q - (x * p) * q;
  }

  lemma Order(a: real, b: real, q: real)
    requires a <= b && q > 0.0
    ensures a * q <= b * q
  {
    assert (b - a) * q >= 0.0;
  }

  /** A scale that packs and does not overflow is stored within one binary16 step. */
  lemma {:induction false} StoredWithinStep(x: real)
    requires x > 0.0 && Pack32(x).Some? && B.Convert(Pack32(x).value) < B.INFINITY
    ensures var h := B.Convert(Pack32(x).value);
      Abs(Stored(h) - x) <= StepSize(h)
  {
    hide Pow2, Bits32, B.Convert, B.Value16, Step, B.INFINITY;
    var u := Units(x);
    var h := B.Convert(Pack32(x).value);
    assert Pack32(x) == Some(Bits32(u)) && Bits32(u) < 255 * 0x80_0000;
    StoredNear(u);
    UnitInverse(149);
    ScaleDown(B.Value16(h) as real, x, Step(h) as real, Pow2(149), Pow2(-149));
  }
}
