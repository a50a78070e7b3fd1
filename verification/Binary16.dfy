/** binary32 to binary16 on bit patterns (section 3.4 of IEEE 754-2008): the branching and the masked
    form of scripts/astrea.py, and what the conversion does to the value. */
module Binary16 {
  import opened Arithmetic

  /** A binary32 pattern taken apart. */
  datatype Fields = Fields(sign: nat, exp: nat, frac: nat)

  predicate IsWord(bits: int) {
    0 <= bits < 0x1_0000_0000
  }

  function Split(bits: int): (f: Fields)
    requires IsWord(bits)
    ensures f.sign < 2 && f.exp < 256 && f.frac < 0x80_0000
    ensures bits == f.sign * 0x8000_0000 + f.exp * 0x80_0000 + f.frac
  {
    Fields(bits / 0x8000_0000, bits / 0x80_0000 % 256, bits % 0x80_0000)
  }

  /** x >> n */
  function ShiftRight(x: nat, n: nat): nat {
    if n == 0 then x else ShiftRight(x / 2, n - 1)
  }

  /** x | 1 */
  function WithLowBit(x: nat): (r: nat)
    ensures r != 0 && x <= r <= x + 1
  {
    if x % 2 == 0 then x + 1 else x
  }

  const SIGN := 0x8000
  const INFINITY := 0x7C00

  // ---- the branching form ----

  /** f32_to_f16_bits. */
  function Convert(bits: int): nat
    requires IsWord(bits)
  {
    var f := Split(bits);
    f.sign * SIGN + Magnitude(f.exp, f.frac)
  }

  /** The result without its sign bit. */
  function Magnitude(exp: nat, frac: nat): nat {
    if exp == 255 then INFINITY + if frac == 0 then 0 else WithLowBit(ShiftRight(frac, 13))
    else if exp - 112 >= 31 then INFINITY
    else if exp - 112 <= 0 then
      if exp - 112 < -10 then 0 else ShiftRight(frac + 0x80_0000, 1 - (exp - 112) + 13)
    else (exp - 112) * 1024 + ShiftRight(frac, 13)
  }

  // ---- the masked form ----

  datatype Mask = InfNan | Overflow | Normal | Subnormal | Underflow

  predicate Selects(m: Mask, f: Fields) {
    match m
    case InfNan => f.exp == 255
    case Overflow => f.exp != 255 && f.exp - 112 >= 31
    case Normal => f.exp != 255 && f.exp - 112 > 0 && f.exp - 112 < 31
    case Subnormal => f.exp != 255 && f.exp - 112 <= 0 && f.exp - 112 >= -10
    case Underflow => f.exp != 255 && f.exp - 112 < -10
  }

  /** What the masked assignment stores; the shift and the sum exist only where the mask selects. */
  function Masked(m: Mask, f: Fields): nat
    requires Selects(m, f)
  {
    match m
    case InfNan => f.sign * SIGN + INFINITY + if f.frac == 0 then 0 else WithLowBit(ShiftRight(f.frac, 13))
    case Overflow => f.sign * SIGN + INFINITY
    case Normal => f.sign * SIGN + (f.exp - 112) * 1024 + ShiftRight(f.frac, 13)
    case Subnormal => f.sign * SIGN + ShiftRight(f.frac + 0x80_0000, 1 - (f.exp - 112) + 13)
    case Underflow => f.sign * SIGN
  }

  /** out[mask] = value for one mask. */
  method Store(out: array<nat>, words: seq<int>, m: Mask)
    requires out.Length == |words| && forall i :: 0 <= i < |words| ==> IsWord(words[i])
    modifies out
    ensures forall i :: 0 <= i < |words| ==>
      out[i] == if Selects(m, Split(words[i])) then Masked(m, Split(words[i])) else old(out[i])
  {
    hide Selects, Masked;
    for i := 0 to |words|
      invariant forall j :: 0 <= j < i ==>
        out[j] == if Selects(m, Split(words[j])) then Masked(m, Split(words[j])) else old(out[j])
      invariant forall j :: i <= j < |words| ==> out[j] == old(out[j])
    {
      var f := Split(words[i]);
      if Selects(m, f) {
        out[i] := Masked(m, f);
      }
    }
  }

  /** Every pattern is selected by exactly one mask, and that mask stores the branching result. */
  lemma {:induction false} MasksPartition(bits: int, m: Mask)
    requires IsWord(bits)
    ensures exists k :: Selects(k, Split(bits))
    ensures Selects(m, Split(bits)) ==> Masked(m, Split(bits)) == Convert(bits)
    ensures forall k :: Selects(m, Split(bits)) && Selects(k, Split(bits)) ==> k == m
  {
    var f := Split(bits);
    hide Split, ShiftRight, WithLowBit;
    assert Selects(InfNan, f) || Selects(Overflow, f) || Selects(Normal, f) || Selects(Subnormal, f)
      || Selects(Underflow, f);
  }

  /** f32_to_f16_bits_numpy: five masked stores give the branching result for every pattern. */
  method ConvertAll(words: seq<int>) returns (out: array<nat>)
    requires forall i :: 0 <= i < |words| ==> IsWord(words[i])
    ensures fresh(out) && out.Length == |words|
    ensures forall i :: 0 <= i < |words| ==> out[i] == Convert(words[i])
  {
    out := new nat[|words|](_ => 0);
    Store(out, words, InfNan);
    Store(out, words, Overflow);
    Store(out, words, Normal);
    Store(out, words, Subnormal);
    Store(out, words, Underflow);
    forall i | 0 <= i < |words|
      ensures out[i] == Convert(words[i])
    {
      MasksPartition(words[i], InfNan);
      MasksPartition(words[i], Overflow);
      MasksPartition(words[i], Normal);
      MasksPartition(words[i], Subnormal);
      MasksPartition(words[i], Underflow);
      hide Selects, Masked, Convert, Split;
      var k :| Selects(k, Split(words[i]));
    }
  }

  // ---- values, in units of 2^-149 ----

  /** A product, named so that proofs can treat it as given. */
  function Times(x: nat, y: nat): nat {
    x * y
  }

  /** The magnitude of a finite binary32. */
  function Value32(exp: nat, frac: nat): nat {
    if exp == 0 then frac else Times(0x80_0000 + frac, Two(exp - 1))
  }

  /** The magnitude of a binary16 without its sign bit; INFINITY stands for 2^16. */
  function Value16(h: nat): nat {
    if h < 1024 then Times(h, Two(125)) else Times(1024 + h % 1024, Two(124 + h / 1024))
  }

  lemma Distribute(a: nat, k: nat, d: nat)
    ensures (a + k) * d == a * d + k * d
  {
  }

  lemma Positive(k: nat, d: nat)
    ensures k * d >= 0 && (k > 0 && d > 0 ==> k * d > 0)
  {
  }

  lemma TimesOrder(a: nat, b: nat, c: nat, d: nat)
    requires a <= b && c <= d
    ensures Times(a, c) <= Times(b, d)
    ensures a < b && d > 0 ==> Times(a, c) < Times(b, d)
  {
    Distribute(a, b - a, d);
    Distribute(c, d - c, a);
    Positive(b - a, d);
    Positive(d - c, a);
  }

  lemma TimesAssoc(a: nat, b: nat, c: nat)
    ensures Times(a, Times(b, c)) == Times(Times(a, b), c)
    ensures Times(b, Times(a, c)) == Times(Times(a, b), c)
  {
    assert a * (b * c) == (a * b) * c;
  }

  lemma TimesOne(a: nat)
    ensures Times(0, a) == 0 && Times(1, a) == a && Times(1024, 8192) == 0x80_0000
  {
  }

  lemma TimesTwo(a: nat, b: nat)
    ensures Times(a, 2 * b) == 2 * Times(a, b) && Times(2 * a, b) == 2 * Times(a, b)
  {
    assert a * (2 * b) == 2 * (a * b);
  }

  lemma {:induction false} TwoAdd(a: nat, b: nat)
    ensures Two(a + b) == Times(Two(a), Two(b))
  {
    if b > 0 {
      TwoAdd(a, b - 1);
      TimesTwo(Two(a), Two(b - 1));
      hide Times;
    }
  }

  lemma {:induction false} TwoMonotone(a: nat, b: nat)
    requires a <= b
    ensures Two(a) <= Two(b)
    decreases b
  {
    if a < b {
      TwoMonotone(a, b - 1);
    }
  }

  lemma Thirteen()
    ensures Two(13) == 8192
  {
    assert Two(3) == 8;
    assert Two(6) == 64;
    assert Two(9) == 512;
    assert Two(12) == 4096;
  }

  lemma TwentyFour()
    ensures Two(14) == 16384 && Two(23) == 0x80_0000 && Two(24) == 0x100_0000
  {
    Thirteen();
    assert Two(16) == 65536;
    assert Two(19) == 524288;
    assert Two(22) == 4194304;
  }

  /** x >> n is the quotient by 2^n. */
  lemma {:induction false} ShiftBounds(x: nat, n: nat)
    ensures Times(ShiftRight(x, n), Two(n)) <= x < Times(ShiftRight(x, n) + 1, Two(n))
  {
    if n > 0 {
      ShiftBounds(x / 2, n - 1);
      TimesTwo(ShiftRight(x, n), Two(n - 1));
      TimesTwo(ShiftRight(x, n) + 1, Two(n - 1));
      hide Times;
    }
  }

  /** A quotient by d, carried over to multiples of t. */
  lemma {:induction false} Carry(q: nat, x: nat, d: nat, t: nat)
    requires Times(q, d) <= x < Times(q + 1, d) && t > 0
    ensures Times(q, Times(d, t)) <= Times(x, t) < Times(q + 1, Times(d, t))
  {
    TimesAssoc(q, d, t);
    TimesAssoc(q + 1, d, t);
    hide Times;
    TimesOrder(Times(q, d), x, t, t);
    TimesOrder(x, Times(q + 1, d), t, t);
  }

  /** The value of a binary16 magnitude with exponent field e, also one step past its last. */
  lemma {:induction false} Value16Normal(e: nat, q: nat)
    requires e >= 1 && q <= 1024
    ensures Value16(e * 1024 + q) == Times(1024 + q, Two(124 + e))
  {
    var h := e * 1024 + q;
    if q < 1024 {
      assert h / 1024 == e && h % 1024 == q;
    } else {
      assert h / 1024 == e + 1 && h % 1024 == 0;
      assert Two(124 + (e + 1)) == 2 * Two(124 + e);
      TimesTwo(1024, Two(124 + e));
    }
    hide Times;
  }

  lemma {:induction false} Value16Low(h: nat)
    requires h <= 1024
    ensures Value16(h) == Times(h, Two(125))
  {
    hide Times, Two;
  }

  /** h is the magnitude of the largest binary16 not above the value v. */
  ghost predicate IsFloor(h: nat, v: nat) {
    Value16(h) <= v < Value16(h + 1)
  }

  lemma Eight(q: nat, frac: nat)
    requires Times(q, 8192) <= frac < Times(q + 1, 8192) && frac < 0x80_0000
    ensures q < 1024 && Times(1024 + q, 8192) <= 0x80_0000 + frac < Times(1024 + q + 1, 8192)
  {
  }

  lemma {:induction false} NormalFloor(exp: nat, frac: nat)
    requires 113 <= exp <= 142 && frac < 0x80_0000
    ensures IsFloor(Magnitude(exp, frac), Value32(exp, frac)) && Magnitude(exp, frac) < INFINITY
  {
    hide Two, ShiftRight, Value16, Times;
    var q := ShiftRight(frac, 13);
    ShiftBounds(frac, 13);
    Thirteen();
    TwoAdd(13, exp - 1);
    Eight(q, frac);
    Value16Normal(exp - 112, q);
    Value16Normal(exp - 112, q + 1);
    Carry(1024 + q, 0x80_0000 + frac, 8192, Two(exp - 1));
  }

  lemma {:induction false} ShortShift(x: nat, n: nat)
    requires x < 0x100_0000 && n >= 14
    ensures ShiftRight(x, n) < 1024
  {
    ShiftBounds(x, n);
    TwoMonotone(14, n);
    TwentyFour();
    hide Two, ShiftRight;
    if ShiftRight(x, n) >= 1024 {
      TimesOrder(1024, ShiftRight(x, n), 16384, Two(n));
    }
  }

  lemma {:induction false} SubnormalFloor(exp: nat, frac: nat)
    requires 102 <= exp <= 112 && frac < 0x80_0000
    ensures IsFloor(Magnitude(exp, frac), Value32(exp, frac)) && Magnitude(exp, frac) < 1024
  {
    hide Two, ShiftRight, Value16, Times;
    var n := 126 - exp;
    var x := frac + 0x80_0000;
    var q := ShiftRight(x, n);
    ShiftBounds(x, n);
    ShortShift(x, n);
    TwoAdd(n, exp - 1);
    Value16Low(q);
    Value16Low(q + 1);
    Carry(q, x, Two(n), Two(exp - 1));
  }

  lemma {:induction false} UnderflowFloor(exp: nat, frac: nat)
    requires exp <= 101 && frac < 0x80_0000
    ensures IsFloor(Magnitude(exp, frac), Value32(exp, frac)) && Magnitude(exp, frac) == 0
  {
    hide Two, ShiftRight, Value16, Times;
    Value16Low(0);
    Value16Low(1);
    TwentyFour();
    TwoMonotone(24, 125);
    TimesOne(Two(125));
    if exp > 0 {
      TwoMonotone(exp - 1, 100);
      TwoAdd(24, 100);
      TwoMonotone(124, 125);
      TimesOrder(0x80_0000 + frac, Two(24), Two(exp - 1), Two(100));
    }
  }

  /** Below 2^16 the conversion truncates toward zero by less than one binary16 step. */
  lemma {:induction false} Truncates(exp: nat, frac: nat)
    requires exp <= 142 && frac < 0x80_0000
    ensures IsFloor(Magnitude(exp, frac), Value32(exp, frac)) && Magnitude(exp, frac) < INFINITY
  {
    hide IsFloor, Magnitude, Value32;
    if exp <= 101 {
      UnderflowFloor(exp, frac);
    } else if exp <= 112 {
      SubnormalFloor(exp, frac);
    } else {
      NormalFloor(exp, frac);
    }
  }

  lemma {:induction false} Value16Steps(h: nat)
    ensures Value16(h) < Value16(h + 1)
  {
    if h < 1024 {
      Value16Low(h);
      Value16Low(h + 1);
      hide Two, Value16, Times;
      TimesOrder(h, h + 1, Two(125), Two(125));
    } else {
      Value16Normal(h / 1024, h % 1024);
      Value16Normal(h / 1024, h % 1024 + 1);
      hide Two, Value16, Times;
      TimesOrder(1024 + h % 1024, 1025 + h % 1024, Two(124 + h / 1024), Two(124 + h / 1024));
    }
  }

  lemma {:induction false} Value16Monotone(a: nat, b: nat)
    requires a <= b
    ensures Value16(a) <= Value16(b)
    decreases b
  {
    hide Value16;
    if a < b {
      Value16Monotone(a, b - 1);
      Value16Steps(b - 1);
    }
  }

  /** The result is the largest binary16 that does not exceed the value. */
  lemma {:induction false} LargestBelow(exp: nat, frac: nat, k: nat)
    requires exp <= 142 && frac < 0x80_0000
    ensures Value16(k) <= Value32(exp, frac) <==> k <= Magnitude(exp, frac)
  {
    Truncates(exp, frac);
    hide Value16, Value32, Magnitude;
    if k <= Magnitude(exp, frac) {
      Value16Monotone(k, Magnitude(exp, frac));
    } else {
      Value16Monotone(Magnitude(exp, frac) + 1, k);
    }
  }

  /** Finite values overflow to infinity exactly from 2^16 on. */
  lemma {:induction false} OverflowsFrom(exp: nat, frac: nat)
    requires exp < 255 && frac < 0x80_0000
    ensures Magnitude(exp, frac) == INFINITY <==> Value16(INFINITY) <= Value32(exp, frac)
    ensures Magnitude(exp, frac) <= INFINITY
  {
    hide Two, Value16, Times;
    if exp <= 142 {
      Truncates(exp, frac);
      LargestBelow(exp, frac, INFINITY);
    } else {
      Value16Normal(31, 0);
      TwoMonotone(142, exp - 1);
      TwoAdd(13, 142);
      Thirteen();
      TimesAssoc(1024, 8192, Two(142));
      TimesOne(0);
      TimesOrder(0x80_0000, 0x80_0000 + frac, Two(142), Two(exp - 1));
    }
  }

  /** A larger finite value never converts to a smaller magnitude. */
  lemma {:induction false} Monotone(exp: nat, frac: nat, exp': nat, frac': nat)
    requires exp < 255 && exp' < 255 && frac < 0x80_0000 && frac' < 0x80_0000
    requires Value32(exp, frac) <= Value32(exp', frac')
    ensures Magnitude(exp, frac) <= Magnitude(exp', frac')
  {
    OverflowsFrom(exp, frac);
    OverflowsFrom(exp', frac');
    hide Value16, Value32;
    if exp <= 142 && exp' <= 142 {
      LargestBelow(exp, frac, Magnitude(exp, frac));
      LargestBelow(exp', frac', Magnitude(exp, frac));
    }
  }

  /** NaN stays NaN, infinity stays infinity, and nothing else becomes a NaN. */
  lemma {:induction false} SpecialsKept(bits: int)
    requires IsWord(bits)
    ensures var f := Split(bits);
      && (Magnitude(f.exp, f.frac) > INFINITY <==> f.exp == 255 && f.frac != 0)
      && (f.exp == 255 && f.frac == 0 ==> Magnitude(f.exp, f.frac) == INFINITY)
      && Convert(bits) < 0x1_0000 && Convert(bits) / SIGN == f.sign && Convert(bits) % SIGN == Magnitude(f.exp, f.frac)
  {
    var f := Split(bits);
    hide Split;
    if f.exp == 255 {
      ShiftBounds(f.frac, 13);
      Thirteen();
      hide Two, ShiftRight;
      Eight(ShiftRight(f.frac, 13), f.frac);
      hide Times;
    } else {
      OverflowsFrom(f.exp, f.frac);
      hide Magnitude, Value32, Value16;
    }
  }
}
