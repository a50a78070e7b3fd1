/** The Walsh-Hadamard transform as mathematics: a divide-and-conquer form, the full
    Hadamard sum it must equal, and the laws the rotation in the quantiser relies on. */
module Hadamard {

  /** n is 1, 2, 4, 8, ... */
  predicate PowerOfTwo(n: nat) {
    n == 1 || (n > 0 && n % 2 == 0 && PowerOfTwo(n / 2))
  }

  function Add(a: seq<real>, b: seq<real>): (r: seq<real>)
    requires |a| == |b|
    ensures |r| == |a| && forall i :: 0 <= i < |r| ==> r[i] == a[i] + b[i]
  {
    if a == [] then [] else [a[0] + b[0]] + Add(a[1..], b[1..])
  }

  function Sub(a: seq<real>, b: seq<real>): (r: seq<real>)
    requires |a| == |b|
    ensures |r| == |a| && forall i :: 0 <= i < |r| ==> r[i] == a[i] - b[i]
  {
    if a == [] then [] else [a[0] - b[0]] + Sub(a[1..], b[1..])
  }

  /** Pointwise product; the sign flips are multiplications by a vector of +1 and -1. */
  function Mul(a: seq<real>, b: seq<real>): (r: seq<real>)
    requires |a| == |b|
    ensures |r| == |a| && forall i :: 0 <= i < |r| ==> r[i] == a[i] * b[i]
  {
    if a == [] then [] else [a[0] * b[0]] + Mul(a[1..], b[1..])
  }

  function Scale(c: real, a: seq<real>): (r: seq<real>)
    ensures |r| == |a| && forall i :: 0 <= i < |r| ==> r[i] == c * a[i]
  {
    if a == [] then [] else [c * a[0]] + Scale(c, a[1..])
  }

  function Energy(a: seq<real>): (e: real)
    ensures e >= 0.0
  {
    if a == [] then 0.0 else a[0] * a[0] + Energy(a[1..])
  }

  /** Squared distance, the error measure of the quantiser. */
  function Distance(a: seq<real>, b: seq<real>): (e: real)
    requires |a| == |b|
  {
    Energy(Sub(a, b))
  }

  /** The fast transform: transform both halves, then combine them with one butterfly. */
  function Wht(x: seq<real>): (r: seq<real>)
    requires PowerOfTwo(|x|)
    ensures |r| == |x|
  {
    if |x| == 1 then x else
      var h := |x| / 2;
      Butterfly(Wht(x[..h]) + Wht(x[h..]), h)
  }

  /** One butterfly over a block of 2*h values. */
  function Butterfly(x: seq<real>, h: nat): (r: seq<real>)
    requires |x| == 2 * h
    ensures |r| == |x|
  {
    Add(x[..h], x[h..]) + Sub(x[..h], x[h..])
  }

  // ---- the reference definition ----

  /** Parity of the number of one bits shared by i and k. */
  predicate OddOverlap(i: nat, k: nat) {
    if i == 0 || k == 0 then false
    else OddOverlap(i / 2, k / 2) != (i % 2 == 1 && k % 2 == 1)
  }

  /** Entry (i, k) of the Hadamard matrix. */
  function Coefficient(i: nat, k: nat): (c: real)
  {
    if OddOverlap(i, k) then -1.0 else 1.0
  }

  /** Row i of the Hadamard matrix applied to the first n entries of x. */
  function HadamardSum(x: seq<real>, i: nat, n: nat): (s: real)
    requires n <= |x|
  {
    if n == 0 then 0.0 else HadamardSum(x, i, n - 1) + Coefficient(i, n - 1) * x[n - 1]
  }

  lemma {:induction false} OverlapHighBit(i: nat, k: nat, h: nat)
    requires PowerOfTwo(h) && i < h && k < h
    ensures OddOverlap(i + h, k) == OddOverlap(i, k) == OddOverlap(i, k + h)
    ensures OddOverlap(i + h, k + h) == !OddOverlap(i, k)
    decreases h
  {
    if h > 1 {
      assert (i + h) / 2 == i / 2 + h / 2 && (k + h) / 2 == k / 2 + h / 2;
      assert (i + h) % 2 == i % 2 && (k + h) % 2 == k % 2;
      OverlapHighBit(i / 2, k / 2, h / 2);
    }
  }

  /** The sum over the upper half is the half-size sum, negated for rows with the high bit set. */
  lemma {:induction false} UpperHalfSum(l: seq<real>, r: seq<real>, i: nat, n: nat)
    requires PowerOfTwo(|l|) && |l| == |r| && n <= |l| && i < |l|
    ensures HadamardSum(l + r, i, |l| + n) == HadamardSum(l + r, i, |l|) + HadamardSum(r, i, n)
    ensures HadamardSum(l + r, i + |l|, |l| + n) == HadamardSum(l + r, i + |l|, |l|) - HadamardSum(r, i, n)
  {
    if n > 0 {
      UpperHalfSum(l, r, i, n - 1);
      OverlapHighBit(i, n - 1, |l|);
      hide OddOverlap, PowerOfTwo;
      assert (l + r)[|l| + (n - 1)] == r[n - 1];
      assert Coefficient(i, (n - 1) + |l|) == Coefficient(i, n - 1);
      assert Coefficient(i + |l|, (n - 1) + |l|) == -Coefficient(i, n - 1);
      assert |l| + n - 1 == (n - 1) + |l|;
    }
  }

  lemma {:induction false} LowerHalfSum(l: seq<real>, r: seq<real>, i: nat, n: nat)
    requires PowerOfTwo(|l|) && |l| == |r| && n <= |l| && i < |l|
    ensures HadamardSum(l + r, i, n) == HadamardSum(l, i, n)
    ensures HadamardSum(l + r, i + |l|, n) == HadamardSum(l, i, n)
  {
    if n > 0 {
      LowerHalfSum(l, r, i, n - 1);
      OverlapHighBit(i, n - 1, |l|);
    }
  }

  /** The two halves of a transform in terms of the transforms of the two halves. */
  lemma {:induction false} WhtHalves(x: seq<real>, l: seq<real>, r: seq<real>)
    requires |x| > 1 && PowerOfTwo(|x|) && x == l + r && |l| == |r|
    ensures PowerOfTwo(|l|)
    ensures Wht(x) == Add(Wht(l), Wht(r)) + Sub(Wht(l), Wht(r))
  {
    var h := |x| / 2;
    assert x[..h] == l && x[h..] == r;
    var both := Wht(l) + Wht(r);
    assert both[..h] == Wht(l) && both[h..] == Wht(r);
  }

  lemma {:induction false} Singleton(x: seq<real>)
    requires |x| == 1
    ensures PowerOfTwo(|x|) && Wht(x) == x == Scale(1.0, x)
    ensures HadamardSum(x, 0, 1) == x[0] && Energy(x) == x[0] * x[0]
  {
    assert HadamardSum(x, 0, 0) == 0.0;
    assert x[1..] == [] && Energy(x[1..]) == 0.0;
  }

  /** The fast form computes every row of the Hadamard matrix product. */
  lemma {:induction false} WhtIsHadamardSum(x: seq<real>, i: nat)
    requires PowerOfTwo(|x|) && i < |x|
    ensures Wht(x)[i] == HadamardSum(x, i, |x|)
    decreases |x|
  {
    hide *;
    if |x| == 1 {
      Singleton(x);
    } else {
      var l, r := Halve(x);
      var h := |l|;
      var row := if i < h then i else i - h;
      WhtIsHadamardSum(l, row);
      WhtIsHadamardSum(r, row);
      LowerHalfSum(l, r, row, h);
      UpperHalfSum(l, r, row, h);
      WhtHalves(x, l, r);
    }
  }

  // ---- linearity, involution, energy ----

  lemma {:induction false} Halve(x: seq<real>) returns (l: seq<real>, r: seq<real>)
    requires PowerOfTwo(|x|) && |x| != 1
    ensures x == l + r && |x| > 1 && |l| == |r| && |x| == 2 * |l| && PowerOfTwo(|l|)
  {
    l, r := x[..|x| / 2], x[|x| / 2..];
  }

  lemma {:induction false} AddConcat(a: seq<real>, b: seq<real>, c: seq<real>, d: seq<real>)
    requires |a| == |c| && |b| == |d|
    ensures Add(a + b, c + d) == Add(a, c) + Add(b, d)
    ensures Sub(a + b, c + d) == Sub(a, c) + Sub(b, d)
  {
    hide *;
  }

  /** The four sums and differences of two butterflies, rearranged. */
  lemma {:induction false} AddExchange(a: seq<real>, b: seq<real>, c: seq<real>, d: seq<real>)
    requires |a| == |b| == |c| == |d|
    ensures Add(Add(a, b), Add(c, d)) == Add(Add(a, c), Add(b, d))
    ensures Sub(Add(a, b), Add(c, d)) == Add(Sub(a, c), Sub(b, d))
    ensures Add(Sub(a, b), Sub(c, d)) == Sub(Add(a, c), Add(b, d))
    ensures Sub(Sub(a, b), Sub(c, d)) == Sub(Sub(a, c), Sub(b, d))
  {
    hide *;
  }

  lemma {:induction false} WhtAdd(a: seq<real>, b: seq<real>)
    requires |a| == |b| && PowerOfTwo(|a|)
    ensures Wht(Add(a, b)) == Add(Wht(a), Wht(b))
    ensures Wht(Sub(a, b)) == Sub(Wht(a), Wht(b))
    decreases |a|
  {
    hide *;
    if |a| == 1 {
      Singleton(a);
      Singleton(b);
      Singleton(Add(a, b));
      Singleton(Sub(a, b));
    } else {
      var al, ar := Halve(a);
      var bl, br := Halve(b);
      WhtAdd(al, bl);
      WhtAdd(ar, br);
      WhtHalves(a, al, ar);
      WhtHalves(b, bl, br);
      AddConcat(al, ar, bl, br);
      WhtHalves(Add(a, b), Add(al, bl), Add(ar, br));
      WhtHalves(Sub(a, b), Sub(al, bl), Sub(ar, br));
      AddConcat(Add(Wht(al), Wht(ar)), Sub(Wht(al), Wht(ar)), Add(Wht(bl), Wht(br)), Sub(Wht(bl), Wht(br)));
      AddExchange(Wht(al), Wht(bl), Wht(ar), Wht(br));
    }
  }

  lemma {:induction false} DoubleScale(c: real, l: seq<real>, r: seq<real>)
    requires |l| == |r|
    ensures Add(Add(Scale(c, l), Scale(c, r)), Sub(Scale(c, l), Scale(c, r))) == Scale(2.0 * c, l)
    ensures Sub(Add(Scale(c, l), Scale(c, r)), Sub(Scale(c, l), Scale(c, r))) == Scale(2.0 * c, r)
  {
    hide *;
    forall i | 0 <= i < |l|
      ensures (c * l[i] + c * r[i]) + (c * l[i] - c * r[i]) == (2.0 * c) * l[i]
      ensures (c * l[i] + c * r[i]) - (c * l[i] - c * r[i]) == (2.0 * c) * r[i]
    {
    }
  }

  lemma {:induction false} ScaleConcat(c: real, l: seq<real>, r: seq<real>)
    ensures Scale(c, l + r) == Scale(c, l) + Scale(c, r)
  {
    hide *;
    forall i | 0 <= i < |l + r|
      ensures Scale(c, l + r)[i] == (Scale(c, l) + Scale(c, r))[i]
    {
      assert (l + r)[i] == if i < |l| then l[i] else r[i - |l|];
    }
  }

  /** Transforming twice multiplies by the length. */
  lemma {:induction false} WhtTwice(x: seq<real>)
    requires PowerOfTwo(|x|)
    ensures Wht(Wht(x)) == Scale(|x| as real, x)
    decreases |x|
  {
    hide *;
    if |x| == 1 {
      Singleton(x);
    } else {
      var l, r := Halve(x);
      var wl, wr := Wht(l), Wht(r);
      WhtHalves(x, l, r);
      WhtHalves(Wht(x), Add(wl, wr), Sub(wl, wr));
      WhtAdd(wl, wr);
      WhtTwice(l);
      WhtTwice(r);
      DoubleScale(|l| as real, l, r);
      assert 2.0 * (|l| as real) == |x| as real;
      ScaleConcat(|x| as real, l, r);
    }
  }

  lemma {:induction false} EnergyConcat(a: seq<real>, b: seq<real>)
    ensures Energy(a + b) == Energy(a) + Energy(b)
  {
    if a == [] {
      assert a + b == b;
    } else {
      EnergyConcat(a[1..], b);
      assert (a + b)[1..] == a[1..] + b;
    }
  }

  lemma {:induction false} SquaresOfSumAndDifference(x: real, y: real)
    ensures (x + y) * (x + y) + (x - y) * (x - y) == 2.0 * (x * x + y * y)
  {
  }

  lemma {:induction false} EnergyButterfly(a: seq<real>, b: seq<real>)
    requires |a| == |b|
    ensures Energy(Add(a, b)) + Energy(Sub(a, b)) == 2.0 * (Energy(a) + Energy(b))
  {
    if a != [] {
      EnergyButterfly(a[1..], b[1..]);
      SquaresOfSumAndDifference(a[0], b[0]);
    }
  }

  /** Up to the length factor the transform keeps the energy of its input. */
  lemma {:induction false} WhtEnergy(x: seq<real>)
    requires PowerOfTwo(|x|)
    ensures Energy(Wht(x)) == (|x| as real) * Energy(x)
    decreases |x|
  {
    hide *;
    if |x| == 1 {
      Singleton(x);
    } else {
      var l, r := Halve(x);
      WhtHalves(x, l, r);
      WhtEnergy(l);
      WhtEnergy(r);
      EnergyConcat(l, r);
      EnergyConcat(Add(Wht(l), Wht(r)), Sub(Wht(l), Wht(r)));
      EnergyButterfly(Wht(l), Wht(r));
      Distribute(|l| as real, Energy(l), Energy(r));
    }
  }

  lemma {:induction false} Distribute(n: real, a: real, b: real)
    ensures 2.0 * (n * a + n * b) == (2.0 * n) * (a + b)
  {
  }

  lemma {:induction false} EnergyScale(c: real, a: seq<real>)
    ensures Energy(Scale(c, a)) == c * c * Energy(a)
  {
    if a != [] {
      EnergyScale(c, a[1..]);
      var x, e := a[0], Energy(a[1..]);
      assert (c * x) * (c * x) + c * c * e == c * c * (x * x + e);
    }
  }

  /** Every entry is +1 or -1. */
  predicate IsSigns(s: seq<real>) {
    forall i :: 0 <= i < |s| ==> s[i] == 1.0 || s[i] == -1.0
  }

  lemma {:induction false} EnergySigns(a: seq<real>, s: seq<real>)
    requires |a| == |s| && IsSigns(s)
    ensures Energy(Mul(a, s)) == Energy(a)
  {
    if a != [] {
      EnergySigns(a[1..], s[1..]);
      assert Mul(a, s)[1..] == Mul(a[1..], s[1..]);
    }
  }
}
