/** The sign-flipped 256-point rotation of scripts/astrea.py and scripts/analyze_quant_mse.py:
    three in-place forms of the butterfly network, the forward rotation and its inverse. */
module Fwht {
  import opened Wrappers
  import opened Hadamard

  // ---- block-wise specification of the stages ----

  /** n is s added up zero or more times. */
  predicate Multiple(n: nat, s: nat) {
    n == 0 || (0 < s <= n && Multiple(n - s, s))
  }

  lemma {:induction false} ProductIsMultiple(c: nat, s: nat)
    requires s > 0
    ensures Multiple(c * s, s)
  {
    if c > 0 {
      assert (c - 1) * s == c * s - s;
      ProductIsMultiple(c - 1, s);
    }
  }

  predicate IsStride(s: nat) {
    s in {1, 2, 4, 8, 16, 32, 64, 128, 256}
  }

  lemma StrideFacts(s: nat)
    requires IsStride(s)
    ensures PowerOfTwo(s) && Multiple(256, s)
    ensures s < 256 ==> IsStride(2 * s)
  {
    assert PowerOfTwo(1);
    assert PowerOfTwo(2);
    assert PowerOfTwo(4);
    assert PowerOfTwo(8);
    assert PowerOfTwo(16);
    assert PowerOfTwo(32);
    assert PowerOfTwo(64);
    assert PowerOfTwo(128);
    assert PowerOfTwo(256);
    ProductIsMultiple(256 / s, s);
    assert (256 / s) * s == 256;
  }

  /** Every aligned block of s values replaced by its transform. */
  function BlockWht(x: seq<real>, s: nat): (r: seq<real>)
    requires PowerOfTwo(s) && Multiple(|x|, s)
    ensures |r| == |x|
    decreases |x|
  {
    if x == [] then [] else Wht(x[..s]) + BlockWht(x[s..], s)
  }

  /** Every aligned block of 2*h values put through one butterfly. */
  function Stage(x: seq<real>, h: nat): (r: seq<real>)
    requires Multiple(|x|, 2 * h)
    ensures |r| == |x|
    decreases |x|
  {
    if x == [] then [] else Butterfly(x[..2 * h], h) + Stage(x[2 * h..], h)
  }

  lemma {:induction false} BlockWhtCons(b: seq<real>, rest: seq<real>, s: nat)
    requires PowerOfTwo(s) && |b| == s && Multiple(|rest|, s)
    ensures Multiple(|b + rest|, s)
    ensures BlockWht(b + rest, s) == Wht(b) + BlockWht(rest, s)
  {
    hide Wht, PowerOfTwo;
    var x := b + rest;
    assert x[..s] == b && x[s..] == rest;
  }

  lemma {:induction false} StageCons(b: seq<real>, rest: seq<real>, h: nat)
    requires h > 0 && |b| == 2 * h && Multiple(|rest|, 2 * h)
    ensures Multiple(|b + rest|, 2 * h)
    ensures Stage(b + rest, h) == Butterfly(b, h) + Stage(rest, h)
  {
    hide Butterfly;
    var x := b + rest;
    assert x[..2 * h] == b && x[2 * h..] == rest;
  }

  lemma {:induction false} MultipleOfDouble(n: nat, s: nat)
    requires Multiple(n, 2 * s)
    ensures Multiple(n, s)
    decreases n
  {
    if n > 0 {
      MultipleOfDouble(n - 2 * s, s);
    }
  }

  /** One stage turns transforms of s-blocks into transforms of 2s-blocks. */
  lemma {:induction false} StageDoubles(x: seq<real>, s: nat)
    requires PowerOfTwo(s) && PowerOfTwo(2 * s) && Multiple(|x|, 2 * s)
    ensures Multiple(|x|, s)
    ensures Stage(BlockWht(x, s), s) == BlockWht(x, 2 * s)
    decreases |x|
  {
    MultipleOfDouble(|x|, s);
    if x != [] {
      var a, b, rest := Front(x, s);
      StageDoubles(rest, s);
      StageDoublesStep(a, b, rest, s);
    }
  }

  lemma {:induction false} StageDoublesStep(a: seq<real>, b: seq<real>, rest: seq<real>, s: nat)
    requires PowerOfTwo(s) && PowerOfTwo(2 * s) && |a| == |b| == s > 0
    requires Multiple(|rest|, s) && Multiple(|rest|, 2 * s)
    requires Stage(BlockWht(rest, s), s) == BlockWht(rest, 2 * s)
    ensures var x := (a + b) + rest;
      Multiple(|x|, s) && Multiple(|x|, 2 * s) && Stage(BlockWht(x, s), s) == BlockWht(x, 2 * s)
  {
    hide *;
    BlockWhtCons(b, rest, s);
    BlockWhtCons(a, b + rest, s);
    BlockWhtCons(a + b, rest, 2 * s);
    assert a + (b + rest) == (a + b) + rest;
    var rotated := BlockWht(rest, s);
    assert Wht(a) + (Wht(b) + rotated) == (Wht(a) + Wht(b)) + rotated;
    StageCons(Wht(a) + Wht(b), rotated, s);
    JoinWht(a, b);
  }

  lemma {:induction false} Front(x: seq<real>, s: nat) returns (a: seq<real>, b: seq<real>, rest: seq<real>)
    requires Multiple(|x|, 2 * s) && x != []
    ensures x == (a + b) + rest && |a| == |b| == s > 0 && Multiple(|rest|, 2 * s) && |rest| < |x|
    ensures Multiple(|rest|, s) && Multiple(|b + rest|, s)
  {
    a, b, rest := x[..s], x[s..2 * s], x[2 * s..];
    MultipleOfDouble(|rest|, s);
  }

  lemma {:induction false} JoinWht(a: seq<real>, b: seq<real>)
    requires |a| == |b| > 0 && PowerOfTwo(|a|) && PowerOfTwo(|a + b|)
    ensures Butterfly(Wht(a) + Wht(b), |a|) == Wht(a + b)
  {
    hide Wht, PowerOfTwo, Add, Sub;
    WhtHalves(a + b, a, b);
    var both := Wht(a) + Wht(b);
    assert both[..|a|] == Wht(a) && both[|a|..] == Wht(b);
  }

  lemma {:induction false} BlockWhtOne(x: seq<real>)
    requires Multiple(|x|, 1)
    ensures BlockWht(x, 1) == x
    decreases |x|
  {
    if x != [] {
      BlockWhtOne(x[1..]);
      assert x == x[..1] + x[1..];
    }
  }

  lemma {:induction false} BlockWhtWhole(x: seq<real>)
    requires PowerOfTwo(|x|)
    ensures Multiple(|x|, |x|) && BlockWht(x, |x|) == Wht(x)
  {
    hide Wht, PowerOfTwo;
    assert x[..|x|] == x && x[|x|..] == [];
  }

  /** Position of k inside its aligned block of m values. */
  function Offset(k: nat, m: nat): (d: nat)
    requires m > 0
    ensures d < m && d <= k
  {
    if k < m then k else Offset(k - m, m)
  }

  lemma {:induction false} OffsetInBlock(i: nat, d: nat, m: nat)
    requires d < m && Multiple(i, m)
    ensures Offset(i + d, m) == d
    decreases i
  {
    if i > 0 {
      OffsetInBlock(i - m, d, m);
    }
  }

  /** What a stage leaves at position k, and that the partner position is inside the block. */
  lemma {:induction false} StageAt(x: seq<real>, h: nat, k: nat)
    requires h > 0 && Multiple(|x|, 2 * h) && k < |x|
    ensures Offset(k, 2 * h) < h ==> k + h < |x| && Stage(x, h)[k] == x[k] + x[k + h]
    ensures Offset(k, 2 * h) >= h ==> k >= h && Stage(x, h)[k] == x[k - h] - x[k]
    decreases |x|
  {
    hide Stage, Butterfly;
    var m := 2 * h;
    var b, rest := x[..m], x[m..];
    assert x == b + rest;
    StageCons(b, rest, h);
    if k < m {
      StageFront(b, rest, h, k);
    } else {
      StageAt(rest, h, k - m);
    }
  }

  lemma {:induction false} StageFront(b: seq<real>, rest: seq<real>, h: nat, k: nat)
    requires 0 < h && |b| == 2 * h && Multiple(|rest|, 2 * h) && k < |b|
    ensures Multiple(|b + rest|, 2 * h)
    ensures k < h ==> Stage(b + rest, h)[k] == b[k] + b[k + h]
    ensures k >= h ==> Stage(b + rest, h)[k] == b[k - h] - b[k]
  {
    StageCons(b, rest, h);
    hide Stage, Multiple, Add, Sub;
  }

  // ---- the three in-place forms ----

  /** The two innermost lines of the scalar loop, over one block of 2*stride values. */
  method PairLoop(x: array<real>, i: nat, stride: nat)
    requires 0 < stride && i + 2 * stride <= x.Length
    modifies x
    ensures forall k :: 0 <= k < i || i + 2 * stride <= k < x.Length ==> x[k] == old(x[k])
    ensures forall k :: i <= k < i + stride ==> x[k] == old(x[k]) + old(x[k + stride])
    ensures forall k :: i + stride <= k < i + 2 * stride ==> x[k] == old(x[k - stride]) - old(x[k])
  {
    for j := 0 to stride
      invariant forall k :: 0 <= k < i || i + 2 * stride <= k < x.Length ==> x[k] == old(x[k])
      invariant forall k :: i <= k < i + j ==> x[k] == old(x[k]) + old(x[k + stride])
      invariant forall k :: i + j <= k < i + stride ==> x[k] == old(x[k])
      invariant forall k :: i + stride <= k < i + stride + j ==> x[k] == old(x[k - stride]) - old(x[k])
      invariant forall k :: i + stride + j <= k < i + 2 * stride ==> x[k] == old(x[k])
    {
      var a := x[i + j];
      var b := x[i + j + stride];
      x[i + j] := a + b;
      x[i + j + stride] := a - b;
    }
  }

  /** The same block by slices: both halves are copied, then both are overwritten. */
  method PairSlices(x: array<real>, i: nat, stride: nat)
    requires 0 < stride && i + 2 * stride <= x.Length
    modifies x
    ensures forall k :: 0 <= k < i || i + 2 * stride <= k < x.Length ==> x[k] == old(x[k])
    ensures forall k :: i <= k < i + stride ==> x[k] == old(x[k]) + old(x[k + stride])
    ensures forall k :: i + stride <= k < i + 2 * stride ==> x[k] == old(x[k - stride]) - old(x[k])
  {
    var a := x[i..i + stride];
    var b := x[i + stride..i + 2 * stride];
    forall k | i <= k < i + stride {
      x[k] := a[k - i] + b[k - i];
    }
    forall k | i + stride <= k < i + 2 * stride {
      x[k] := a[k - i - stride] - b[k - i - stride];
    }
  }

  lemma {:induction false} BlockDone(y: seq<real>, z: seq<real>, i: nat, h: nat)
    requires h > 0 && Multiple(|y|, 2 * h) && |z| == |y| && Multiple(i, 2 * h) && i + 2 * h <= |y|
    requires forall k :: i <= k < i + h ==> z[k] == y[k] + y[k + h]
    requires forall k :: i + h <= k < i + 2 * h ==> z[k] == y[k - h] - y[k]
    ensures forall k :: i <= k < i + 2 * h ==> z[k] == Stage(y, h)[k]
  {
    hide *;
    forall k | i <= k < i + 2 * h
      ensures z[k] == Stage(y, h)[k]
    {
      OffsetInBlock(i, k - i, 2 * h);
      StageAt(y, h, k);
    }
  }

  lemma {:induction false} RoomForBlock(n: nat, i: nat, m: nat)
    requires m > 0 && Multiple(n, m) && Multiple(i, m) && i < n
    ensures i + m <= n
    decreases n
  {
    if i >= m {
      RoomForBlock(n - m, i - m, m);
    }
  }

  lemma MultipleStep(i: nat, m: nat)
    requires m > 0
    ensures Multiple(0, m) && (Multiple(i, m) ==> Multiple(i + m, m))
  {
  }

  method NestedStage(x: array<real>, stride: nat)
    requires 0 < stride && Multiple(x.Length, 2 * stride)
    modifies x
    ensures x[..] == Stage(old(x[..]), stride)
  {
    hide *;
    ghost var y := x[..];
    var i := 0;
    MultipleStep(0, 2 * stride);
    while i < x.Length
      invariant 0 <= i <= x.Length && Multiple(i, 2 * stride)
      invariant forall k :: 0 <= k < i ==> x[k] == Stage(y, stride)[k]
      invariant forall k :: i <= k < x.Length ==> x[k] == y[k]
    {
      RoomForBlock(x.Length, i, 2 * stride);
      PairLoop(x, i, stride);
      BlockDone(y, x[..], i, stride);
      MultipleStep(i, 2 * stride);
      i := i + stride * 2;
    }
  }

  method SliceStage(x: array<real>, stride: nat)
    requires 0 < stride && Multiple(x.Length, 2 * stride)
    modifies x
    ensures x[..] == Stage(old(x[..]), stride)
  {
    hide *;
    ghost var y := x[..];
    var i := 0;
    MultipleStep(0, 2 * stride);
    while i < x.Length
      invariant 0 <= i <= x.Length && Multiple(i, 2 * stride)
      invariant forall k :: 0 <= k < i ==> x[k] == Stage(y, stride)[k]
      invariant forall k :: i <= k < x.Length ==> x[k] == y[k]
    {
      RoomForBlock(x.Length, i, 2 * stride);
      PairSlices(x, i, stride);
      BlockDone(y, x[..], i, stride);
      MultipleStep(i, 2 * stride);
      i := i + stride * 2;
    }
  }

  /** Entry k after a stage, read off the rows of 2*h values it belongs to. */
  function PairValue(y: seq<real>, h: nat, k: nat): (v: real)
    requires h > 0 && Multiple(|y|, 2 * h) && k < |y|
    ensures v == Stage(y, h)[k]
  {
    StageAt(y, h, k);
    if Offset(k, 2 * h) < h then y[k] + y[k + h] else y[k - h] - y[k]
  }

  /** All blocks at once, as the reshape to rows of 2*stride values does. */
  method ReshapeStage(x: array<real>, stride: nat)
    requires 0 < stride && Multiple(x.Length, 2 * stride)
    modifies x
    ensures x[..] == Stage(old(x[..]), stride)
  {
    hide *;
    var y := x[..];
    forall k | 0 <= k < x.Length {
      x[k] := PairValue(y, stride, k);
    }
  }

  lemma {:induction false} OneStageMore(x: seq<real>, s: nat)
    requires |x| == 256 && IsStride(s) && s < 256
    ensures PowerOfTwo(s) && Multiple(256, s) && IsStride(2 * s)
    ensures PowerOfTwo(2 * s) && Multiple(256, 2 * s)
    ensures Stage(BlockWht(x, s), s) == BlockWht(x, 2 * s)
  {
    hide *;
    StrideFacts(s);
    StrideFacts(2 * s);
    StageDoubles(x, s);
  }

  lemma {:induction false} FirstAndLastStage(x: seq<real>)
    requires |x| == 256
    ensures IsStride(1) && PowerOfTwo(1) && Multiple(256, 1) && BlockWht(x, 1) == x
    ensures PowerOfTwo(256) && Multiple(256, 256) && BlockWht(x, 256) == Wht(x)
  {
    StrideFacts(1);
    StrideFacts(256);
    hide *;
    BlockWhtOne(x);
    BlockWhtWhole(x);
  }

  /** The doubling loop with the nested scalar loops (cpu_fwht_256, fwht_256_correct). */
  method TransformNested(x: array<real>)
    requires x.Length == 256
    modifies x
    ensures PowerOfTwo(256) && x[..] == Wht(old(x[..]))
  {
    hide *;
    ghost var orig := x[..];
    FirstAndLastStage(orig);
    var stride := 1;
    while stride < 256
      invariant 0 < stride <= 256 && IsStride(stride) && PowerOfTwo(stride) && Multiple(256, stride)
      invariant x[..] == BlockWht(orig, stride)
      decreases 256 - stride
    {
      OneStageMore(orig, stride);
      NestedStage(x, stride);
      stride := stride * 2;
      StrideBound(stride);
    }
  }

  /** The doubling loop with whole half-blocks copied and overwritten (fwht_256_numpy and its inverse). */
  method TransformSlices(x: array<real>)
    requires x.Length == 256
    modifies x
    ensures PowerOfTwo(256) && x[..] == Wht(old(x[..]))
  {
    hide *;
    ghost var orig := x[..];
    FirstAndLastStage(orig);
    var stride := 1;
    while stride < 256
      invariant 0 < stride <= 256 && IsStride(stride) && PowerOfTwo(stride) && Multiple(256, stride)
      invariant x[..] == BlockWht(orig, stride)
      decreases 256 - stride
    {
      OneStageMore(orig, stride);
      SliceStage(x, stride);
      stride := stride * 2;
      StrideBound(stride);
    }
  }

  /** The doubling loop that handles every block of a stage at once (fwht_256_fast). */
  method TransformReshape(x: array<real>)
    requires x.Length == 256
    modifies x
    ensures PowerOfTwo(256) && x[..] == Wht(old(x[..]))
  {
    hide *;
    ghost var orig := x[..];
    FirstAndLastStage(orig);
    var stride := 1;
    while stride < 256
      invariant 0 < stride <= 256 && IsStride(stride) && PowerOfTwo(stride) && Multiple(256, stride)
      invariant x[..] == BlockWht(orig, stride)
      decreases 256 - stride
    {
      OneStageMore(orig, stride);
      ReshapeStage(x, stride);
      stride := stride * 2;
      StrideBound(stride);
    }
  }

  lemma StrideBound(s: nat)
    requires IsStride(s)
    ensures 0 < s <= 256
  {
  }

  // ---- the signed rotation ----

  function NextState(state: nat): (s: nat)
    ensures s < 0x8000_0000
  {
    (state * 1103515245 + 12345) % 0x8000_0000
  }

  function SignBit(state: nat): (s: real)
    ensures s == 1.0 || s == -1.0
  {
    if (state / 65536) % 2 == 1 then 1.0 else -1.0
  }

  /** The first n signs after generator state `state`: bit 16 of each successive state. */
  function Signs(state: nat, n: nat): (r: seq<real>)
    ensures |r| == n && IsSigns(r)
    decreases n
  {
    if n == 0 then [] else
      var s := NextState(state);
      [SignBit(s)] + Signs(s, n - 1)
  }

  method GenFwhtSigns(seed: nat, n: nat) returns (signs: seq<real>)
    ensures signs == Signs(seed, n) && IsSigns(signs)
  {
    var state := seed;
    signs := [];
    for i := 0 to n
      invariant signs + Signs(state, n - i) == Signs(seed, n)
    {
      ghost var rest := Signs(state, n - i);
      state := NextState(state);
      var sign := SignBit(state);
      assert rest == [sign] + Signs(state, n - i - 1);
      assert signs + rest == (signs + [sign]) + Signs(state, n - i - 1);
      signs := signs + [sign];
    }
    assert Signs(state, 0) == [];
  }

  /** Flip signs by s1, transform, scale by 1/16, flip signs by s2. */
  ghost function Rotate(x: seq<real>, s1: seq<real>, s2: seq<real>): (r: seq<real>)
    requires |x| == |s1| == |s2| && PowerOfTwo(|x|)
    ensures |r| == |x|
  {
    Mul(Scale(0.0625, Wht(Mul(x, s1))), s2)
  }

  method Flipped(x: seq<real>, signs: seq<real>) returns (a: array<real>)
    requires |x| == |signs|
    ensures fresh(a) && a[..] == Mul(x, signs)
  {
    hide *;
    a := new real[|x|](i requires 0 <= i < |x| => x[i] * signs[i]);
    assert forall i :: 0 <= i < |x| ==> a[i] == Mul(x, signs)[i];
  }

  method Scaled(x: array<real>, signs: seq<real>) returns (r: seq<real>)
    requires x.Length == |signs|
    ensures r == Mul(Scale(0.0625, x[..]), signs)
  {
    hide *;
    ghost var half := Scale(0.0625, x[..]);
    r := seq(x.Length, i requires 0 <= i < x.Length reads x => 0.0625 * x[i] * signs[i]);
    forall i | 0 <= i < x.Length
      ensures r[i] == Mul(half, signs)[i]
    {
      assert half[i] == 0.0625 * x[i];
    }
  }

  method RotateNested(x: seq<real>, s1: seq<real>, s2: seq<real>) returns (r: seq<real>)
    requires |x| == |s1| == |s2| == 256
    ensures PowerOfTwo(256) && r == Rotate(x, s1, s2)
  {
    hide Mul, Scale, Wht, PowerOfTwo;
    var a := Flipped(x, s1);
    TransformNested(a);
    r := Scaled(a, s2);
  }

  method RotateSlices(x: seq<real>, s1: seq<real>, s2: seq<real>) returns (r: seq<real>)
    requires |x| == |s1| == |s2| == 256
    ensures PowerOfTwo(256) && r == Rotate(x, s1, s2)
  {
    hide Mul, Scale, Wht, PowerOfTwo;
    var a := Flipped(x, s1);
    TransformSlices(a);
    r := Scaled(a, s2);
  }

  method RotateReshape(x: seq<real>, s1: seq<real>, s2: seq<real>) returns (r: seq<real>)
    requires |x| == |s1| == |s2| == 256
    ensures PowerOfTwo(256) && r == Rotate(x, s1, s2)
  {
    hide Mul, Scale, Wht, PowerOfTwo;
    var a := Flipped(x, s1);
    TransformReshape(a);
    r := Scaled(a, s2);
  }

  const SEED1: nat := 42
  const SEED2: nat := 1042

  lemma {:induction false} SignsStep(state: nat, next: nat, n: nat)
    requires n > 0 && (state * 1103515245 + 12345) % 0x8000_0000 == next
    ensures Signs(state, n)[0] == if next / 65536 % 2 == 1 then 1.0 else -1.0
    ensures forall i :: 0 < i < n ==> Signs(state, n)[i] == Signs(next, n - 1)[i - 1]
  {
  }

  /** The two sign vectors open with these values: the seeds and the generator are the runtime's. */
  lemma {:induction false} FirstOpening()
    ensures Signs(SEED1, 256)[..16]
         == [1.0, 1.0, 1.0, 1.0, -1.0, 1.0, 1.0, -1.0, 1.0, 1.0, -1.0, -1.0, -1.0, -1.0, 1.0, -1.0]
  {
    hide Signs;
    SignsStep(42, 1250496027, 256);
    SignsStep(1250496027, 1116302264, 255);
    SignsStep(1116302264, 1000676753, 254);
    SignsStep(1000676753, 1668674806, 253);
    SignsStep(1668674806, 908095735, 252);
    SignsStep(908095735, 71666532, 251);
    SignsStep(71666532, 896336333, 250);
    SignsStep(896336333, 1736731266, 249);
    SignsStep(1736731266, 1314989459, 248);
    SignsStep(1314989459, 1535244752, 247);
    SignsStep(1535244752, 391441865, 246);
    SignsStep(391441865, 1108520142, 245);
    SignsStep(1108520142, 1206814703, 244);
    SignsStep(1206814703, 534045436, 243);
    SignsStep(534045436, 1974836613, 242);
    SignsStep(1974836613, 238077914, 241);
  }

  lemma {:induction false} SecondOpening()
    ensures Signs(SEED2, 256)[..16]
         == [1.0, -1.0, -1.0, -1.0, -1.0, 1.0, 1.0, -1.0, 1.0, 1.0, -1.0, -1.0, 1.0, 1.0, -1.0, 1.0]
  {
    hide Signs;
    SignsStep(1042, 959145955, 256);
    SignsStep(959145955, 229938656, 255);
    SignsStep(229938656, 651051161, 254);
    SignsStep(651051161, 752242526, 253);
    SignsStep(752242526, 606248767, 252);
    SignsStep(606248767, 419246092, 251);
    SignsStep(419246092, 2109295957, 250);
    SignsStep(2109295957, 1647575914, 249);
    SignsStep(1647575914, 925626459, 248);
    SignsStep(925626459, 1649623288, 247);
    SignsStep(1649623288, 1930324433, 246);
    SignsStep(1930324433, 1241967670, 245);
    SignsStep(1241967670, 145700663, 244);
    SignsStep(145700663, 1089959076, 243);
    SignsStep(1089959076, 1774113293, 242);
    SignsStep(1774113293, 1833801154, 241);
  }

  lemma BlockIsPower()
    ensures PowerOfTwo(256)
  {
    StrideFacts(256);
  }

  /** The rotation the quantiser applies, with the generated sign vectors. */
  ghost function Forward(x: seq<real>): (r: seq<real>)
    requires |x| == 256
    ensures |r| == 256
  {
    BlockIsPower();
    Rotate(x, Signs(SEED1, 256), Signs(SEED2, 256))
  }

  /** The inverse as written: the same network with the two sign vectors exchanged. */
  ghost function Inverse(y: seq<real>): (r: seq<real>)
    requires |y| == 256
    ensures |r| == 256
  {
    BlockIsPower();
    Rotate(y, Signs(SEED2, 256), Signs(SEED1, 256))
  }

  method CpuFwht256(values: seq<real>) returns (r: Option<seq<real>>)
    ensures r.None? <==> |values| != 256
    ensures r.Some? ==> r.value == Forward(values)
  {
    hide Signs, Rotate, PowerOfTwo;
    if |values| != 256 {
      return None;
    }
    var s1 := GenFwhtSigns(SEED1, 256);
    var s2 := GenFwhtSigns(SEED2, 256);
    var x := RotateNested(values, s1, s2);
    r := Some(x);
  }

  method InverseFwht256(values: seq<real>) returns (r: seq<real>)
    requires |values| == 256
    ensures r == Inverse(values)
  {
    hide Signs, Rotate, PowerOfTwo;
    var s1 := GenFwhtSigns(SEED1, 256);
    var s2 := GenFwhtSigns(SEED2, 256);
    r := RotateSlices(values, s2, s1);
  }

  // ---- laws of the rotation ----

  lemma {:induction false} SignsTwice(x: seq<real>, s: seq<real>)
    requires |x| == |s| && IsSigns(s)
    ensures Mul(Mul(x, s), s) == x
  {
    hide Mul;
    var y := Mul(x, s);
    forall i | 0 <= i < |x|
      ensures Mul(y, s)[i] == x[i]
    {
      assert y[i] == x[i] * s[i] && (s[i] == 1.0 || s[i] == -1.0);
    }
  }

  lemma {:induction false} WhtScale(c: real, x: seq<real>)
    requires PowerOfTwo(|x|)
    ensures Wht(Scale(c, x)) == Scale(c, Wht(x))
    decreases |x|
  {
    hide *;
    if |x| == 1 {
      Singleton(x);
      Singleton(Scale(c, x));
    } else {
      var l, r := Halve(x);
      WhtHalves(x, l, r);
      WhtScale(c, l);
      WhtScale(c, r);
      ScaleConcat(c, l, r);
      WhtHalves(Scale(c, x), Scale(c, l), Scale(c, r));
      ScaleConcat(c, Add(Wht(l), Wht(r)), Sub(Wht(l), Wht(r)));
      ScaleAdd(c, Wht(l), Wht(r));
    }
  }

  lemma {:induction false} ScaleAdd(c: real, a: seq<real>, b: seq<real>)
    requires |a| == |b|
    ensures Scale(c, Add(a, b)) == Add(Scale(c, a), Scale(c, b))
    ensures Scale(c, Sub(a, b)) == Sub(Scale(c, a), Scale(c, b))
  {
    hide *;
    forall i | 0 <= i < |a|
      ensures Scale(c, Add(a, b))[i] == Add(Scale(c, a), Scale(c, b))[i]
      ensures Scale(c, Sub(a, b))[i] == Sub(Scale(c, a), Scale(c, b))[i]
    {
      assert Add(a, b)[i] == a[i] + b[i] && Sub(a, b)[i] == a[i] - b[i];
      assert c * (a[i] + b[i]) == c * a[i] + c * b[i] && c * (a[i] - b[i]) == c * a[i] - c * b[i];
    }
  }

  lemma {:induction false} MulSub(a: seq<real>, b: seq<real>, s: seq<real>)
    requires |a| == |b| == |s|
    ensures Mul(Sub(a, b), s) == Sub(Mul(a, s), Mul(b, s))
  {
    hide *;
    forall i | 0 <= i < |a|
      ensures Mul(Sub(a, b), s)[i] == Sub(Mul(a, s), Mul(b, s))[i]
    {
      assert Sub(a, b)[i] == a[i] - b[i];
      assert (a[i] - b[i]) * s[i] == a[i] * s[i] - b[i] * s[i];
    }
  }

  /** Rotating with the sign vectors exchanged undoes a rotation, for every pair of sign vectors. */
  lemma {:induction false} RotateRoundTrip(x: seq<real>, s1: seq<real>, s2: seq<real>)
    requires |x| == |s1| == |s2| == 256 && PowerOfTwo(256) && IsSigns(s1) && IsSigns(s2)
    ensures Rotate(Rotate(x, s1, s2), s2, s1) == x
  {
    hide Mul, Scale, Wht, PowerOfTwo, IsSigns;
    var u := Mul(x, s1);
    SignsTwice(Scale(0.0625, Wht(u)), s2);
    WhtScale(0.0625, Wht(u));
    WhtTwice(u);
    ScaleSquare(u);
    SignsTwice(x, s1);
  }

  lemma {:induction false} ScaleSquare(u: seq<real>)
    ensures Scale(0.0625, Scale(0.0625, Scale(256.0, u))) == u
  {
    hide *;
    forall i | 0 <= i < |u|
      ensures 0.0625 * (0.0625 * (256.0 * u[i])) == u[i]
    {
    }
  }

  lemma {:induction false} RotateEnergy(x: seq<real>, s1: seq<real>, s2: seq<real>)
    requires |x| == |s1| == |s2| == 256 && PowerOfTwo(256) && IsSigns(s1) && IsSigns(s2)
    ensures Energy(Rotate(x, s1, s2)) == Energy(x)
  {
    hide Mul, Scale, Wht, PowerOfTwo, IsSigns, Energy;
    var u := Mul(x, s1);
    EnergySigns(x, s1);
    WhtEnergy(u);
    EnergyScale(0.0625, Wht(u));
    EnergySigns(Scale(0.0625, Wht(u)), s2);
  }

  /** A rotation keeps the squared distance between any two blocks. */
  lemma {:induction false} RotateDistance(a: seq<real>, b: seq<real>, s1: seq<real>, s2: seq<real>)
    requires |a| == |b| == |s1| == |s2| == 256 && PowerOfTwo(256) && IsSigns(s1) && IsSigns(s2)
    ensures Distance(Rotate(a, s1, s2), Rotate(b, s1, s2)) == Distance(a, b)
  {
    hide Mul, Scale, Wht, PowerOfTwo, IsSigns, Energy, Sub;
    MulSub(a, b, s1);
    WhtAdd(Mul(a, s1), Mul(b, s1));
    ScaleAdd(0.0625, Wht(Mul(a, s1)), Wht(Mul(b, s1)));
    MulSub(Scale(0.0625, Wht(Mul(a, s1))), Scale(0.0625, Wht(Mul(b, s1))), s2);
    RotateEnergy(Sub(a, b), s1, s2);
  }

  /** The inverse rotation undoes the forward one, and the error of a reconstruction measured in
      the original domain is the error measured in the rotated domain. */
  lemma {:induction false} ForwardInverse(x: seq<real>, y: seq<real>)
    requires |x| == |y| == 256
    ensures Inverse(Forward(x)) == x && Forward(Inverse(x)) == x
    ensures Distance(Inverse(y), x) == Distance(y, Forward(x))
  {
    hide Signs, Rotate, PowerOfTwo, Distance;
    BlockIsPower();
    var s1, s2 := Signs(SEED1, 256), Signs(SEED2, 256);
    RotateRoundTrip(x, s1, s2);
    RotateRoundTrip(x, s2, s1);
    RotateDistance(y, Forward(x), s2, s1);
  }

  /** Each rotated value is the signed Hadamard sum over the whole block. */
  lemma {:induction false} ForwardIsHadamard(x: seq<real>, i: nat)
    requires |x| == 256 && i < 256
    ensures Forward(x)[i]
         == HadamardSum(Mul(x, Signs(SEED1, 256)), i, 256) / 16.0 * Signs(SEED2, 256)[i]
  {
    hide Signs, Wht, PowerOfTwo, HadamardSum, Mul, Scale;
    BlockIsPower();
    WhtIsHadamardSum(Mul(x, Signs(SEED1, 256)), i);
  }
}
