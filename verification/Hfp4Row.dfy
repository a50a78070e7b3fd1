/** The bytes of an HFP4G32 row (quantize_hfp4g32_row, scripts/astrea.py): a 16-byte header, then
    for each block its exponent and 16 bytes of code pairs. */
module Hfp4Row {
  import opened Wrappers
  import opened Arithmetic
  import opened E2m1
  import opened Hfp4
  import opened StoredScale
  import B = Binary16

  /** The exponent byte of a block. */
  function Exponent(block: seq<real>, inv: real): (e: nat)
    ensures e <= 254
  {
    BlockExp(Mul(MaxAbs(block), inv))
  }

  /** The i-th byte of code pairs: even value low, odd value high. */
  function Pair(block: seq<real>, inv: real, e: nat, i: nat): (b: nat)
    requires |block| == 32 && i < 16
    ensures b < 256
    ensures b % 16 == ByThreshold(Scaled(block[2 * i], inv, e))
    ensures b / 16 == ByThreshold(Scaled(block[2 * i + 1], inv, e))
  {
    ByThreshold(Scaled(block[2 * i], inv, e)) + 16 * ByThreshold(Scaled(block[2 * i + 1], inv, e))
  }

  /** out holds a block's 17 bytes at off. */
  ghost predicate HoldsBlock(out: seq<nat>, off: nat, block: seq<real>, inv: real)
    requires |block| == 32
  {
    && off + 17 <= |out|
    && out[off] == Exponent(block, inv)
    && forall j :: off + 1 <= j < off + 17 ==> out[j] == Pair(block, inv, Exponent(block, inv), j - off - 1)
  }

  function Block(row: seq<real>, b: nat): (block: seq<real>)
    requires 32 * b + 32 <= |row|
    ensures |block| == 32 && forall j :: 0 <= j < |block| ==> block[j] == row[32 * b + j]
  {
    row[32 * b..32 * b + 32]
  }

  method EncodeBlock(out: array<nat>, off: nat, block: seq<real>, inv: real)
    requires |block| == 32 && off + 17 <= out.Length
    modifies out
    ensures HoldsBlock(out[..], off, block, inv)
    ensures out[..off] == old(out[..off]) && out[off + 17..] == old(out[off + 17..])
  {
    hide BlockExp, Scaled, ByThreshold, MaxAbs, Mul;
    var e := Exponent(block, inv);
    hide Exponent;
    out[off] := e;
    for i := 0 to 16
      invariant out[off] == e
      invariant forall j :: off + 1 <= j < off + 1 + i ==> out[j] == Pair(block, inv, e, j - off - 1)
      invariant out[..off] == old(out[..off]) && out[off + 17..] == old(out[off + 17..])
    {
      var lo := Round(Scaled(block[2 * i], inv, e));
      var hi := Round(Scaled(block[2 * i + 1], inv, e));
      out[off + 1 + i] := lo + 16 * hi;
    }
  }

  method FillHeader(out: array<nat>, scaleBits: nat, n: nat, flags: nat)
    requires 16 <= out.Length && scaleBits < 65536 && n < 65536
    modifies out
    ensures out[0] + 256 * out[1] == scaleBits && out[4] + 256 * out[5] == n && out[6] == flags
  {
    out[0], out[1] := scaleBits % 256, scaleBits / 256;
    out[2], out[3] := 0, 0;
    out[4], out[5] := n % 256, n / 256;
    out[6], out[7] := flags, 0;
  }

  /** The header's binary16 bits of the row scale; None where packing it as binary32 raises. */
  function ScaleBits(row: seq<real>): (h: Option<nat>)
    ensures h.Some? ==> h.value <= B.INFINITY
  {
    var bits := Pack32(RowScale(row));
    if bits.None? then None else
      HeaderBits(bits.value);
      Some(B.Convert(bits.value))
  }

  /** The encoded row: its scale bits, block count and flags, then every block. None stands for the
      errors: a length that is no multiple of 32, or a header value that does not fit. */
  method QuantizeRow(row: seq<real>, flags: nat) returns (r: Option<seq<nat>>)
    ensures r.None? <==> |row| % 32 != 0 || |row| / 32 >= 65536 || flags >= 256 || ScaleBits(row).None?
    ensures r.Some? ==> Encodes(r.value, row) && r.value[6] == flags && r.value[4] + 256 * r.value[5] == |row| / 32
    ensures r.Some? ==> ScaleBits(row) == Some(r.value[0] + 256 * r.value[1])
  {
    hide ScaleBits, RowScale, Exponent, Pair, BlockExp;
    var n := |row| / 32;
    var scaleBits := ScaleBits(row);
    if |row| % 32 != 0 || n >= 65536 || flags >= 256 || scaleBits.None? {
      return None;
    }
    var out := new nat[16 + n * 17](_ => 0);
    var inv := InvRow(row);
    FillHeader(out, scaleBits.value, n, flags);
    ghost var header := out[..16];
    for b := 0 to n
      invariant out[..16] == header
      invariant forall c :: 0 <= c < b ==> HoldsBlock(out[..], 16 + 17 * c, Block(row, c), inv)
    {
      hide HoldsBlock, InvRow;
      ghost var was := out[..];
      EncodeBlock(out, 16 + 17 * b, Block(row, b), inv);
      forall c | 0 <= c < b
        ensures HoldsBlock(out[..], 16 + 17 * c, Block(row, c), inv)
      {
        KeepsBlock(was, out[..], 16 + 17 * c, 16 + 17 * b, Block(row, c), inv);
      }
    }
    assert out[..][..16] == header;
    r := Some(out[..]);
  }

  lemma {:induction false} KeepsBlock(s: seq<nat>, t: seq<nat>, off: nat, k: nat, block: seq<real>, inv: real)
    requires |block| == 32 && HoldsBlock(s, off, block, inv) && |s| == |t| && off + 17 <= k <= |s| && s[..k] == t[..k]
    ensures HoldsBlock(t, off, block, inv)
  {
    hide Exponent, Pair;
    assert forall j :: 0 <= j < k ==> t[j] == t[..k][j] && s[j] == s[..k][j];
  }

  ghost predicate Encodes(out: seq<nat>, row: seq<real>) {
    && |row| % 32 == 0 && |out| == 16 + 17 * (|row| / 32)
    && forall b :: 0 <= b < |row| / 32 ==> HoldsBlock(out, 16 + 17 * b, Block(row, b), InvRow(row))
  }

  /** The code of value 2i or 2i + 1 of block b. */
  function CodeAt(out: seq<nat>, b: nat, i: nat, odd: bool): (k: nat)
    requires i < 16 && 16 + 17 * b + 17 <= |out| && out[16 + 17 * b + 1 + i] < 256
    ensures k < 16
  {
    var byte := out[16 + 17 * b + 1 + i];
    if odd then byte / 16 else byte % 16
  }

  /** The bytes and codes of one pair of values. */
  lemma {:induction false} PairAt(out: seq<nat>, row: seq<real>, b: nat, i: nat)
    requires Encodes(out, row) && b < |row| / 32 && i < 16
    ensures var e, block, inv := Exponent(Block(row, b), InvRow(row)), Block(row, b), InvRow(row);
      && out[16 + 17 * b] == e && out[16 + 17 * b + 1 + i] < 256
      && CodeAt(out, b, i, false) == ByThreshold(Scaled(block[2 * i], inv, e))
      && CodeAt(out, b, i, true) == ByThreshold(Scaled(block[2 * i + 1], inv, e))
  {
    hide Exponent, InvRow, ByThreshold, Scaled;
    assert HoldsBlock(out, 16 + 17 * b, Block(row, b), InvRow(row));
    var byte := out[16 + 17 * b + 1 + i];
    assert byte == Pair(Block(row, b), InvRow(row), Exponent(Block(row, b), InvRow(row)), i);
    hide Pair;
  }

  lemma {:induction false} BlockFromRow(row: seq<real>, b: nat, j: nat)
    requires 32 * b + 32 <= |row| && j < 32
    ensures Block(row, b)[j] == row[32 * b + j]
    ensures forall k :: 0 <= k < 32 ==> Block(row, b)[k] in row
  {
  }

  /** With the exact row scale, what each code stands for is within one step of its block (row scale
      times block scale) of the value encoded. */
  lemma {:induction false} ExactReadsBack(out: seq<nat>, row: seq<real>, b: nat, i: nat, odd: bool)
    requires Encodes(out, row) && b < |row| / 32 && i < 16
    ensures var at := 16 + 17 * b;
      && out[at + 1 + i] < 256
      && Abs(Decoded(RowScale(row), out[at], CodeAt(out, b, i, odd)) - row[32 * b + 2 * i + if odd then 1 else 0])
         <= Mul(RowScale(row), BlockScale(out[at]))
  {
    PairAt(out, row, b, i);
    var j := 2 * i + if odd then 1 else 0;
    BlockFromRow(row, b, j);
    hide CodeAt, Block, Decoded, RowScale, BlockScale, BlockExp, Mul, MaxAbs, InvRow, ByThreshold, Scaled, HoldsBlock;
    CodeError(row, Block(row, b), j);
  }

  /** A value of the largest magnitude in its row, not zero: its block's exponent byte is 127, its code is 7 or
      15 by its sign, and what they stand for with the exact row scale is the value itself. */
  lemma {:induction false} LargestExact(out: seq<nat>, row: seq<real>, b: nat, i: nat, odd: bool)
    requires Encodes(out, row) && b < |row| / 32 && i < 16
    requires var x := row[32 * b + 2 * i + if odd then 1 else 0];
      x != 0.0 && forall y :: y in row ==> Abs(y) <= Abs(x)
    ensures var x := row[32 * b + 2 * i + if odd then 1 else 0];
      && out[16 + 17 * b] == 127 && out[16 + 17 * b + 1 + i] < 256
      && CodeAt(out, b, i, odd) == (if x > 0.0 then 7 else 15)
      && Decoded(RowScale(row), 127, CodeAt(out, b, i, odd)) == x
  {
    PairAt(out, row, b, i);
    var j := 2 * i + if odd then 1 else 0;
    BlockFromRow(row, b, j);
    FullExponent();
    hide CodeAt, Block, RowScale, BlockScale, BlockExp, Mul, MaxAbs, InvRow, ByThreshold, Scaled, HoldsBlock;
    LargestCode(row, Block(row, b), j);
    Codes();
    TimesOnes(RowScale(row));
  }

  lemma TimesOnes(s: real)
    ensures Mul(6.0, Mul(s, 1.0)) == 6.0 * s && Mul(-6.0, Mul(s, 1.0)) == -(6.0 * s)
  {
  }

  lemma CodeInRange(k: nat)
    requires k < 16
    ensures Abs(Code(k)) <= 6.0
  {
  }

  /** Decoding with a scale that is off by at most d moves a value by at most 6 d block scales. */
  lemma {:induction false} ScaleShift(scale: real, stored: real, d: real, e: nat, k: nat)
    requires k < 16 && Abs(stored - scale) <= d
    ensures Abs(Decoded(stored, e, k) - Decoded(scale, e, k)) <= Mul(6.0 * d, BlockScale(e))
  {
    CodeInRange(k);
    var c, p := Code(k), BlockScale(e);
    hide Code, BlockScale;
    Products(c, stored, scale, p);
    MulMonotone(stored - scale, d, p);
    Positively(d, p);
    hide Mul;
    ShiftBound(c, Mul(stored - scale, p), Mul(d, p));
    SixDown(d, p);
  }

  lemma Products(c: real, x: real, y: real, p: real)
    ensures Mul(c, Mul(x, p)) - Mul(c, Mul(y, p)) == c * Mul(x - y, p)
  {
    assert c * (x * p) - c * (y * p) == c * (x * p - y * p);
    assert x * p - y * p == (x - y) * p;
  }

  lemma Positively(d: real, p: real)
    requires d >= 0.0 && p > 0.0
    ensures Mul(d, p) >= 0.0
  {
  }

  lemma SixDown(d: real, p: real)
    ensures Mul(6.0 * d, p) == 6.0 * Mul(d, p)
  {
  }

  lemma SignOut(c: real, z: real)
    ensures Abs(c * z) == Abs(Mul(z, Abs(c)))
  {
    if c < 0.0 {
      assert z * (-c) == -(c * z);
    }
  }

  lemma AtMostSix(c: real, m: real)
    requires 0.0 <= c <= 6.0 && m >= 0.0
    ensures Mul(m, c) <= 6.0 * m
  {
    MulOrder(c, 6.0, m);
  }

  lemma ShiftBound(c: real, z: real, m: real)
    requires Abs(c) <= 6.0 && Abs(z) <= m
    ensures Abs(c * z) <= 6.0 * m
  {
    SignOut(c, z);
    MulMonotone(z, m, Abs(c));
    AtMostSix(Abs(c), m);
    hide Mul;
  }

  lemma AddDown(x: real, y: real, p: real)
    ensures Mul(x + y, p) == Mul(x, p) + Mul(y, p)
  {
  }

  /** Reading an encoded row back with the scale its header stores, when that is finite: each value is
      within one block step plus six steps of the binary16 scale, in block scales, of the value
      encoded. */
  lemma {:induction false} RowReadsBack(out: seq<nat>, row: seq<real>, b: nat, i: nat, odd: bool)
    requires Encodes(out, row) && b < |row| / 32 && i < 16
    requires ScaleBits(row) == Some(out[0] + 256 * out[1]) && out[0] + 256 * out[1] < B.INFINITY
    ensures var at, h := 16 + 17 * b, out[0] + 256 * out[1];
      && out[at + 1 + i] < 256
      && Abs(Decoded(Stored(h), out[at], CodeAt(out, b, i, odd)) - row[32 * b + 2 * i + if odd then 1 else 0])
         <= Mul(RowScale(row) + 6.0 * StepSize(h), BlockScale(out[at]))
  {
    var h, e := out[0] + 256 * out[1], out[16 + 17 * b];
    hide Encodes, CodeAt, Decoded, RowScale, BlockScale, Mul, Stored, StepSize, B.Convert, B.INFINITY, Pack32;
    ExactReadsBack(out, row, b, i, odd);
    StoredWithinStep(RowScale(row));
    ScaleShift(RowScale(row), Stored(h), StepSize(h), e, CodeAt(out, b, i, odd));
    AddDown(RowScale(row), 6.0 * StepSize(h), BlockScale(e));
  }
}
