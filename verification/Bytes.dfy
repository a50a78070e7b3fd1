/** Byte strings and little-endian fields, as `struct` packs and unpacks them. */
module Bytes {
  import opened Wrappers

  type byte = x: int | 0 <= x < 256

  type Bytes = seq<byte>

  /** 256 to the n: one more than the largest value an n-byte field holds. */
  function Limit(n: nat): (p: nat)
    ensures p > 0
  {
    if n == 0 then 1 else 256 * Limit(n - 1)
  }

  lemma Limits()
    ensures Limit(1) == 0x100 && Limit(2) == 0x1_0000 && Limit(4) == 0x1_0000_0000
    ensures Limit(8) == 0x1_0000_0000_0000_0000
  {
    assert Limit(0) == 1;
    assert Limit(2) == 256 * Limit(1);
    assert Limit(3) == 256 * Limit(2);
    assert Limit(4) == 256 * Limit(3);
    assert Limit(5) == 256 * Limit(4);
    assert Limit(6) == 256 * Limit(5);
    assert Limit(7) == 256 * Limit(6);
    assert Limit(8) == 256 * Limit(7);
  }

  function Pack(v: nat, n: nat): (b: Bytes)
    requires v < Limit(n)
    ensures |b| == n
  {
    if n == 0 then [] else [v % 256] + Pack(v / 256, n - 1)
  }

  function Unpack(b: Bytes): (v: nat)
    ensures v < Limit(|b|)
  {
    if b == [] then 0 else b[0] + 256 * Unpack(b[1..])
  }

  lemma {:induction false} UnpackPack(v: nat, n: nat)
    requires v < Limit(n)
    ensures Unpack(Pack(v, n)) == v
  {
    if n > 0 {
      UnpackPack(v / 256, n - 1);
      assert Pack(v, n)[1..] == Pack(v / 256, n - 1);
    }
  }

  lemma {:induction false} PackUnpack(b: Bytes)
    ensures Pack(Unpack(b), |b|) == b
  {
    if b != [] {
      PackUnpack(b[1..]);
      assert Unpack(b) % 256 == b[0] && Unpack(b) / 256 == Unpack(b[1..]);
    }
  }

  /** A field's bytes are determined by its value. */
  lemma {:induction false} UnpackInjective(a: Bytes, b: Bytes)
    requires |a| == |b| && Unpack(a) == Unpack(b)
    ensures a == b
  {
    PackUnpack(a);
    PackUnpack(b);
  }

  /** `data[pos]` onwards starts with b. */
  predicate At(data: Bytes, pos: nat, b: Bytes) {
    pos + |b| <= |data| && data[pos..pos + |b|] == b
  }

  lemma {:induction false} AtConcat(data: Bytes, pos: nat, a: Bytes, b: Bytes)
    ensures At(data, pos, a + b) <==> At(data, pos, a) && At(data, pos + |a|, b)
  {
    if pos + |a| + |b| <= |data| {
      var s := data[pos..pos + |a| + |b|];
      assert s[..|a|] == data[pos..pos + |a|] && s[|a|..] == data[pos + |a|..pos + |a| + |b|];
      assert s == s[..|a|] + s[|a|..];
      assert (a + b)[..|a|] == a && (a + b)[|a|..] == b;
    }
  }

  /** unpack_from: None where struct raises because the buffer is too short. */
  function Field(data: Bytes, pos: nat, n: nat): (v: Option<nat>)
    ensures v.Some? <==> pos + n <= |data|
    ensures v.Some? ==> v.value == Unpack(data[pos..pos + n]) < Limit(n)
  {
    if pos + n <= |data| then Some(Unpack(data[pos..pos + n])) else None
  }

  lemma {:induction false} FieldAt(data: Bytes, pos: nat, v: nat, n: nat)
    requires v < Limit(n) && At(data, pos, Pack(v, n))
    ensures Field(data, pos, n) == Some(v)
  {
    UnpackPack(v, n);
  }

  /** A Python slice with non-negative bounds: out-of-range ends are clamped. */
  function Slice(data: Bytes, lo: nat, hi: nat): (s: Bytes)
    ensures lo <= hi <= |data| ==> s == data[lo..hi]
    ensures |s| <= |data| && (lo <= |data| ==> lo + |s| <= |data|)
  {
    var h := if hi <= |data| then hi else |data|;
    if lo <= h then data[lo..h] else []
  }
}
