/** The test for UTF-8 names accepts exactly the encodings of sequences of Unicode scalar values. */
module Utf8Laws {
  import opened Bytes
  import opened Hfq

  type ScalarValue = c: int | 0 <= c < 0xD800 || 0xE000 <= c <= 0x10FFFF

  /** The UTF-8 encoding of one scalar value (section 3 of RFC 3629). */
  function Encode(c: ScalarValue): (b: Bytes) {
    if c < 0x80 then [c]
    else if c < 0x800 then [0xC0 + c / 64, 0x80 + c % 64]
    else if c < 0x10000 then [0xE0 + c / 4096, 0x80 + c / 64 % 64, 0x80 + c % 64]
    else [0xF0 + c / 262144, 0x80 + c / 4096 % 64, 0x80 + c / 64 % 64, 0x80 + c % 64]
  }

  function EncodeAll(cs: seq<ScalarValue>): (b: Bytes) {
    if cs == [] then [] else Encode(cs[0]) + EncodeAll(cs[1..])
  }

  // ---- an encoding is accepted ----

  lemma {:induction false} Parts(b: Bytes, rest: Bytes)
    ensures (b + rest)[|b|..] == rest && forall i :: 0 <= i < |b| ==> (b + rest)[i] == b[i]
  {
  }

  lemma {:induction false} AcceptsTwo(x: byte, y: byte, rest: Bytes)
    requires 0xC2 <= x <= 0xDF && 0x80 <= y <= 0xBF && ValidUtf8(rest)
    ensures ValidUtf8([x, y] + rest)
  {
    Parts([x, y], rest);
  }

  lemma {:induction false} AcceptsThree(x: byte, y: byte, z: byte, rest: Bytes)
    requires 0xE0 <= x <= 0xEF && 0x80 <= y <= 0xBF && 0x80 <= z <= 0xBF && ValidUtf8(rest)
    requires (x == 0xE0 ==> y >= 0xA0) && (x == 0xED ==> y <= 0x9F)
    ensures ValidUtf8([x, y, z] + rest)
  {
    Parts([x, y, z], rest);
  }

  lemma {:induction false} AcceptsFour(x: byte, y: byte, z: byte, w: byte, rest: Bytes)
    requires 0xF0 <= x <= 0xF4 && 0x80 <= y <= 0xBF && 0x80 <= z <= 0xBF && 0x80 <= w <= 0xBF && ValidUtf8(rest)
    requires (x == 0xF0 ==> y >= 0x90) && (x == 0xF4 ==> y <= 0x8F)
    ensures ValidUtf8([x, y, z, w] + rest)
  {
    Parts([x, y, z, w], rest);
  }

  lemma {:induction false} EncodeAccepted(c: ScalarValue, rest: Bytes)
    requires ValidUtf8(rest)
    ensures ValidUtf8(Encode(c) + rest)
  {
    hide ValidUtf8;
    var b := Encode(c);
    if c < 0x80 {
      AcceptsOne(c, rest);
    } else if c < 0x800 {
      AcceptsTwo(b[0], b[1], rest);
    } else if c < 0x10000 {
      ThreeBounds(c);
      AcceptsThree(b[0], b[1], b[2], rest);
    } else {
      FourBounds(c);
      AcceptsFour(b[0], b[1], b[2], b[3], rest);
    }
  }

  lemma {:induction false} AcceptsOne(x: byte, rest: Bytes)
    requires x < 0x80 && ValidUtf8(rest)
    ensures ValidUtf8([x] + rest)
  {
    Parts([x], rest);
  }

  lemma ThreeBounds(c: ScalarValue)
    requires 0x800 <= c < 0x10000
    ensures c / 4096 == 0 ==> c / 64 % 64 >= 0x20
    ensures c / 4096 == 0xD ==> c / 64 % 64 <= 0x1F
  {
  }

  lemma FourBounds(c: ScalarValue)
    requires c >= 0x10000
    ensures c / 262144 <= 4
    ensures c / 262144 == 0 ==> c / 4096 % 64 >= 0x10
    ensures c / 262144 == 4 ==> c / 4096 % 64 <= 0xF
  {
  }

  // ---- what is accepted is an encoding ----

  lemma {:induction false} TwoDecodes(x: byte, y: byte) returns (c: ScalarValue)
    requires 0xC2 <= x <= 0xDF && 0x80 <= y <= 0xBF
    ensures Encode(c) == [x, y]
  {
    c := 64 * (x - 0xC0) + (y - 0x80);
  }

  lemma {:induction false} ThreeDecodes(x: byte, y: byte, z: byte) returns (c: ScalarValue)
    requires 0xE0 <= x <= 0xEF && 0x80 <= y <= 0xBF && 0x80 <= z <= 0xBF
    requires (x == 0xE0 ==> y >= 0xA0) && (x == 0xED ==> y <= 0x9F)
    ensures Encode(c) == [x, y, z]
  {
    c := 4096 * (x - 0xE0) + 64 * (y - 0x80) + (z - 0x80);
    assert c / 64 == 64 * (x - 0xE0) + (y - 0x80);
  }

  lemma {:induction false} FourDecodes(x: byte, y: byte, z: byte, w: byte) returns (c: ScalarValue)
    requires 0xF0 <= x <= 0xF4 && 0x80 <= y <= 0xBF && 0x80 <= z <= 0xBF && 0x80 <= w <= 0xBF
    requires (x == 0xF0 ==> y >= 0x90) && (x == 0xF4 ==> y <= 0x8F)
    ensures Encode(c) == [x, y, z, w]
  {
    c := 262144 * (x - 0xF0) + 4096 * (y - 0x80) + 64 * (z - 0x80) + (w - 0x80);
    assert c / 64 == 4096 * (x - 0xF0) + 64 * (y - 0x80) + (z - 0x80);
    assert c / 4096 == 64 * (x - 0xF0) + (y - 0x80);
  }

  lemma {:induction false} FirstDecodes(b: Bytes) returns (c: ScalarValue)
    requires b != [] && ValidUtf8(b)
    ensures var n := |Encode(c)|; 0 < n <= |b| && b[..n] == Encode(c) && ValidUtf8(b[n..])
  {
    hide Encode;
    if b[0] < 0x80 {
      c := b[0];
      OneByte(c);
    } else if b[0] <= 0xDF {
      c := TwoDecodes(b[0], b[1]);
    } else if b[0] <= 0xEF {
      c := ThreeDecodes(b[0], b[1], b[2]);
    } else {
      c := FourDecodes(b[0], b[1], b[2], b[3]);
    }
  }

  lemma OneByte(c: ScalarValue)
    requires c < 0x80
    ensures Encode(c) == [c]
  {
  }

  lemma {:induction false} Decodes(b: Bytes) returns (cs: seq<ScalarValue>)
    requires ValidUtf8(b)
    ensures EncodeAll(cs) == b
    decreases |b|
  {
    if b == [] {
      cs := [];
    } else {
      var c := FirstDecodes(b);
      hide Encode, ValidUtf8;
      var n := |Encode(c)|;
      var rest := Decodes(b[n..]);
      cs := [c] + rest;
      assert cs[1..] == rest && b == b[..n] + b[n..];
    }
  }

  lemma {:induction false} AllAccepted(cs: seq<ScalarValue>)
    ensures ValidUtf8(EncodeAll(cs))
    decreases |cs|
  {
    hide Encode;
    if cs != [] {
      AllAccepted(cs[1..]);
      hide ValidUtf8;
      EncodeAccepted(cs[0], EncodeAll(cs[1..]));
    }
  }

  /** A byte string passes the test if and only if it encodes some sequence of scalar values. */
  lemma {:induction false} ValidExactly(b: Bytes)
    ensures ValidUtf8(b) <==> exists cs: seq<ScalarValue> :: EncodeAll(cs) == b
  {
    hide ValidUtf8, EncodeAll;
    if ValidUtf8(b) {
      var cs := Decodes(b);
    }
    if cs: seq<ScalarValue> :| EncodeAll(cs) == b {
      AllAccepted(cs);
    }
  }
}
