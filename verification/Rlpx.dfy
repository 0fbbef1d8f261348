/** RLPx framing (p2p/rlpx.go), as in the "Framing" section of the RLPx specification. The key stream,
    the digest and the block cipher are any functions of the right output lengths. */
module Rlpx {
  import opened Numbers
  import opened Transactions

  type Byte = x: int | 0 <= x < 256

  type Bytes = seq<Byte>

  const MAX_UINT24 := 0xFF_FFFF
  const TWO_TO_32 := 0x1_0000_0000

  // ---- exclusive or ----

  /** The exclusive or of the lowest `n` bits. */
  function XorBits(a: nat, b: nat, n: nat): nat
    ensures XorBits(a, b, n) < Pow2(n)
  {
    if n == 0 then 0 else 2 * XorBits(a / 2, b / 2, n - 1) + (if a % 2 == b % 2 then 0 else 1)
  }

  lemma {:induction false} XorTwice(a: nat, b: nat, n: nat)
    requires a < Pow2(n)
    ensures XorBits(XorBits(a, b, n), b, n) == a
  {
    if n > 0 {
      var x := XorBits(a, b, n);
      assert x / 2 == XorBits(a / 2, b / 2, n - 1);
      XorTwice(a / 2, b / 2, n - 1);
    }
  }

  function Xor(a: Byte, b: Byte): Byte
  {
    assert Pow2(8) == 256 by { EightBits(); }
    XorBits(a, b, 8)
  }

  lemma EightBits()
    ensures Pow2(8) == 256
  {
    assert Pow2(4) == 16;
    assert Pow2(8) == 16 * Pow2(4) by {
      assert Pow2(6) == 4 * Pow2(4);
    }
  }

  lemma XorBack(a: Byte, b: Byte)
    ensures Xor(Xor(a, b), b) == a
  {
    EightBits();
    XorTwice(a, b, 8);
  }

  lemma {:induction false} XorBitsEitherWay(a: nat, b: nat, n: nat)
    ensures XorBits(a, b, n) == XorBits(b, a, n)
  {
    if n > 0 {
      XorBitsEitherWay(a / 2, b / 2, n - 1);
    }
  }

  /** Under one mask different bytes stay different. */
  lemma XorApart(mask: Byte, a: Byte, b: Byte)
    requires a != b
    ensures Xor(mask, a) != Xor(mask, b)
  {
    XorBitsEitherWay(mask, a, 8);
    XorBitsEitherWay(mask, b, 8);
    XorBack(a, mask);
    XorBack(b, mask);
  }

  // ---- the 24-bit size ----

  function PutInt24(v: nat): Bytes
    requires v <= MAX_UINT24
  {
    [v / 65536, v / 256 % 256, v % 256]
  }

  function ReadInt24(b: Bytes): nat
    requires |b| >= 3
    ensures ReadInt24(b) <= MAX_UINT24
  {
    (b[2] as int) + 256 * (b[1] as int) + 65536 * (b[0] as int)
  }

  lemma Int24RoundTrip(v: nat, rest: Bytes)
    requires v <= MAX_UINT24
    ensures ReadInt24(PutInt24(v) + rest) == v
  {
  }

  // ---- message codes ----

  /** The bytes of a number, most significant first, without leading zeros. */
  function BigEndian(v: nat): Bytes
  {
    if v == 0 then [] else BigEndian(v / 256) + [v % 256]
  }

  function FromBigEndian(b: Bytes): nat
  {
    if b == [] then 0 else 256 * FromBigEndian(b[..|b| - 1]) + b[|b| - 1]
  }

  lemma {:induction false} BigEndianRoundTrip(v: nat)
    ensures FromBigEndian(BigEndian(v)) == v && (v > 0 ==> BigEndian(v) != [] && BigEndian(v)[0] != 0)
  {
    if v > 0 {
      BigEndianRoundTrip(v / 256);
      var b := BigEndian(v);
      assert b[..|b| - 1] == BigEndian(v / 256);
    }
  }

  lemma {:induction false} BigEndianLength(v: nat, n: nat)
    requires v < Pow256(n)
    ensures |BigEndian(v)| <= n
  {
    if v > 0 {
      BigEndianLength(v / 256, n - 1);
    }
  }

  function Pow256(n: nat): nat
  {
    if n == 0 then 1 else 256 * Pow256(n - 1)
  }

  /** The RLP encoding of an unsigned 64-bit number. */
  function EncodeUint(v: nat): Bytes
    requires v < Pow256(8)
  {
    BigEndianLength(v, 8);
    if v == 0 then [0x80] else if v < 0x80 then [v] else [0x80 + |BigEndian(v)|] + BigEndian(v)
  }

  /** Some encodings that the RLP specification gives. */
  lemma KnownEncodings()
    ensures 1024 < Pow256(8)
    ensures EncodeUint(0) == [0x80] && EncodeUint(15) == [0x0F] && EncodeUint(1024) == [0x82, 0x04, 0x00]
  {
    assert Pow256(8) == 256 * (256 * Pow256(6));
    assert BigEndian(4) == [4] && BigEndian(1024) == [4, 0];
  }

  /** Reads an unsigned 64-bit number off the front; only the shortest form is accepted. */
  function DecodeUint(b: Bytes): Option<(nat, nat)>
  {
    if b == [] then None
    else if b[0] < 0x80 then (if b[0] == 0 then None else Some((b[0], 1)))
    else
      var n := b[0] - 0x80;
      if n > 8 || |b| < 1 + n then None
      else
        var digits := b[1..1 + n];
        if n > 0 && digits[0] == 0 then None
        else if n == 1 && digits[0] < 0x80 then None
        else Some((FromBigEndian(digits), 1 + n))
  }

  lemma UintRoundTrip(v: nat, rest: Bytes)
    requires v < Pow256(8)
    ensures DecodeUint(EncodeUint(v) + rest) == Some((v, |EncodeUint(v)|))
  {
    if v >= 0x80 {
      BigEndianLength(v, 8);
      BigEndianRoundTrip(v);
      LongForm(v, BigEndian(v), rest);
    }
  }

  lemma LongForm(v: nat, digits: Bytes, rest: Bytes)
    requires v >= 0x80 && 0 < |digits| <= 8 && digits[0] != 0 && FromBigEndian(digits) == v
    ensures DecodeUint([0x80 + |digits|] + digits + rest) == Some((v, 1 + |digits|))
  {
    var e := [0x80 + |digits|] + digits + rest;
    assert e[1..1 + |digits|] == digits;
    if |digits| == 1 {
      assert digits[..0] == [];
      assert FromBigEndian(digits[..0]) == 0;
    }
  }
}
