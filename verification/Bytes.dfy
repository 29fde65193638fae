/**
 Byte strings: the big-endian integers of utils/wrappers/packing.go and the order of bytes.Compare.
 */
module Bytes {

  type byte = x: int | 0 <= x < 256
  type bytes = seq<byte>

  const MAX_UINT16 := 0xFFFF
  const MAX_INT32 := 0x7FFF_FFFF
  const MAX_UINT32 := 0xFFFF_FFFF
  const MAX_UINT64 := 0xFFFF_FFFF_FFFF_FFFF

  type uint32 = n: int | 0 <= n <= MAX_UINT32
  type uint64 = n: int | 0 <= n <= MAX_UINT64

  function Pow256(width: nat): (p: nat)
    ensures p > 0
  {
    if width == 0 then 1 else 256 * Pow256(width - 1)
  }

  // The `width` low-order bytes of n, most significant first.
  function ToBigEndian(n: nat, width: nat): (b: bytes)
    ensures |b| == width
  {
    if width == 0 then [] else ToBigEndian(n / 256, width - 1) + [n % 256]
  }

  function FromBigEndian(b: bytes): nat {
    if b == [] then 0 else FromBigEndian(b[..|b| - 1]) * 256 + b[|b| - 1]
  }

  lemma {:induction false} FromBigEndianBound(b: bytes)
    ensures FromBigEndian(b) < Pow256(|b|)
  {
    if b != [] {
      FromBigEndianBound(b[..|b| - 1]);
    }
  }

  lemma LastByte(b: bytes, low: byte)
    ensures FromBigEndian(b + [low]) == FromBigEndian(b) * 256 + low
  {
    assert (b + [low])[..|b|] == b;
  }

  // Reading back what was written gives the number, if it fits the width.
  lemma {:induction false} BigEndianRoundTrip(n: nat, width: nat)
    requires n < Pow256(width)
    ensures FromBigEndian(ToBigEndian(n, width)) == n
  {
    if width > 0 {
      var high, low := n / 256, n % 256;
      assert n == high * 256 + low;
      var b := ToBigEndian(high, width - 1);
      BigEndianRoundTrip(high, width - 1);
      LastByte(b, low);
    }
  }

  // Writing back what was read gives the bytes.
  lemma {:induction false} BigEndianCanonical(b: bytes)
    ensures ToBigEndian(FromBigEndian(b), |b|) == b
  {
    if b != [] {
      var front := b[..|b| - 1];
      BigEndianCanonical(front);
      assert FromBigEndian(b) / 256 == FromBigEndian(front) && FromBigEndian(b) % 256 == b[|b| - 1];
      assert b == front + [b[|b| - 1]];
    }
  }

  // bytes.Compare(a, b) == -1
  predicate Less(a: bytes, b: bytes) {
    b != [] && (a == [] || a[0] < b[0] || (a[0] == b[0] && Less(a[1..], b[1..])))
  }

  lemma LessIrreflexive(a: bytes)
    ensures !Less(a, a)
  {
  }

  lemma LessTransitive(a: bytes, b: bytes, c: bytes)
    requires Less(a, b) && Less(b, c)
    ensures Less(a, c)
  {
  }

  lemma LessTotal(a: bytes, b: bytes)
    ensures a == b || Less(a, b) || Less(b, a)
  {
    if a != [] && b != [] {
      assert a == [a[0]] + a[1..] && b == [b[0]] + b[1..];
      LessTotal(a[1..], b[1..]);
    }
  }
}
