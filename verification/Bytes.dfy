/** Byte strings: big-endian integers, byte swaps and the double encoding of 32-bit integers. */
module Bytes {
  import opened Basics

  type byte = u8

  function Pow256(k: nat): nat {
    if k == 0 then 1 else 256 * Pow256(k - 1)
  }

  /** The `k` bytes of `n`, most significant first. */
  function Be(n: nat, k: nat): (bs: seq<byte>)
    ensures |bs| == k
  {
    if k == 0 then [] else Be(n / 256, k - 1) + [n % 256]
  }

  function FromBe(bs: seq<byte>): nat {
    if bs == [] then 0 else FromBe(Front(bs)) * 256 + Last(bs)
  }

  lemma {:induction false} FromBeOfBe(n: nat, k: nat)
    requires n < Pow256(k)
    ensures FromBe(Be(n, k)) == n
  {
    if k > 0 {
      assert n / 256 < Pow256(k - 1);
      FromBeOfBe(n / 256, k - 1);
      var bs := Be(n, k);
      assert Front(bs) == Be(n / 256, k - 1) && Last(bs) == n % 256;
    }
  }

  lemma {:induction false} BeOfFromBe(bs: seq<byte>)
    ensures FromBe(bs) < Pow256(|bs|) && Be(FromBe(bs), |bs|) == bs
  {
    if bs == [] {
    } else {
      BeOfFromBe(Front(bs));
      var n, b := FromBe(Front(bs)), Last(bs);
      assert (n * 256 + b) / 256 == n && (n * 256 + b) % 256 == b;
      assert bs == Front(bs) + [b];
    }
  }

  lemma Powers()
    ensures Pow256(2) == 0x1_0000 && Pow256(4) == 0x1_0000_0000 && Pow256(8) == 0x1_0000_0000_0000_0000
  {
    assert Pow256(3) == 0x100_0000;
    assert Pow256(6) == 0x1_0000_0000_0000;
  }

  function Reverse(bs: seq<byte>): (r: seq<byte>)
    ensures |r| == |bs|
    ensures forall i | 0 <= i < |bs| :: r[i] == bs[|bs| - 1 - i]
  {
    seq(|bs|, i requires 0 <= i < |bs| => bs[|bs| - 1 - i])
  }

  // ---------------------------------------------------------------- htonl and htonll on a little-endian host

  /** The value `htonl` and `ntohl` give: the same four bytes in the other order. */
  function Swap32(n: u32): u32 {
    Powers();
    BeOfFromBe(Reverse(Be(n, 4)));
    FromBe(Reverse(Be(n, 4)))
  }

  lemma SwapTwice(n: u32)
    ensures Swap32(Swap32(n)) == n
  {
    Powers();
    var bs := Be(n, 4);
    BeOfFromBe(Reverse(bs));
    assert Reverse(Reverse(bs)) == bs;
    FromBeOfBe(n, 4);
  }

  /** The memory image of `htonll`: the swapped high half, then the swapped low half. */
  function Htonll(n: u64): (bs: seq<byte>)
    ensures |bs| == 8
  {
    Be(n / TWO32, 4) + Be(n % TWO32, 4)
  }

  function Ntohll(bs: seq<byte>): u64
    requires |bs| == 8
  {
    Powers();
    BeOfFromBe(bs[..4]);
    BeOfFromBe(bs[4..]);
    FromBe(bs[..4]) * TWO32 + FromBe(bs[4..])
  }

  lemma NtohllOfHtonll(n: u64)
    ensures Ntohll(Htonll(n)) == n
  {
    Powers();
    FromBeOfBe(n / TWO32, 4);
    FromBeOfBe(n % TWO32, 4);
  }

  /** The two swapped halves are the eight bytes in network order. */
  lemma HtonllIsBigEndian(n: u64)
    ensures Htonll(n) == Be(n, 8)
  {
    LastFour(n, 4);
  }

  lemma LastFour(n: nat, k: nat)
    ensures Be(n, k + 4) == Be(n / TWO32, k) + Be(n % TWO32, 4)
  {
    var a, m := n / 0x1_0000, n % TWO32;
    LastTwo(n, k + 2);
    LastTwo(a, k);
    LastTwo(m, 2);
    LastTwo(m / 0x1_0000, 0);
    assert a / 0x1_0000 == n / TWO32 && a % 0x1_0000 == m / 0x1_0000 && m % 0x1_0000 == n % 0x1_0000;
    assert Be(a % 0x1_0000, 2) == Be(m / 0x1_0000, 2);
  }

  lemma LastTwo(n: nat, k: nat)
    ensures Be(n, k + 2) == Be(n / 0x1_0000, k) + Be(n % 0x1_0000, 2)
  {
    var m := n % 0x1_0000;
    assert n / 256 / 256 == n / 0x1_0000 && n / 256 % 256 == m / 256 && n % 256 == m % 256;
    assert m / 256 % 256 == m / 256;
    assert Be(m, 2) == [m / 256, m % 256] by {
      assert Be(m, 2) == Be(m / 256, 1) + [m % 256];
      assert Be(m / 256, 1) == Be(m / 256 / 256, 0) + [m / 256 % 256];
    }
    assert Be(n, k + 2) == Be(n / 256, k + 1) + [n % 256];
    assert Be(n / 256, k + 1) == Be(n / 256 / 256, k) + [n / 256 % 256];
  }

  // ---------------------------------------------------------------- doubles

  const TWO52 := 0x10_0000_0000_0000

  function Pow2(k: nat): nat {
    if k == 0 then 1 else 2 * Pow2(k - 1)
  }

  /** The position of the leading bit. */
  function Log2(n: nat): (e: nat)
    requires n > 0
    ensures Pow2(e) <= n < Pow2(e + 1)
  {
    if n == 1 then 0 else Log2(n / 2) + 1
  }

  function Shl(n: nat, k: nat): nat {
    if k == 0 then n else 2 * Shl(n, k - 1)
  }

  function Shr(n: nat, k: nat): nat {
    if k == 0 then n else Shr(n / 2, k - 1)
  }

  lemma {:induction false} ShrOfShl(n: nat, k: nat)
    ensures Shr(Shl(n, k), k) == n
  {
    if k > 0 {
      ShrOfShl(n, k - 1);
    }
  }

  lemma {:induction false} ShlBounds(n: nat, e: nat, k: nat)
    requires Pow2(e) <= n < Pow2(e + 1)
    ensures Pow2(e + k) <= Shl(n, k) < Pow2(e + k + 1)
  {
    if k > 0 {
      ShlBounds(n, e, k - 1);
      assert Pow2(e + k) == 2 * Pow2(e + k - 1);
    }
  }

  lemma Pow2Facts()
    ensures Pow2(32) == TWO32 && Pow2(52) == TWO52 && Pow2(53) == 2 * TWO52
  {
    Pow2Eight(0);
    Pow2Eight(8);
    Pow2Eight(16);
    Pow2Eight(24);
    Pow2Eight(32);
    Pow2Eight(40);
    Pow2Four(48);
    assert Pow2(53) == 2 * Pow2(52);
  }

  lemma Pow2Four(a: nat)
    ensures Pow2(a + 4) == 16 * Pow2(a)
  {
    assert Pow2(a + 4) == 2 * Pow2(a + 3);
    assert Pow2(a + 2) == 2 * Pow2(a + 1);
  }

  lemma Pow2Eight(a: nat)
    ensures Pow2(a + 8) == 256 * Pow2(a)
  {
    Pow2Four(a);
    Pow2Four(a + 4);
  }

  lemma {:induction false} Log2Bound(n: nat, k: nat)
    requires 0 < n < Pow2(k)
    ensures Log2(n) < k
  {
    if n > 1 {
      Log2Bound(n / 2, k - 1);
    }
  }

  /** The 53-bit significand of `n` starts with its leading bit. */
  lemma Normal(n: u32)
    requires n > 0
    ensures Log2(n) < 32
    ensures TWO52 <= Shl(n, 52 - Log2(n)) < 2 * TWO52
  {
    hide Shl;
    Pow2Facts();
    Log2Bound(n, 32);
    ShlBounds(n, Log2(n), 52 - Log2(n));
  }

  /** The 64 bits of the IEEE 754 double that holds the integer `n`. */
  function DoubleBits(n: u32): nat {
    if n == 0 then 0
    else
      Normal(n);
      (1023 + Log2(n)) * TWO52 + (Shl(n, 52 - Log2(n)) - TWO52)
  }

  /** A double converted to uint32_t: truncated toward zero, undefined out of range. */
  function BitsToU32(bits: nat): Option<u32> {
    var exponent := bits / TWO52;
    if exponent % 2048 < 1023 then Some(0)
    else if exponent >= 1023 + 32 then None
    else
      var v := Shr(TWO52 + bits % TWO52, 52 - (exponent - 1023));
      if v < TWO32 then Some(v) else None
  }

  lemma DoubleRoundTrip(n: u32)
    ensures BitsToU32(DoubleBits(n)) == Some(n)
    ensures DoubleBits(n) < TWO64
  {
    hide Shl, Shr, Pow2, Log2;
    if n > 0 {
      Normal(n);
      var e := Log2(n);
      var bits := DoubleBits(n);
      assert bits / TWO52 == 1023 + e && TWO52 + bits % TWO52 == Shl(n, 52 - e);
      ShrOfShl(n, 52 - e);
    }
  }
}
