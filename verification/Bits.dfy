/** Bitwise operations on unsigned words of `n` bits, and big-endian bytes. */
module Bits {
  import opened Basics

  function Pow2(n: nat): nat {
    if n == 0 then 1 else 2 * Pow2(n - 1)
  }

  function BitXor(a: nat, b: nat, n: nat): nat
    decreases n, a, b
  {
    if n == 0 then 0
    else (if a % 2 != b % 2 then 1 else 0) + 2 * BitXor(a / 2, b / 2, n - 1)
  }

  function BitAnd(a: nat, b: nat, n: nat): nat
    decreases n, a, b
  {
    if n == 0 then 0
    else (if a % 2 == 1 && b % 2 == 1 then 1 else 0) + 2 * BitAnd(a / 2, b / 2, n - 1)
  }

  /** `!a` on words of `n` bits. */
  function BitNot(a: nat, n: nat): nat
    requires a < Pow2(n)
  {
    Pow2(n) - 1 - a
  }

  lemma {:induction false} XorFits(a: nat, b: nat, n: nat)
    ensures BitXor(a, b, n) < Pow2(n)
  {
    if n > 0 {
      XorFits(a / 2, b / 2, n - 1);
    }
  }

  /** Applying the same mask twice gives the word back. */
  lemma {:induction false} XorTwice(a: nat, b: nat, n: nat)
    requires a < Pow2(n)
    ensures BitXor(BitXor(a, b, n), b, n) == a
  {
    if n > 0 {
      XorTwice(a / 2, b / 2, n - 1);
    }
  }

  lemma {:induction false} AndOnes(a: nat, n: nat)
    requires a < Pow2(n)
    ensures BitAnd(a, Pow2(n) - 1, n) == a
  {
    if n > 0 {
      AndOnes(a / 2, n - 1);
    }
  }

  /** Clearing the two low bits rounds down to a multiple of four. */
  lemma AndNotThree(a: nat, n: nat)
    requires n >= 2 && a < Pow2(n)
    ensures Pow2(n) == 4 * Pow2(n - 2)
    ensures BitAnd(a, BitNot(3, n), n) == a - a % 4
  {
    var mask := BitNot(3, n);
    AndOnes(a / 4, n - 2);
    assert mask / 2 / 2 == Pow2(n - 2) - 1 && a / 2 / 2 == a / 4;
    assert BitAnd(a / 2, mask / 2, n - 1) == 2 * BitAnd(a / 2 / 2, mask / 2 / 2, n - 2);
  }

  lemma Pow16()
    ensures Pow2(16) == 0x1_0000
  {
    assert Pow2(8) == 0x100;
    assert Pow2(12) == 0x1000;
  }

  lemma Pow32()
    ensures Pow2(32) == 0x1_0000_0000
  {
    Pow16();
    assert Pow2(20) == 0x10_0000;
    assert Pow2(24) == 0x100_0000;
    assert Pow2(28) == 0x1000_0000;
  }

  function Xor16(a: u16, b: u16): u16 {
    XorFits(a, b, 16);
    Pow16();
    BitXor(a, b, 16)
  }

  function Xor32(a: u32, b: u32): u32 {
    XorFits(a, b, 32);
    Pow32();
    BitXor(a, b, 32)
  }

  lemma XorBack(a: u16, b: u16, c: u32, d: u32)
    ensures Xor16(Xor16(a, b), b) == a
    ensures Xor32(Xor32(c, d), d) == c
  {
    Pow16();
    Pow32();
    XorTwice(a, b, 16);
    XorTwice(c, d, 32);
  }

  // ------------------------------------------------------------------------
  // Big-endian bytes
  // ------------------------------------------------------------------------

  function Be16(n: u16): (r: seq<byte>)
    ensures |r| == 2
  {
    [n / 0x100, n % 0x100]
  }

  function Be32(n: u32): (r: seq<byte>)
    ensures |r| == 4
  {
    Be16(n / 0x1_0000) + Be16(n % 0x1_0000)
  }

  /** Two bytes, the high one first. */
  function Word(high: byte, low: byte): u16 {
    (high as int) * 0x100 + low
  }

  function U16At(b: seq<byte>, i: nat): u16
    requires i + 2 <= |b|
  {
    Word(b[i], b[i + 1])
  }

  function U32At(b: seq<byte>, i: nat): u32
    requires i + 4 <= |b|
  {
    (Word(b[i], b[i + 1]) as int) * 0x1_0000 + Word(b[i + 2], b[i + 3])
  }

  lemma Be16Back(n: u16)
    ensures U16At(Be16(n), 0) == n
  {
  }

  lemma Be32Back(n: u32)
    ensures U32At(Be32(n), 0) == n
  {
    Be16Back(n / 0x1_0000);
    Be16Back(n % 0x1_0000);
  }

  lemma {:induction false} PowMonotone(a: nat, b: nat)
    requires a <= b
    ensures Pow2(a) <= Pow2(b)
    decreases b - a
  {
    if a < b {
      PowMonotone(a, b - 1);
    }
  }

  lemma PadFits(n: u16)
    ensures n + 3 < Pow2(64)
  {
    Pow32();
    PowMonotone(32, 64);
  }

  /** `(n + 3) & !3` on 64-bit words. */
  function PadTo4(n: u16): nat
  {
    PadFits(n);
    BitAnd(n + 3, BitNot(3, 64), 64)
  }

  /** The padding arithmetic rounds up to a multiple of four. */
  lemma PadIsRoundUp(n: u16)
    ensures PadTo4(n) % 4 == 0 && n <= PadTo4(n) < n + 4
  {
    hide Pow2, BitAnd, BitNot;
    PadFits(n);
    AndNotThree(n + 3, 64);
  }

  lemma MultipleInRange(n: nat, a: nat, b: nat)
    requires a % 4 == 0 && b % 4 == 0 && n <= a < n + 4 && n <= b < n + 4
    ensures a == b
  {
  }

  /** Rounding up by division, as a reader of RFC 5389 would write it. */
  lemma PadByDivision(n: u16)
    ensures PadTo4(n) == (n as int + 3) / 4 * 4
  {
    PadIsRoundUp(n);
    hide PadTo4;
    MultipleInRange(n, PadTo4(n), (n as int + 3) / 4 * 4);
  }
}
