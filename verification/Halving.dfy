/** Halving a whole number again and again, as the emission schedule of nir/model.py does. */
module Halving {
  /** reward >> halvings */
  function Halve(reward: nat, halvings: nat): nat {
    if halvings == 0 then reward else Halve(reward / 2, halvings - 1)
  }

  function OneBits(n: nat): nat {
    if n == 0 then 0 else n % 2 + OneBits(n / 2)
  }

  ghost function HalvingSum(reward: nat, eras: nat): nat {
    if eras == 0 then 0 else reward + HalvingSum(reward / 2, eras - 1)
  }

  /** After any number of eras, what was scheduled and what is still to come add up to twice
      the initial reward, less its number of one bits. */
  lemma {:induction false} HalvingClosedForm(reward: nat, eras: nat)
    ensures HalvingSum(reward, eras) + 2 * Halve(reward, eras) - OneBits(Halve(reward, eras)) == 2 * reward - OneBits(reward)
  {
    if eras > 0 {
      HalvingClosedForm(reward / 2, eras - 1);
    }
  }

  lemma {:induction false} HalveNext(reward: nat, k: nat)
    ensures Halve(reward, k + 1) == Halve(reward, k) / 2
  {
    if k > 0 {
      HalveNext(reward / 2, k - 1);
    }
  }

  lemma {:induction false} HalvingSumLast(reward: nat, k: nat)
    ensures HalvingSum(reward, k + 1) == HalvingSum(reward, k) + Halve(reward, k)
  {
    if k > 0 {
      HalvingSumLast(reward / 2, k - 1);
    }
  }

  lemma {:induction false} OneBitsAtMost(n: nat)
    ensures OneBits(n) <= n
  {
    if n > 0 {
      OneBitsAtMost(n / 2);
    }
  }

  /** A reward below 2^k is gone after k halvings. */
  lemma {:induction false} HalveBelow(reward: nat, k: nat)
    requires reward < PowerOfTwo(k)
    ensures Halve(reward, k) == 0
  {
    if k > 0 {
      HalveBelow(reward / 2, k - 1);
    }
  }

  function PowerOfTwo(k: nat): nat {
    if k == 0 then 1 else 2 * PowerOfTwo(k - 1)
  }

  lemma {:induction false} HalveZero(reward: nat, k: nat, more: nat)
    requires Halve(reward, k) == 0 && k <= more
    ensures Halve(reward, more) == 0
    decreases more
  {
    if k < more {
      HalveZero(reward, k, more - 1);
      HalveNext(reward, more - 1);
    }
  }

  lemma Doubling(n: nat, half: nat, bit: nat)
    requires bit < 2 && n == 2 * half + bit
    ensures OneBits(n) == OneBits(half) + bit
  {
    assert n / 2 == half;
  }

  lemma FourBits(n: nat, high: nat, a: nat, b: nat, c: nat, d: nat)
    requires a < 2 && b < 2 && c < 2 && d < 2
    requires n == 16 * high + 8 * a + 4 * b + 2 * c + d
    ensures OneBits(n) == OneBits(high) + a + b + c + d
  {
    var x: nat :| x == 2 * high + a;
    var y: nat :| y == 2 * x + b;
    var z: nat :| z == 2 * y + c;
    Doubling(x, high, a);
    Doubling(y, x, b);
    Doubling(z, y, c);
    Doubling(n, z, d);
  }

  lemma HighBits(n: nat)
    requires n == 0x1_0642
    ensures OneBits(n) == 5
  {
    FourBits(n, 0x1064, 0, 0, 1, 0);
    var a: nat :| a == 0x1064;
    FourBits(a, 0x106, 0, 1, 0, 0);
    var b: nat :| b == 0x106;
    FourBits(b, 0x10, 0, 1, 1, 0);
  }

  lemma LowBits(n: nat, high: nat)
    requires n == 4_400_000_000 && high == 0x1_0642
    ensures OneBits(n) == 4 + OneBits(high)
  {
    var a: nat :| a == 0x1064_2AC0;
    var b: nat :| b == 0x106_42AC;
    var c: nat :| c == 0x10_642A;
    FourBits(n, a, 0, 0, 0, 0);
    FourBits(a, b, 0, 0, 0, 0);
    FourBits(b, c, 1, 1, 0, 0);
    FourBits(c, high, 1, 0, 1, 0);
  }

  /** 4,400,000,000 is 0x1_0642_AC00. */
  lemma BitsOf44(n: nat)
    requires n == 4_400_000_000
    ensures OneBits(n) == 9
  {
    var high: nat :| high == 0x1_0642;
    LowBits(n, high);
    HighBits(high);
  }

  lemma EndOf44()
    ensures Halve(4_400_000_000, 33) == 0
  {
    assert PowerOfTwo(6) == 64;
    assert PowerOfTwo(12) == 4_096;
    assert PowerOfTwo(18) == 262_144;
    assert PowerOfTwo(24) == 16_777_216;
    assert PowerOfTwo(28) == 268_435_456;
    assert PowerOfTwo(33) == 8_589_934_592;
    HalveBelow(4_400_000_000, 33);
  }
}
