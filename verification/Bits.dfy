/**
 Machine words as natural numbers, with the bitwise operators of C++ defined bit by bit.
 A byte or a 32-bit word is a bounded natural number; bit 0 is the least significant one.
 A C++ cast to an unsigned type of n bits keeps the low n bits: Low(x, n).
 */
module Bits {

  type Byte = n: nat | n < 256
  type Word = n: nat | n < 0x1_0000_0000

  const TWO32: nat := 0x1_0000_0000

  function Pow2(k: nat): (p: nat)
    ensures p > 0
  {
    if k == 0 then 1 else 2 * Pow2(k - 1)
  }

  /** Bit k of x. */
  predicate Bit(x: nat, k: nat)
  {
    if k == 0 then x % 2 == 1 else Bit(x / 2, k - 1)
  }

  function Or(x: nat, y: nat): nat
    decreases x + y
  {
    if x == 0 then y
    else if y == 0 then x
    else (if x % 2 == 1 || y % 2 == 1 then 1 else 0) + 2 * Or(x / 2, y / 2)
  }

  function And(x: nat, y: nat): nat
  {
    if x == 0 || y == 0 then 0
    else (if x % 2 == 1 && y % 2 == 1 then 1 else 0) + 2 * And(x / 2, y / 2)
  }

  function Shl(x: nat, k: nat): nat
  {
    if k == 0 then x else 2 * Shl(x, k - 1)
  }

  function Shr(x: nat, k: nat): nat
  {
    if k == 0 then x else Shr(x / 2, k - 1)
  }

  /** The low n bits of x. */
  function Low(x: nat, n: nat): nat
  {
    if n == 0 then 0 else x % 2 + 2 * Low(x / 2, n - 1)
  }

  /** The low n bits of x as a list, least significant first. */
  function BitsOf(x: nat, n: nat): (s: seq<bool>)
    ensures |s| == n
  {
    seq(n, k requires 0 <= k < n => Bit(x, k))
  }

  function ValueOf(s: seq<bool>): nat
  {
    if s == [] then 0 else (if s[0] then 1 else 0) + 2 * ValueOf(s[1..])
  }

  lemma {:induction false} ZeroBit(k: nat)
    ensures !Bit(0, k)
  {
    if k > 0 {
      ZeroBit(k - 1);
    }
  }

  lemma {:induction false} OrBit(x: nat, y: nat, k: nat)
    ensures Bit(Or(x, y), k) <==> Bit(x, k) || Bit(y, k)
  {
    ZeroBit(k);
    if x != 0 && y != 0 && k > 0 {
      OrBit(x / 2, y / 2, k - 1);
    }
  }

  lemma {:induction false} AndBit(x: nat, y: nat, k: nat)
    ensures Bit(And(x, y), k) <==> Bit(x, k) && Bit(y, k)
  {
    ZeroBit(k);
    if x != 0 && y != 0 && k > 0 {
      AndBit(x / 2, y / 2, k - 1);
    }
  }

  lemma {:induction false} ShlBit(x: nat, s: nat, k: nat)
    ensures Bit(Shl(x, s), k) <==> k >= s && Bit(x, k - s)
  {
    if s > 0 && k > 0 {
      ShlBit(x, s - 1, k - 1);
    }
  }

  lemma {:induction false} ShrBit(x: nat, s: nat, k: nat)
    ensures Bit(Shr(x, s), k) <==> Bit(x, k + s)
  {
    if s > 0 {
      ShrBit(x / 2, s - 1, k);
    }
  }

  lemma {:induction false} LowBit(x: nat, n: nat, k: nat)
    ensures Bit(Low(x, n), k) <==> k < n && Bit(x, k)
  {
    if n == 0 {
      ZeroBit(k);
    } else if k > 0 {
      LowBit(x / 2, n - 1, k - 1);
    }
  }

  lemma {:induction false} LowBound(x: nat, n: nat)
    ensures Low(x, n) < Pow2(n)
  {
    if n > 0 {
      LowBound(x / 2, n - 1);
    }
  }

  lemma {:induction false} LowIdentity(x: nat, n: nat)
    requires x < Pow2(n)
    ensures Low(x, n) == x
  {
    if n > 0 {
      LowIdentity(x / 2, n - 1);
    }
  }

  lemma {:induction false} OrBound(x: nat, y: nat, n: nat)
    requires x < Pow2(n) && y < Pow2(n)
    ensures Or(x, y) < Pow2(n)
  {
    if x != 0 && y != 0 {
      OrBound(x / 2, y / 2, n - 1);
    }
  }

  lemma {:induction false} AndBound(x: nat, y: nat)
    ensures And(x, y) <= x && And(x, y) <= y
  {
    if x != 0 && y != 0 {
      AndBound(x / 2, y / 2);
    }
  }

  lemma {:induction false} ShrBound(x: nat, s: nat)
    ensures Shr(x, s) <= x
  {
    if s > 0 {
      ShrBound(x / 2, s - 1);
    }
  }

  lemma {:induction false} BitOfBounded(x: nat, n: nat, k: nat)
    requires x < Pow2(n) && k >= n
    ensures !Bit(x, k)
  {
    if n == 0 {
      ZeroBit(k);
    } else {
      BitOfBounded(x / 2, n - 1, k - 1);
    }
  }

  lemma {:induction false} Pow2Values()
    ensures Pow2(5) == 32 && Pow2(6) == 64 && Pow2(7) == 128 && Pow2(8) == 256
    ensures Pow2(16) == 0x1_0000 && Pow2(32) == TWO32
  {
    assert Pow2(8) == 256;
    assert Pow2(16) == 0x1_0000 by { assert Pow2(12) == 4096; }
    assert Pow2(20) == 0x10_0000;
    assert Pow2(24) == 0x100_0000;
    assert Pow2(28) == 0x1000_0000;
  }

  lemma {:induction false} Pow2Monotone(a: nat, b: nat)
    requires a <= b
    ensures Pow2(a) <= Pow2(b)
  {
    if a < b {
      Pow2Monotone(a, b - 1);
    }
  }

  /** Reading a bit list back gives the low bits it was made from. */
  lemma {:induction false} ValueOfBitsOf(x: nat, n: nat)
    ensures ValueOf(BitsOf(x, n)) == Low(x, n)
  {
    if n > 0 {
      ValueOfBitsOf(x / 2, n - 1);
      assert BitsOf(x, n)[1..] == BitsOf(x / 2, n - 1);
    }
  }

  lemma {:induction false} BitsOfValueOf(s: seq<bool>)
    ensures BitsOf(ValueOf(s), |s|) == s
    ensures ValueOf(s) < Pow2(|s|)
  {
    if s != [] {
      var v := ValueOf(s);
      BitsOfValueOf(s[1..]);
      assert v / 2 == ValueOf(s[1..]);
      forall k | 0 <= k < |s| ensures BitsOf(v, |s|)[k] == s[k] {
        if k > 0 {
          assert BitsOf(v / 2, |s| - 1)[k - 1] == s[1..][k - 1];
        }
      }
    }
  }

  /** A value that fits in n bits survives being written as n bits and read back. */
  lemma {:induction false} BitsRoundTrip(x: nat, n: nat)
    requires x < Pow2(n)
    ensures ValueOf(BitsOf(x, n)) == x
  {
    ValueOfBitsOf(x, n);
    LowIdentity(x, n);
  }

  /** The bit lists of two naturals below 2^n agree only when the naturals do. */
  lemma {:induction false} BitsExtensional(x: nat, y: nat, n: nat)
    requires x < Pow2(n) && y < Pow2(n)
    requires forall k :: 0 <= k < n ==> (Bit(x, k) <==> Bit(y, k))
    ensures x == y
  {
    BitsRoundTrip(x, n);
    BitsRoundTrip(y, n);
    assert BitsOf(x, n) == BitsOf(y, n);
  }

  /** A bit mask of n ones, as (1 << n) - 1 computes it. */
  function Mask(n: nat): nat
  {
    Pow2(n) - 1
  }

  lemma {:induction false} MaskBit(n: nat, k: nat)
    ensures Bit(Mask(n), k) <==> k < n
  {
    if n == 0 {
      ZeroBit(k);
    } else if k > 0 {
      assert Mask(n) / 2 == Mask(n - 1);
      MaskBit(n - 1, k - 1);
    }
  }

  /** All bits of a bounded word flipped, as ~x does on an unsigned type of n bits. */
  function Not(x: nat, n: nat): nat
    requires x < Pow2(n)
  {
    Pow2(n) - 1 - x
  }

  lemma {:induction false} NotHalf(x: nat, n: nat)
    requires n > 0 && x < Pow2(n)
    ensures x / 2 < Pow2(n - 1) && Not(x, n) / 2 == Not(x / 2, n - 1)
    ensures Not(x, n) % 2 == 1 - x % 2
  {
    assert Pow2(n) == 2 * Pow2(n - 1);
  }

  lemma {:induction false} NotBit(x: nat, n: nat, k: nat)
    requires x < Pow2(n)
    ensures Bit(Not(x, n), k) <==> k < n && !Bit(x, k)
  {
    if n == 0 {
      ZeroBit(k);
    } else if k > 0 {
      NotHalf(x, n);
      NotBit(x / 2, n - 1, k - 1);
    } else {
      NotHalf(x, n);
    }
  }
}
