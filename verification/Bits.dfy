// Bitwise arithmetic on natural numbers. A machine word is a number below a
// power of two; every operation is characterised by what it does to each bit,
// and a number is determined by its bits.

module Bits {
  import opened Words

  function Pow2(n: nat): (r: nat)
    ensures r >= 1
  {
    if n == 0 then 1 else 2 * Pow2(n - 1)
  }

  predicate Bit(x: nat, k: nat) {
    if k == 0 then x % 2 == 1 else Bit(x / 2, k - 1)
  }

  // x & y
  function And(x: nat, y: nat): nat {
    if x == 0 then 0 else 2 * And(x / 2, y / 2) + FromBit(x % 2 == 1 && y % 2 == 1)
  }

  // x | y
  function Or(x: nat, y: nat): nat {
    if x == 0 && y == 0 then 0 else 2 * Or(x / 2, y / 2) + FromBit(x % 2 == 1 || y % 2 == 1)
  }

  // x & !y
  function AndNot(x: nat, y: nat): nat {
    if x == 0 then 0 else 2 * AndNot(x / 2, y / 2) + FromBit(x % 2 == 1 && y % 2 == 0)
  }

  // x << n, x >> n, and the low n bits of x.
  function Shl(x: nat, n: nat): nat {
    if n == 0 then x else 2 * Shl(x, n - 1)
  }

  function Shr(x: nat, n: nat): nat {
    if n == 0 then x else Shr(x / 2, n - 1)
  }

  function Low(x: nat, n: nat): nat {
    if n == 0 then 0 else 2 * Low(x / 2, n - 1) + x % 2
  }

  // The n lowest bits set.
  function Ones(n: nat): nat {
    Pow2(n) - 1
  }

  lemma BitOfZero(k: nat)
    ensures !Bit(0, k)
  {
  }

  lemma {:induction false} BitOfAnd(x: nat, y: nat, k: nat)
    ensures Bit(And(x, y), k) <==> Bit(x, k) && Bit(y, k)
  {
    if x == 0 {
      BitOfZero(k);
    } else if k > 0 {
      BitOfAnd(x / 2, y / 2, k - 1);
    }
  }

  lemma {:induction false} BitOfOr(x: nat, y: nat, k: nat)
    ensures Bit(Or(x, y), k) <==> Bit(x, k) || Bit(y, k)
  {
    if x == 0 && y == 0 {
      BitOfZero(k);
    } else if k > 0 {
      BitOfOr(x / 2, y / 2, k - 1);
    }
  }

  lemma {:induction false} BitOfAndNot(x: nat, y: nat, k: nat)
    ensures Bit(AndNot(x, y), k) <==> Bit(x, k) && !Bit(y, k)
  {
    if x == 0 {
      BitOfZero(k);
    } else if k > 0 {
      BitOfAndNot(x / 2, y / 2, k - 1);
    }
  }

  lemma {:induction false} BitOfShl(x: nat, n: nat, k: nat)
    ensures Bit(Shl(x, n), k) <==> k >= n && Bit(x, k - n)
  {
    if n > 0 && k > 0 {
      BitOfShl(x, n - 1, k - 1);
    }
  }

  lemma {:induction false} BitOfShr(x: nat, n: nat, k: nat)
    ensures Bit(Shr(x, n), k) <==> Bit(x, n + k)
  {
    if n > 0 {
      BitOfShr(x / 2, n - 1, k);
    }
  }

  lemma {:induction false} BitOfLow(x: nat, n: nat, k: nat)
    ensures Bit(Low(x, n), k) <==> k < n && Bit(x, k)
  {
    if n == 0 {
      BitOfZero(k);
    } else if k > 0 {
      assert Low(x, n) / 2 == Low(x / 2, n - 1);
      BitOfLow(x / 2, n - 1, k - 1);
    }
  }

  lemma {:induction false} BitOfOnes(n: nat, k: nat)
    ensures Bit(Ones(n), k) <==> k < n
  {
    if n == 0 {
      BitOfZero(k);
    } else if k > 0 {
      assert Ones(n) / 2 == Ones(n - 1);
      BitOfOnes(n - 1, k - 1);
    }
  }

  lemma {:induction false} BitOfPow2(n: nat, k: nat)
    ensures Bit(Pow2(n), k) <==> k == n
  {
    if n == 0 {
      if k > 0 {
        BitOfZero(k - 1);
      }
    } else if k > 0 {
      BitOfPow2(n - 1, k - 1);
    }
  }

  // A number is determined by its bits.
  lemma {:induction false} SameBits(x: nat, y: nat)
    requires forall k: nat :: Bit(x, k) <==> Bit(y, k)
    ensures x == y
    decreases x + y
  {
    if x != 0 || y != 0 {
      assert Bit(x, 0) <==> Bit(y, 0);
      forall k: nat
        ensures Bit(x / 2, k) <==> Bit(y / 2, k)
      {
        assert Bit(x, k + 1) <==> Bit(y, k + 1);
      }
      SameBits(x / 2, y / 2);
    }
  }

  // A number fits in n bits exactly when no bit from n on is set.
  lemma {:induction false} HighBitsClear(x: nat, n: nat, k: nat)
    requires x < Pow2(n) && n <= k
    ensures !Bit(x, k)
  {
    if n == 0 {
      BitOfZero(k);
    } else {
      HighBitsClear(x / 2, n - 1, k - 1);
    }
  }

  lemma {:induction false} SomeBit(x: nat) returns (k: nat)
    requires x != 0
    ensures Bit(x, k)
  {
    if x % 2 == 1 {
      k := 0;
    } else {
      var j := SomeBit(x / 2);
      k := j + 1;
    }
  }

  // Shifts and truncation are multiplication, division and remainder.
  lemma {:induction false} ShlIsMul(x: nat, n: nat)
    ensures Shl(x, n) == x * Pow2(n)
  {
    if n > 0 {
      ShlIsMul(x, n - 1);
    }
  }

  lemma {:induction false} SplitAt(x: nat, n: nat)
    ensures x == Shl(Shr(x, n), n) + Low(x, n)
    ensures Low(x, n) < Pow2(n)
  {
    if n > 0 {
      SplitAt(x / 2, n - 1);
    }
  }

  lemma LowIsMod(x: nat, n: nat)
    ensures Low(x, n) == x % Pow2(n) && Shr(x, n) == x / Pow2(n)
  {
    SplitAt(x, n);
    ShlIsMul(Shr(x, n), n);
    DivModUnique(x, Pow2(n), Shr(x, n), Low(x, n));
  }

  lemma AtLeastOnce(a: nat, d: nat)
    requires a >= 1
    ensures a * d >= d
  {
    assert a * d == (a - 1) * d + d;
  }

  lemma DivModUnique(x: nat, d: nat, q: nat, r: nat)
    requires d > 0 && r < d && x == q * d + r
    ensures x / d == q && x % d == r
  {
    var q', r' := x / d, x % d;
    assert x == q' * d + r' && r' < d;
    assert (q' - q) * d == r - r';
    if q < q' {
      AtLeastOnce(q' - q, d);
    } else if q' < q {
      AtLeastOnce(q - q', d);
    }
  }

  lemma {:induction false} OrFits(x: nat, y: nat, n: nat)
    requires x < Pow2(n) && y < Pow2(n)
    ensures Or(x, y) < Pow2(n)
  {
    if n > 0 && (x != 0 || y != 0) {
      OrFits(x / 2, y / 2, n - 1);
    }
  }

  lemma {:induction false} AndShrinks(x: nat, y: nat)
    ensures And(x, y) <= x
  {
    if x != 0 {
      AndShrinks(x / 2, y / 2);
    }
  }

  lemma {:induction false} AndNotShrinks(x: nat, y: nat)
    ensures AndNot(x, y) <= x
  {
    if x != 0 {
      AndNotShrinks(x / 2, y / 2);
    }
  }

  lemma {:induction false} Pow2Increases(m: nat, n: nat)
    requires m < n
    ensures Pow2(m) < Pow2(n)
  {
    if m < n - 1 {
      Pow2Increases(m, n - 1);
    }
  }

  lemma Pow2Plus8(n: nat)
    ensures Pow2(n + 8) == 256 * Pow2(n)
  {
    assert Pow2(n + 2) == 4 * Pow2(n);
    assert Pow2(n + 4) == 4 * Pow2(n + 2);
    assert Pow2(n + 6) == 4 * Pow2(n + 4);
    assert Pow2(n + 8) == 4 * Pow2(n + 6);
  }

  lemma {:induction false} CapacityIsPow2(bytes: nat)
    ensures Capacity(bytes) == Pow2(8 * bytes)
  {
    if bytes > 0 {
      CapacityIsPow2(bytes - 1);
      Pow2Plus8(8 * (bytes - 1));
    }
  }

  lemma Widths()
    ensures Pow2(8) == 0x100 && Pow2(64) == 0x1_0000_0000_0000_0000
  {
    CapacityIsPow2(1);
    CapacityIsPow2(8);
  }

  // x | 1 << k, in a word of the given width.
  function SetBit(x: nat, k: nat, width: nat): (r: nat)
    requires x < Pow2(width) && k < width
    ensures r < Pow2(width)
  {
    Pow2Increases(k, width);
    OrFits(x, Pow2(k), width);
    Or(x, Pow2(k))
  }

  lemma SetBitBits(x: nat, k: nat, j: nat)
    ensures Bit(Or(x, Pow2(k)), j) <==> j == k || Bit(x, j)
  {
    BitOfOr(x, Pow2(k), j);
    BitOfPow2(k, j);
  }

  // x & !(1 << k)
  function ClearBit(x: nat, k: nat): (r: nat)
    ensures r <= x
  {
    AndNotShrinks(x, Pow2(k));
    AndNot(x, Pow2(k))
  }

  lemma ClearBitBits(x: nat, k: nat, j: nat)
    ensures Bit(ClearBit(x, k), j) <==> j != k && Bit(x, j)
  {
    BitOfAndNot(x, Pow2(k), j);
    BitOfPow2(k, j);
  }

  // Bits as arithmetic: testing one is a quotient's parity, setting or clearing
  // one adds or subtracts its weight.
  lemma BitIsParity(x: nat, k: nat)
    ensures Bit(x, k) <==> (x / Pow2(k)) % 2 == 1
  {
    LowIsMod(x, k);
    BitOfShr(x, k, 0);
  }

  lemma {:induction false} SetBitIsSum(x: nat, k: nat)
    ensures Or(x, Pow2(k)) == if Bit(x, k) then x else x + Pow2(k)
  {
    if k == 0 {
      OrZeroRight(x / 2);
    } else {
      SetBitIsSum(x / 2, k - 1);
    }
  }

  lemma {:induction false} ClearBitIsDifference(x: nat, k: nat)
    ensures AndNot(x, Pow2(k)) == if Bit(x, k) then x - Pow2(k) else x
  {
    if x == 0 {
      BitOfZero(k);
    } else if k == 0 {
      AndNotZero(x / 2);
    } else {
      ClearBitIsDifference(x / 2, k - 1);
    }
  }

  lemma {:induction false} OrZeroRight(x: nat)
    ensures Or(x, 0) == x
  {
    if x != 0 {
      OrZeroRight(x / 2);
    }
  }

  lemma {:induction false} AndNotZero(x: nat)
    ensures AndNot(x, 0) == x
  {
    if x != 0 {
      AndNotZero(x / 2);
    }
  }

  // Joining a low part of n bits and a high part.
  lemma {:induction false} BitOfJoin(lo: nat, hi: nat, n: nat, k: nat)
    requires lo < Pow2(n)
    ensures Bit(lo + Shl(hi, n), k) <==> if k < n then Bit(lo, k) else Bit(hi, k - n)
  {
    if n > 0 && k > 0 {
      assert (lo + Shl(hi, n)) / 2 == lo / 2 + Shl(hi, n - 1);
      BitOfJoin(lo / 2, hi, n - 1, k - 1);
    }
  }

  lemma {:induction false} OrIsJoin(lo: nat, hi: nat, n: nat)
    requires lo < Pow2(n)
    ensures Or(lo, Shl(hi, n)) == lo + Shl(hi, n)
  {
    if n == 0 {
      OrZero(hi);
    } else {
      OrIsJoin(lo / 2, hi, n - 1);
    }
  }

  lemma {:induction false} OrZero(x: nat)
    ensures Or(0, x) == x
  {
    if x != 0 {
      OrZero(x / 2);
    }
  }

  lemma LowFits(x: nat, n: nat)
    ensures Low(x, n) < Pow2(n)
  {
    SplitAt(x, n);
  }

  lemma {:induction false} ShlSum(x: nat, y: nat, n: nat)
    ensures Shl(x + y, n) == Shl(x, n) + Shl(y, n)
  {
    if n > 0 {
      ShlSum(x, y, n - 1);
    }
  }

  lemma {:induction false} ShlShl(x: nat, m: nat, n: nat)
    ensures Shl(Shl(x, m), n) == Shl(x, m + n)
  {
    if n > 0 {
      ShlShl(x, m, n - 1);
    }
  }

  lemma AndOnesIsLow(x: nat, n: nat)
    ensures And(x, Ones(n)) == Low(x, n)
  {
    forall k: nat
      ensures Bit(And(x, Ones(n)), k) <==> Bit(Low(x, n), k)
    {
      BitOfAnd(x, Ones(n), k);
      BitOfOnes(n, k);
      BitOfLow(x, n, k);
    }
    SameBits(And(x, Ones(n)), Low(x, n));
  }
}
