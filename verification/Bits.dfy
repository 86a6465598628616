/** Unsigned 64-bit words as naturals, with the machine's bitwise operators. */
module Bits {

  const WIDTH: nat := 64

  function Pow2(n: nat): (p: nat)
    ensures p > 0
  {
    if n == 0 then 1 else 2 * Pow2(n - 1)
  }

  type Word = x: nat | x < Pow2(WIDTH)

  const MAX: nat := Pow2(WIDTH) - 1

  function Bit(x: nat, i: nat): bool {
    if i == 0 then x % 2 == 1 else Bit(x / 2, i - 1)
  }

  function And(x: nat, y: nat): (r: nat)
    ensures r <= x && r <= y
  {
    if x == 0 || y == 0 then 0 else (x % 2) * (y % 2) + 2 * And(x / 2, y / 2)
  }

  function Or(x: nat, y: nat): nat {
    if x == 0 && y == 0 then 0 else (if x % 2 == 1 then 1 else y % 2) + 2 * Or(x / 2, y / 2)
  }

  function Complement(x: Word): Word {
    MAX - x
  }

  /** Doubling modulo 2^64. */
  function Double(x: Word): Word {
    if 2 * x < Pow2(WIDTH) then 2 * x else 2 * x - Pow2(WIDTH)
  }

  /** One doubling per position; the top bit is lost each time. */
  function ShiftLeft(x: Word, n: nat): Word
    decreases n
  {
    if n == 0 then x else ShiftLeft(Double(x), n - 1)
  }

  /** One halving per position. */
  function ShiftRight(x: Word, n: nat): Word
    decreases n
  {
    if n == 0 then x else ShiftRight(x / 2, n - 1)
  }

  // ---------- What the operators do to single bits ----------

  lemma {:induction false} Pow2Mono(a: nat, b: nat)
    requires a <= b
    ensures Pow2(a) <= Pow2(b)
  {
    if a < b {
      Pow2Mono(a, b - 1);
    }
  }

  lemma {:induction false} BitAnd(x: nat, y: nat, i: nat)
    ensures Bit(And(x, y), i) <==> Bit(x, i) && Bit(y, i)
  {
    if x == 0 || y == 0 {
      BitZero(i);
    } else {
      assert And(x, y) / 2 == And(x / 2, y / 2);
      if i > 0 {
        BitAnd(x / 2, y / 2, i - 1);
      }
    }
  }

  lemma {:induction false} BitOr(x: nat, y: nat, i: nat)
    ensures Bit(Or(x, y), i) <==> Bit(x, i) || Bit(y, i)
  {
    if x == 0 && y == 0 {
      BitZero(i);
    } else {
      assert Or(x, y) / 2 == Or(x / 2, y / 2);
      if i > 0 {
        BitOr(x / 2, y / 2, i - 1);
      }
    }
  }

  lemma {:induction false} BitZero(i: nat)
    ensures !Bit(0, i)
  {
    if i > 0 {
      BitZero(i - 1);
    }
  }

  lemma {:induction false} BitFlip(x: nat, w: nat, i: nat)
    requires x < Pow2(w) && i < w
    ensures Bit(Pow2(w) - 1 - x, i) <==> !Bit(x, i)
  {
    if i > 0 {
      assert (Pow2(w) - 1 - x) / 2 == Pow2(w - 1) - 1 - x / 2;
      BitFlip(x / 2, w - 1, i - 1);
    }
  }

  lemma {:induction false} BitDropTop(x: nat, w: nat, i: nat)
    requires Pow2(w) <= x && i < w
    ensures Bit(x - Pow2(w), i) <==> Bit(x, i)
  {
    if i > 0 {
      assert (x - Pow2(w)) / 2 == x / 2 - Pow2(w - 1);
      BitDropTop(x / 2, w - 1, i - 1);
    }
  }

  lemma {:induction false} BitDouble(x: Word, i: nat)
    requires i < WIDTH
    ensures Bit(Double(x), i) <==> 0 < i && Bit(x, i - 1)
  {
    if 2 * x >= Pow2(WIDTH) {
      BitDropTop(2 * x, WIDTH, i);
    }
  }

  lemma {:induction false} BitShiftLeft(x: Word, n: nat, i: nat)
    requires i < WIDTH
    ensures Bit(ShiftLeft(x, n), i) <==> n <= i && Bit(x, i - n)
    decreases n
  {
    if n > 0 {
      BitShiftLeft(Double(x), n - 1, i);
      if n - 1 <= i {
        BitDouble(x, i - (n - 1));
      }
    }
  }

  lemma {:induction false} BitShiftRight(x: Word, n: nat, i: nat)
    ensures Bit(ShiftRight(x, n), i) <==> Bit(x, n + i)
    decreases n
  {
    if n > 0 {
      BitShiftRight(x / 2, n - 1, i);
    }
  }

  lemma {:induction false} ShiftPower(a: nat, n: nat)
    requires a + n < WIDTH
    ensures Pow2(a) < Pow2(WIDTH) && Pow2(a + n) < Pow2(WIDTH) && ShiftLeft(Pow2(a), n) == Pow2(a + n)
    decreases n
  {
    Pow2Mono(a + 1, WIDTH);
    if n > 0 {
      Pow2Mono(a + 2, WIDTH);
      ShiftPower(a + 1, n - 1);
    }
  }

  lemma {:induction false} BitSmall(x: nat, k: nat, i: nat)
    requires x < Pow2(k) && k <= i
    ensures !Bit(x, i)
  {
    if k == 0 {
      BitZero(i);
    } else {
      BitSmall(x / 2, k - 1, i - 1);
    }
  }

  lemma {:induction false} BitPow2(k: nat, i: nat)
    ensures Bit(Pow2(k), i) <==> i == k
  {
    if k == 0 && i > 0 {
      BitZero(i - 1);
    } else if k > 0 && i > 0 {
      BitPow2(k - 1, i - 1);
    }
  }

  lemma {:induction false} NoHighBits(x: nat, k: nat, w: nat)
    requires x < Pow2(w) && k <= w && forall i :: k <= i < w ==> !Bit(x, i)
    ensures x < Pow2(k)
  {
    if w > 0 {
      if k == 0 {
        assert !Bit(x, 0);
        forall i | 0 <= i < w - 1 ensures !Bit(x / 2, i) {
          assert !Bit(x, i + 1);
        }
        NoHighBits(x / 2, 0, w - 1);
      } else {
        forall i | k - 1 <= i < w - 1 ensures !Bit(x / 2, i) {
          assert !Bit(x, i + 1);
        }
        NoHighBits(x / 2, k - 1, w - 1);
      }
    }
  }

  lemma {:induction false} BitOnes(n: nat, i: nat)
    ensures Bit(Pow2(n) - 1, i) <==> i < n
  {
    if i < n {
      BitZero(i);
      BitFlip(0, n, i);
    } else {
      BitSmall(Pow2(n) - 1, n, i);
    }
  }

  /** Words with the same bits are equal. */
  lemma {:induction false} SameBits(x: nat, y: nat, k: nat)
    requires x < Pow2(k) && y < Pow2(k)
    requires forall i :: 0 <= i < k ==> (Bit(x, i) <==> Bit(y, i))
    ensures x == y
  {
    if k > 0 {
      assert Bit(x, 0) <==> Bit(y, 0);
      forall i | 0 <= i < k - 1 ensures Bit(x / 2, i) <==> Bit(y / 2, i) {
        assert Bit(x, i + 1) <==> Bit(y, i + 1);
      }
      SameBits(x / 2, y / 2, k - 1);
    }
  }

  lemma {:induction false} OrBound(x: nat, y: nat, k: nat)
    requires x < Pow2(k) && y < Pow2(k)
    ensures Or(x, y) < Pow2(k)
  {
    if k > 0 {
      OrBound(x / 2, y / 2, k - 1);
    }
  }
}
