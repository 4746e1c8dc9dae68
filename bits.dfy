/** Python's bitwise operators on non-negative integers. Each is defined
    bit by bit from the least significant end, and the module proves the
    facts the bit-field code of the assists rests on. The bit helpers of
    lopper/assists/lopper_lib.py come first; the rest is shared by the
    XPPU, XMPU, power and subsystem assists. */
module Bits {

  /** 2^k, that is `1 << k`. */
  function Pow2(k: nat): (r: nat)
    ensures r >= 1
  {
    if k == 0 then 1 else 2 * Pow2(k - 1)
  }

  /** Bit k of n: `(n >> k) & 1`. */
  function Bit(n: nat, k: nat): (b: nat)
    ensures b <= 1
  {
    if k == 0 then n % 2 else Bit(n / 2, k - 1)
  }

  /** `a | b`. */
  function Or(a: nat, b: nat): nat
    decreases a + b
  {
    if a == 0 then b
    else if b == 0 then a
    else 2 * Or(a / 2, b / 2) + (if a % 2 == 1 || b % 2 == 1 then 1 else 0)
  }

  /** `a & b`. */
  function And(a: nat, b: nat): nat
    decreases a + b
  {
    if a == 0 || b == 0 then 0
    else 2 * And(a / 2, b / 2) + (if a % 2 == 1 && b % 2 == 1 then 1 else 0)
  }

  /** `a & ~b`. */
  function AndNot(a: nat, b: nat): nat
    decreases a + b
  {
    if a == 0 then 0
    else if b == 0 then a
    else 2 * AndNot(a / 2, b / 2) + (if a % 2 == 1 && b % 2 == 0 then 1 else 0)
  }

  /** `a ^ b`. */
  function Xor(a: nat, b: nat): nat
    decreases a + b
  {
    if a == 0 then b
    else if b == 0 then a
    else 2 * Xor(a / 2, b / 2) + (a + b) % 2
  }

  /** `n >> s`. */
  function Shr(n: nat, s: nat): nat
  {
    if s == 0 then n else Shr(n / 2, s - 1)
  }

  /** `n << s`. */
  function Shl(n: nat, s: nat): (r: nat)
    ensures r == n * Pow2(s)
  {
    if s == 0 then n else 2 * Shl(n, s - 1)
  }

  // ---------------------------------------------------------------------
  // check_bit_set, set_bit, clear_bit

  /** `check_bit_set(n, k)`: `n & (1 << k)` is non-zero. */
  predicate CheckBitSet(n: nat, k: nat)
  {
    And(n, Pow2(k)) != 0
  }

  /** `set_bit(value, bit)`: `value | (1 << bit)`. Bit `bit` is set and
      every other bit is kept. */
  function SetBit(value: nat, bit: nat): (r: nat)
    ensures Bit(r, bit) == 1
    ensures forall j: nat :: j != bit ==> Bit(r, j) == Bit(value, j)
  {
    forall j: nat ensures Bit(Or(value, Pow2(bit)), j) == if j == bit then 1 else Bit(value, j) {
      OrBit(value, Pow2(bit), j);
      BitPow2(bit, j);
    }
    Or(value, Pow2(bit))
  }

  /** `clear_bit(value, bit)`: `value & ~(1 << bit)`. Bit `bit` is clear
      and every other bit is kept. */
  function ClearBit(value: nat, bit: nat): (r: nat)
    ensures Bit(r, bit) == 0
    ensures forall j: nat :: j != bit ==> Bit(r, j) == Bit(value, j)
  {
    forall j: nat ensures Bit(AndNot(value, Pow2(bit)), j) == if j == bit then 0 else Bit(value, j) {
      AndNotBit(value, Pow2(bit), j);
      BitPow2(bit, j);
    }
    AndNot(value, Pow2(bit))
  }

  /** `check_bit_set` tests exactly bit k. */
  lemma CheckBitSetMeans(n: nat, k: nat)
    ensures CheckBitSet(n, k) <==> Bit(n, k) == 1
  {
    var a := And(n, Pow2(k));
    forall j: nat ensures Bit(a, j) == if j == k then Bit(n, k) else 0 {
      AndBit(n, Pow2(k), j);
      BitPow2(k, j);
    }
    if Bit(n, k) == 1 {
      ZeroBit(k);
    } else {
      forall j: nat ensures Bit(a, j) == Bit(0, j) {
        ZeroBit(j);
      }
      BitsExt(a, 0);
    }
  }

  /** A bit just set tests as set. */
  lemma SetThenCheck(value: nat, bit: nat)
    ensures CheckBitSet(SetBit(value, bit), bit)
  {
    CheckBitSetMeans(SetBit(value, bit), bit);
  }

  /** A bit just cleared tests as clear. */
  lemma ClearThenCheck(value: nat, bit: nat)
    ensures !CheckBitSet(ClearBit(value, bit), bit)
  {
    CheckBitSetMeans(ClearBit(value, bit), bit);
  }

  /** Clearing a bit that was set undoes the set. Setting a bit that was
      clear undoes the clear. */
  lemma SetClearInverse(value: nat, bit: nat)
    ensures Bit(value, bit) == 0 ==> ClearBit(SetBit(value, bit), bit) == value
    ensures Bit(value, bit) == 1 ==> SetBit(ClearBit(value, bit), bit) == value
  {
    if Bit(value, bit) == 0 {
      var r := ClearBit(SetBit(value, bit), bit);
      forall j: nat ensures Bit(r, j) == Bit(value, j) {
      }
      BitsExt(r, value);
    } else {
      var r := SetBit(ClearBit(value, bit), bit);
      forall j: nat ensures Bit(r, j) == Bit(value, j) {
      }
      BitsExt(r, value);
    }
  }

  // ---------------------------------------------------------------------
  // Bit-level laws

  lemma {:induction false} ZeroBit(k: nat)
    ensures Bit(0, k) == 0
  {
    if k > 0 {
      ZeroBit(k - 1);
    }
  }

  /** Two numbers with the same bits are equal. */
  lemma {:induction false} BitsExt(a: nat, b: nat)
    requires forall k: nat :: Bit(a, k) == Bit(b, k)
    ensures a == b
    decreases a + b
  {
    assert Bit(a, 0) == Bit(b, 0);
    if a + b > 0 {
      forall k: nat ensures Bit(a / 2, k) == Bit(b / 2, k) {
        assert Bit(a, k + 1) == Bit(b, k + 1);
      }
      BitsExt(a / 2, b / 2);
    }
  }

  lemma {:induction false} BitPow2(k: nat, j: nat)
    ensures Bit(Pow2(k), j) == if j == k then 1 else 0
    decreases k
  {
    if k == 0 {
      if j > 0 {
        ZeroBit(j - 1);
      }
    } else if j > 0 {
      BitPow2(k - 1, j - 1);
    }
  }

  /** Halving and doubling around one low bit c. */
  lemma HalfStep(x: nat, c: nat, k: nat)
    requires c <= 1
    ensures Bit(2 * x + c, 0) == c
    ensures k > 0 ==> Bit(2 * x + c, k) == Bit(x, k - 1)
  {
    assert (2 * x + c) / 2 == x;
  }

  lemma {:induction false} OrBit(a: nat, b: nat, k: nat)
    ensures Bit(Or(a, b), k) == if Bit(a, k) == 1 || Bit(b, k) == 1 then 1 else 0
    decreases a + b
  {
    if a == 0 {
      ZeroBit(k);
    } else if b == 0 {
      ZeroBit(k);
    } else {
      var c := if a % 2 == 1 || b % 2 == 1 then 1 else 0;
      HalfStep(Or(a / 2, b / 2), c, k);
      if k > 0 {
        OrBit(a / 2, b / 2, k - 1);
      }
    }
  }

  lemma {:induction false} AndBit(a: nat, b: nat, k: nat)
    ensures Bit(And(a, b), k) == if Bit(a, k) == 1 && Bit(b, k) == 1 then 1 else 0
    decreases a + b
  {
    if a == 0 || b == 0 {
      ZeroBit(k);
    } else {
      var c := if a % 2 == 1 && b % 2 == 1 then 1 else 0;
      HalfStep(And(a / 2, b / 2), c, k);
      if k > 0 {
        AndBit(a / 2, b / 2, k - 1);
      }
    }
  }

  lemma {:induction false} AndNotBit(a: nat, b: nat, k: nat)
    ensures Bit(AndNot(a, b), k) == if Bit(a, k) == 1 && Bit(b, k) == 0 then 1 else 0
    decreases a + b
  {
    if a == 0 {
      ZeroBit(k);
    } else if b == 0 {
      ZeroBit(k);
    } else {
      var c := if a % 2 == 1 && b % 2 == 0 then 1 else 0;
      HalfStep(AndNot(a / 2, b / 2), c, k);
      if k > 0 {
        AndNotBit(a / 2, b / 2, k - 1);
      }
    }
  }

  lemma {:induction false} XorBit(a: nat, b: nat, k: nat)
    ensures Bit(Xor(a, b), k) == (Bit(a, k) + Bit(b, k)) % 2
    decreases a + b
  {
    if a == 0 {
      ZeroBit(k);
    } else if b == 0 {
      ZeroBit(k);
    } else {
      HalfStep(Xor(a / 2, b / 2), (a + b) % 2, k);
      if k > 0 {
        XorBit(a / 2, b / 2, k - 1);
      }
    }
  }

  lemma {:induction false} ShrBit(n: nat, s: nat, k: nat)
    ensures Bit(Shr(n, s), k) == Bit(n, k + s)
    decreases s
  {
    if s > 0 {
      ShrBit(n / 2, s - 1, k);
    }
  }

  lemma {:induction false} ShlBit(n: nat, s: nat, k: nat)
    ensures Bit(Shl(n, s), k) == if k < s then 0 else Bit(n, k - s)
    decreases s
  {
    if s > 0 {
      HalfStep(Shl(n, s - 1), 0, k);
      if k > 0 {
        ShlBit(n, s - 1, k - 1);
      }
    }
  }

  /** A number below 2^s has no bit at s or above. */
  lemma {:induction false} SmallBits(n: nat, s: nat, k: nat)
    requires n < Pow2(s) && k >= s
    ensures Bit(n, k) == 0
    decreases s
  {
    if s == 0 {
      ZeroBit(k);
    } else if k > 0 {
      SmallBits(n / 2, s - 1, k - 1);
    }
  }

  /** Or of numbers with no common bit is their sum. */
  lemma {:induction false} OrDisjoint(a: nat, b: nat)
    requires forall k: nat :: Bit(a, k) == 0 || Bit(b, k) == 0
    ensures Or(a, b) == a + b
    decreases a + b
  {
    if a > 0 && b > 0 {
      assert Bit(a, 0) == 0 || Bit(b, 0) == 0;
      forall k: nat ensures Bit(a / 2, k) == 0 || Bit(b / 2, k) == 0 {
        assert Bit(a, k + 1) == 0 || Bit(b, k + 1) == 0;
      }
      OrDisjoint(a / 2, b / 2);
    }
  }

  /** A field shifted above a narrower one: the or is the sum. */
  lemma ShlOrAdd(hi: nat, s: nat, lo: nat)
    requires lo < Pow2(s)
    ensures Or(Shl(hi, s), lo) == hi * Pow2(s) + lo
  {
    forall k: nat ensures Bit(Shl(hi, s), k) == 0 || Bit(lo, k) == 0 {
      ShlBit(hi, s, k);
      if k >= s {
        SmallBits(lo, s, k);
      }
    }
    OrDisjoint(Shl(hi, s), lo);
  }

  /** 2^(a+b) == 2^a * 2^b. */
  lemma {:induction false} PowAdd(a: nat, b: nat)
    ensures Pow2(a + b) == Pow2(a) * Pow2(b)
    decreases a
  {
    if a > 0 {
      PowAdd(a - 1, b);
    }
  }

  lemma MulLe(a: int, b: int, d: int)
    requires d > 0 && a <= b
    ensures a * d <= b * d
  {
  }

  /** A quotient and remainder within bounds are Dafny's `/` and `%`. */
  lemma DivUnique(n: int, d: int, q: int, r: int)
    requires d > 0 && 0 <= r < d && n == q * d + r
    ensures n / d == q && n % d == r
  {
    var q0 := n / d;
    if q0 > q {
      MulLe(q + 1, q0, d);
    } else if q0 < q {
      MulLe(q0 + 1, q, d);
    }
  }

  /** Dividing by a then by b is dividing by a * b. */
  lemma DivDiv(n: nat, a: nat, b: nat)
    requires a > 0 && b > 0
    ensures n / a / b == n / (a * b)
  {
    var q := n / (a * b);
    var r := n % (a * b);
    var r2 := r / a;
    var r1 := r % a;
    assert r == r2 * a + r1;
    if r2 >= b {
      MulLe(b, r2, a);
    }
    assert n == q * (a * b) + r;
    assert q * (a * b) == (q * b) * a;
    assert n == (q * b + r2) * a + r1;
    DivUnique(n, a, q * b + r2, r1);
    DivUnique(n / a, b, q, r2);
  }

  /** `n >> s` is the floor of n / 2^s. */
  lemma {:induction false} ShrDiv(n: nat, s: nat)
    ensures Shr(n, s) == n / Pow2(s)
    decreases s
  {
    if s > 0 {
      ShrDiv(n / 2, s - 1);
      DivDiv(n, 2, Pow2(s - 1));
    }
  }

  /** The mask of the low k bits, `(1 << k) - 1`. */
  lemma {:induction false} LowMaskBits(k: nat, j: nat)
    ensures Bit(Pow2(k) - 1, j) == if j < k then 1 else 0
    decreases k
  {
    if k == 0 {
      ZeroBit(j);
    } else {
      HalfStep(Pow2(k - 1) - 1, 1, j);
      if j > 0 {
        LowMaskBits(k - 1, j - 1);
      }
    }
  }

  lemma ModHalf(n: nat, m: nat)
    requires m > 0
    ensures n % (2 * m) == 2 * ((n / 2) % m) + n % 2
  {
    var h := n / 2;
    var q := h / m;
    var r := h % m;
    assert h == q * m + r;
    assert n == 2 * h + n % 2;
    assert n == q * (2 * m) + (2 * r + n % 2);
    DivUnique(n, 2 * m, q, 2 * r + n % 2);
  }

  /** The remainder by 2^k keeps the low k bits and no other. */
  lemma {:induction false} ModBits(n: nat, k: nat, j: nat)
    ensures Bit(n % Pow2(k), j) == if j < k then Bit(n, j) else 0
    decreases k
  {
    if k == 0 {
      ZeroBit(j);
    } else {
      ModHalf(n, Pow2(k - 1));
      HalfStep((n / 2) % Pow2(k - 1), n % 2, j);
      if j > 0 {
        ModBits(n / 2, k - 1, j - 1);
      }
    }
  }

  /** `n & ((1 << k) - 1)` is n mod 2^k. */
  lemma AndLowMask(n: nat, k: nat)
    ensures And(n, Pow2(k) - 1) == n % Pow2(k)
  {
    forall j: nat ensures Bit(And(n, Pow2(k) - 1), j) == Bit(n % Pow2(k), j) {
      AndBit(n, Pow2(k) - 1, j);
      LowMaskBits(k, j);
      ModBits(n, k, j);
    }
    BitsExt(And(n, Pow2(k) - 1), n % Pow2(k));
  }
}
