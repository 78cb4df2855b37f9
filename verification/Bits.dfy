/** Unsigned 32-bit words seen as natural numbers: powers of two, single bits,
    and the handful of bit operations that the allocator applies to its bin maps. */
module Bits {

  const WORD: nat := 0x1_0000_0000

  function Pow2(n: nat): (r: nat)
    ensures r >= 1
  {
    if n == 0 then 1 else 2 * Pow2(n - 1)
  }

  lemma {:induction false} Pow2Monotone(a: nat, b: nat)
    requires a <= b
    ensures Pow2(a) <= Pow2(b)
    decreases b
  {
    if a < b { Pow2Monotone(a, b - 1); }
  }

  /** x << n, without wrapping. */
  function Shl(x: nat, n: nat): nat
  {
    if n == 0 then x else 2 * Shl(x, n - 1)
  }

  lemma {:induction false} ShlPow2(e: nat, n: nat)
    ensures Shl(Pow2(e), n) == Pow2(e + n)
  {
    if n > 0 { ShlPow2(e, n - 1); }
  }

  lemma {:induction false} ShlAdd(x: nat, y: nat, n: nat)
    ensures Shl(x + y, n) == Shl(x, n) + Shl(y, n)
  {
    if n > 0 { ShlAdd(x, y, n - 1); }
  }

  lemma {:induction false} ShlLess(x: nat, y: nat, n: nat)
    requires x < y
    ensures Shl(x, n) < Shl(y, n)
  {
    if n > 0 { ShlLess(x, y, n - 1); }
  }

  lemma Pow2Times256(k: nat)
    ensures Pow2(k + 8) == 256 * Pow2(k)
  {
    assert Pow2(k + 4) == 16 * Pow2(k) by { assert Pow2(k + 2) == 4 * Pow2(k); }
    assert Pow2(k + 6) == 4 * Pow2(k + 4);
  }

  lemma Pow2Word()
    ensures Pow2(8) == 0x100 && Pow2(15) == 0x8000 && Pow2(16) == 0x1_0000
    ensures Pow2(31) == 0x8000_0000 && Pow2(32) == WORD
  {
    Pow2Times256(0);
    Pow2Times256(8);
    Pow2Times256(16);
    Pow2Times256(24);
  }

  /** Unsigned subtraction of two words, modulo 2^32. */
  function Sub32(a: nat, b: nat): (r: nat)
    requires a < WORD && b < WORD
    ensures r < WORD
  {
    if a >= b then a - b else a - b + WORD
  }

  /** Index of the highest set bit (lj_fls). */
  function Fls(n: nat): nat
    requires n > 0
  {
    if n == 1 then 0 else 1 + Fls(n / 2)
  }

  lemma {:induction false} FlsBounds(n: nat)
    requires n > 0
    ensures Pow2(Fls(n)) <= n < Pow2(Fls(n) + 1)
  {
    if n > 1 { FlsBounds(n / 2); }
  }

  lemma FlsUnique(n: nat, k: nat)
    requires n > 0 && Pow2(k) <= n < Pow2(k + 1)
    ensures Fls(n) == k
  {
    FlsBounds(n);
    if Fls(n) < k { Pow2Monotone(Fls(n) + 1, k); }
    if Fls(n) > k { Pow2Monotone(k + 1, Fls(n)); }
  }

  // ----- bit maps

  predicate Bit(n: nat, i: nat)
  {
    if i == 0 then n % 2 == 1 else Bit(n / 2, i - 1)
  }

  /** No bit with an index in [lo, hi) is set. */
  predicate NoneMarked(n: nat, lo: nat, hi: nat)
  {
    forall j: nat :: lo <= j < hi ==> !Bit(n, j)
  }

  /** n | (1 << i) */
  function SetBit(n: nat, i: nat): nat
  {
    if i == 0 then n - n % 2 + 1 else 2 * SetBit(n / 2, i - 1) + n % 2
  }

  /** n & ~(1 << i) */
  function ClearBit(n: nat, i: nat): nat
  {
    if i == 0 then n - n % 2 else 2 * ClearBit(n / 2, i - 1) + n % 2
  }

  function Shr(n: nat, k: nat): nat
  {
    if k == 0 then n else Shr(n / 2, k - 1)
  }

  function And(a: nat, b: nat): nat
  {
    if a == 0 || b == 0 then 0 else 2 * And(a / 2, b / 2) + if a % 2 == 1 && b % 2 == 1 then 1 else 0
  }

  function Or(a: nat, b: nat): nat
  {
    if a == 0 then b else if b == 0 then a
    else 2 * Or(a / 2, b / 2) + if a % 2 == 1 || b % 2 == 1 then 1 else 0
  }

  /** left_bits: (x << 1) | (~(x << 1) + 1), all on 32-bit words. */
  function LeftBits(x: nat): nat
  {
    var y := (2 * x) % WORD;
    Or(y, (WORD - y) % WORD)
  }

  /** Index of the lowest set bit (lj_ffs). */
  function Ffs(n: nat): nat
    requires n > 0
  {
    if n % 2 == 1 then 0 else 1 + Ffs(n / 2)
  }

  lemma {:induction false} SetBitBits(n: nat, i: nat, j: nat)
    ensures Bit(SetBit(n, i), j) <==> i == j || Bit(n, j)
  {
    if i > 0 && j > 0 { SetBitBits(n / 2, i - 1, j - 1); }
  }

  lemma {:induction false} ClearBitBits(n: nat, i: nat, j: nat)
    ensures Bit(ClearBit(n, i), j) <==> i != j && Bit(n, j)
  {
    if i > 0 && j > 0 { ClearBitBits(n / 2, i - 1, j - 1); }
  }

  lemma {:induction false} SetClearBound(n: nat, i: nat, w: nat)
    requires i < w && n < Pow2(w)
    ensures SetBit(n, i) < Pow2(w) && ClearBit(n, i) < Pow2(w)
  {
    if i > 0 { SetClearBound(n / 2, i - 1, w - 1); }
  }

  lemma {:induction false} ShrBits(n: nat, k: nat, j: nat)
    ensures Bit(Shr(n, k), j) == Bit(n, k + j)
  {
    if k > 0 { ShrBits(n / 2, k - 1, j); }
  }

  lemma {:induction false} AndBits(a: nat, b: nat, j: nat)
    ensures Bit(And(a, b), j) <==> Bit(a, j) && Bit(b, j)
  {
    ZeroBits(j);
    if a != 0 && b != 0 && j > 0 { AndBits(a / 2, b / 2, j - 1); }
  }

  /** Masking with 2^k - 1 is taking the remainder modulo 2^k. */
  lemma {:induction false} AndMask(a: nat, k: nat)
    ensures And(a, Pow2(k) - 1) == a % Pow2(k)
  {
    if k > 0 {
      AndMask(a / 2, k - 1);
      assert (Pow2(k) - 1) / 2 == Pow2(k - 1) - 1 && (Pow2(k) - 1) % 2 == 1;
      HalfMod(a, Pow2(k - 1));
    }
  }

  lemma HalfMod(a: nat, m: nat)
    requires m > 0
    ensures a % (2 * m) == 2 * (a / 2 % m) + a % 2
  {
    var q, r := a / 2 / m, a / 2 % m;
    assert a == 2 * (q * m + r) + a % 2;
    ModUnique(a, 2 * m, q, 2 * r + a % 2);
  }

  lemma ModUnique(a: int, m: int, q: int, r: int)
    requires 0 <= r < m && a == q * m + r
    ensures a % m == r
  {
    var d := a / m - q;
    assert d * m == r - a % m;
    assert d >= 1 ==> d * m >= m;
    assert d <= -1 ==> d * m <= -m;
  }

  lemma {:induction false} OrBits(a: nat, b: nat, j: nat)
    ensures Bit(Or(a, b), j) <==> Bit(a, j) || Bit(b, j)
  {
    ZeroBits(j);
    if a != 0 && b != 0 && j > 0 { OrBits(a / 2, b / 2, j - 1); }
  }

  lemma {:induction false} ZeroBits(j: nat)
    ensures !Bit(0, j)
  {
    if j > 0 { ZeroBits(j - 1); }
  }

  lemma {:induction false} HighBits(n: nat, w: nat, j: nat)
    requires n < Pow2(w) && w <= j
    ensures !Bit(n, j)
  {
    if w == 0 { ZeroBits(j); } else { HighBits(n / 2, w - 1, j - 1); }
  }

  lemma {:induction false} NonZeroHasBit(n: nat)
    requires n > 0
    ensures Bit(n, Ffs(n)) && NoneMarked(n, 0, Ffs(n))
  {
    if n % 2 == 0 {
      NonZeroHasBit(n / 2);
      forall j: nat | j < Ffs(n) ensures !Bit(n, j) {
        if j > 0 { assert !Bit(n / 2, j - 1); }
      }
    }
  }

  lemma {:induction false} Pow2Bits(i: nat, j: nat)
    ensures Bit(Pow2(i), j) <==> i == j
  {
    if i == 0 && j > 0 { ZeroBits(j - 1); }
    if i > 0 && j > 0 { Pow2Bits(i - 1, j - 1); }
  }

  lemma {:induction false} BlockOfOnes(n: nat, k: nat, j: nat)
    requires k <= n
    ensures Pow2(k) <= Pow2(n) && (Bit(Pow2(n) - Pow2(k), j) <==> k <= j < n)
  {
    Pow2Monotone(k, n);
    if n == k { ZeroBits(j); }
    else if k > 0 {
      Pow2Monotone(k - 1, n - 1);
      assert (Pow2(n) - Pow2(k)) / 2 == Pow2(n - 1) - Pow2(k - 1);
      if j > 0 { BlockOfOnes(n - 1, k - 1, j - 1); }
    } else if j > 0 {
      assert (Pow2(n) - 1) / 2 == Pow2(n - 1) - 1;
      BlockOfOnes(n - 1, 0, j - 1);
    }
  }

  lemma Pow2Fits(i: nat)
    requires i < 32
    ensures 2 * Pow2(i) == WORD || 2 * Pow2(i) < WORD
  {
    Pow2Word();
    Pow2Monotone(i + 1, 32);
  }

  lemma LeftBitsMask(i: nat)
    requires i < 32
    ensures Pow2(i + 1) <= WORD
    ensures LeftBits(Pow2(i)) == Or(Pow2(i + 1) % WORD, WORD - Pow2(i + 1))
  {
    Pow2Fits(i);
    var p := 2 * Pow2(i);
    assert p % WORD == if p == WORD then 0 else p;
    assert (WORD - p % WORD) % WORD == WORD - p;
  }

  lemma TopOnes(i: nat, j: nat)
    requires i <= 32
    ensures Pow2(i) <= WORD && (Bit(WORD - Pow2(i), j) <==> i <= j < 32)
  {
    BlockOfOnes(32, i, j);
    Pow2Word();
  }

  /** The mask used to look for the next non-empty bin has exactly the bits above bit i. */
  lemma LeftBitsExact(i: nat, j: nat)
    requires i < 32
    ensures Bit(LeftBits(Pow2(i)), j) <==> i < j < 32
  {
    LeftBitsMask(i);
    var p := Pow2(i + 1);
    OrBits(p % WORD, WORD - p, j);
    TopOnes(i + 1, j);
    TopBit(i + 1, j);
  }

  lemma TopBit(i: nat, j: nat)
    requires 0 < i <= 32
    ensures Bit(Pow2(i) % WORD, j) <==> i < 32 && j == i
  {
    Pow2Fits(i - 1);
    Pow2Word();
    if i == 32 {
      ZeroBits(j);
    } else {
      Pow2Fits(i);
      Pow2Bits(i, j);
    }
  }

  lemma FfsBelow(marks: nat, w: nat)
    requires 0 < marks < Pow2(w)
    ensures Ffs(marks) < w
  {
    NonZeroHasBit(marks);
    if Ffs(marks) >= w { HighBits(marks, w, Ffs(marks)); }
  }

  /** Scanning the masked bin map finds the least marked bin above i, or nothing when there is none. */
  lemma NextMarked(marks: nat, i: nat)
    requires i < 32
    ensures And(LeftBits(Pow2(i)), marks) == 0 <==> NoneMarked(marks, i + 1, 32)
    ensures var left := And(LeftBits(Pow2(i)), marks);
            left != 0 ==> i < Ffs(left) < 32 && Bit(marks, Ffs(left))
                          && NoneMarked(marks, i + 1, Ffs(left))
  {
    var left := And(LeftBits(Pow2(i)), marks);
    forall j: nat
      ensures Bit(left, j) <==> i < j < 32 && Bit(marks, j)
    {
      AndBits(LeftBits(Pow2(i)), marks, j);
      LeftBitsExact(i, j);
    }
    if left == 0 {
      forall j: nat | i < j < 32 ensures !Bit(marks, j) { ZeroBits(j); assert !Bit(left, j); }
    } else {
      NonZeroHasBit(left);
      var k := Ffs(left);
      assert i < k < 32 && Bit(marks, k);
    }
  }

  /** The lowest marked bin of a non-empty bin map. */
  lemma FirstMarked(marks: nat)
    requires marks < Pow2(32)
    ensures marks == 0 <==> NoneMarked(marks, 0, 32)
    ensures marks != 0 ==> Ffs(marks) < 32 && Bit(marks, Ffs(marks))
                           && NoneMarked(marks, 0, Ffs(marks))
  {
    if marks == 0 {
      forall j: nat | j < 32 ensures !Bit(marks, j) { ZeroBits(j); }
    } else {
      NonZeroHasBit(marks);
      FfsBelow(marks, 32);
      var k := Ffs(marks);
      assert k < 32 && Bit(marks, k);
    }
  }

  lemma {:induction false} ShlShrBits(n: nat, k: nat, j: nat)
    ensures Bit(Shl(Shr(n, k), k), j) <==> j >= k && Bit(n, j)
    ensures Shl(Shr(n, k), k) <= n
  {
    if k > 0 {
      assert Shr(n, k) == Shr(n / 2, k - 1);
      if j > 0 { ShlShrBits(n / 2, k - 1, j - 1); } else { ShlShrBits(n / 2, k - 1, 0); }
    }
  }

  lemma {:induction false} ShrZero(n: nat, k: nat, j: nat)
    requires Shr(n, k) == 0 && j >= k
    ensures !Bit(n, j)
  {
    ShrBits(n, k, j - k);
    ZeroBits(j - k);
  }

  lemma NoneFrom(marks: nat, i: nat)
    requires Shr(marks, i) == 0
    ensures NoneMarked(marks, i, 32)
  {
    forall j: nat | i <= j ensures !Bit(marks, j) { ShrZero(marks, i, j); }
  }

  /** When bit i or bit i+1 is set, ~smallbits & 1 chooses the lower of them that is set. */
  lemma FirstOfTwo(marks: nat, i: nat)
    requires marks < Pow2(32) && Shr(marks, i) % 4 != 0
    ensures var j := i + if Shr(marks, i) % 2 == 0 then 1 else 0;
            j < 32 && Bit(marks, j) && NoneMarked(marks, i, j)
  {
    var s := Shr(marks, i);
    ShrBits(marks, i, 0);
    if s % 2 == 0 {
      SecondOdd(s);
      ShrBits(marks, i, 1);
      BitFits(marks, i + 1);
    } else {
      BitFits(marks, i);
    }
  }

  /** Otherwise neither of them is set. */
  lemma NeitherMarked(marks: nat, i: nat)
    requires Shr(marks, i) % 4 == 0
    ensures !Bit(marks, i) && !Bit(marks, i + 1)
  {
    ShrBits(marks, i, 0);
    ShrBits(marks, i, 1);
  }

  lemma SecondOdd(s: nat)
    requires s % 4 != 0 && s % 2 == 0
    ensures s / 2 % 2 == 1
  {
  }

  lemma BitFits(n: nat, j: nat)
    requires n < Pow2(32) && Bit(n, j)
    ensures j < 32
  {
    if j >= 32 { HighBits(n, 32, j); }
  }

  lemma SmallMask(marks: nat, i: nat, j: nat)
    requires i < 32
    ensures Bit(And(Shl(Shr(marks, i), i), LeftBits(Pow2(i))), j) <==> i < j < 32 && Bit(marks, j)
  {
    AndBits(Shl(Shr(marks, i), i), LeftBits(Pow2(i)), j);
    LeftBitsExact(i, j);
    ShlShrBits(marks, i, j);
  }

  lemma FfsAtLeastTwo(n: nat)
    requires n != 0 && n % 4 == 0
    ensures Ffs(n) >= 2
  {
    assert n / 2 % 2 == 0;
  }

  /** When neither bit i nor bit i+1 is set, the masked map finds the least marked bin from i+2 on. */
  lemma NextSmallMarked(marks: nat, i: nat)
    requires marks < Pow2(32) && i < 32 && Shr(marks, i) != 0 && Shr(marks, i) % 4 == 0
    ensures var left := And(Shl(Shr(marks, i), i), LeftBits(Pow2(i)));
            left != 0 && i + 2 <= Ffs(left) < 32 && Bit(marks, Ffs(left)) && NoneMarked(marks, i, Ffs(left))
  {
    var s := Shr(marks, i);
    var left := And(Shl(s, i), LeftBits(Pow2(i)));
    NonZeroHasBit(s);
    FfsAtLeastTwo(s);
    ShrBits(marks, i, Ffs(s));
    var j := i + Ffs(s);
    if j >= 32 { HighBits(marks, 32, j); }
    SmallMask(marks, i, j);
    if left == 0 { ZeroBits(j); }
    NonZeroHasBit(left);
    SmallMask(marks, i, Ffs(left));
    forall h: nat | i <= h < Ffs(left) ensures !Bit(marks, h) {
      SmallMask(marks, i, h);
      if h == i { ShrBits(marks, i, 0); assert !Bit(s, 0); }
    }
    if Ffs(left) < j { ShrBits(marks, i, Ffs(left) - i); }
    assert Ffs(left) >= j;
  }
}
