/** 64-bit words as numbers below 2^64, with the operators of C, and what they do to single bits. */
module Words {
  const BITS: nat := 64
  const LIMIT: nat := 0x1_0000_0000_0000_0000

  type Word = x: int | 0 <= x < LIMIT

  function Pow2(n: nat): (r: nat)
    ensures r > 0
  {
    if n == 0 then 1 else 2 * Pow2(n - 1)
  }

  predicate Bit(w: nat, j: nat) { if j == 0 then w % 2 == 1 else Bit(w / 2, j - 1) }

  function And(a: nat, b: nat): (r: nat)
    ensures r <= a && r <= b
  {
    if a == 0 || b == 0 then 0 else 2 * And(a / 2, b / 2) + (if a % 2 == 1 && b % 2 == 1 then 1 else 0)
  }

  function Or(a: nat, b: nat): (r: nat)
    ensures a <= r && b <= r <= a + b
  {
    if a == 0 || b == 0 then a + b else 2 * Or(a / 2, b / 2) + (if a % 2 == 1 || b % 2 == 1 then 1 else 0)
  }

  function Not(w: Word): Word { LIMIT - 1 - w }

  // Shifts by fewer than 64 places; what leaves the word is lost.
  function Shl(w: Word, k: nat): Word
    decreases k
  {
    if k == 0 then w else Shl(2 * w % LIMIT, k - 1)
  }

  function Shr(w: nat, k: nat): (r: nat)
    ensures r <= w
    decreases k
  {
    if k == 0 then w else Shr(w / 2, k - 1)
  }

  // ---- powers of two ----------------------------------------------------------------------------------------

  lemma {:induction false} Pow2Add(a: nat, b: nat)
    ensures Pow2(a + b) == Pow2(a) * Pow2(b)
  {
    if a > 0 {
      Pow2Add(a - 1, b);
      assert Pow2(a + b) == 2 * Pow2(a - 1 + b);
      assert Pow2(a) * Pow2(b) == 2 * (Pow2(a - 1) * Pow2(b));
    }
  }

  lemma {:induction false} Pow2Mono(a: nat, b: nat)
    requires a <= b
    ensures Pow2(a) <= Pow2(b)
  {
    if a < b { Pow2Mono(a, b - 1); }
  }

  lemma Pow2Eight(n: nat)
    ensures Pow2(n + 8) == 256 * Pow2(n)
  {
    assert Pow2(n + 4) == 16 * Pow2(n) by { assert Pow2(n + 2) == 4 * Pow2(n); }
    assert Pow2(n + 8) == 16 * Pow2(n + 4) by { assert Pow2(n + 6) == 4 * Pow2(n + 4); }
  }

  lemma SmallPowers()
    ensures Pow2(16) == 0x1_0000
  {
    Pow2Eight(0);
    Pow2Eight(8);
  }

  lemma WordSize()
    ensures Pow2(BITS) == LIMIT && Pow2(63) == LIMIT / 2
  {
    SmallPowers();
    Pow2Eight(16);
    Pow2Eight(24);
    Pow2Eight(32);
    Pow2Eight(40);
    Pow2Eight(48);
    Pow2Eight(56);
  }

  // ---- bits -------------------------------------------------------------------------------------------------

  lemma {:induction false} BitZero(j: nat)
    ensures !Bit(0, j)
  {
    if j > 0 { BitZero(j - 1); }
  }

  // The bits of 2 h + low.
  lemma BitOfDouble(h: nat, low: nat, j: nat)
    requires low <= 1
    ensures Bit(2 * h + low, j) <==> if j == 0 then low == 1 else Bit(h, j - 1)
  {
    assert (2 * h + low) % 2 == low && (2 * h + low) / 2 == h;
  }

  lemma {:induction false} BitAnd(a: nat, b: nat, j: nat)
    ensures Bit(And(a, b), j) <==> Bit(a, j) && Bit(b, j)
    decreases j
  {
    if a == 0 || b == 0 {
      BitZero(j);
    } else {
      BitOfDouble(And(a / 2, b / 2), if a % 2 == 1 && b % 2 == 1 then 1 else 0, j);
      if j > 0 { BitAnd(a / 2, b / 2, j - 1); }
    }
  }

  lemma {:induction false} BitOr(a: nat, b: nat, j: nat)
    ensures Bit(Or(a, b), j) <==> Bit(a, j) || Bit(b, j)
    decreases j
  {
    if a == 0 || b == 0 {
      BitZero(j);
    } else {
      BitOfDouble(Or(a / 2, b / 2), if a % 2 == 1 || b % 2 == 1 then 1 else 0, j);
      if j > 0 { BitOr(a / 2, b / 2, j - 1); }
    }
  }

  lemma {:induction false} OrFits(a: nat, b: nat, n: nat)
    requires a < Pow2(n) && b < Pow2(n)
    ensures Or(a, b) < Pow2(n)
  {
    if n > 0 && a != 0 && b != 0 { OrFits(a / 2, b / 2, n - 1); }
  }

  lemma {:induction false} BitComplement(w: nat, n: nat, j: nat)
    requires w < Pow2(n) && j < n
    ensures Bit(Pow2(n) - 1 - w, j) <==> !Bit(w, j)
  {
    if j > 0 {
      BitComplement(w / 2, n - 1, j - 1);
      assert (Pow2(n) - 1 - w) / 2 == Pow2(n - 1) - 1 - w / 2;
    }
  }

  lemma BitNot(w: Word, j: nat)
    requires j < BITS
    ensures Bit(Not(w), j) <==> !Bit(w, j)
  {
    WordSize();
    BitComplement(w, BITS, j);
  }

  // Taking off the top bit leaves the lower ones.
  lemma {:induction false} DropTop(w: nat, n: nat, j: nat)
    requires Pow2(n) <= w && j < n
    ensures Bit(w - Pow2(n), j) <==> Bit(w, j)
  {
    if j > 0 {
      DropTop(w / 2, n - 1, j - 1);
      assert (w - Pow2(n)) / 2 == w / 2 - Pow2(n - 1);
    }
  }

  lemma BitDouble(w: Word, j: nat)
    requires j < BITS
    ensures Bit(2 * w % LIMIT, j) <==> j > 0 && Bit(w, j - 1)
  {
    var h := if w < LIMIT / 2 then w else w - LIMIT / 2;
    assert 2 * w % LIMIT == 2 * h + 0;
    BitOfDouble(h, 0, j);
    if j > 0 && h != w {
      WordSize();
      DropTop(w, 63, j - 1);
    }
  }

  lemma {:induction false} BitShl(w: Word, k: nat, j: nat)
    requires j < BITS
    ensures Bit(Shl(w, k), j) <==> j >= k && Bit(w, j - k)
    decreases k
  {
    if k > 0 {
      BitShl(2 * w % LIMIT, k - 1, j);
      if j >= k - 1 { BitDouble(w, j - (k - 1)); }
    }
  }

  lemma {:induction false} BitOnes(n: nat, j: nat)
    ensures Bit(Pow2(n) - 1, j) <==> j < n
  {
    if n == 0 {
      BitZero(j);
    } else if j > 0 {
      BitOnes(n - 1, j - 1);
      assert (Pow2(n) - 1) / 2 == Pow2(n - 1) - 1;
    }
  }

  lemma {:induction false} ShrOnes(n: nat, k: nat)
    requires k <= n
    ensures Shr(Pow2(n) - 1, k) == Pow2(n - k) - 1
    decreases k
  {
    if k > 0 {
      assert (Pow2(n) - 1) / 2 == Pow2(n - 1) - 1;
      ShrOnes(n - 1, k - 1);
    }
  }

  // A word without bits is zero.
  lemma {:induction false} SomeBit(w: nat, n: nat) returns (j: nat)
    requires 0 < w < Pow2(n)
    ensures j < n && Bit(w, j)
  {
    if w % 2 == 1 {
      j := 0;
    } else {
      var i := SomeBit(w / 2, n - 1);
      j := i + 1;
    }
  }

  // ---- masks ------------------------------------------------------------------------------------------------

  // BITMAP_LAST_WORD_MASK
  function LastWordMask(n: nat): Word
    requires n <= BITS
  {
    Shr(LIMIT - 1, BITS - n)
  }

  lemma BitLastWordMask(n: nat, j: nat)
    requires n <= BITS
    ensures Bit(LastWordMask(n), j) <==> j < n
  {
    WordSize();
    ShrOnes(BITS, BITS - n);
    BitOnes(n, j);
  }

  /** __ffsl: the index of the lowest bit that is set. */
  method Ffsl(w: Word) returns (j: nat)
    requires w != 0
    ensures j < BITS && Bit(w, j) && forall i :: 0 <= i < j ==> !Bit(w, i)
  {
    WordSize();
    ghost var k := SomeBit(w, BITS);
    j := 0;
    while !Bit(w, j)
      invariant j <= k && forall i :: 0 <= i < j ==> !Bit(w, i)
      decreases k - j
    {
      j := j + 1;
    }
  }

  /** Masking with 2^k - 1 is taking the remainder. */
  lemma {:induction false} AndMask(x: nat, k: nat)
    ensures And(x, Pow2(k) - 1) == x % Pow2(k)
    decreases k
  {
    if k == 0 {
      AndMaskNone(x, Pow2(k));
    } else {
      var p, q := Pow2(k - 1), Pow2(k);
      AndMask(x / 2, k - 1);
      AndMaskNext(x, p, q);
    }
  }

  lemma AndMaskNone(x: nat, q: nat)
    requires q == 1
    ensures And(x, q - 1) == x % q
  {}

  lemma AndMaskNext(x: nat, p: nat, q: nat)
    requires p > 0 && q == p + p && And(x / 2, p - 1) == x / 2 % p
    ensures And(x, q - 1) == x % q
  {
    AndHalf(x, q - 1);
    HalfMod(x, p, q);
    assert (q - 1) / 2 == p - 1;
  }

  lemma AndHalf(x: nat, m: nat)
    requires m % 2 == 1
    ensures And(x, m) == 2 * And(x / 2, m / 2) + x % 2
  {}

  lemma HalfMod(x: nat, p: nat, q: nat)
    requires p > 0 && q == p + p
    ensures x % q == 2 * (x / 2 % p) + x % 2
  {
    var d, r := x / 2 / p, x / 2 % p;
    assert x / 2 == p * d + r;
    assert q * d == 2 * (p * d);
    ModUnique(x, q, d, 2 * r + x % 2);
  }

  lemma ModUnique(x: nat, m: nat, q: nat, r: nat)
    requires m > 0 && x == m * q + r && r < m
    ensures x % m == r
  {
    var a, b := x / m, x % m;
    assert x == m * a + b;
    if a < q {
      MulLess(m, a, q);
    } else if a > q {
      MulLess(m, q, a);
    }
  }

  lemma MulNext(m: nat, a: nat)
    ensures m * (a + 1) == m * a + m
  {}

  lemma {:induction false} MulLess(m: nat, a: nat, b: nat)
    requires a < b
    ensures m * a + m <= m * b
  {
    MulNext(m, b - 1);
    if a < b - 1 { MulLess(m, a, b - 1); }
  }

  // A remainder modulo 2^k survives a remainder modulo a larger power of two.
  lemma {:induction false} ModMod(x: nat, i: nat, k: nat)
    requires k <= i
    ensures x % Pow2(i) % Pow2(k) == x % Pow2(k)
    decreases k
  {
    if k > 0 {
      var y := x % Pow2(i);
      HalfMod(x, Pow2(i - 1), Pow2(i));
      HalfMod(x, Pow2(k - 1), Pow2(k));
      HalfMod(y, Pow2(k - 1), Pow2(k));
      ModMod(x / 2, i - 1, k - 1);
      assert y / 2 == x / 2 % Pow2(i - 1) && y % 2 == x % 2;
    }
  }
}
