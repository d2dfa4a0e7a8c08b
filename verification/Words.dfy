/** Unsigned 64-bit words as natural numbers: masks, shifts and wrap-around. */
module Words {

  const WORD: nat := 0x1_0000_0000_0000_0000

  function Pow2(k: nat): (r: nat)
    ensures r >= 1
  {
    if k == 0 then 1 else 2 * Pow2(k - 1)
  }

  /** Bitwise and. */
  function And(x: nat, y: nat): nat {
    if x == 0 || y == 0 then 0
    else 2 * And(x / 2, y / 2) + (if x % 2 == 1 && y % 2 == 1 then 1 else 0)
  }

  function Quot(x: nat, n: nat): nat
    requires n > 0
  {
    x / n
  }

  function Rem(x: nat, n: nat): (r: nat)
    requires n > 0
    ensures r < n
  {
    x % n
  }

  function Shr(x: nat, k: nat): nat {
    Quot(x, Pow2(k))
  }

  /** x << k in a 64-bit word. */
  function Shl(x: nat, k: nat): nat {
    x * Pow2(k) % WORD
  }

  lemma DivModUnique(x: int, q: int, r: int, n: int)
    requires 0 <= r < n && x == q * n + r
    ensures x / n == q && x % n == r
  {
    var d := x / n - q;
    assert x == n * (x / n) + x % n;
    assert d * n == r - x % n by {
      assert d * n == (x / n) * n - q * n;
    }
    if d >= 1 {
      MulMono(1, d, n);
    } else if d <= -1 {
      MulMono(d, -1, n);
    }
  }

  lemma MulMono(a: int, b: int, n: int)
    requires a <= b && 0 <= n
    ensures a * n <= b * n
  {
    assert (b - a) * n >= 0;
  }

  lemma ModShift(x: int, q: int, n: int)
    requires n > 0
    ensures (x + q * n) % n == x % n
  {
    assert x == n * (x / n) + x % n;
    assert x + q * n == (x / n + q) * n + x % n;
    DivModUnique(x + q * n, x / n + q, x % n, n);
  }

  lemma HalfMod(x: nat, n: nat)
    requires n > 0
    ensures x % (2 * n) == 2 * (x / 2 % n) + x % 2
  {
    var q, r := x / 2 / n, x / 2 % n;
    assert x / 2 == n * q + r;
    assert 2 * (n * q) == q * (2 * n);
    DivModUnique(x, q, 2 * r + x % 2, 2 * n);
  }

  lemma AndOdd(x: nat, n: nat)
    requires n > 0
    ensures And(x, 2 * n - 1) == 2 * And(x / 2, n - 1) + x % 2
  {
    assert (2 * n - 1) / 2 == n - 1 && (2 * n - 1) % 2 == 1;
  }

  lemma AndZero(x: nat)
    ensures And(x, 0) == 0 && x % 1 == 0
  {
  }

  lemma MaskStep(x: nat, n: nat)
    requires n > 0 && And(x / 2, n - 1) == x / 2 % n
    ensures And(x, 2 * n - 1) == x % (2 * n)
  {
    AndOdd(x, n);
    HalfMod(x, n);
  }

  /** A mask of the low k bits takes the remainder by 2^k. */
  lemma {:induction false} MaskIsMod(x: nat, k: nat)
    ensures And(x, Pow2(k) - 1) == x % Pow2(k)
    decreases k
  {
    if k == 0 {
      AndZero(x);
    } else {
      var n := Pow2(k - 1);
      assert Pow2(k) == 2 * n;
      MaskIsMod(x / 2, k - 1);
      MaskStep(x, n);
    }
  }

  lemma {:induction false} Pow2Add(i: nat, j: nat)
    ensures Pow2(i + j) == Pow2(i) * Pow2(j)
    decreases i
  {
    if i > 0 {
      Pow2Add(i - 1, j);
      assert 2 * (Pow2(i - 1) * Pow2(j)) == (2 * Pow2(i - 1)) * Pow2(j);
    }
  }

  lemma {:induction false} Pow2Monotone(i: nat, j: nat)
    requires i <= j
    ensures Pow2(i) <= Pow2(j)
    decreases j
  {
    if i < j {
      Pow2Monotone(i, j - 1);
    }
  }

  lemma Pow2Values()
    ensures Pow2(63) == 0x8000_0000_0000_0000 && Pow2(64) == WORD
  {
    assert Pow2(4) == 16;
    Pow2Add(4, 4);
    Pow2Add(8, 8);
    Pow2Add(16, 16);
    Pow2Add(32, 32);
  }

  lemma ModOfMod(x: nat, n: nat, c: nat)
    requires n > 0 && c > 0
    ensures x % (c * n) % n == x % n
  {
    var m := c * n;
    assert x == (x / m) * m + x % m;
    assert (x / m) * m == (x / m * c) * n;
    ModShift(x % m, x / m * c, n);
  }

  /** A word that wrapped around still has its remainder by a power of two. */
  lemma WrapThenMod(x: nat, k: nat)
    requires k <= 64
    ensures x % WORD % Pow2(k) == x % Pow2(k)
  {
    Pow2Values();
    Pow2Add(64 - k, k);
    ModOfMod(x, Pow2(k), Pow2(64 - k));
  }

  /** Bitwise or. */
  function Or(x: nat, y: nat): nat {
    if x == 0 then y
    else if y == 0 then x
    else 2 * Or(x / 2, y / 2) + (if x % 2 == 1 || y % 2 == 1 then 1 else 0)
  }

  /** Or-ing a shifted number onto free low bits adds it. */
  lemma {:induction false} OrIsAdd(x: nat, y: nat, k: nat)
    requires x < Pow2(k)
    ensures Or(x, y * Pow2(k)) == x + y * Pow2(k)
    decreases k
  {
    if x > 0 && y > 0 {
      var n := y * Pow2(k - 1);
      assert y * Pow2(k) == 2 * n;
      OrIsAdd(x / 2, y, k - 1);
      OrEven(x, n);
    }
  }

  lemma OrEven(x: nat, n: nat)
    requires Or(x / 2, n) == x / 2 + n
    ensures Or(x, 2 * n) == x + 2 * n
  {
    assert (2 * n) / 2 == n && (2 * n) % 2 == 0;
  }

  /** Bitwise exclusive or. */
  function Xor(x: nat, y: nat): nat {
    if x == 0 then y
    else if y == 0 then x
    else 2 * Xor(x / 2, y / 2) + (if x % 2 != y % 2 then 1 else 0)
  }

  lemma XorStep(x: nat, y: nat)
    ensures Xor(x, y) / 2 == Xor(x / 2, y / 2) && Xor(x, y) % 2 == if x % 2 != y % 2 then 1 else 0
  {
  }

  lemma Halved(x: nat, n: nat)
    requires n > 0
    ensures Rem(x, 2 * n) / 2 == Rem(x / 2, n) && Rem(x, 2 * n) % 2 == x % 2
  {
    HalfMod(x, n);
  }

  lemma XorModStep(x: nat, y: nat, n: nat)
    requires n > 0 && Rem(Xor(x / 2, y / 2), n) == Xor(Rem(x / 2, n), Rem(y / 2, n))
    ensures Rem(Xor(x, y), 2 * n) == Xor(Rem(x, 2 * n), Rem(y, 2 * n))
  {
    Halved(x, n);
    Halved(y, n);
    Halved(Xor(x, y), n);
    XorStep(x, y);
    XorStep(Rem(x, 2 * n), Rem(y, 2 * n));
  }

  /** Low bits come from low bits. */
  lemma {:induction false} XorMod(x: nat, y: nat, k: nat)
    ensures Rem(Xor(x, y), Pow2(k)) == Xor(Rem(x, Pow2(k)), Rem(y, Pow2(k)))
    decreases k
  {
    if k > 0 {
      XorMod(x / 2, y / 2, k - 1);
      XorModStep(x, y, Pow2(k - 1));
    }
  }

  lemma ShrStep(x: nat, k: nat)
    requires k > 0
    ensures Shr(x, k) == Shr(x / 2, k - 1)
  {
    var n := Pow2(k - 1);
    var q, r := x / 2 / n, x / 2 % n;
    assert x / 2 == q * n + r;
    assert x == q * (2 * n) + (2 * r + x % 2);
    DivModUnique(x, q, 2 * r + x % 2, 2 * n);
  }

  lemma ShrZero(x: nat)
    ensures Shr(x, 0) == x
  {
  }

  lemma XorShrStep(x: nat, y: nat, k: nat)
    requires k > 0 && Shr(Xor(x / 2, y / 2), k - 1) == Xor(Shr(x / 2, k - 1), Shr(y / 2, k - 1))
    ensures Shr(Xor(x, y), k) == Xor(Shr(x, k), Shr(y, k))
  {
    XorStep(x, y);
    ShrStep(x, k);
    ShrStep(y, k);
    ShrStep(Xor(x, y), k);
  }

  /** High bits come from high bits. */
  lemma {:induction false} XorShr(x: nat, y: nat, k: nat)
    ensures Shr(Xor(x, y), k) == Xor(Shr(x, k), Shr(y, k))
    decreases k
  {
    if k > 0 {
      XorShr(x / 2, y / 2, k - 1);
      XorShrStep(x, y, k);
    } else {
      ShrZero(x);
      ShrZero(y);
      ShrZero(Xor(x, y));
    }
  }

  lemma {:induction false} XorSelf(x: nat)
    ensures Xor(x, x) == 0
    decreases x
  {
    if x > 0 {
      XorSelf(x / 2);
    }
  }

  lemma {:induction false} XorCancels(x: nat, y: nat, z: nat)
    requires Xor(x, z) == Xor(y, z)
    ensures x == y
    decreases x + y + z
  {
    if x + y + z > 0 {
      XorStep(x, z);
      XorStep(y, z);
      XorCancels(x / 2, y / 2, z / 2);
    }
  }

  /** Numbers of k bits give a number of k bits. */
  lemma {:induction false} XorBound(x: nat, y: nat, k: nat)
    requires x < Pow2(k) && y < Pow2(k)
    ensures Xor(x, y) < Pow2(k)
    decreases k
  {
    if k > 0 {
      XorStep(x, y);
      XorBound(x / 2, y / 2, k - 1);
    }
  }

  /** On free low bits it adds. */
  lemma {:induction false} XorIsAdd(x: nat, y: nat, k: nat)
    requires x < Pow2(k)
    ensures Xor(x, y * Pow2(k)) == x + y * Pow2(k)
    decreases k
  {
    if k > 0 {
      Doubled(y, k);
      XorIsAdd(x / 2, y, k - 1);
      XorEven(x, y * Pow2(k - 1));
    } else {
      assert x == 0;
    }
  }

  lemma Doubled(y: nat, k: nat)
    requires k > 0
    ensures y * Pow2(k) == 2 * (y * Pow2(k - 1))
  {
  }

  lemma XorEven(x: nat, n: nat)
    requires Xor(x / 2, n) == x / 2 + n
    ensures Xor(x, 2 * n) == x + 2 * n
  {
    assert (2 * n) / 2 == n && (2 * n) % 2 == 0;
    XorStep(x, 2 * n);
  }
}
