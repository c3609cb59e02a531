/**
  Fixed-width integers and bit operations as the C sources use them.

  Values are mathematical integers; wherever the C code wraps, truncates or masks, the model
  says so with one of the functions below.
 */
module Machine {

  const TWO16: nat := 0x1_0000
  const TWO32: nat := 0x1_0000_0000

  type u8 = x: int | 0 <= x < 0x100
  type u16 = x: int | 0 <= x < 0x1_0000
  type u32 = x: int | 0 <= x < 0x1_0000_0000
  type i16 = x: int | -0x8000 <= x < 0x8000
  type i32 = x: int | -0x8000_0000 <= x < 0x8000_0000

  /** Unsigned 32-bit addition and subtraction wrap (section 6.2.5 of ISO C11). */
  function Add32(a: u32, b: u32): u32 {
    if a + b < 0x1_0000_0000 then a + b else a + b - 0x1_0000_0000
  }

  function Sub32(a: u32, b: u32): u32 {
    if b <= a then a - b else a - b + 0x1_0000_0000
  }

  /** Narrowing to a signed type keeps the value modulo 2^n (section 6.3.1.3 of ISO C11, as GCC fills it in). */
  function ToInt16(x: int): i16 { (x + 0x8000) % 0x1_0000 - 0x8000 }

  function ToInt32(x: int): i32 { (x + 0x8000_0000) % 0x1_0000_0000 - 0x8000_0000 }

  /** C's integer division truncates toward zero. */
  function TruncDiv(a: int, b: nat): int
    requires b > 0
  {
    if a >= 0 then a / b else -((-a) / b)
  }

  function Min(a: nat, b: nat): (r: nat)
    ensures r <= a && r <= b
  {
    if a < b then a else b
  }

  /** Bitwise `a & b`, bit by bit from the low end. */
  function BitAnd(a: nat, b: nat): (r: nat)
    ensures r <= a && r <= b
    decreases a
  {
    if a == 0 || b == 0 then 0
    else 2 * BitAnd(a / 2, b / 2) + (if a % 2 == 1 && b % 2 == 1 then 1 else 0)
  }

  /** Bitwise `a | b`. */
  function BitOr(a: nat, b: nat): nat
    decreases a + b
  {
    if a == 0 then b
    else if b == 0 then a
    else 2 * BitOr(a / 2, b / 2) + (if a % 2 == 1 || b % 2 == 1 then 1 else 0)
  }

  /** n is 2^k for some k >= 0. */
  predicate IsPow2(n: nat) {
    n == 1 || (n > 1 && n % 2 == 0 && IsPow2(n / 2))
  }

  // ----- modular arithmetic

  lemma MultipleBounds(d: int, n: int)
    requires n > 0
    ensures d >= 1 ==> d * n >= n
    ensures d <= -1 ==> d * n <= -n
  {
  }

  lemma DivModUnique(x: int, q: int, r: int, n: int)
    requires n > 0 && 0 <= r < n && x == q * n + r
    ensures x / n == q && x % n == r
  {
    var d := x / n - q;
    assert x == (x / n) * n + x % n;
    assert d * n == r - x % n;
    MultipleBounds(d, n);
  }

  /** The low digit of a two-digit number, and the rest. */
  lemma Digit(lo: int, hi: int, n: int)
    requires 0 <= lo < n
    ensures (lo + n * hi) % n == lo && (lo + n * hi) / n == hi
  {
    DivModUnique(lo + n * hi, hi, lo, n);
  }

  /** Stepping d < n places from x on a ring of n slots wraps at most once. */
  lemma WrapOnce(x: nat, d: nat, n: nat)
    requires 0 < n && d < n
    ensures (x + d) % n == if x % n + d < n then x % n + d else x % n + d - n
  {
    var q, r := x / n, x % n;
    assert x == q * n + r;
    if r + d < n {
      DivModUnique(x + d, q, r + d, n);
    } else {
      assert (q + 1) * n == q * n + n;
      DivModUnique(x + d, q + 1, r + d - n, n);
    }
  }

  /** Two places fewer than n apart are different slots. */
  lemma SlotsDiffer(x: nat, y: nat, n: nat)
    requires 0 < n && x < y < x + n
    ensures x % n != y % n
  {
    WrapOnce(x, y - x, n);
  }

  lemma ModOfMod(x: int, n: nat, m: nat)
    requires 0 < n && 0 < m && m % n == 0
    ensures (x % m) % n == x % n
  {
    var k, j, q, r := m / n, x / m, (x % m) / n, (x % m) % n;
    assert m == k * n;
    assert x == j * m + x % m;
    assert j * m == j * (k * n) == (j * k) * n;
    assert x == (j * k) * n + q * n + r;
    assert (j * k) * n + q * n == (j * k + q) * n;
    DivModUnique(x, j * k + q, r, n);
  }

  /** A counter in memory: the true count modulo 2^32. */
  function Wrap(count: nat): u32 { count % 0x1_0000_0000 }

  lemma ModSmall(n: u32)
    ensures Wrap(n) == n
  {
  }

  lemma WrapAdd(count: nat, n: u32)
    ensures Add32(Wrap(count), n) == Wrap(count + n)
  {
  }

  // ----- powers of two and masks

  lemma {:induction false} Pow2Divides(n: nat, m: nat)
    requires IsPow2(n) && IsPow2(m) && n <= m
    ensures m % n == 0
  {
    if n > 1 {
      Pow2Divides(n / 2, m / 2);
      var k := (m / 2) / (n / 2);
      assert m / 2 == k * (n / 2);
      assert m == k * n;
      DivModUnique(m, k, 0, n);
    }
  }

  lemma HalveDiv(x: nat, n: nat)
    requires 1 < n && n % 2 == 0
    ensures (x / 2) / (n / 2) == x / n
  {
    var m := n / 2;
    var q, r := (x / 2) / m, (x / 2) % m;
    assert x / 2 == q * m + r;
    assert q * n == q * (2 * m) == 2 * (q * m);
    DivModUnique(x, q, 2 * r + x % 2, n);
  }

  lemma AndEven(x: nat, n: nat)
    requires 0 < x && 1 < n && n % 2 == 0
    ensures BitAnd(x, n) == 2 * BitAnd(x / 2, n / 2)
  {
  }

  /** Testing one bit. */
  lemma {:induction false} AndBit(x: nat, n: nat)
    requires IsPow2(n)
    ensures BitAnd(x, n) == if x / n % 2 == 1 then n else 0
  {
    if x == 0 {
    } else if n == 1 {
      assert BitAnd(x / 2, 0) == 0;
    } else {
      AndBit(x / 2, n / 2);
      AndEven(x, n);
      HalveDiv(x, n);
    }
  }

  /** Setting a bit above all the others. */
  lemma {:induction false} OrBit(x: nat, n: nat)
    requires IsPow2(n) && x < n
    ensures BitOr(x, n) == x + n
  {
    if n > 1 && x > 0 {
      OrBit(x / 2, n / 2);
    }
  }

  lemma Twice(n: nat)
    requires IsPow2(n)
    ensures IsPow2(2 * n)
  {
  }

  lemma Times16(n: nat)
    requires IsPow2(n)
    ensures IsPow2(16 * n)
  {
    hide IsPow2;
    Twice(n);
    Twice(2 * n);
    Twice(4 * n);
    Twice(8 * n);
  }

  lemma TwoTo32IsPow2()
    ensures IsPow2(TWO32)
  {
    assert IsPow2(1);
    hide IsPow2;
    Times16(0x1);
    Times16(0x10);
    Times16(0x100);
    Times16(0x1000);
    Times16(0x1_0000);
    Times16(0x10_0000);
    Times16(0x100_0000);
    Times16(0x1000_0000);
  }

  lemma HalveMod(x: nat, n: nat)
    requires 1 < n && n % 2 == 0
    ensures x % n == 2 * ((x / 2) % (n / 2)) + x % 2
  {
    var m := n / 2;
    var q, r := (x / 2) / m, (x / 2) % m;
    assert x / 2 == q * m + r;
    assert q * n == q * (2 * m) == 2 * (q * m);
    DivModUnique(x, q, 2 * r + x % 2, n);
  }

  lemma AndOddMask(x: nat, n: nat)
    requires 0 < x && 1 < n && n % 2 == 0
    ensures BitAnd(x, n - 1) == 2 * BitAnd(x / 2, n / 2 - 1) + x % 2
  {
    assert (n - 1) / 2 == n / 2 - 1 && (n - 1) % 2 == 1;
  }

  /** Masking with 2^k - 1 keeps the value modulo 2^k. */
  lemma {:induction false} MaskIsMod(x: nat, n: nat)
    requires IsPow2(n)
    ensures BitAnd(x, n - 1) == x % n
  {
    if n == 1 || x == 0 {
    } else {
      MaskIsMod(x / 2, n / 2);
      AndOddMask(x, n);
      HalveMod(x, n);
    }
  }

  lemma WrappedMod(x: nat, n: nat)
    requires IsPow2(n) && n < TWO32
    ensures Wrap(x) % n == x % n
  {
    assert TWO32 % n == 0 by {
      TwoTo32IsPow2();
      Pow2Divides(n, TWO32);
    }
    ModOfMod(x, n, TWO32);
  }

  /** Because a power of two divides 2^32, masking a wrapped counter gives the unwrapped counter modulo n. */
  lemma WrappedMask(x: nat, n: nat)
    requires IsPow2(n) && n < TWO32
    ensures BitAnd(Wrap(x), n - 1) == x % n
  {
    WrappedMod(x, n);
    MaskIsMod(Wrap(x), n);
  }

  lemma {:induction false} AndSelf(n: nat)
    ensures BitAnd(n, n) == n
  {
    if n > 0 { AndSelf(n / 2); }
  }

  /** The classic test `n & (n - 1) == 0` accepts exactly the powers of two, and zero. */
  lemma {:induction false} PowerOfTwoTest(n: nat)
    ensures BitAnd(n, if n == 0 then TWO32 - 1 else n - 1) == 0 <==> n == 0 || IsPow2(n)
  {
    if n > 1 {
      if n % 2 == 0 {
        assert (n - 1) / 2 == n / 2 - 1 && (n - 1) % 2 == 1;
        PowerOfTwoTest(n / 2);
      } else {
        assert (n - 1) / 2 == n / 2 && n - 1 > 0;
        AndSelf(n / 2);
      }
    }
  }

}
