/** Unsigned machine arithmetic as the engine uses it: masks built from powers of two,
    32-bit wrap-around, and the division facts the layers above rely on. */
module Arith {

  const TWO32: nat := 0x1_0000_0000

  /** Bitwise `&` on unsigned numbers. */
  function BitAnd(a: nat, b: nat): nat
    decreases a
  {
    if a == 0 || b == 0 then 0
    else (if a % 2 == 1 && b % 2 == 1 then 1 else 0) + 2 * BitAnd(a / 2, b / 2)
  }

  /** `~m` on a DWORD. */
  function Not32(m: nat): nat
    requires m < TWO32
  {
    TWO32 - 1 - m
  }

  // ----- products and quotients of two variables

  /** Multiplication and division by repeated steps. The layout of a volume is defined with
      these, so that a proof meets products of two variables only where it asks for them by
      calling Arithmetic. */
  function Times(a: nat, b: nat): nat
  {
    if a == 0 then 0 else b + Times(a - 1, b)
  }

  function Quotient(a: nat, b: nat): nat
    requires b > 0
  {
    if a < b then 0 else 1 + Quotient(a - b, b)
  }

  function Remainder(a: nat, b: nat): nat
    requires b > 0
  {
    if a < b then a else Remainder(a - b, b)
  }

  lemma {:induction false} TimesIs(a: nat, b: nat)
    ensures Times(a, b) == a * b
  {
    if a > 0 { TimesIs(a - 1, b); }
  }

  lemma {:induction false} QuotientIs(a: nat, b: nat)
    requires b > 0
    ensures Quotient(a, b) == a / b && Remainder(a, b) == a % b
    decreases a
  {
    if a >= b {
      QuotientIs(a - b, b);
      DivUnique(a, b, (a - b) / b + 1, (a - b) % b);
    } else {
      DivUnique(a, b, 0, a);
    }
  }

  /** They are the operators. */
  lemma Arithmetic()
    ensures forall a: nat, b: nat {:trigger Times(a, b)} :: Times(a, b) == a * b
    ensures forall a: nat, b: nat {:trigger Quotient(a, b)} :: b > 0 ==> Quotient(a, b) == a / b
    ensures forall a: nat, b: nat {:trigger Remainder(a, b)} :: b > 0 ==> Remainder(a, b) == a % b
  {
    forall a: nat, b: nat ensures Times(a, b) == a * b { TimesIs(a, b); }
    forall a: nat, b: nat | b > 0 ensures Quotient(a, b) == a / b && Remainder(a, b) == a % b { QuotientIs(a, b); }
  }

  /** DWORD truncation. */
  function U32(x: int): (r: nat)
    ensures r < TWO32
    ensures 0 <= x < TWO32 ==> r == x
  {
    x % TWO32
  }

  predicate IsPow2(n: nat)
  {
    n == 1 || (n > 1 && n % 2 == 0 && IsPow2(n / 2))
  }

  lemma DivUnique(a: int, b: int, q: int, r: int)
    requires b > 0 && a == q * b + r && 0 <= r < b
    ensures a / b == q && a % b == r
  {
    var q', r' := a / b, a % b;
    assert a == q' * b + r' && 0 <= r' < b;
    assert (q - q') * b == r' - r;
    if q > q' { MulAtLeast(q - q', b); }
    if q < q' { MulAtLeast(q' - q, b); }
  }

  lemma MulAtLeast(k: int, b: int)
    requires k >= 1 && b >= 0
    ensures k * b >= b
  {
  }

  lemma MulMono(a: int, b: int, c: int)
    requires a <= b && c >= 0
    ensures a * c <= b * c
  {
  }

  /** x < n*m stays below n after dividing by m. */
  lemma DivBelow(x: nat, n: nat, m: nat)
    requires m > 0 && x < n * m
    ensures x / m < n
  {
    if x / m >= n { MulMono(n, x / m, m); assert false; }
  }

  lemma DivAtLeast(x: nat, n: nat, m: nat)
    requires m > 0 && x >= n * m
    ensures x / m >= n
  {
    if x / m < n { MulMono(x / m + 1, n, m); assert false; }
  }

  lemma DivDiv(a: nat, b: nat, c: nat)
    requires b > 0 && c > 0
    ensures b * c > 0 && a / b / c == a / (b * c)
  {
    var q, r := a / b / c, a / b % c;
    var s := a % b;
    assert a / b == q * c + r;
    assert a == (q * c + r) * b + s;
    assert a == q * (b * c) + (r * b + s) by {
      assert (q * c + r) * b == q * c * b + r * b;
      assert q * c * b == q * (b * c);
    }
    MulMono(r, c - 1, b);
    assert r * b + s < b * c by { assert (c - 1) * b == c * b - b; }
    DivUnique(a, b * c, q, r * b + s);
  }

  lemma ModDouble(x: nat, m: nat)
    requires m > 0
    ensures x % 2 + 2 * (x / 2 % m) == x % (2 * m)
  {
    var q, r := x / 2 / m, x / 2 % m;
    assert x == 2 * (q * m + r) + x % 2;
    assert x == q * (2 * m) + (2 * r + x % 2);
    DivUnique(x, 2 * m, q, 2 * r + x % 2);
  }

  /** The masks `& (csize - 1)` and `& (ss - 1)` are remainders exactly because the
      operands were checked to be powers of two. */
  lemma {:induction false} MaskIsMod(x: nat, n: nat)
    requires IsPow2(n)
    ensures BitAnd(x, n - 1) == x % n
    decreases n
  {
    if n > 1 {
      var m := n / 2;
      MaskIsMod(x / 2, m);
      ModDouble(x, m);
      assert (n - 1) / 2 == m - 1;
      if x == 0 {
        assert BitAnd(x, n - 1) == 0;
      } else {
        assert BitAnd(x, n - 1) == x % 2 + 2 * BitAnd(x / 2, m - 1);
      }
    }
  }

  /** `n & (n - 1)` vanishes exactly on powers of two. */
  lemma {:induction false} Pow2Test(n: nat)
    requires n > 0
    ensures BitAnd(n, n - 1) == 0 <==> IsPow2(n)
    decreases n
  {
    if n > 1 {
      if n % 2 == 0 {
        Pow2Test(n / 2);
        assert (n - 1) / 2 == n / 2 - 1;
      } else {
        assert (n - 1) / 2 == n / 2;
        AndSelf(n / 2);
      }
    }
  }

  lemma {:induction false} AndSelf(n: nat)
    ensures BitAnd(n, n) == n
    decreases n
  {
    if n > 0 { AndSelf(n / 2); }
  }

  /** Clearing the low bits: `x & ~(n - 1)` rounds x down to a multiple of n. */
  lemma {:induction false} ClearLow(x: nat, n: nat, w: nat)
    requires IsPow2(n) && IsPow2(w) && n <= w && x < w
    ensures BitAnd(x, w - n) == x - x % n
    decreases n
  {
    if w == n || n == 1 {
      ClearLowEnd(x, n, w);
    } else {
      assert n % 2 == 0 && w % 2 == 0;
      hide BitAnd;
      ClearLow(x / 2, n / 2, w / 2);
      ClearLowStep(x, n / 2, w / 2);
    }
  }

  lemma ClearLowEnd(x: nat, n: nat, w: nat)
    requires IsPow2(w) && x < w && 0 < n && (n == w || n == 1)
    ensures BitAnd(x, w - n) == x - x % n
  {
    assert BitAnd(x, 0) == 0;
    hide BitAnd, IsPow2;
    MaskIsMod(x, w);
    DivUnique(x, w, 0, x);
    DivUnique(x, 1, x, 0);
  }

  lemma ClearLowStep(x: nat, k: nat, h: nat)
    requires 0 < k <= h && BitAnd(x / 2, h - k) == x / 2 - x / 2 % k
    ensures BitAnd(x, 2 * h - 2 * k) == x - x % (2 * k)
  {
    hide BitAnd;
    var d: nat := h - k;
    AndTwice(x, d);
    ModDouble(x, k);
    Doubling(x, x / 2 % k, x % (2 * k), BitAnd(x / 2, d), BitAnd(x, 2 * d));
  }

  lemma AndTwice(x: nat, d: nat)
    ensures BitAnd(x, 2 * d) == 2 * BitAnd(x / 2, d)
  {
    AndEven(x, 2 * d);
    assert 2 * d / 2 == d;
    hide BitAnd;
  }

  lemma Doubling(x: nat, m: nat, r: nat, b: nat, bb: nat)
    requires r == x % 2 + 2 * m && b == x / 2 - m && bb == 2 * b
    ensures bb == x - r
  {
  }

  lemma AndEven(x: nat, e: nat)
    requires e % 2 == 0
    ensures BitAnd(x, e) == 2 * BitAnd(x / 2, e / 2)
  {
  }

  lemma Pow2Of32()
    ensures IsPow2(TWO32)
  {
    assert IsPow2(0x10) by { assert IsPow2(4); }
    hide IsPow2;
    Pow2Product(0x10, 0x10);
    Pow2Product(0x100, 0x100);
    Pow2Product(0x1_0000, 0x1_0000);
  }

  lemma {:induction false} Pow2Product(a: nat, b: nat)
    requires IsPow2(a) && IsPow2(b)
    ensures IsPow2(a * b)
    decreases a
  {
    if a > 1 {
      Pow2Product(a / 2, b);
      assert a * b == 2 * (a / 2 * b);
    }
  }
}
