/** Fixed-width unsigned arithmetic as the allocator uses it, on natural numbers.
    The bitwise operators are defined bit by bit, so that the lemmas relating them to
    addition and division are theorems about the operators and not part of them. */
module Bits {

  function Pow2(k: nat): (p: nat)
    ensures p >= 1
  {
    if k == 0 then 1 else 2 * Pow2(k - 1)
  }

  function Or(a: nat, b: nat): nat
    decreases a + b
  {
    if a == 0 && b == 0 then 0
    else 2 * Or(a / 2, b / 2) + (if a % 2 == 1 || b % 2 == 1 then 1 else 0)
  }

  function Xor(a: nat, b: nat): nat
    decreases a + b
  {
    if a == 0 && b == 0 then 0
    else 2 * Xor(a / 2, b / 2) + (if a % 2 != b % 2 then 1 else 0)
  }

  /** Number of significant bits: 64 minus the leading zeros of a 64-bit word. */
  function BitLen(a: nat): nat {
    if a == 0 then 0 else 1 + BitLen(a / 2)
  }

  /** Left shift in a `width`-bit word: bits shifted out are lost. */
  function Shl(width: nat, a: nat, k: nat): nat {
    (a * Pow2(k)) % Pow2(width)
  }

  /** Logical right shift. */
  function Shr(a: nat, k: nat): nat {
    DivNonNegative(a, Pow2(k));
    a / Pow2(k)
  }

  /** The high and the low word of a number, and the number they make up. */
  function Hi(width: nat, a: nat): nat {
    DivNonNegative(a, Pow2(width));
    a / Pow2(width)
  }

  function Lo(width: nat, a: nat): nat {
    a % Pow2(width)
  }

  function Join(width: nat, hi: nat, lo: nat): nat {
    MulMono(0, hi, Pow2(width));
    hi * Pow2(width) + lo
  }

  /** Conversion to a `width`-bit word. */
  function Truncate(width: nat, a: nat): nat {
    a % Pow2(width)
  }

  // ----- arithmetic of powers, quotients and remainders

  lemma {:induction false} Pow2Add(a: nat, b: nat)
    ensures Pow2(a + b) == Pow2(a) * Pow2(b)
  {
    if a == 0 {
    } else {
      Pow2Add(a - 1, b);
      assert Pow2(a + b) == 2 * Pow2(a - 1 + b);
      MulAssoc(2, Pow2(a - 1), Pow2(b));
    }
  }

  lemma {:induction false} Pow2Mono(a: nat, b: nat)
    requires a <= b
    ensures Pow2(a) <= Pow2(b)
    ensures a < b ==> 2 * Pow2(a) <= Pow2(b)
  {
    if a == b {
    } else {
      Pow2Mono(a, b - 1);
    }
  }

  lemma MulAssoc(a: int, b: int, c: int)
    ensures a * (b * c) == (a * b) * c
  {
  }

  lemma MulDistr(a: int, b: int, c: int)
    ensures (a + b) * c == a * c + b * c
    ensures (a - b) * c == a * c - b * c
  {
  }

  lemma MulMono(a: int, b: int, c: int)
    requires a <= b && 0 <= c
    ensures a * c <= b * c
  {
  }

  /** A quotient and remainder are determined by their equation. */
  lemma DivModUnique(x: int, m: int, q: int, r: int)
    requires 0 <= r < m && x == q * m + r
    ensures x / m == q && x % m == r
  {
    var q', r' := x / m, x % m;
    assert x == q' * m + r';
    MulDistr(q, q', m);
    if q < q' {
      MulMono(1, q' - q, m);
      MulDistr(q', q, m);
    } else if q' < q {
      MulMono(1, q - q', m);
    }
  }

  lemma DivNonNegative(x: nat, m: nat)
    requires m > 0
    ensures x / m >= 0
  {
    var q := x / m;
    assert x == q * m + x % m;
    if q < 0 {
      MulMono(q, -1, m);
    }
  }

  lemma DivModEquation(x: nat, m: nat)
    requires m > 0
    ensures x == (x / m) * m + x % m && x % m < m
  {
  }

  lemma ModBound(x: nat, m: nat)
    requires m > 0
    ensures 0 <= x % m <= x && x % m < m
  {
    if x < m {
      DivModUnique(x, m, 0, x);
    }
  }

  /** Dividing by a product divides twice, and the remainder splits the same way. */
  lemma DivModMul(x: nat, a: nat, b: nat)
    requires a > 0 && b > 0
    ensures a * b > 0
    ensures x / (a * b) == x / a / b
    ensures x % (a * b) == (x / a % b) * a + x % a
  {
    var q, r := x / a, x % a;
    var q2, r2 := q / b, q % b;
    assert x == (q2 * b + r2) * a + r;
    MulDistr(q2 * b, r2, a);
    assert (q2 * b) * a == q2 * (a * b) by { MulAssoc(q2, b, a); }
    MulMono(r2, b - 1, a);
    MulDistr(b, 1, a);
    MulMono(0, r2, a);
    MulMono(1, b, a);
    DivModUnique(x, a * b, q2, r2 * a + r);
  }

  // ----- bit operators against arithmetic

  lemma {:induction false} OrZero(a: nat)
    ensures Or(a, 0) == a && Or(0, a) == a
  {
    if a == 0 {
    } else {
      OrZero(a / 2);
    }
  }

  lemma {:induction false} XorZero(a: nat)
    ensures Xor(0, a) == a
  {
    if a == 0 {
    } else {
      XorZero(a / 2);
    }
  }

  lemma {:induction false} XorSelf(a: nat)
    ensures Xor(a, a) == 0
  {
    if a == 0 {
    } else {
      XorSelf(a / 2);
    }
  }

  lemma DoublePow(z: int, k: nat)
    requires k > 0
    ensures z * Pow2(k) == 2 * (z * Pow2(k - 1))
  {
    var p := Pow2(k - 1);
    assert z * (2 * p) == 2 * (z * p);
  }

  /** Halving a number written as high part and low part halves the low part. */
  lemma HalveSplit(a: nat, b: nat, k: nat)
    requires k > 0 && b < Pow2(k)
    ensures a * Pow2(k) + b >= 0 && a * Pow2(k - 1) >= 0
    ensures (a * Pow2(k) + b) / 2 == a * Pow2(k - 1) + b / 2
    ensures (a * Pow2(k) + b) % 2 == b % 2
    ensures b / 2 < Pow2(k - 1)
  {
    DoublePow(a, k);
    var h := a * Pow2(k - 1);
    MulMono(0, a, Pow2(k - 1));
    assert (2 * h + b) / 2 == h + b / 2;
  }

  lemma OrStep(x: nat, y: nat)
    ensures Or(x, y) == 2 * Or(x / 2, y / 2) + (if x % 2 == 1 || y % 2 == 1 then 1 else 0)
  {
  }

  lemma XorStep(x: nat, y: nat)
    ensures Xor(x, y) == 2 * Xor(x / 2, y / 2) + (if x % 2 != y % 2 then 1 else 0)
  {
  }

  /** OR works on the two parts of a split word independently. */
  lemma {:induction false} OrSplit(a: nat, b: nat, c: nat, d: nat, x: nat, y: nat, k: nat)
    requires b < Pow2(k) && d < Pow2(k)
    requires x == a * Pow2(k) + b && y == c * Pow2(k) + d
    ensures Or(x, y) == Or(a, c) * Pow2(k) + Or(b, d)
    decreases k
  {
    if k == 0 {
      assert x == a && y == c;
    } else {
      HalveSplit(a, b, k);
      HalveSplit(c, d, k);
      OrSplit(a, b / 2, c, d / 2, x / 2, y / 2, k - 1);
      OrStep(x, y);
      OrStep(b, d);
      DoublePow(Or(a, c), k);
    }
  }

  /** XOR works on the two parts of a split word independently. */
  lemma {:induction false} XorSplit(a: nat, b: nat, c: nat, d: nat, x: nat, y: nat, k: nat)
    requires b < Pow2(k) && d < Pow2(k)
    requires x == a * Pow2(k) + b && y == c * Pow2(k) + d
    ensures Xor(x, y) == Xor(a, c) * Pow2(k) + Xor(b, d)
    decreases k
  {
    if k == 0 {
      assert x == a && y == c;
    } else {
      HalveSplit(a, b, k);
      HalveSplit(c, d, k);
      XorSplit(a, b / 2, c, d / 2, x / 2, y / 2, k - 1);
      XorStep(x, y);
      XorStep(b, d);
      DoublePow(Xor(a, c), k);
    }
  }

  /** OR-ing low bits into an aligned word is addition. */
  lemma OrAligned(x: nat, y: nat, k: nat)
    requires x % Pow2(k) == 0 && y < Pow2(k)
    ensures Or(x, y) == x + y
  {
    var q := x / Pow2(k);
    OrSplit(q, 0, 0, y, x, y, k);
    OrZero(q);
    OrZero(y);
  }

  /** XOR with the aligned start of a range gives the offset into the range. */
  lemma XorAligned(x: nat, y: nat, k: nat)
    requires x % Pow2(k) == 0 && x <= y < x + Pow2(k)
    ensures Xor(x, y) == y - x
  {
    var q := x / Pow2(k);
    XorSplit(q, 0, q, y - x, x, y, k);
    XorSelf(q);
    XorZero(y - x);
  }

  /** A number has at most k significant bits exactly when it is below 2^k. */
  lemma {:induction false} BitLenBound(a: nat, k: nat)
    ensures BitLen(a) <= k <==> a < Pow2(k)
  {
    if a == 0 {
    } else if k == 0 {
    } else {
      BitLenBound(a / 2, k - 1);
    }
  }

  /** An alignment implies every coarser-grained one below it. */
  lemma AlignedFiner(x: nat, j: nat, k: nat)
    requires j <= k && x % Pow2(k) == 0
    ensures x % Pow2(j) == 0
  {
    Pow2Add(j, k - j);
    DivModMul(x, Pow2(j), Pow2(k - j));
    var q := x / Pow2(j) % Pow2(k - j);
    if q > 0 {
      MulMono(1, q, Pow2(j));
    }
  }
}
