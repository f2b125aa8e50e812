/**
 * C's bitwise operators on non-negative integers, defined bit by bit from the lowest,
 * and the facts about disjoint fields that the instruction encoder relies on.
 */
module Bits {
  import opened Common

  /** `a | b`. */
  function BitOr(a: nat, b: nat): nat
    decreases a + b
  {
    if a == 0 && b == 0 then 0
    else 2 * BitOr(a / 2, b / 2) + (if a % 2 == 1 || b % 2 == 1 then 1 else 0)
  }

  /** `a & b`. */
  function BitAnd(a: nat, b: nat): nat
    decreases a + b
  {
    if a == 0 || b == 0 then 0
    else 2 * BitAnd(a / 2, b / 2) + (if a % 2 == 1 && b % 2 == 1 then 1 else 0)
  }

  /** `a << k`, without truncation. */
  function Shl(a: nat, k: nat): nat
  {
    a * Pow2(k)
  }

  lemma {:induction false} OrZero(b: nat)
    ensures BitOr(0, b) == b && BitOr(b, 0) == b
    decreases b
  {
    if b > 0 {
      OrZero(b / 2);
    }
  }

  lemma {:induction false} OrComm(a: nat, b: nat)
    ensures BitOr(a, b) == BitOr(b, a)
    decreases a + b
  {
    if a != 0 || b != 0 {
      OrComm(a / 2, b / 2);
    }
  }

  /** One step of `BitOr`, also when both operands are zero. */
  lemma OrStep(a: nat, b: nat)
    ensures BitOr(a, b) == 2 * BitOr(a / 2, b / 2) + (if a % 2 == 1 || b % 2 == 1 then 1 else 0)
  {
  }

  lemma MulDouble(c: nat, p: nat)
    ensures c * (2 * p) == 2 * (c * p)
  {
  }

  /** Halving a number whose low k bits are `x`. */
  lemma HalfSplit(c: nat, x: nat, p: nat)
    ensures (c * (2 * p) + x) / 2 == c * p + x / 2
    ensures (c * (2 * p) + x) % 2 == x % 2
    ensures c * (2 * p) + x >= 0 && c * p >= 0
  {
    MulDouble(c, p);
  }

  /** OR works on the high and the low k bits separately. */
  lemma {:induction false} OrSplit(a: nat, x: nat, b: nat, y: nat, k: nat)
    requires x < Pow2(k) && y < Pow2(k)
    ensures BitOr(a * Pow2(k) + x, b * Pow2(k) + y) == BitOr(a, b) * Pow2(k) + BitOr(x, y)
    decreases k
  {
    if k == 0 {
      assert x == 0 && y == 0;
      assert a * Pow2(k) + x == a && b * Pow2(k) + y == b;
      assert BitOr(a, b) * Pow2(k) + BitOr(x, y) == BitOr(a, b);
    } else {
      var p := Pow2(k - 1);
      assert Pow2(k) == 2 * p;
      OrSplit(a, x / 2, b, y / 2, k - 1);
      OrSplitStep(a, x, b, y, p);
    }
  }

  /** One bit more of `OrSplit`: from the split at 2^(k-1) to the split at 2^k = 2p. */
  lemma OrSplitStep(a: nat, x: nat, b: nat, y: nat, p: nat)
    requires p >= 1
    requires BitOr(a * p + x / 2, b * p + y / 2) == BitOr(a, b) * p + BitOr(x / 2, y / 2)
    ensures BitOr(a * (2 * p) + x, b * (2 * p) + y) == BitOr(a, b) * (2 * p) + BitOr(x, y)
  {
    HalfSplit(a, x, p);
    HalfSplit(b, y, p);
    var hi: nat, lo: nat := a * (2 * p) + x, b * (2 * p) + y;
    var bit := if x % 2 == 1 || y % 2 == 1 then 1 else 0;
    var o := BitOr(a, b);
    calc {
      BitOr(hi, lo);
      { OrStep(hi, lo); }
      2 * BitOr(a * p + x / 2, b * p + y / 2) + bit;
      2 * (o * p + BitOr(x / 2, y / 2)) + bit;
      { MulDouble(o, p); }
      o * (2 * p) + (2 * BitOr(x / 2, y / 2) + bit);
      { OrStep(x, y); }
      o * (2 * p) + BitOr(x, y);
    }
  }

  /** `OrSplit` with nothing in the low bits of the first operand and nothing above them in the second. */
  lemma OrSplitLow(b: nat, a: nat, k: nat)
    requires a < Pow2(k)
    ensures BitOr(b * Pow2(k), a) == BitOr(b, 0) * Pow2(k) + BitOr(0, a)
  {
    var p := Pow2(k);
    assert b * p >= 0 && 0 * p == 0 by { MulMono(0, b, p); }
    OrSplit(b, 0, 0, a, k);
  }

  /** OR-ing a value below 2^k into a multiple of 2^k is addition. */
  lemma OrDisjoint(a: nat, b: nat, k: nat)
    requires a < Pow2(k)
    ensures BitOr(a, b * Pow2(k)) == a + b * Pow2(k)
    ensures BitOr(b * Pow2(k), a) == a + b * Pow2(k)
  {
    var p := Pow2(k);
    OrSplitLow(b, a, k);
    OrZero(b);
    OrZero(a);
    MulMono(0, b, p);
    OrComm(a, b * p);
  }

  /** OR-ing a value below 2^k into a multiple of 2^k is addition, in either order. */
  lemma OrAdd(hi: nat, lo: nat, k: nat)
    requires lo < Pow2(k) && hi % Pow2(k) == 0
    ensures BitOr(hi, lo) == hi + lo && BitOr(lo, hi) == hi + lo
  {
    var m := hi / Pow2(k);
    assert hi == m * Pow2(k);
    OrDisjoint(lo, m, k);
  }

  lemma Pow2Small(k: nat)
    requires k <= 13
    ensures k == 1 ==> Pow2(k) == 2
    ensures k == 2 ==> Pow2(k) == 4
    ensures k == 3 ==> Pow2(k) == 8
    ensures k == 5 ==> Pow2(k) == 32
    ensures k == 8 ==> Pow2(k) == 256
    ensures k == 13 ==> Pow2(k) == 0x2000
  {
    if k > 0 {
      Pow2Small(k - 1);
    }
  }

  /** `OrAdd` for the field boundaries the instruction words use, stated with the power itself. */
  lemma OrAddAt(hi: nat, lo: nat, p: nat)
    requires p == 2 || p == 4 || p == 8 || p == 32 || p == 256 || p == 0x2000
    requires lo < p && hi % p == 0
    ensures BitOr(hi, lo) == hi + lo && BitOr(lo, hi) == hi + lo
  {
    var k := if p == 2 then 1 else if p == 4 then 2 else if p == 8 then 3
             else if p == 32 then 5 else if p == 256 then 8 else 13;
    Pow2Small(k);
    OrAdd(hi, lo, k);
  }

  /** AND with 2^k - 1 keeps the k low bits. */
  lemma {:induction false} AndLowMask(x: nat, k: nat)
    ensures BitAnd(Pow2(k) - 1, x) == x % Pow2(k)
    decreases k
  {
    if k == 0 {
      assert Pow2(k) - 1 == 0;
    } else if x == 0 {
      ModUnique(0, Pow2(k), 0, 0);
    } else {
      var p := Pow2(k - 1);
      var mask := Pow2(k) - 1;
      assert Pow2(k) == 2 * p && p >= 1;
      assert mask / 2 == p - 1 && mask % 2 == 1;
      assert BitAnd(mask, x) == 2 * BitAnd(p - 1, x / 2) + x % 2;
      AndLowMask(x / 2, k - 1);
      assert BitAnd(p - 1, x / 2) == (x / 2) % p;
      DivModPair(x, p);
    }
  }

  /** AND with a mask of k ones starting at bit j extracts that field, in place. */
  lemma {:induction false} AndFieldMask(x: nat, k: nat, j: nat)
    ensures (Pow2(k) - 1) * Pow2(j) >= 0
    ensures BitAnd((Pow2(k) - 1) * Pow2(j), x) == (x / Pow2(j)) % Pow2(k) * Pow2(j)
    decreases j
  {
    var c := Pow2(k) - 1;
    MulMono(0, c, Pow2(j));
    if j == 0 {
      AndLowMask(x, k);
    } else {
      var p := Pow2(j - 1);
      assert Pow2(j) == 2 * p;
      assert c * Pow2(j) == 2 * (c * p) by { MulDouble(c, p); }
      AndFieldMask(x / 2, k, j - 1);
      AndFieldStep(x, c, Pow2(k), p, c * p);
    }
  }

  /** `(x & mask) >> j` for the mask of the k bits from bit j up: those k bits of x. */
  lemma AndFieldShifted(x: nat, k: nat, j: nat, mask: nat, p: nat, m: nat)
    requires m == Pow2(k) && p == Pow2(j) && mask == (m - 1) * p
    ensures BitAnd(mask, x) / p == (x / p) % m
  {
    AndFieldMask(x, k, j);
    var a := (x / p) % m;
    ModUnique(a * p, p, a, 0);
  }

  /**
   * One bit more of `AndFieldMask`: from the field at bit j - 1 of x / 2 (mask `half` = c * p)
   * to the field at bit j of x (mask 2 * half).
   */
  lemma AndFieldStep(x: nat, c: nat, m: nat, p: nat, half: nat)
    requires c == m - 1 && p >= 1 && half == c * p
    requires BitAnd(half, x / 2) == ((x / 2) / p) % m * p
    ensures BitAnd(2 * half, x) == (x / (2 * p)) % m * (2 * p)
  {
    var q := (x / 2) / p;
    assert x / (2 * p) == q by { HalfThenDiv(x, p); }
    if x == 0 || c == 0 {
      assert q % m == 0 by {
        if c == 0 {
          ModUnique(q, 1, q, 0);
        } else {
          ModUnique(0, m, 0, 0);
        }
      }
      assert BitAnd(2 * half, x) == 0;
    } else {
      assert half >= 1 by { MulMono(1, c, p); }
      assert BitAnd(2 * half, x) == 2 * BitAnd(half, x / 2);
      var t := q % m;
      assert t * (2 * p) == 2 * (t * p) by { MulDouble(t, p); }
    }
  }

  /** Halving and then dividing by p is dividing by 2p. */
  lemma HalfThenDiv(x: nat, p: nat)
    requires p >= 1
    ensures (x / 2) / p == x / (2 * p)
  {
    var q, r := (x / 2) / p, (x / 2) % p;
    assert x == (2 * p) * q + (2 * r + x % 2);
    ModUnique(x, 2 * p, q, 2 * r + x % 2);
  }

  lemma ModUnique(x: int, m: int, q: int, r: int)
    requires m > 0 && x == q * m + r && 0 <= r < m
    ensures x % m == r && x / m == q
  {
    var q2, r2 := x / m, x % m;
    assert (q2 - q) * m == r - r2;
    if q2 > q {
      MulAtLeast(q2 - q, m);
    } else if q2 < q {
      MulAtLeast(q - q2, m);
    }
  }

  lemma MulAtLeast(a: int, m: int)
    requires a >= 1 && m > 0
    ensures a * m >= m
  {
  }

  lemma DivModPair(x: nat, p: nat)
    requires p >= 1
    ensures x % (2 * p) == 2 * ((x / 2) % p) + x % 2
  {
    var q := (x / 2) / p;
    var r := (x / 2) % p;
    assert x / 2 == q * p + r;
    assert x == (2 * p) * q + (2 * r + x % 2);
    ModUnique(x, 2 * p, q, 2 * r + x % 2);
  }
}
