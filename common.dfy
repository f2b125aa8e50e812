/** Integer widths, C arithmetic and small helpers shared by the whole model. */
module Common {

  /** C's fixed-width unsigned integers, as ranges of the unbounded `int`. */
  type byte = x: int | 0 <= x < 0x100
  type u16 = x: int | 0 <= x < 0x1_0000
  type u32 = x: int | 0 <= x < 0x1_0000_0000

  const U32_MOD: int := 0x1_0000_0000

  datatype Option<T> = None | Some(value: T)

  function Pow2(n: nat): (r: nat)
    ensures r >= 1
  {
    if n == 0 then 1 else 2 * Pow2(n - 1)
  }

  lemma {:induction false} Pow2Add(a: nat, b: nat)
    ensures Pow2(a + b) == Pow2(a) * Pow2(b)
  {
    if a > 0 {
      var x, y, z := Pow2(a - 1), Pow2(b), Pow2(a - 1 + b);
      assert z == x * y by { Pow2Add(a - 1, b); }
      assert Pow2(a + b) == 2 * z;
      assert Pow2(a) == 2 * x;
      assert 2 * (x * y) == (2 * x) * y;
    }
  }

  lemma {:induction false} Pow2Monotonic(a: nat, b: nat)
    requires a <= b
    ensures Pow2(a) <= Pow2(b)
  {
    if a < b {
      Pow2Monotonic(a, b - 1);
    }
  }

  function Sum(s: seq<int>): int
  {
    if s == [] then 0 else s[0] + Sum(s[1..])
  }

  function Min(a: int, b: int): int { if a < b then a else b }
  function Max(a: int, b: int): int { if a > b then a else b }

  lemma DivMod(x: int, m: int)
    requires m > 0
    ensures x == (x / m) * m + x % m && 0 <= x % m < m
  {
  }

  /** Euclidean division of a natural number stays natural. */
  lemma DivNonNeg(x: int, m: int)
    requires x >= 0 && m > 0
    ensures x / m >= 0
  {
  }

  lemma MulMono(a: int, b: int, c: int)
    requires a <= b && c >= 0
    ensures a * c <= b * c
  {
  }

  lemma MulSucc(q: int, p: int)
    ensures (q + 1) * p == q * p + p && (q - 1) * p == q * p - p
  {
  }

  /** Cancelling a positive factor from a strict inequality. */
  lemma MulLess(a: int, b: int, c: int)
    requires c > 0 && a * c < b * c
    ensures a < b
  {
    if a >= b {
      MulMono(b, a, c);
    }
  }

  /** The `abs` macro of backscatter.h. */
  function Abs(x: int): nat
  {
    if x > 0 then x else -x
  }

  /** C's `/` on signed integers: the quotient is truncated toward zero. */
  function CDiv(a: int, b: int): (q: int)
    requires b > 0
    ensures a >= 0 ==> q * b <= a < q * b + b
    ensures a < 0 ==> q * b - b < a <= q * b
  {
    if a >= 0 then a / b else -((-a) / b)
  }

  /** C's `round` of the quotient a/b (halfway cases away from zero), for a >= 0 and b > 0. */
  function RoundHalfAway(a: nat, b: nat): (r: nat)
    requires b > 0
    ensures 2 * a - b < 2 * r * b <= 2 * a + b
  {
    (2 * a + b) / (2 * b)
  }

  /** Python's `round` of the quotient a/b (halfway cases to the even neighbour), for a >= 0 and b > 0. */
  function RoundHalfEven(a: nat, b: nat): (r: nat)
    requires b > 0
    ensures 2 * a - b <= 2 * r * b <= 2 * a + b
    ensures (2 * r * b == 2 * a + b || 2 * r * b == 2 * a - b) ==> r % 2 == 0
  {
    RoundCandidates(a, b);
    var q := a / b;
    var rem := a % b;
    if 2 * rem < b then q
    else if 2 * rem > b then q + 1
    else if q % 2 == 0 then q
    else q + 1
  }

  /** The two integers around a / b, scaled by 2b. */
  lemma RoundCandidates(a: nat, b: nat)
    requires b > 0
    ensures 0 <= a % b < b
    ensures 2 * (a / b) * b == 2 * a - 2 * (a % b)
    ensures 2 * (a / b + 1) * b == 2 * a - 2 * (a % b) + 2 * b
  {
    DivMod(a, b);
  }

  /** C's conversion of an integer to `uint8_t`, `uint16_t` and `uint32_t`: reduction modulo 2^8, 2^16, 2^32. */
  function ToU8(x: int): (r: byte)
    ensures 0 <= x < 0x100 ==> r == x
    ensures (r - x) % 0x100 == 0
  {
    x % 0x100
  }

  function ToU16(x: int): (r: u16)
    ensures 0 <= x < 0x1_0000 ==> r == x
    ensures (r - x) % 0x1_0000 == 0
  {
    x % 0x1_0000
  }

  function ToU32(x: int): (r: u32)
    ensures 0 <= x < U32_MOD ==> r == x
    ensures (r - x) % U32_MOD == 0
  {
    x % U32_MOD
  }

  /** Conversion to `int16_t` as two's complement (the behaviour of the RP2040 toolchain). */
  function ToInt16(x: int): (r: int)
    ensures -0x8000 <= r < 0x8000
    ensures -0x8000 <= x < 0x8000 ==> r == x
    ensures (r - x) % 0x1_0000 == 0
  {
    var m := x % 0x1_0000;
    if m >= 0x8000 then m - 0x1_0000 else m
  }

  /** Ceiling of a/b for a >= 0 and b > 0. */
  function CeilDiv(a: nat, b: nat): (r: nat)
    requires b > 0
    ensures r * b >= a
    ensures r == 0 || (r - 1) * b < a
  {
    (a + b - 1) / b
  }

  /**
   * A non-blocking `queue_try_add` on a queue of fixed capacity:
   * the element is appended when there is room and silently dropped otherwise.
   */
  function Offer<T>(q: seq<T>, x: T, capacity: nat): (r: seq<T>)
    ensures |q| < capacity ==> r == q + [x]
    ensures |q| >= capacity ==> r == q
  {
    if |q| < capacity then q + [x] else q
  }
}
