/**
 Unsigned machine words. A word of k bits is a natural below Pow2(k); the shifts and
 bit-wise operators the firmware applies to words are spelled out on naturals, so that
 wrap-around and truncation are explicit.
 */
module Words {

  type Byte = b: int | 0 <= b < 0x100
  type Word32 = w: int | 0 <= w < 0x1_0000_0000
  type Word64 = w: int | 0 <= w < 0x1_0000_0000_0000_0000

  function Wrap8(x: int): Byte { x % 0x100 }
  function Wrap16(x: int): nat { x % 0x1_0000 }
  function Wrap32(x: int): Word32 { x % 0x1_0000_0000 }
  function Wrap64(x: int): Word64 { x % 0x1_0000_0000_0000_0000 }

  /** A value that has left the 32-bit range by less than one turn. */
  lemma Wrap32Once(x: int)
    requires -0x1_0000_0000 <= x < 0x2_0000_0000
    ensures Wrap32(x) == if x < 0 then x + 0x1_0000_0000
                         else if x < 0x1_0000_0000 then x
                         else x - 0x1_0000_0000
  {
  }

  /** b++ on an 8-bit counter */
  function Inc(b: Byte): Byte {
    if b == 0xFF then 0 else b + 1
  }

  /** 1 << k */
  function Pow2(k: nat): (p: nat)
    ensures p > 0
  {
    if k == 0 then 1 else 2 * Pow2(k - 1)
  }

  /** (n & (1 << k)) != 0 */
  predicate Bit(n: nat, k: nat) {
    n / Pow2(k) % 2 == 1
  }

  /** n | (1 << k) */
  function SetBit(n: nat, k: nat): nat {
    if Bit(n, k) then n else n + Pow2(k)
  }

  lemma {:induction false} Pow2Add(a: nat, b: nat)
    ensures Pow2(a + b) == Pow2(a) * Pow2(b)
  {
    if a > 0 {
      Pow2Add(a - 1, b);
    }
  }

  lemma Pow2OfWidths()
    ensures Pow2(8) == 0x100 && Pow2(16) == 0x1_0000 && Pow2(32) == 0x1_0000_0000 &&
            Pow2(64) == 0x1_0000_0000_0000_0000
  {
    assert Pow2(4) == 16;
    Pow2Add(4, 4);
    Pow2Add(8, 8);
    Pow2Add(16, 16);
    Pow2Add(32, 32);
  }

  lemma {:induction false} Pow2Monotonic(a: nat, b: nat)
    requires a <= b
    ensures Pow2(a) <= Pow2(b)
    decreases b
  {
    if a < b {
      Pow2Monotonic(a, b - 1);
    }
  }

  /** a | b */
  function BitOr(a: nat, b: nat): nat {
    if a == 0 && b == 0 then 0
    else 2 * BitOr(a / 2, b / 2) + (if a % 2 == 1 || b % 2 == 1 then 1 else 0)
  }

  /** Fields that do not overlap are added by the bit-wise or. */
  lemma {:induction false} OrDisjoint(a: nat, m: nat, k: nat)
    requires a < Pow2(k)
    ensures BitOr(a, m * Pow2(k)) == a + m * Pow2(k)
    decreases k, m
  {
    if k > 0 {
      var p := Pow2(k - 1);
      assert m * Pow2(k) == 2 * (m * p);
      OrDisjoint(a / 2, m, k - 1);
    } else if m > 0 {
      OrDisjoint(0, m / 2, 0);
    }
  }

  /** The bit-wise or of two words shifted by the same distance. */
  lemma {:induction false} OrShifted(a: nat, b: nat, k: nat)
    ensures BitOr(a * Pow2(k), b * Pow2(k)) == BitOr(a, b) * Pow2(k)
  {
    if k > 0 {
      OrShifted(a, b, k - 1);
      var p := Pow2(k - 1);
      Double(a, p);
      Double(b, p);
      Double(BitOr(a, b), p);
      OrDoubled(a * p, b * p, a * Pow2(k), b * Pow2(k));
    }
  }

  lemma OrDoubled(x: nat, y: nat, x2: nat, y2: nat)
    requires x2 == 2 * x && y2 == 2 * y
    ensures BitOr(x2, y2) == 2 * BitOr(x, y)
  {
  }

  lemma Double(a: int, p: int)
    ensures a * (2 * p) == 2 * (a * p)
  {
  }

  /** Multiplication distributes over addition and subtraction. */
  lemma MulDistributes(a: int, b: int, c: int)
    ensures (a + b) * c == a * c + b * c
    ensures (a - b) * c == a * c - b * c
  {
  }

  lemma MulLe(a: int, b: int, c: nat)
    requires a <= b
    ensures a * c <= b * c
  {
  }

  lemma MulLt(a: int, b: int, c: int)
    requires a < b && c > 0
    ensures a * c < b * c
  {
  }

  /** The defining bounds of the floor quotient. */
  lemma QuotientBounds(n: nat, d: nat)
    requires d > 0
    ensures n / d * d <= n < n / d * d + d
    ensures n % d == n - n / d * d
    ensures 0 <= n / d <= n
  {
    var q := n / d;
    assert n == d * q + n % d;
    MulLe(0, q, d);
    MulLe(1, d, q);
  }

  /** The quotient q of n by d is determined by d * q <= n < d * (q + 1). */
  lemma QuotientUnique(n: nat, d: nat, q: int)
    requires d > 0
    requires q * d <= n < q * d + d
    ensures n / d == q
    ensures n % d == n - q * d
  {
    var e := n / d;
    QuotientBounds(n, d);
    assert (e + 1) * d == e * d + d && (q + 1) * d == q * d + d;
    if e < q {
      MulLe(e + 1, q, d);
    } else if e > q {
      MulLe(q + 1, e, d);
    }
    assert n == d * e + n % d;
  }

  /** A multiple of 2^(k+1) has bit k clear, so setting the bit adds 2^k. */
  lemma SetClearBit(m: nat, k: nat)
    ensures Pow2(k + 1) * m == Pow2(k) * (2 * m)
    ensures SetBit(Pow2(k + 1) * m, k) == Pow2(k) * (2 * m + 1)
  {
    var p := Pow2(k);
    EvenMultiple(p, m);
    assert Pow2(k + 1) == 2 * p;
    assert Pow2(k + 1) * m == p * (2 * m);
  }

  lemma EvenMultiple(p: nat, m: nat)
    requires p > 0
    ensures p * (2 * m) / p == 2 * m
    ensures p * (2 * m) + p == p * (2 * m + 1)
  {
    QuotientUnique(p * (2 * m), p, 2 * m);
  }

  /** Halving a word shifts its bits down by one. */
  lemma HalfShiftsBits(n: nat, k: nat)
    ensures Bit(n, k + 1) == Bit(n / 2, k)
  {
    var p := Pow2(k);
    QuotientBounds(n / 2, p);
    var q := n / 2 / p;
    Double(q, p);
    QuotientUnique(n, 2 * p, q);
  }

  lemma ZeroHasNoBits(k: nat)
    ensures !Bit(0, k)
  {
  }
}
