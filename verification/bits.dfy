/**
 Python integer bit operations, as the driver uses them on register bytes.

 Python integers are unbounded, so `<<`, `|` and `&` are defined here on
 unbounded naturals, bit by bit, rather than on fixed-width bit-vectors. The
 lemmas connect them to the arithmetic the register map means: a shifted
 byte OR-ed with a smaller value is a sum, and masking with `2^k - 1` is a
 remainder.
 */
module Bits {

  /** An unsigned 8-bit value: one element of a MicroPython `bytearray`. */
  type byte = x: int | 0 <= x < 256

  function Pow2(k: nat): (r: nat)
    ensures r >= 1
  {
    if k == 0 then 1 else 2 * Pow2(k - 1)
  }

  /** Python's `a << k` on a non-negative integer. */
  function ShiftLeft(a: nat, k: nat): nat {
    a * Pow2(k)
  }

  /** Python's `a | b` on non-negative integers, least significant bit first. */
  function BitOr(a: nat, b: nat): nat
    decreases a + b
  {
    if a == 0 then b
    else if b == 0 then a
    else 2 * BitOr(a / 2, b / 2) + (if a % 2 == 1 || b % 2 == 1 then 1 else 0)
  }

  /** Python's `a & b` on non-negative integers, least significant bit first. */
  function BitAnd(a: nat, b: nat): nat
    decreases a + b
  {
    if a == 0 || b == 0 then 0
    else 2 * BitAnd(a / 2, b / 2) + (if a % 2 == 1 && b % 2 == 1 then 1 else 0)
  }

  /** Python's `v & 0xFF` for any integer `v`. Python masks negative integers
      as infinite two's complement, which gives the non-negative remainder
      modulo 256; Dafny's `%` is that remainder. */
  function Mask8(v: int): byte {
    v % 256
  }

  /** Python's `v >> 8` for any integer `v`: division rounded towards minus
      infinity, which is Dafny's `/` for a positive divisor. */
  function ShiftRight8(v: int): int {
    v / 256
  }

  lemma {:induction false} BitOrCommutes(a: nat, b: nat)
    ensures BitOr(a, b) == BitOr(b, a)
    decreases a + b
  {
    if a != 0 && b != 0 {
      BitOrCommutes(a / 2, b / 2);
    }
  }

  /** OR-ing a value into the zero bits below a shifted value adds it. */
  lemma {:induction false} BitOrDisjoint(a: nat, k: nat, b: nat)
    requires b < Pow2(k)
    ensures BitOr(ShiftLeft(a, k), b) == ShiftLeft(a, k) + b
    decreases k
  {
    if k == 0 || a == 0 || b == 0 {
    } else {
      var h := ShiftLeft(a, k - 1);
      assert ShiftLeft(a, k) == 2 * h;
      assert h > 0;
      BitOrDisjoint(a, k - 1, b / 2);
      assert BitOr(ShiftLeft(a, k), b) == 2 * BitOr(h, b / 2) + b % 2;
    }
  }

  /** Euclidean remainder by a product, taken in two steps. */
  lemma RemainderOfProduct(v: int, m: int, n: int)
    requires m > 0 && n > 0
    ensures v % (m * n) == v % m + m * ((v / m) % n)
  {
    var q, r := v / m, v % m;
    var q2, r2 := q / n, q % n;
    assert v == m * q + r;
    assert q == n * q2 + r2;
    assert m * q == m * (n * q2) + m * r2 by {
      Distributes(m, n * q2, r2);
    }
    assert m * (n * q2) == (m * n) * q2;
    assert 0 <= m * r2 <= m * (n - 1) by {
      MultiplyBounds(m, r2, n - 1);
    }
    assert m * (n - 1) == m * n - m by {
      Distributes(m, n, -1);
    }
    UniqueRemainder(v, m * n, q2, m * r2 + r);
  }

  lemma Distributes(a: int, b: int, c: int)
    ensures a * (b + c) == a * b + a * c
  {
  }

  lemma MultiplyBounds(a: int, x: int, y: int)
    requires a > 0 && 0 <= x <= y
    ensures 0 <= a * x <= a * y
  {
    Distributes(a, x, y - x);
    assert a * (y - x) >= 0;
  }

  lemma UniqueRemainder(v: int, d: int, q: int, r: int)
    requires d > 0 && v == d * q + r && 0 <= r < d
    ensures v % d == r && v / d == q
  {
    var q', r' := v / d, v % d;
    assert v == d * q' + r';
    if q' < q {
      Distributes(d, q', q - q');
      MultiplyBounds(d, 1, q - q');
      assert false;
    } else if q' > q {
      Distributes(d, q, q' - q);
      MultiplyBounds(d, 1, q' - q);
      assert false;
    }
  }

  /** Masking with `2^k - 1` keeps the remainder modulo `2^k`. */
  lemma {:induction false} BitAndLowMask(v: nat, k: nat)
    ensures BitAnd(v, Pow2(k) - 1) == v % Pow2(k)
    decreases k
  {
    if k == 0 || v == 0 {
    } else {
      var p := Pow2(k - 1);
      assert (Pow2(k) - 1) / 2 == p - 1;
      assert (Pow2(k) - 1) % 2 == 1;
      BitAndLowMask(v / 2, k - 1);
      RemainderOfProduct(v, 2, p);
    }
  }

  /** The driver's `& 0xFF` is a bitwise AND for the values it can be given
      that are non-negative. */
  lemma Mask8IsBitAnd(v: nat)
    ensures Mask8(v) == BitAnd(v, 0xFF)
  {
    BitAndLowMask(v, 8);
  }

  /** `lo | (hi << 8)`: a 16-bit value stored low byte first. */
  function U16LittleEndian(lo: byte, hi: byte): (r: nat)
    ensures r == lo + 256 * hi
    ensures r < 0x1_0000
  {
    BitOrDisjoint(hi, 8, lo);
    BitOrCommutes(lo, ShiftLeft(hi, 8));
    BitOr(lo, ShiftLeft(hi, 8))
  }

  /** `(hi << 8) | lo`: a 16-bit value stored high byte first. */
  function U16BigEndian(hi: byte, lo: byte): (r: nat)
    ensures r == 256 * hi + lo
    ensures r < 0x1_0000
  {
    BitOrDisjoint(hi, 8, lo);
    BitOr(ShiftLeft(hi, 8), lo)
  }

  /** `(b0 << 16) | (b1 << 8) | b2`: a 24-bit value stored high byte first. */
  function U24BigEndian(b0: byte, b1: byte, b2: byte): (r: nat)
    ensures r == 0x1_0000 * b0 + 256 * b1 + b2
    ensures r < 0x100_0000
  {
    var high := ShiftLeft(b0, 16);
    var middle := ShiftLeft(b1, 8);
    assert Pow2(8) == 256 && Pow2(16) == 0x1_0000;
    assert middle < Pow2(16);
    BitOrDisjoint(b0, 16, middle);
    assert high + middle == ShiftLeft(256 * b0 + b1, 8);
    BitOrDisjoint(256 * b0 + b1, 8, b2);
    BitOr(BitOr(high, middle), b2)
  }

  /** The two bytes the driver writes for a 16-bit value, low byte first,
      read back low byte first, give the value modulo 2^16, for every Python
      integer including negative ones. */
  lemma LittleEndianRoundTrip(v: int)
    ensures U16LittleEndian(Mask8(v), Mask8(ShiftRight8(v))) == v % 0x1_0000
  {
    RemainderOfProduct(v, 256, 256);
  }

  /** Splitting a 16-bit value into bytes and joining them is the identity. */
  lemma LittleEndianBytes(v: int)
    requires 0 <= v < 0x1_0000
    ensures U16LittleEndian(Mask8(v), Mask8(ShiftRight8(v))) == v
  {
    LittleEndianRoundTrip(v);
  }
}
