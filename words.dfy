/** Fixed-width machine words and the JVM integer operations the emulator relies on.
    Kotlin's `Int`/`UInt` are 32-bit words, `Long` is a 64-bit word, `Byte` and `Short`
    are 8- and 16-bit words; all of them are modelled as bit-vectors. Signed comparisons
    are done on the bit-vectors themselves; the signed integer reading is only taken
    where the source divides or multiplies signed values. */
module Words {

  type Byte = bv8
  type Half = bv16
  type Word = bv32
  type Dword = bv64

  const TWO32: int := 0x1_0000_0000
  const INT_MIN: Word := 0x8000_0000

  /** The two's-complement (signed) reading of a 32-bit word, as Kotlin's `Int` sees it. */
  function Signed32(w: Word): int
  {
    if w < 0x8000_0000 then w as int else w as int - TWO32
  }

  /** The 32-bit word congruent to `i` modulo 2^32 (Kotlin's `toInt()` on a wider integer). */
  function FromInt(i: int): Word
  {
    (i % TWO32) as bv32
  }

  /** Signed `<` on two words (Kotlin `Int` comparison): flipping bit 31 turns the signed
      order into the unsigned one. */
  predicate SignedLess(a: Word, b: Word)
  {
    (a ^ INT_MIN) < (b ^ INT_MIN)
  }

  /** Kotlin `shl` on `Int`: the shift count is taken modulo 32. */
  function Shl(w: Word, n: Word): Word
  {
    w << (n & 31)
  }

  /** Kotlin `ushr` on `Int`: logical right shift, count modulo 32 (its low five bits). */
  function Ushr(w: Word, n: Word): Word
  {
    w >> (n & 31)
  }

  /** Kotlin `shr` on `Int`: arithmetic right shift (copies of bit 31 move in), count modulo 32 (its low five bits). */
  function Shr(w: Word, n: Word): (r: Word)
    ensures w < 0x8000_0000 ==> r == Ushr(w, n)
    ensures r < 0x8000_0000 <==> w < 0x8000_0000
  {
    if w < 0x8000_0000 then w >> (n & 31) else !((!w) >> (n & 31))
  }

  /** Kotlin `Byte.toInt()`: sign extension of an 8-bit value to 32 bits. */
  function SignExtend8(b: Byte): Word
  {
    if b < 0x80 then b as bv32 else (b as bv32) | 0xFFFF_FF00
  }

  /** Kotlin `Short.toInt()`: sign extension of a 16-bit value to 32 bits. */
  function SignExtend16(h: Half): Word
  {
    if h < 0x8000 then h as bv32 else (h as bv32) | 0xFFFF_0000
  }

  /** Kotlin `Int.toLong()`: sign extension of a 32-bit value to 64 bits. */
  function SignExtend32(w: Word): (d: Dword)
    ensures Low32(d) == w
    ensures High32(d) == (if w < 0x8000_0000 then 0 else 0xFFFF_FFFF)
  {
    Join64(if w < 0x8000_0000 then 0 else 0xFFFF_FFFF, w)
  }

  /** Kotlin `toByte()` on an `Int`: the low 8 bits. */
  function Low8(w: Word): Byte
  {
    (w & 0xFF) as bv8
  }

  /** Kotlin `toShort()` on an `Int`: the low 16 bits. */
  function Low16(w: Word): Half
  {
    (w & 0xFFFF) as bv16
  }

  /** Kotlin `toInt()` on a `Long`: the low 32 bits. */
  function Low32(d: Dword): Word
  {
    (d & 0xFFFF_FFFF) as bv32
  }

  /** Kotlin `(l shr 32).toInt()` on a `Long`: the high 32 bits. */
  function High32(d: Dword): Word
  {
    (d >> 32) as bv32
  }

  /** A 64-bit word from its two halves; the partner of `High32` and `Low32`. */
  function Join64(hi: Word, lo: Word): (d: Dword)
    ensures High32(d) == hi && Low32(d) == lo
  {
    ((hi as bv64) << 32) | (lo as bv64)
  }

  /** Integer division truncating toward zero, as on the JVM (Dafny's own `/` is Euclidean). */
  function TruncDiv(a: int, b: int): int
    requires b != 0
  {
    var m := Abs(a) / Abs(b);
    if (a < 0) == (b < 0) then m else -m
  }

  /** The JVM remainder `a % b`: the remainder of the magnitudes, with the dividend's sign. */
  function TruncRem(a: int, b: int): (r: int)
    requires b != 0
    ensures Abs(r) < Abs(b)
    ensures r != 0 ==> (r < 0 <==> a < 0)
  {
    var r := Abs(a) % Abs(b);
    if a < 0 then -r else r
  }

  /** The JVM's division identity `(a / b) * b + a % b == a`. */
  lemma TruncDivRem(a: int, b: int)
    requires b != 0
    ensures TruncDiv(a, b) * b + TruncRem(a, b) == a
  {
    var n, d := Abs(a), Abs(b);
    var m, r := n / d, n % d;
    assert n == m * d + r;
    NegMul(m, d);
  }

  /** The quotient is never larger in magnitude than the dividend, and at most half of it
      when the divisor is 2 or more in magnitude. */
  lemma QuotientBound(a: int, b: int)
    requires b != 0
    ensures Abs(TruncDiv(a, b)) <= Abs(a)
    ensures Abs(b) >= 2 ==> 2 * Abs(TruncDiv(a, b)) <= Abs(a)
  {
    var n, d := Abs(a), Abs(b);
    var m := n / d;
    assert m * d <= n;
    MulMono(m, d);
  }

  /** A 32-bit truncating quotient fits in 32 bits except for `MIN_VALUE / -1`. */
  lemma QuotientInRange(a: int, b: int)
    requires -0x8000_0000 <= a < 0x8000_0000 && -0x8000_0000 <= b < 0x8000_0000
    requires b != 0 && !(a == -0x8000_0000 && b == -1)
    ensures -0x8000_0000 <= TruncDiv(a, b) < 0x8000_0000
  {
    QuotientBound(a, b);
  }

  lemma NegMul(x: int, y: int)
    ensures (-x) * y == -(x * y) && x * (-y) == -(x * y) && (-x) * (-y) == x * y
  {
  }

  lemma MulMono(m: nat, d: nat)
    requires d >= 1
    ensures m <= m * d
    ensures d >= 2 ==> 2 * m <= m * d
  {
  }

  function Abs(a: int): (r: nat)
    ensures r == a || r == -a
  {
    if a < 0 then -a else a
  }

  function Min(a: int, b: int): (r: int)
    ensures r <= a && r <= b && (r == a || r == b)
  {
    if a < b then a else b
  }
}
