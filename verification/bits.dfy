/**
 * Bit-level helpers of the LC-3 simulator: sign extension of instruction
 * fields, the condition code computed after a register write, and the byte
 * swap used for big-endian image words. All values are 16-bit words (`bv16`),
 * so every arithmetic operation wraps modulo 2^16 as `uint16_t` does. Bit
 * positions and field widths are words as well.
 */
module Bits {

  /** Condition flags: exactly one is held in COND after a register write. */
  const FL_POS: bv16 := 1
  const FL_ZRO: bv16 := 2
  const FL_NEG: bv16 := 4

  /** Bit `i` of `x`, as 0 or 1. */
  function Bit(x: bv16, i: bv16): (r: bv16)
    requires i < 16
  {
    (x >> i) & 1
  }

  /** The word whose low `n` bits are set. */
  function LowMask(n: bv16): (r: bv16)
    requires n <= 16
  {
    if n == 16 then 0xFFFF else ((1 as bv16) << n) - 1
  }

  /** C's logical negation `!v` on a word: 1 for zero, 0 otherwise. */
  function LogicalNot(v: bv16): (r: bv16)
    ensures r == 0 || r == 1
    ensures r == 1 <==> v == 0
  {
    if v == 0 then 1 else 0
  }

  /** The value of a word read as a 16-bit two's-complement number. */
  function Signed16(x: bv16): (r: int)
  {
    if x < 0x8000 then x as int else x as int - 0x10000
  }

  /**
   * `sign_extend`: when bit `bitCount - 1` of `x` is set, every bit from
   * `bitCount` upwards is set; the field's own bits are kept as they are.
   * The source shifts 0xFFFF left by `bitCount` in `int` and truncates the
   * result to 16 bits, which is the `bv16` shift below.
   */
  function SignExtend(x: bv16, bitCount: bv16): (r: bv16)
    requires 1 <= bitCount <= 16
    ensures r & LowMask(bitCount) == x & LowMask(bitCount)
  {
    var negative := (x >> (bitCount - 1)) & 1;
    x | ((0xFFFF << bitCount) * negative)
  }

  /**
   * The COND value `update_flags` stores for a register holding `v`:
   * ZRO when `v` is zero, NEG when its bit 15 is set, POS when neither;
   * POS is the fallback taken when the first two leave COND empty.
   */
  function CondFor(v: bv16): (c: bv16)
    ensures c == FL_POS || c == FL_ZRO || c == FL_NEG
    ensures c == FL_ZRO <==> v == 0
    ensures c == FL_NEG <==> Bit(v, 15) == 1
    ensures c == FL_POS <==> v != 0 && Bit(v, 15) == 0
  {
    var c := (FL_ZRO * LogicalNot(v)) | (FL_NEG * (v >> 15));
    c | (FL_POS * LogicalNot(c))
  }

  /** `swap16`: exchanges the two bytes of a word. */
  function Swap16(x: bv16): (r: bv16)
    ensures r >> 8 == x & 0xFF
    ensures r & 0xFF == x >> 8
  {
    (x << 8) | (x >> 8)
  }

  /** The byte `putc((char)v)` writes: the low eight bits of `v`. */
  function LowByte(v: bv16): (b: bv8)
    ensures b as bv16 == v & 0xFF
  {
    (v & 0xFF) as bv8
  }

  /** Every bit from `bitCount` to 15 repeats the field's sign bit, bit `bitCount - 1`. */
  lemma SignExtendHighBits(x: bv16, bitCount: bv16)
    requires 1 <= bitCount <= 16
    requires x & LowMask(bitCount) == x
    ensures forall i: bv16 :: bitCount <= i < 16 ==>
      Bit(SignExtend(x, bitCount), i) == Bit(x, bitCount - 1)
  {
  }

  /**
   * Read as two's complement, the result keeps the value of the field: a
   * field whose sign bit is set stands for `x - 2^bitCount`, here modulo 2^16.
   */
  lemma SignExtendValue(x: bv16, bitCount: bv16)
    requires 1 <= bitCount <= 16
    requires x & LowMask(bitCount) == x
    ensures SignExtend(x, bitCount) == x - (Bit(x, bitCount - 1) << bitCount)
  {
  }

  /** Two worked values for a 5-bit field. */
  lemma SignExtendExamples()
    ensures SignExtend(0x1F, 5) == 0xFFFF
    ensures SignExtend(0x01, 5) == 0x0001
  {
  }

  /** The flags classify the signed value of the register. */
  lemma CondForSign(v: bv16)
    ensures CondFor(v) == FL_NEG <==> Signed16(v) < 0
    ensures CondFor(v) == FL_ZRO <==> Signed16(v) == 0
    ensures CondFor(v) == FL_POS <==> Signed16(v) > 0
  {
  }

  /** Swapping twice gives back the original word. */
  lemma Swap16Involution(x: bv16)
    ensures Swap16(Swap16(x)) == x
  {
  }

  /** Multiplying by a 0/1 flag, as the C code does to select an operand, keeps or zeroes a word. */
  lemma MulByFlag(x: bv16, flag: bv16)
    requires flag == 0 || flag == 1
    ensures x * flag == if flag == 1 then x else 0
  {
  }
}
