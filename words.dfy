/**
 * The 32-bit status and error words of the SMTP client. C's `int` bit
 * operations are modelled on `bv32`; `x |= y` becomes `x := Or(x, y)`.
 */
module Words {
  /** `-1` as a 32-bit word: every bit set. */
  const ALL_ONES: bv32 := 0xFFFF_FFFF

  function Or(a: bv32, b: bv32): bv32
  {
    a | b
  }

  /** Every bit set in `b` is set in `a`. */
  predicate Covers(a: bv32, b: bv32)
  {
    a & b == b
  }

  /** Or keeps every bit of `a` and sets every bit of `b`. */
  lemma OrKeeps(a: bv32, b: bv32)
    ensures Covers(Or(a, b), a) && Covers(Or(a, b), b)
  {
  }

  /** Or is the least word covering both arguments. */
  lemma OrLeast(a: bv32, b: bv32, m: bv32)
    requires Covers(m, a) && Covers(m, b)
    ensures Covers(m, Or(a, b))
  {
  }

  /** Or touches no bit outside `a` and `b`. */
  lemma OrOnly(a: bv32, b: bv32)
    ensures Or(a, b) & !b == a & !b
  {
  }
}
