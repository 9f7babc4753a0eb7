/**
 Serial numbers that travel as 32-bit values. A frame carries its unwrapped number; the
 code under study sees only `Wire` of it and compares with the signed difference.
 */
module Serial32 {
  const MODULUS := 0x1_0000_0000
  const HALF := 0x8000_0000

  function Wire(n: int): nat {
    n % MODULUS
  }

  /** The C expression (int32_t)(a - b) on two unsigned values. */
  function Diff32(a: nat, b: nat): int {
    var d := (a - b) % MODULUS;
    if d < HALF then d else d - MODULUS
  }

  /** Two numbers that the signed difference is able to order. */
  predicate Near(m: int, n: int) {
    -HALF < m - n < HALF
  }

  lemma WrapShift(x: int, q: int)
    ensures (x + q * MODULUS) % MODULUS == x % MODULUS
  {
    assert x + q * MODULUS == (x / MODULUS + q) * MODULUS + x % MODULUS;
  }

  /** The wrapped difference is the true one exactly inside the half window. */
  lemma DiffExact(m: int, n: int)
    ensures Diff32(Wire(m), Wire(n)) == m - n <==> -HALF <= m - n < HALF
  {
    assert m == m / MODULUS * MODULUS + Wire(m) && n == n / MODULUS * MODULUS + Wire(n);
    var q := n / MODULUS - m / MODULUS;
    assert Wire(m) - Wire(n) == (m - n) + q * MODULUS;
    WrapShift(m - n, q);
  }
}
