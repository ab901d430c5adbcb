/** Arithmetic of the 32-bit machine the kernel runs on. */
module Machine {

  const WORD: nat := 0x1_0000_0000
  const ALIGN: nat := 4

  datatype Option<+T> = None | Some(value: T)

  type u32 = x: int | 0 <= x < WORD

  function Max(a: int, b: int): (m: int)
    ensures m >= a && m >= b && (m == a || m == b)
  {
    if a < b then b else a
  }

  function Min(a: nat, b: nat): (m: nat)
    ensures m <= a && m <= b && (m == a || m == b)
  {
    if a < b then a else b
  }

  /** Unsigned 32-bit subtraction. */
  function Sub32(a: u32, b: u32): u32 {
    (a - b) % WORD
  }

  /** Rounds a byte count up to a multiple of four, in 32-bit arithmetic. */
  function Align(size: u32): u32 {
    ((size + ALIGN - 1) % WORD) / ALIGN * ALIGN
  }

  /** Rounding up never loses bytes, except that the three sizes just below 2^32
      wrap around to zero. */
  lemma AlignCovers(size: u32)
    ensures Align(size) % ALIGN == 0
    ensures Align(size) >= size <==> size <= WORD - ALIGN
    ensures size <= WORD - ALIGN ==> Align(size) < size + ALIGN
    ensures size > WORD - ALIGN ==> Align(size) == 0
  {
  }

  // ----- multiples

  lemma Multiples(i: int, j: int, s: int)
    requires i < j && s > 0
    ensures i * s + s <= j * s
  {
    assert (j - i - 1) * s >= 0;
    assert (j - i - 1) * s == j * s - i * s - s;
  }

  lemma MultipleOf(q: int, n: nat)
    requires n > 0
    ensures q * n % n == 0
  {
    var m := q * n;
    assert m == m / n * n + m % n;
    if m / n < q { Multiples(m / n, q, n); } else if q < m / n { Multiples(q, m / n, n); }
  }
}
