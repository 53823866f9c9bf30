// What several of the models share.

module Common {
  datatype Option<+T> = None | Some(value: T)

  // Error numbers
  const EIO: int := 5
  const EAGAIN: int := 11
  const EACCES: int := 13
  const EINVAL: int := 22
  const ENOTSUP: int := 95
  const ENOMEDIUM: int := 123

  const SECTOR_SIZE: nat := 512

  /** BDRV_SECTORS_PER_DIRTY_CHUNK */
  const CHUNK_SECTORS: nat := 2048

  /** C division truncates toward zero. */
  function CDiv(a: int, b: nat): int
    requires b > 0
  {
    if a >= 0 then a / b else -(-a / b)
  }

  lemma MulLe(a: nat, b: nat, c: nat)
    requires a <= b
    ensures a * c <= b * c
  {
  }

  /** Quotient and remainder are determined by the division equation. */
  lemma DivUnique(n: nat, d: nat, q: nat, r: nat)
    requires r < d && n == q * d + r
    ensures n / d == q && n % d == r
  {
    var q', r' := n / d, n % d;
    assert n == q' * d + r';
    assert (q' + 1) * d == q' * d + d;
    assert (q + 1) * d == q * d + d;
    if q' < q {
      MulLe(q' + 1, q, d);
    } else if q < q' {
      MulLe(q + 1, q', d);
    }
  }
}
