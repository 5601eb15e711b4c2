/** Index arithmetic of two-dimensional tables stored row by row in a vector. */
module RowMajor {

  lemma InRange(n: nat, m: nat, r: nat, c: nat)
    requires c < n && r < m
    ensures 0 <= r * n + c < n * m
  {
    assert (m - 1 - r) * n >= 0;
    assert n * m == (m - 1 - r) * n + r * n + n;
  }

  lemma Injective(n: nat, r: nat, c: nat, r': nat, c': nat)
    requires c < n && c' < n
    requires r * n + c == r' * n + c'
    ensures r == r' && c == c'
  {
    assert (r - r') * n == c' - c;
    SmallMultiple(r - r', n);
  }

  lemma SmallMultiple(d: int, n: int)
    requires -n < d * n < n
    ensures d == 0
  {
  }

  lemma RowsBetween(n: nat, r: nat, gap: nat)
    ensures (r + 1 + gap) * n >= r * n + n >= n
  {
    assert gap * n >= 0 && r * n >= 0;
    assert (r + 1 + gap) * n == r * n + n + gap * n;
  }

  /** A cell of an earlier row, or to the left in the same row, has a smaller index. */
  lemma Before(n: nat, r: nat, c: nat, r': nat, c': nat)
    requires c < n && c' <= n
    requires r < r' || (r == r' && c < c')
    ensures 0 <= r * n + c < r' * n + c'
  {
    RowsBetween(n, r, 0);
    if r < r' {
      RowsBetween(n, r, r' - r - 1);
    }
  }
}
