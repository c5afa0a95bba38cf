/** Division facts shared by the models. */
module Arithmetic {

  function Min(x: int, y: int): int { if x <= y then x else y }

  function Max(x: int, y: int): int { if x <= y then y else x }

  function Natural(x: int): nat { if x < 0 then 0 else x }

  function PowerOfTwo(n: nat): (p: nat)
    ensures 1 <= p && (n == 0 ==> p == 1) && (0 < n ==> p % 2 == 0)
  {
    if n == 0 then 1 else 2 * PowerOfTwo(n - 1)
  }

  function CeilDiv(x: int, n: int): int
    requires 0 < n
  {
    (x + n - 1) / n
  }

  /** The neighbours of rank r on a ring of n ranks. */
  function Next(n: nat, r: nat): nat
    requires r < n
  {
    if r + 1 == n then 0 else r + 1
  }

  function Prev(n: nat, r: nat): nat
    requires r < n
  {
    if r == 0 then n - 1 else r - 1
  }

  lemma MulApart(n: int, q: int, q': int)
    requires 0 <= n && q < q'
    ensures q * n + n <= q' * n
  {
    assert (q' - q - 1) * n >= 0;
    assert q' * n == q * n + n + (q' - q - 1) * n;
  }

  lemma QuotientUnique(n: int, q: int, z: int, q': int, z': int)
    requires 0 <= z < n && 0 <= z' < n && q * n + z == q' * n + z'
    ensures q == q' && z == z'
  {
    if q < q' { MulApart(n, q, q'); } else if q' < q { MulApart(n, q', q); }
  }

  lemma ModSmall(x: int, n: int)
    requires 0 < n && 0 <= x < 3 * n
    ensures x % n == if x < n then x else if x < 2 * n then x - n else x - 2 * n
  {
    var q := if x < n then 0 else if x < 2 * n then 1 else 2;
    assert q * n == if x < n then 0 else if x < 2 * n then n else 2 * n;
    QuotientUnique(n, x / n, x % n, q, x - q * n);
  }

  lemma CeilCovers(x: int, n: int)
    requires 0 < n
    ensures x <= CeilDiv(x, n) * n < x + n
  {
  }

  lemma MulMonotone(n: int, q: int, q': int)
    requires 0 <= n && q <= q'
    ensures q * n <= q' * n
  {
    if q < q' { MulApart(n, q, q'); }
  }

  lemma MulSign(x: int, y: int)
    requires 0 < y && 0 < x * y
    ensures 0 < x
  {
    if x <= 0 { MulMonotone(y, x, 0); }
  }

  lemma DivMod(x: int, n: int)
    requires 0 < n
    ensures x == x / n * n + x % n && 0 <= x % n < n
  {
  }

  lemma DivModUnique(n: int, q: int, z: int)
    requires 0 <= z < n
    ensures (q * n + z) / n == q && (q * n + z) % n == z
  {
    var x := q * n + z;
    DivMod(x, n);
    QuotientUnique(n, x / n, x % n, q, z);
  }

  lemma QuotientBelow(x: int, n: int, q: int)
    requires 0 < n && 0 <= x < q * n
    ensures 0 <= x / n < q
  {
    DivMod(x, n);
    if q <= x / n { MulMonotone(n, q, x / n); }
    if x / n < 0 { MulMonotone(n, x / n, -1); }
  }
}
