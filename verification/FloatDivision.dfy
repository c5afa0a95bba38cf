/** The announced chunk count: the source divides in binary64 (IEEE 754, section 4.3.1) and rounds the quotient up. */
module FloatDivision {
  import opened Arithmetic

  const P52: nat := 0x10_0000_0000_0000
  const P53: nat := 0x20_0000_0000_0000

  /** The nearest integer to n / d, the even one of two. */
  function Nearest(n: nat, d: nat): nat
    requires 0 < d
  {
    var q, r := n / d, n % d;
    if 2 * r < d || (2 * r == d && q % 2 == 0) then q else q + 1
  }

  /** How often a quotient below 2^52 is doubled, and one from 2^53 on is halved, to get 53 significant bits. */
  function Doublings(a: nat, b: nat): nat
    requires 0 < a && 0 < b
    decreases P52 * b - a
  {
    if P52 * b <= a then 0 else 1 + Doublings(2 * a, b)
  }

  function Halvings(a: nat, b: nat): nat
    requires 0 < a && 0 < b
    decreases a - P53 * b
  {
    if a < P53 * b then 0 else 1 + Halvings(a, 2 * b)
  }

  /** The quotient rounded to 53 bits, rounded up to an integer. */
  function FloatCeil(a: nat, b: nat): nat
    requires 0 < a && 0 < b
  {
    var up, down := PowerOfTwo(Doublings(a, b)), PowerOfTwo(Halvings(a, b));
    CeilNatural(Nearest(a * up, b * down) * down, up)
  }

  function CeilNatural(x: nat, n: nat): nat
    requires 0 < n
  {
    CeilCovers(x, n);
    if CeilDiv(x, n) < 0 then 0 else CeilDiv(x, n)
  }

  /** The quotient has 53 bits after scaling. */
  lemma {:induction false} Doubled(a: nat, b: nat)
    requires 0 < a < P53 * b
    ensures P52 * b <= a * PowerOfTwo(Doublings(a, b)) < P53 * b
    decreases P52 * b - a
  {
    if a < P52 * b {
      Doubled(2 * a, b);
      assert 2 * a * PowerOfTwo(Doublings(2 * a, b)) == a * (2 * PowerOfTwo(Doublings(2 * a, b)));
    }
  }

  // ---------------------------------------------------------------- when the count is right

  /** Below 2^53 chunks a remainder may vanish in the rounding; from there on only multiples of a power of two exist. */
  predicate CountsExactly(length: nat, size: nat)
    requires 0 < length && 0 < size
  {
    if length < P53 * size then
      var r, up := length % size, PowerOfTwo(Doublings(length, size));
      r == 0 || size < 2 * (r * up) || (size == 2 * (r * up) && up == 1 && length / size % 2 == 1)
    else
      CeilDiv(length, size) % PowerOfTwo(Halvings(length, size)) == 0
  }

  lemma ScaledQuotient(k: nat, r: nat, b: nat, t: nat)
    requires r < b && 0 < t
    ensures 0 < b && (k * b + r) * t / b == k * t + r * t / b && (k * b + r) * t % b == r * t % b
    ensures 0 <= r * t / b < t
  {
    var x := r * t;
    MulMonotone(t, 0, r);
    DivMod(x, b);
    Spread(k, b, r, t, x / b, x % b);
    DivModUnique(b, k * t + x / b, x % b);
    MulApart(t, r, b);
    Commute(b, t);
    QuotientBelow(x, b, t);
  }

  lemma Spread(k: int, b: int, r: int, t: int, j: int, s: int)
    requires r * t == j * b + s
    ensures (k * b + r) * t == (k * t + j) * b + s
  {
    Distributed(k, b, r, t);
    Distributed(k, t, j, b);
  }

  lemma Commute(x: int, y: int)
    ensures x * y == y * x
  {
  }

  lemma Distributed(x: int, y: int, z: int, w: int)
    ensures (x * y + z) * w == x * w * y + z * w
  {
  }

  /** Rounding the scaled quotient reaches its integer part exactly when the remainder is small. */
  lemma ScaledUp(a: nat, b: nat, k: nat, r: nat, t: nat)
    requires r < b && a == k * b + r && (t == 1 || (0 < t && t % 2 == 0))
    ensures 0 < b && k * t <= Nearest(a * t, b) <= k * t + t
    ensures Nearest(a * t, b) == k * t <==> 2 * (r * t) < b || (2 * (r * t) == b && (t != 1 || k % 2 == 0))
  {
    hide Nearest;
    ScaledQuotient(k, r, b, t);
    EvenProduct(k, t);
    MulMonotone(t, 0, r);
    NearestOf(a * t, b, k * t, r * t);
  }

  lemma NearestOf(n: nat, b: nat, base: nat, part: nat)
    requires 0 < b && n / b == base + part / b && n % b == part % b
    ensures base + part / b <= Nearest(n, b) <= base + part / b + 1
    ensures Nearest(n, b) == base <==> 2 * part < b || (2 * part == b && base % 2 == 0)
  {
    DivMod(part, b);
    if b <= part {
      QuotientAbove(part, b);
    } else {
      DivModUnique(b, 0, part);
    }
  }

  lemma QuotientAbove(x: nat, n: nat)
    requires 0 < n <= x
    ensures 1 <= x / n
  {
    DivMod(x, n);
    if x / n < 1 { MulMonotone(n, x / n, 0); }
  }

  lemma EvenProduct(k: int, t: int)
    ensures t % 2 == 0 ==> k * t % 2 == 0
  {
    if t % 2 == 0 { Halved(k, t / 2); }
  }

  lemma Halved(k: int, h: int)
    ensures k * (2 * h) == 2 * (k * h)
  {
  }

  lemma CeilOf(n: nat, t: nat, k: nat)
    requires 0 < t && k * t <= n <= k * t + t
    ensures CeilDiv(n, t) == if n == k * t then k else k + 1
  {
    var c := CeilDiv(n, t);
    CeilCovers(n, t);
    hide CeilDiv;
    assert (k + 1) * t == k * t + t;
    if c < k { MulApart(t, c, k); }
    if k + 1 < c { MulApart(t, k + 1, c); }
    if n == k * t && k < c { MulApart(t, k, c); }
    if n != k * t && c <= k { MulMonotone(t, c, k); }
  }

  /** A quotient from 2^53 on is a multiple of w; the nearest one is the ceiling if that is a multiple too. */
  lemma NearestMultiple(a: nat, b: nat, w: nat, m: nat)
    requires 0 < b && 2 <= w && b * (m * w) - b < a <= b * (m * w)
    ensures b * w > 0 && Nearest(a, b * w) == m
  {
    MulApart(b, 0, w);
    MulMonotone(b, 2, w);
    Commute(b, w);
    Regroup(b, m, w);
    var d := b * (m * w) - a;
    if d == 0 {
      DivModUnique(b * w, m, 0);
    } else {
      MulSign(m, b * w);
      Previous(m, b * w);
      DivModUnique(b * w, m - 1, b * w - d);
    }
  }

  lemma Regroup(b: int, m: int, w: int)
    ensures b * (m * w) == m * (b * w)
  {
  }

  lemma Previous(m: int, x: int)
    ensures (m - 1) * x + x == m * x
  {
  }

  /** The announced count is the number of chunks if and only if this condition on length and chunk size holds. */
  lemma AnnouncedCount(length: nat, size: nat)
    requires 0 < length && 0 < size
    ensures FloatCeil(length, size) == CeilDiv(length, size) <==> CountsExactly(length, size)
  {
    if length < P53 * size { CountBelow(length, size); } else { CountAbove(length, size); }
  }

  lemma CountBelow(length: nat, size: nat)
    requires 0 < length < P53 * size
    ensures FloatCeil(length, size) == CeilDiv(length, size) <==> CountsExactly(length, size)
  {
    var k, r, up := length / size, length % size, PowerOfTwo(Doublings(length, size));
    DivMod(length, size);
    QuotientBelow(length, size, P53);
    ScaledUp(length, size, k, r, up);
    CeilOf(Nearest(length * up, size), up, k);
    CeilOf(length, size, k);
    assert FloatCeil(length, size) == CeilDiv(Nearest(length * up, size), up) by {
      assert Halvings(length, size) == 0;
      assert size * 1 == size;
    }
    hide FloatCeil, Nearest, CeilDiv, Doublings;
  }

  lemma CountAbove(length: nat, size: nat)
    requires 0 < size && P53 * size <= length
    ensures FloatCeil(length, size) == CeilDiv(length, size) <==> CountsExactly(length, size)
  {
    var w, c := PowerOfTwo(Halvings(length, size)), CeilDiv(length, size);
    MulApart(w, 0, size);
    LargeQuotient(length, size);
    CeilCovers(length, size);
    hide FloatCeil, CeilDiv, Nearest;
    var n := Nearest(length, size * w);
    if c % w == 0 {
      DivMod(c, w);
      Commute(c, size);
      NearestMultiple(length, size, w, c / w);
    }
    DivModUnique(w, n, 0);
  }

  lemma LargeQuotient(length: nat, size: nat)
    requires 0 < size && P53 * size <= length
    ensures var w := PowerOfTwo(Halvings(length, size));
      2 <= w && size * w > 0 && 0 <= CeilDiv(length, size) && FloatCeil(length, size) == Nearest(length, size * w) * w
  {
    var w := PowerOfTwo(Halvings(length, size));
    assert Doublings(length, size) == 0;
    CeilCovers(length, size);
    MulApart(size, 0, w);
    Commute(size, w);
    if CeilDiv(length, size) < 0 { MulMonotone(size, CeilDiv(length, size), 0); }
    hide Halvings, Nearest;
    var n := Nearest(length, size * w);
    MulMonotone(w, 0, n);
    CeilOf(n * w, 1, n * w);
  }

  /** Below 2^53 bytes it always holds ... */
  lemma SmallRequestsCount(length: nat, size: nat)
    requires 0 < length < 0x20_0000_0000_0000 && 0 < size
    ensures FloatCeil(length, size) == CeilDiv(length, size) && CountsExactly(length, size)
  {
    var r, up := length % size, PowerOfTwo(Doublings(length, size));
    MulMonotone(P53, 1, size);
    Doubled(length, size);
    hide Doublings;
    if 0 < r { MulMonotone(up, 1, r); }
    AnnouncedCount(length, size);
    if 2 * up <= size {
      MulMonotone(length, 2 * up, size);
      MulMonotone(size, length, P53 - 1);
      Scaled(length, up);
      Commute(size, length);
    }
  }

  lemma Scaled(x: int, y: int)
    ensures 2 * y * x == 2 * (x * y)
  {
  }

  /** ... and not beyond: one byte more than 2^53 in chunks of one byte is announced as 2^53 chunks. */
  lemma LargeRequestMiscounts()
    ensures !CountsExactly(9007199254740993, 1) && FloatCeil(9007199254740993, 1) == 9007199254740992
  {
    var a := P53 + 1;
    assert Halvings(a, 2) == 0;
    assert Halvings(a, 1) == 1;
    assert PowerOfTwo(1) == 2 * PowerOfTwo(0) == 2;
    LargeQuotient(a, 1);
    hide FloatCeil, Halvings, Doublings, PowerOfTwo;
    assert a / 2 == P52 && a % 2 == 1;
  }
}
