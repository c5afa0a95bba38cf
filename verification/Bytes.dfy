/** Fixed-width integers as bytes, in both byte orders, and writing them into a buffer in place. */
module Bytes {
  import opened Arithmetic

  newtype byte = x: int | 0 <= x < 256

  /** The number of values of n bytes. */
  function Span(n: nat): nat
    ensures 0 < Span(n)
  {
    if n == 0 then 1 else 256 * Span(n - 1)
  }

  function Little(v: nat, n: nat): (r: seq<byte>)
    ensures |r| == n
    decreases v, n
  {
    if n == 0 then [] else [(v % 256) as byte] + Little(v / 256, n - 1)
  }

  function FromLittle(bs: seq<byte>): (v: nat) {
    if bs == [] then 0 else bs[0] as nat + 256 * FromLittle(bs[1..])
  }

  function Big(v: nat, n: nat): (r: seq<byte>)
    ensures |r| == n
    decreases v, n
  {
    if n == 0 then [] else Big(v / 256, n - 1) + [(v % 256) as byte]
  }

  function FromBig(bs: seq<byte>): (v: nat) {
    if bs == [] then 0 else 256 * FromBig(bs[..|bs| - 1]) + bs[|bs| - 1] as nat
  }

  lemma {:induction false} LittleRoundTrip(v: nat, n: nat)
    requires v < Span(n)
    ensures FromLittle(Little(v, n)) == v
    decreases n
  {
    if n > 0 {
      LittleRoundTrip(v / 256, n - 1);
      assert Little(v, n)[1..] == Little(v / 256, n - 1);
    }
  }

  lemma {:induction false} BigRoundTrip(v: nat, n: nat)
    requires v < Span(n)
    ensures FromBig(Big(v, n)) == v
    decreases n
  {
    if n > 0 {
      BigRoundTrip(v / 256, n - 1);
      assert Big(v, n)[..n - 1] == Big(v / 256, n - 1);
    }
  }

  /** Byte i of a little-endian number counts 256^i, byte i of a big-endian one 256^(n-1-i). */
  lemma {:induction false} LittleByte(v: nat, n: nat, i: nat)
    requires i < n
    ensures Little(v, n)[i] as nat == v / Span(i) % 256
    decreases n
  {
    if i > 0 {
      LittleByte(v / 256, n - 1, i - 1);
      DivideTwice(v, 256, Span(i - 1));
    }
  }

  lemma {:induction false} BigByte(v: nat, n: nat, i: nat)
    requires i < n
    ensures Big(v, n)[i] as nat == v / Span(n - 1 - i) % 256
    decreases n
  {
    if i < n - 1 {
      BigByte(v / 256, n - 1, i);
      DivideTwice(v, 256, Span(n - 2 - i));
    }
  }

  lemma DivideTwice(v: nat, x: nat, y: nat)
    requires 0 < x && 0 < y
    ensures x * y > 0 && v / x / y == v / (x * y)
  {
    MulApart(x, 0, y);
    DivMod(v, x);
    DivMod(v / x, y);
    var q, r := v / x / y, v / x % y;
    assert v == q * (x * y) + (r * x + v % x) by { Regroup(q, y, r, x, v); }
    MulMonotone(x, r, y - 1);
    MulMonotone(x, 0, r);
    Predecessor(y, x);
    DivModUnique(x * y, q, r * x + v % x);
  }

  lemma Regroup(q: int, y: int, r: int, x: int, v: int)
    requires 0 < x && v / x == q * y + r
    ensures v == q * (x * y) + (r * x + v % x)
  {
    DivMod(v, x);
    assert (q * y + r) * x == q * (x * y) + r * x;
  }

  lemma Predecessor(y: int, x: int)
    ensures (y - 1) * x + x == x * y
  {
  }

  /** Everything that is read from the wire fits its width. */
  lemma {:induction false} FromBigInRange(bs: seq<byte>)
    ensures FromBig(bs) < Span(|bs|)
  {
    if bs != [] { FromBigInRange(bs[..|bs| - 1]); }
  }

  lemma {:induction false} FromLittleInRange(bs: seq<byte>)
    ensures FromLittle(bs) < Span(|bs|)
  {
    if bs != [] { FromLittleInRange(bs[1..]); }
  }

  lemma Widths()
    ensures Span(1) == 0x100 && Span(2) == 0x1_0000 && Span(3) == 0x100_0000 && Span(4) == 0x1_0000_0000
    ensures Span(8) == 0x1_0000_0000_0000_0000
  {
    assert Span(4) == 256 * Span(3) && Span(3) == 256 * Span(2) && Span(2) == 256 * Span(1);
    assert Span(5) == 256 * Span(4);
    assert Span(6) == 256 * Span(5);
    assert Span(7) == 256 * Span(6);
  }

  /** `s` with `piece` written over the bytes from `at` on. */
  function Splice<T>(s: seq<T>, at: nat, piece: seq<T>): (r: seq<T>)
    requires at + |piece| <= |s|
    ensures |r| == |s|
  {
    s[..at] + piece + s[at + |piece|..]
  }

  /** Writing two adjacent pieces is writing their concatenation. */
  lemma SpliceAdjacent<T>(s: seq<T>, at: nat, left: seq<T>, right: seq<T>)
    requires at + |left| + |right| <= |s|
    ensures Splice(Splice(s, at, left), at + |left|, right) == Splice(s, at, left + right)
  {
  }

  lemma SpliceSlices<T>(s: seq<T>, at: nat, source: seq<T>, from: nat, n: nat, m: nat)
    requires at + n + m <= |s| && from + n + m <= |source|
    ensures Splice(Splice(s, at, source[from..from + n]), at + n, source[from + n..from + n + m])
         == Splice(s, at, source[from..from + (n + m)])
  {
    SpliceAdjacent(s, at, source[from..from + n], source[from + n..from + n + m]);
    assert source[from..from + n] + source[from + n..from + n + m] == source[from..from + (n + m)];
  }

  /** What was written is what is read. */
  lemma SpliceReads<T>(s: seq<T>, at: nat, piece: seq<T>)
    requires at + |piece| <= |s|
    ensures Splice(s, at, piece)[at..at + |piece|] == piece
  {
  }

  method Put(a: array<byte>, at: nat, piece: seq<byte>)
    requires at + |piece| <= a.Length
    modifies a
    ensures a[..] == Splice(old(a[..]), at, piece)
  {
    forall i | 0 <= i < |piece| { a[at + i] := piece[i]; }
  }
}
