/** Byte strings, and the fixed-width integers that Python's `struct` packs into them. */
module Bytes {

  type byte = x: int | 0 <= x < 256
  type bytes = seq<byte>

  /** The number of values of a `w`-byte unsigned integer. */
  function Pow256(w: nat): (p: nat)
    ensures p >= 1
  {
    if w == 0 then 1 else 256 * Pow256(w - 1)
  }

  lemma Widths()
    ensures Pow256(1) == 0x100 && Pow256(2) == 0x1_0000 && Pow256(3) == 0x100_0000
    ensures Pow256(4) == 0x1_0000_0000 && Pow256(8) == 0x1_0000_0000_0000_0000
  {
    assert Pow256(3) == 256 * Pow256(2);
    assert Pow256(5) == 256 * Pow256(4);
    assert Pow256(7) == 256 * Pow256(6);
  }

  /** Big-endian. `struct` raises an error for a number that does not fit. */
  function Big(n: nat, w: nat): (b: bytes)
    requires n < Pow256(w)
    ensures |b| == w
  {
    if w == 0 then [] else Big(n / 256, w - 1) + [n % 256]
  }

  function FromBig(b: bytes): (n: nat)
    ensures n < Pow256(|b|)
  {
    if b == [] then 0 else 256 * FromBig(b[..|b| - 1]) + b[|b| - 1]
  }

  /** Little-endian. */
  function Little(n: nat, w: nat): (b: bytes)
    requires n < Pow256(w)
    ensures |b| == w
  {
    if w == 0 then [] else [n % 256] + Little(n / 256, w - 1)
  }

  function FromLittle(b: bytes): (n: nat)
    ensures n < Pow256(|b|)
  {
    if b == [] then 0 else b[0] + 256 * FromLittle(b[1..])
  }

  /** The most significant byte comes first: byte `i` of `w` counts 256 to the power of `w - 1 - i`. */
  lemma {:induction false} BigAt(n: nat, w: nat, i: nat)
    requires n < Pow256(w) && i < w
    ensures Big(n, w)[i] == n / Pow256(w - 1 - i) % 256
  {
    if i == w - 1 {
    } else {
      BigAt(n / 256, w - 1, i);
      DivDiv(n, w - 2 - i);
    }
  }

  /** The least significant byte comes first. */
  lemma {:induction false} LittleAt(n: nat, w: nat, i: nat)
    requires n < Pow256(w) && i < w
    ensures Little(n, w)[i] == n / Pow256(i) % 256
  {
    if i == 0 {
    } else {
      LittleAt(n / 256, w - 1, i - 1);
      DivDiv(n, i - 1);
    }
  }

  lemma DivDiv(n: nat, k: nat)
    ensures n / 256 / Pow256(k) == n / Pow256(k + 1)
  {
    DivTwice(n, 256, Pow256(k));
  }

  lemma DivTwice(n: nat, a: nat, b: nat)
    requires a >= 1 && b >= 1
    ensures a * b >= 1 && n / a / b == n / (a * b)
  {
    var m := n / a;
    Grows(a, 0, b);
    TwoDigits(n, a, m, n % a, b, m / b, m % b);
    Quotient(n, a * b, m / b);
  }

  lemma TwoDigits(n: nat, a: nat, m: nat, x: nat, b: nat, q: nat, r: nat)
    requires n == a * m + x && x < a && m == b * q + r && r < b
    ensures q * (a * b) <= n < (q + 1) * (a * b)
  {
    var ab, ar := a * b, a * r;
    assert a * m == a * (b * q) + ar;
    assert a * (b * q) == q * ab;
    Grows(a, r, b);
    assert (q + 1) * ab == q * ab + ab;
  }

  lemma Grows(a: nat, r: nat, b: nat)
    requires r < b && a >= 1
    ensures a * r + a <= a * b && a * b >= 1
  {
    assert a * b == a * (r + 1) + a * (b - r - 1);
  }

  lemma Quotient(n: nat, d: nat, q: nat)
    requires d >= 1 && q * d <= n < (q + 1) * d
    ensures n / d == q
  {
    var r := n / d;
    assert n == r * d + n % d;
    assert r < q ==> (r + 1) * d <= q * d;
    assert r > q ==> (q + 1) * d <= r * d;
  }

  lemma {:induction false} BigRoundTrip(n: nat, w: nat)
    requires n < Pow256(w)
    ensures FromBig(Big(n, w)) == n
  {
    if w == 0 {
    } else {
      BigRoundTrip(n / 256, w - 1);
      assert Big(n, w)[..w - 1] == Big(n / 256, w - 1);
    }
  }

  lemma {:induction false} FromBigRoundTrip(b: bytes)
    ensures Big(FromBig(b), |b|) == b
  {
    if b == [] {
    } else {
      FromBigRoundTrip(b[..|b| - 1]);
      assert FromBig(b) / 256 == FromBig(b[..|b| - 1]);
    }
  }

  lemma {:induction false} LittleRoundTrip(n: nat, w: nat)
    requires n < Pow256(w)
    ensures FromLittle(Little(n, w)) == n
  {
    if w == 0 {
    } else {
      LittleRoundTrip(n / 256, w - 1);
      assert Little(n, w)[1..] == Little(n / 256, w - 1);
    }
  }

  /** Python's `s[lo:hi]`, which clamps its bounds. */
  function Slice<T>(s: seq<T>, lo: nat, hi: nat): (r: seq<T>)
    ensures lo <= hi <= |s| ==> r == s[lo..hi]
    ensures lo <= |s| < hi ==> r == s[lo..]
    ensures lo >= |s| || lo >= hi ==> r == []
  {
    var top := if hi > |s| then |s| else hi;
    if lo > top then [] else s[lo..top]
  }

  /** The concatenation of a list of byte strings. */
  function Concat(parts: seq<bytes>): bytes {
    if parts == [] then [] else Concat(parts[..|parts| - 1]) + parts[|parts| - 1]
  }

  lemma {:induction false} ConcatAppend(a: seq<bytes>, b: seq<bytes>)
    ensures Concat(a + b) == Concat(a) + Concat(b)
  {
    if b == [] {
      assert a + b == a;
    } else {
      var init, last := b[..|b| - 1], b[|b| - 1];
      ConcatAppend(a, init);
      ConcatMore(a + init, last);
      ConcatMore(init, last);
      hide Concat;
      assert b == init + [last] && a + b == a + init + [last];
      Assoc(Concat(a), Concat(init), last);
    }
  }

  lemma ConcatMore(parts: seq<bytes>, last: bytes)
    ensures Concat(parts + [last]) == Concat(parts) + last
  {
    assert (parts + [last])[..|parts|] == parts;
  }

  lemma Assoc(a: bytes, b: bytes, c: bytes)
    ensures (a + b) + c == a + (b + c)
  {
  }

  /** The four parts of a concatenation, by their offsets. */
  lemma Parts(a: bytes, b: bytes, c: bytes, d: bytes)
    ensures var p := a + b + c + d;
            var i, j := |a| + |b|, |a| + |b| + |c|;
            p[..|a|] == a && p[|a|..i] == b && p[i..j] == c && p[j..] == d
  {
  }

  lemma SliceOfSlice(s: bytes, i: nat, j: nat, k: nat)
    requires i + k <= j <= |s|
    ensures s[i..j][..k] == s[i..i + k]
  {
  }
}
