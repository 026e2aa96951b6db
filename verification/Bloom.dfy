/** The bit-packed Bloom filter. */
module Bloom {
  import opened Bits
  import opened Bytes

  /** Two hash functions stand for MD5 and SHA-1 read as integers. */
  datatype Shape = Shape(h1: string -> nat, h2: string -> nat, size: nat, numHashes: nat) {

    /** Whether positions and byte indices stay in range. */
    predicate Sound() {
      size > 0 && size % 8 == 0
    }

    function Hash(item: string, i: nat): nat {
      h1(item) + i * h2(item)
    }

    function Position(item: string, i: nat): (p: nat)
      requires size > 0
      ensures p < size
    {
      Hash(item, i) % size
    }

    function Hashes(item: string): (ps: seq<nat>)
      requires size > 0
      ensures |ps| == numHashes && forall i | 0 <= i < numHashes :: ps[i] == Position(item, i)
    {
      seq(numHashes, i requires 0 <= i => Position(item, i))
    }

    /** Some item hashes to bit `p`. */
    ghost predicate Covers(items: set<string>, p: nat)
      requires size > 0
    {
      exists x, i: nat :: x in items && i < numHashes && Position(x, i) == p
    }

    /** What the filter answers once it holds `items`. */
    ghost predicate Reports(items: set<string>, item: string)
      requires size > 0
    {
      forall i: nat | i < numHashes :: Covers(items, Position(item, i))
    }
  }

  /** The positions of an item start at its first hash, and step by its second, around the bits of the filter. */
  lemma PositionsStep(shape: Shape, item: string, i: nat)
    requires shape.size > 0
    ensures shape.Position(item, 0) == shape.h1(item) % shape.size
    ensures shape.Position(item, i + 1) == (shape.Position(item, i) + shape.h2(item)) % shape.size
  {
    HashSteps(shape, item, i);
    hide Shape.Hash;
    RoundAndRound(shape.Hash(item, i + 1), shape.Hash(item, i), shape.h2(item), shape.size);
  }

  lemma HashSteps(shape: Shape, item: string, i: nat)
    ensures shape.Hash(item, 0) == shape.h1(item) && shape.Hash(item, i + 1) == shape.Hash(item, i) + shape.h2(item)
  {
    assert (i + 1) * shape.h2(item) == i * shape.h2(item) + shape.h2(item);
  }

  lemma RoundAndRound(x: nat, a: nat, b: nat, n: nat)
    requires n > 0 && x == a + b
    ensures x % n == (a % n + b) % n
  {
    var q, m := a / n, a % n + b;
    var k, r := m / n, m % n;
    Remainder(a, b, n, q, a % n, k, r);
  }

  lemma Remainder(a: nat, b: nat, n: nat, q: nat, s: nat, k: nat, r: nat)
    requires r < n && a == q * n + s && s + b == k * n + r
    ensures (a + b) % n == r
  {
    assert a + b == (q + k) * n + r;
    Quotient(a + b, n, q + k);
  }

  /** Every bit has a byte exactly when the size is a multiple of eight. */
  lemma ByteInRange(size: nat)
    ensures (forall p: nat | p < size :: p / 8 < size / 8) <==> size % 8 == 0
  {
    if size % 8 != 0 {
      var p := size - 1;
      assert p / 8 == size / 8;
    }
  }

  /** No added item is ever reported absent, and adding items never hides another. */
  lemma NoFalseNegative(shape: Shape, items: set<string>, more: set<string>, item: string)
    requires shape.Sound() && items <= more
    requires item in items || shape.Reports(items, item)
    ensures shape.Reports(more, item)
  {
    forall i: nat | i < shape.numHashes
      ensures shape.Covers(more, shape.Position(item, i))
    {
      if item !in items {
        assert shape.Covers(items, shape.Position(item, i));
        var x, j: nat :| x in items && j < shape.numHashes && shape.Position(x, j) == shape.Position(item, i);
        assert x in more;
      }
    }
  }

  class BloomFilter {
    const shape: Shape
    var bitArray: array<byte>
    ghost var items: set<string>

    /** The set bits are exactly the hash positions of the added items. */
    ghost predicate Valid()
      reads this, bitArray
    {
      && shape.Sound()
      && bitArray.Length == shape.size / 8
      && forall p: nat | p < shape.size :: Bit(bitArray[p / 8], p % 8) <==> shape.Covers(items, p)
    }

    constructor (shape: Shape)
      requires shape.Sound()
      ensures Valid() && fresh(bitArray) && this.shape == shape && items == {}
    {
      this.shape := shape;
      bitArray := new byte[shape.size / 8](_ => 0);
      items := {};
      new;
      forall i: nat ensures !Bit(0, i) { BitZero(i); }
    }

    method SetBit(p: nat)
      requires shape.Sound() && bitArray.Length == shape.size / 8 && p < shape.size
      modifies bitArray
      ensures forall q: nat | q < shape.size :: Bit(bitArray[q / 8], q % 8) <==> old(Bit(bitArray[q / 8], q % 8)) || q == p
    {
      ghost var before := bitArray[p / 8];
      assert Pow2(8) == 256 by { assert Pow2(7) == 2 * Pow2(6); assert Pow2(4) == 2 * Pow2(3); }
      ShlBound(p % 8, 8);
      OrBound(bitArray[p / 8], Shl(1, p % 8), 8);
      bitArray[p / 8] := Or(bitArray[p / 8], Shl(1, p % 8));
      forall q: nat | q < shape.size
        ensures Bit(bitArray[q / 8], q % 8) <==> old(Bit(bitArray[q / 8], q % 8)) || q == p
      {
        if q / 8 == p / 8 {
          BitOr(before, Shl(1, p % 8), q % 8);
          BitOne(p % 8, q % 8);
        }
      }
    }

    method Add(item: string)
      requires Valid()
      modifies bitArray, this`items
      ensures Valid() && items == old(items) + {item}
    {
      var hashes := shape.Hashes(item);
      for k := 0 to |hashes|
        invariant bitArray.Length == shape.size / 8
        invariant items == old(items)
        invariant forall p: nat | p < shape.size :: Bit(bitArray[p / 8], p % 8)
                    <==> shape.Covers(items, p) || exists i: nat :: i < k && hashes[i] == p
      {
        SetBit(hashes[k]);
      }
      items := items + {item};
      CoversOneMore(shape, old(items), item);
    }

    method Contains(item: string) returns (present: bool)
      requires Valid()
      ensures present <==> shape.Reports(items, item)
    {
      var hashes := shape.Hashes(item);
      for k := 0 to |hashes|
        invariant forall i: nat | i < k :: shape.Covers(items, shape.Position(item, i))
      {
        var p := hashes[k];
        AndOneNonZero(bitArray[p / 8], p % 8);
        if And(bitArray[p / 8], Shl(1, p % 8)) == 0 {
          assert !shape.Covers(items, shape.Position(item, k));
          return false;
        }
      }
      return true;
    }

    method Clear()
      requires Valid()
      modifies this
      ensures Valid() && fresh(bitArray) && items == {}
    {
      bitArray := new byte[shape.size / 8](_ => 0);
      items := {};
      forall i: nat ensures !Bit(0, i) { BitZero(i); }
    }
  }

  lemma CoversOneMore(shape: Shape, items: set<string>, item: string)
    requires shape.size > 0
    ensures forall p: nat :: shape.Covers(items + {item}, p)
              <==> shape.Covers(items, p) || exists i: nat :: i < shape.numHashes && shape.Hashes(item)[i] == p
  {
    forall p: nat
      ensures shape.Covers(items + {item}, p)
         <==> shape.Covers(items, p) || exists i: nat :: i < shape.numHashes && shape.Hashes(item)[i] == p
    {
      if x, i: nat :| x in items + {item} && i < shape.numHashes && shape.Position(x, i) == p {
        if x == item {
          assert shape.Hashes(item)[i] == p;
        }
      }
    }
  }
}
