/** The anti-replay filter: a sliding bitmap that stands for the set of accepted numbers. */
module ReplayWindow {
  import opened Bits

  /** The simple filter: it remembers every number it accepted. */
  datatype Ideal = Ideal(accepted: set<nat>, newest: nat) {

    ghost predicate Valid() {
      && 0 !in accepted
      && (forall a :: a in accepted ==> a <= newest)
      && (newest == 0 || newest in accepted)
    }

    predicate Accepts(size: nat, seqNum: nat) {
      seqNum >= 1 && seqNum !in accepted && seqNum + size > newest
    }

    function Offer(size: nat, seqNum: nat): Ideal {
      if Accepts(size, seqNum)
      then Ideal(accepted + {seqNum}, if seqNum > newest then seqNum else newest)
      else this
    }
  }

  const EMPTY := Ideal({}, 0)

  /** The number of bits in use: a window of size 0 still records the newest number. */
  function Span(size: nat): (n: nat)
    ensures n >= 1 && n >= size
  {
    if size == 0 then 1 else size
  }

  /** Bit `i` says whether `newest - i` was accepted, for every `i` the window spans. */
  ghost predicate Represents(size: nat, maxSeq: nat, bitmap: nat, ideal: Ideal) {
    && ideal.Valid()
    && ideal.newest == maxSeq
    && bitmap < Pow2(Span(size))
    && forall i: nat :: Bit(bitmap, i) <==> i < Span(size) && i <= maxSeq && maxSeq - i in ideal.accepted
  }

  /** Moving the window forward by less than its size keeps the bits that stay inside. */
  lemma Slide(size: nat, maxSeq: nat, bitmap: nat, ideal: Ideal, seqNum: nat)
    requires Represents(size, maxSeq, bitmap, ideal) && maxSeq < seqNum < maxSeq + size
    ensures Represents(size, seqNum, And(Or(Shl(bitmap, seqNum - maxSeq), 1), Shl(1, size) - 1),
                       ideal.Offer(size, seqNum))
  {
    var diff := seqNum - maxSeq;
    var shifted := Or(Shl(bitmap, diff), 1);
    var next := And(shifted, Shl(1, size) - 1);
    BitMask(size, 0);
    AndMaskBound(shifted, size);
    forall i: nat
      ensures Bit(next, i) <==> i < Span(size) && i <= seqNum && seqNum - i in ideal.Offer(size, seqNum).accepted
    {
      BitMask(size, i);
      BitAnd(shifted, Pow2(size) - 1, i);
      BitOr(Shl(bitmap, diff), 1, i);
      BitShl(bitmap, diff, i);
      BitOne(0, i);
    }
  }

  /** Moving the window past its own size forgets everything but the new number. */
  lemma Jump(size: nat, maxSeq: nat, bitmap: nat, ideal: Ideal, seqNum: nat)
    requires Represents(size, maxSeq, bitmap, ideal) && seqNum > maxSeq && seqNum - maxSeq >= size
    ensures Represents(size, seqNum, 1, ideal.Offer(size, seqNum))
  {
    assert Pow2(Span(size)) == 2 * Pow2(Span(size) - 1);
    forall i: nat
      ensures Bit(1, i) <==> i < Span(size) && i <= seqNum && seqNum - i in ideal.Offer(size, seqNum).accepted
    {
      BitOne(0, i);
    }
  }

  /** Setting one bit records one late number. */
  lemma Fill(size: nat, maxSeq: nat, bitmap: nat, ideal: Ideal, seqNum: nat)
    requires Represents(size, maxSeq, bitmap, ideal) && 1 <= seqNum <= maxSeq < seqNum + size
    requires seqNum !in ideal.accepted
    ensures Represents(size, maxSeq, Or(bitmap, Shl(1, maxSeq - seqNum)), ideal.Offer(size, seqNum))
  {
    var diff := maxSeq - seqNum;
    ShlBound(diff, size);
    OrBound(bitmap, Shl(1, diff), size);
    forall i: nat
      ensures Bit(Or(bitmap, Shl(1, diff)), i)
         <==> i < Span(size) && i <= maxSeq && maxSeq - i in ideal.Offer(size, seqNum).accepted
    {
      BitOr(bitmap, Shl(1, diff), i);
      BitOne(diff, i);
    }
  }

  class AntiReplayWindow {
    const windowSize: nat
    var maxSeq: nat
    var bitmap: nat
    ghost var ideal: Ideal

    ghost predicate Valid()
      reads this
    {
      Represents(windowSize, maxSeq, bitmap, ideal)
    }

    constructor (windowSize: nat := 128)
      ensures Valid() && this.windowSize == windowSize && ideal == EMPTY
    {
      this.windowSize := windowSize;
      maxSeq, bitmap, ideal := 0, 0, EMPTY;
      new;
      forall i: nat ensures !Bit(0, i) { BitZero(i); }
    }

    method CheckAndUpdate(seqNum: nat) returns (ok: bool)
      requires Valid()
      modifies this
      ensures Valid()
      ensures ok == old(ideal).Accepts(windowSize, seqNum)
      ensures ideal == old(ideal).Offer(windowSize, seqNum)
    {
      if seqNum == 0 {
        return false;
      }
      ghost var before := ideal;
      ideal := ideal.Offer(windowSize, seqNum);
      if seqNum > maxSeq {
        var diff := seqNum - maxSeq;
        if diff >= windowSize {
          Jump(windowSize, maxSeq, bitmap, before, seqNum);
          bitmap := 1;
        } else {
          Slide(windowSize, maxSeq, bitmap, before, seqNum);
          bitmap := And(Or(Shl(bitmap, diff), 1), Shl(1, windowSize) - 1);
        }
        maxSeq := seqNum;
        return true;
      }
      var diff := maxSeq - seqNum;
      if diff >= windowSize {
        return false;
      }
      var bit := Shl(1, diff);
      AndOneNonZero(bitmap, diff);
      if And(bitmap, bit) != 0 {
        return false;
      }
      Fill(windowSize, maxSeq, bitmap, before, seqNum);
      bitmap := Or(bitmap, bit);
      return true;
    }

    method Reset()
      requires Valid()
      modifies this
      ensures Valid() && ideal == EMPTY
    {
      maxSeq, bitmap, ideal := 0, 0, EMPTY;
      forall i: nat ensures !Bit(0, i) { BitZero(i); }
    }
  }

  // ---------- Every sequence of calls ----------

  /** The filter's state after a sequence of calls. */
  function Run(size: nat, calls: seq<nat>): Ideal {
    if calls == [] then EMPTY
    else Run(size, calls[..|calls| - 1]).Offer(size, calls[|calls| - 1])
  }

  /** Whether call `k` of the sequence was accepted. */
  predicate Verdict(size: nat, calls: seq<nat>, k: nat)
    requires k < |calls|
  {
    Run(size, calls[..k]).Accepts(size, calls[k])
  }

  /** Exactly the accepted calls are remembered, and the newest number bounds them all. */
  lemma {:induction false} RunRemembers(size: nat, calls: seq<nat>)
    ensures Run(size, calls).Valid()
    ensures forall n :: n in Run(size, calls).accepted
                   <==> exists k: nat | k < |calls| && calls[k] == n :: Verdict(size, calls, k)
  {
    if calls == [] {
    } else {
      var last := |calls| - 1;
      var init := calls[..last];
      RunRemembers(size, init);
      forall k: nat | k < last
        ensures Verdict(size, init, k) == Verdict(size, calls, k)
      {
        assert init[..k] == calls[..k];
      }
      forall n
        ensures n in Run(size, calls).accepted
           <==> exists k: nat | k < |calls| && calls[k] == n :: Verdict(size, calls, k)
      {
        if n in Run(size, calls).accepted {
          if n in Run(size, init).accepted {
            var k: nat :| k < last && init[k] == n && Verdict(size, init, k);
            assert calls[k] == n && Verdict(size, calls, k);
          } else {
            assert calls[last] == n && Verdict(size, calls, last);
          }
        }
        if k: nat :| k < |calls| && calls[k] == n && Verdict(size, calls, k) {
          if k < last {
            assert init[k] == n && Verdict(size, init, k);
          }
        }
      }
    }
  }

  /** No number passes twice, and a number seen for the first time passes unless it lags too far. */
  lemma AtMostOnce(size: nat, calls: seq<nat>, k: nat)
    requires k < |calls|
    ensures (exists j: nat | j < k && calls[j] == calls[k] :: Verdict(size, calls, j)) ==> !Verdict(size, calls, k)
    ensures calls[k] !in calls[..k] && calls[k] >= 1
        ==> (Verdict(size, calls, k) <==> calls[k] + size > Run(size, calls[..k]).newest)
  {
    var seen := calls[..k];
    RunRemembers(size, seen);
    if j: nat :| j < k && calls[j] == calls[k] && Verdict(size, calls, j) {
      assert seen[..j] == calls[..j];
      assert Verdict(size, seen, j);
    }
  }
}
