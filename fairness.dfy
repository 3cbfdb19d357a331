/** The frequency/bias "fairness" bookkeeping of contest: every neuron's
    frequency decays by 1/1024 per sample and the decay is credited to its
    bias; the neuron closest to the sample gets beta more frequency and
    beta*gamma less bias. */
module Fairness {
  import opened FixedPoint
  import opened Constants

  /** The starting frequency 1/netsize, scaled by 2^16. */
  const InitFreq := IntBias / NetSize

  /** freq in [0, 1] (scaled by 2^16) and bias == gamma * (1/netsize - freq):
      the relation that the comment on contest states for bias. */
  predicate Balanced(f: int, bi: int)
  {
    0 <= f <= IntBias && bi == Gamma * (InitFreq - f)
  }

  /** freq[i] -= freq[i] >> betashift */
  function DecayFreq(f: int): (f': int)
  {
    f - Shr(f, BetaShift)
  }

  /** bias[i] += (freq[i] >> betashift) << gammashift */
  function CreditBias(bi: int, f: int): (bi': int)
  {
    bi + Shl(Shr(f, BetaShift), GammaShift)
  }

  /** The starting pair (1/netsize, 0) is balanced. */
  lemma InitBalanced()
    ensures Balanced(InitFreq, 0)
  {
  }

  /** The per-sample decay keeps the pair balanced and leaves room for the
      closest neuron's boost of beta. */
  lemma DecayKeepsBalanced(f: int, bi: int)
    requires Balanced(f, bi)
    ensures Balanced(DecayFreq(f), CreditBias(bi, f))
    ensures DecayFreq(f) <= f && DecayFreq(f) + Beta <= IntBias
  {
    assert Pow2(BetaShift) == 1024 && Pow2(GammaShift) == 1024;
    var q := f / 1024;
    assert 0 <= q <= 64;
    assert q < 64 ==> f < 1024 * 64;
  }

  /** The closest neuron's boost keeps the pair balanced. */
  lemma BoostKeepsBalanced(f: int, bi: int)
    requires 0 <= f && f + Beta <= IntBias && bi == Gamma * (InitFreq - f)
    ensures Balanced(f + Beta, bi - BetaGamma)
  {
  }

  /** A balanced bias, scaled to colour units, is at least 64 - 16384, so a
      biased distance of colours in [0, 4080] stays below math.MaxInt32. */
  lemma BiasedDistBelowSentinel(dist: int, f: int, bi: int)
    requires Balanced(f, bi) && 0 <= dist <= 3 * 4080
    ensures dist - Shr(bi, IntBiasShift - NetBiasShift) < MaxInt32
  {
    assert Pow2(12) == 4096;
    assert IntBiasShift - NetBiasShift == 12;
  }

  /** Every neuron's pair is balanced. */
  predicate AllBalanced(fs: seq<int>, bs: seq<int>)
  {
    |fs| == |bs| && forall k | 0 <= k < |fs| :: Balanced(fs[k], bs[k])
  }

  /** Every frequency after one sample's decay. */
  function DecayFreqs(fs: seq<int>): (r: seq<int>)
    ensures |r| == |fs|
  {
    seq(|fs|, k requires 0 <= k < |fs| => DecayFreq(fs[k]))
  }

  /** Every bias after one sample's decay is credited to it. */
  function CreditBiases(bs: seq<int>, fs: seq<int>): (r: seq<int>)
    requires |bs| == |fs|
    ensures |r| == |bs|
  {
    seq(|bs|, k requires 0 <= k < |bs| => CreditBias(bs[k], fs[k]))
  }

  /** The frequencies after contest: all decayed, the winner's raised by beta. */
  function ContestFreqs(fs: seq<int>, winner: int): (fs': seq<int>)
    requires 0 <= winner < |fs|
  {
    var d := DecayFreqs(fs);
    d[winner := d[winner] + Beta]
  }

  /** The biases after contest: all credited, the winner's lowered by beta*gamma. */
  function ContestBiases(bs: seq<int>, fs: seq<int>, winner: int): (bs': seq<int>)
    requires |bs| == |fs| && 0 <= winner < |bs|
  {
    var c := CreditBiases(bs, fs);
    c[winner := c[winner] - BetaGamma]
  }

  /** Contest keeps every neuron's pair balanced, whichever neuron wins. */
  lemma ContestKeepsBalanced(fs: seq<int>, bs: seq<int>, winner: int)
    requires AllBalanced(fs, bs) && 0 <= winner < |fs|
    ensures AllBalanced(ContestFreqs(fs, winner), ContestBiases(bs, fs, winner))
  {
    var fs', bs' := ContestFreqs(fs, winner), ContestBiases(bs, fs, winner);
    forall k | 0 <= k < |fs|
      ensures Balanced(fs'[k], bs'[k])
    {
      DecayKeepsBalanced(fs[k], bs[k]);
      if k == winner {
        BoostKeepsBalanced(DecayFreq(fs[k]), CreditBias(bs[k], fs[k]));
      }
    }
  }

  /** An array whose every entry is decayed, and whose winner's entry is then
      boosted, holds contest's new frequencies (likewise the biases); they
      stay balanced. */
  lemma DecayThenBoost(fs: seq<int>, bs: seq<int>, fd: seq<int>, bd: seq<int>, winner: int)
    requires AllBalanced(fs, bs) && 0 <= winner < |fs| && |fd| == |fs| && |bd| == |bs|
    requires forall k | 0 <= k < |fs| ::
      fd[k] == (if k == winner then DecayFreq(fs[k]) + Beta else DecayFreq(fs[k])) &&
      bd[k] == (if k == winner then CreditBias(bs[k], fs[k]) - BetaGamma else CreditBias(bs[k], fs[k]))
    ensures fd == ContestFreqs(fs, winner) && bd == ContestBiases(bs, fs, winner)
    ensures AllBalanced(fd, bd)
  {
    ContestKeepsBalanced(fs, bs, winner);
  }
}
