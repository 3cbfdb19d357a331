/** What contest computes: the distance of every neuron to a sample, plain
    and biased, and the first position of their minimum, both as a reference
    definition and as the left-to-right scan the source performs. */
module Competition {
  import opened FixedPoint
  import opened Constants
  import opened Neurons
  import opened Fairness

  /** Distance from every neuron to (b, g, r). */
  function Dists(ns: seq<Neuron>, b: int, g: int, r: int): (ds: seq<int>)
    ensures |ds| == |ns|
  {
    if |ns| == 0 then [] else Dists(ns[..|ns| - 1], b, g, r) + [Dist(ns[|ns| - 1], b, g, r)]
  }

  lemma {:induction false} DistsAt(ns: seq<Neuron>, b: int, g: int, r: int, k: int)
    requires 0 <= k < |ns|
    ensures Dists(ns, b, g, r)[k] == Dist(ns[k], b, g, r)
    decreases |ns|
  {
    if k < |ns| - 1 {
      DistsAt(ns[..|ns| - 1], b, g, r, k);
    }
  }

  /** The distance less the neuron's bias, scaled from frequency units
      (2^16) down to colour units (2^4): contest's "biased distance". */
  function BiasedDist(n: Neuron, bias: int, b: int, g: int, r: int): (d: int)
  {
    Dist(n, b, g, r) - Shr(bias, IntBiasShift - NetBiasShift)
  }

  function BiasedDists(ns: seq<Neuron>, biases: seq<int>, b: int, g: int, r: int): (ds: seq<int>)
    requires |biases| == |ns|
    ensures |ds| == |ns|
  {
    if |ns| == 0 then []
    else BiasedDists(ns[..|ns| - 1], biases[..|ns| - 1], b, g, r) + [BiasedDist(ns[|ns| - 1], biases[|ns| - 1], b, g, r)]
  }

  lemma {:induction false} BiasedDistsAt(ns: seq<Neuron>, biases: seq<int>, b: int, g: int, r: int, k: int)
    requires |biases| == |ns| && 0 <= k < |ns|
    ensures BiasedDists(ns, biases, b, g, r)[k] == BiasedDist(ns[k], biases[k], b, g, r)
    decreases |ns|
  {
    if k < |ns| - 1 {
      BiasedDistsAt(ns[..|ns| - 1], biases[..|ns| - 1], b, g, r, k);
    }
  }

  /** While training, every distance, plain or biased, is below the scan's
      starting value math.MaxInt32. */
  lemma DistsBelowSentinel(ns: seq<Neuron>, fs: seq<int>, bs: seq<int>, b: int, g: int, r: int)
    requires ChannelsWithin(ns, 4080) && AllBalanced(fs, bs) && |bs| == |ns|
    requires 0 <= b <= 4080 && 0 <= g <= 4080 && 0 <= r <= 4080
    ensures forall k | 0 <= k < |ns| :: Dists(ns, b, g, r)[k] < MaxInt32
    ensures forall k | 0 <= k < |ns| :: BiasedDists(ns, bs, b, g, r)[k] < MaxInt32
  {
    forall k | 0 <= k < |ns|
      ensures Dists(ns, b, g, r)[k] < MaxInt32 && BiasedDists(ns, bs, b, g, r)[k] < MaxInt32
    {
      DistsAt(ns, b, g, r, k);
      BiasedDistsAt(ns, bs, b, g, r, k);
      DistAtMost(ns[k], b, g, r, 4080);
      BiasedDistBelowSentinel(Dist(ns[k], b, g, r), fs[k], bs[k]);
    }
  }

  /** k is the first position of a minimum of s. */
  predicate FirstArgMin(s: seq<int>, k: int)
  {
    0 <= k < |s| &&
    (forall m | 0 <= m < |s| :: s[k] <= s[m]) &&
    (forall m | 0 <= m < k :: s[k] < s[m])
  }

  /** There is only one first position of a minimum. */
  lemma FirstArgMinUnique(s: seq<int>, k1: int, k2: int)
    requires FirstArgMin(s, k1) && FirstArgMin(s, k2)
    ensures k1 == k2
  {
    assert s[k1] <= s[k2] && s[k2] <= s[k1];
  }

  /** The first position of a minimum of a non-empty sequence. */
  function ArgMin(s: seq<int>): (k: int)
    requires |s| > 0
    ensures 0 <= k < |s|
  {
    if |s| == 1 then 0
    else
      var k := ArgMin(s[..|s| - 1]);
      if s[|s| - 1] < s[k] then |s| - 1 else k
  }

  lemma {:induction false} ArgMinIsFirst(s: seq<int>)
    requires |s| > 0
    ensures FirstArgMin(s, ArgMin(s))
  {
    if |s| > 1 {
      var t := s[..|s| - 1];
      ArgMinIsFirst(t);
      assert forall m | 0 <= m < |t| :: t[m] == s[m];
    }
  }

  /** contest's scan over the first n values: the position and value of the
      best so far, starting from (-1, math.MaxInt32) and moving only to a
      strictly smaller value. */
  function Scan(s: seq<int>, n: int): (best: (int, int))
    requires 0 <= n <= |s|
  {
    if n == 0 then (-1, MaxInt32)
    else
      var best := Scan(s, n - 1);
      if s[n - 1] < best.1 then (n - 1, s[n - 1]) else best
  }

  /** When every value is below the sentinel, the scan finds the first
      position of the minimum, and never returns -1. */
  lemma {:induction false} ScanIsArgMin(s: seq<int>, n: int)
    requires 0 < n <= |s|
    requires forall k | 0 <= k < |s| :: s[k] < MaxInt32
    ensures Scan(s, n).0 == ArgMin(s[..n]) && Scan(s, n).1 == s[Scan(s, n).0]
  {
    assert s[..n][..n - 1] == s[..n - 1];
    if n > 1 {
      ScanIsArgMin(s, n - 1);
    }
  }

  /** The scan over the whole of a training network's distances, plain or
      biased, finds their first minimum. */
  lemma ScanFindsArgMin(ns: seq<Neuron>, fs: seq<int>, bs: seq<int>, b: int, g: int, r: int)
    requires 0 < |ns| && ChannelsWithin(ns, 4080) && AllBalanced(fs, bs) && |bs| == |ns|
    requires 0 <= b <= 4080 && 0 <= g <= 4080 && 0 <= r <= 4080
    ensures Scan(Dists(ns, b, g, r), |ns|).0 == ArgMin(Dists(ns, b, g, r))
    ensures Scan(BiasedDists(ns, bs, b, g, r), |ns|).0 == ArgMin(BiasedDists(ns, bs, b, g, r))
  {
    var ds, bds := Dists(ns, b, g, r), BiasedDists(ns, bs, b, g, r);
    DistsBelowSentinel(ns, fs, bs, b, g, r);
    ScanIsArgMin(ds, |ns|);
    ScanIsArgMin(bds, |ns|);
    assert ds[..|ns|] == ds && bds[..|ns|] == bds;
  }
}
