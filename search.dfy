/** Why Map may stop searching: in a network sorted on channel 1, the
    channel-1 gap alone bounds the distance of every row beyond it. */
module Search {
  import opened Neurons
  import opened Competition

  /** Searching upward from row i of a network sorted on channel 1: once
      row i's channel 1 exceeds g by at least bound, every row from i on is
      at least bound away, so the search may stop in that direction. */
  lemma FarAbove(ns: seq<Neuron>, i: int, b: int, g: int, r: int, bound: int)
    requires SortedByG(ns) && 0 <= i < |ns| && ns[i].g - g >= bound
    ensures forall k | i <= k < |ns| :: Dists(ns, b, g, r)[k] >= bound
  {
    forall k | i <= k < |ns|
      ensures Dists(ns, b, g, r)[k] >= bound
    {
      DistsAt(ns, b, g, r, k);
      if i < k {
        assert ns[i].g <= ns[k].g;
      }
    }
  }

  /** Searching downward from row j: once g exceeds row j's channel 1 by at
      least bound, every row up to j is at least bound away. */
  lemma FarBelow(ns: seq<Neuron>, j: int, b: int, g: int, r: int, bound: int)
    requires SortedByG(ns) && 0 <= j < |ns| && g - ns[j].g >= bound
    ensures forall k | 0 <= k <= j :: Dists(ns, b, g, r)[k] >= bound
  {
    forall k | 0 <= k <= j
      ensures Dists(ns, b, g, r)[k] >= bound
    {
      DistsAt(ns, b, g, r, k);
      if k < j {
        assert ns[k].g <= ns[j].g;
      }
    }
  }
}
