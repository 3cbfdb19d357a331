/** One row of the network (three colour channels and a tag), the L1 colour
    distance, the learning move, unbiasing, and the predicates that describe
    a whole network: channel ranges, order on channel 1, tags, and "first
    position of a minimum". */
module Neurons {
  import opened FixedPoint
  import opened Constants

  /** A row `network[i]` of the source: channels 0, 1, 2 (called b, g, r in the
      source's comments) and column 3, the tag (the row's colour number). */
  datatype Neuron = Neuron(b: int, g: int, r: int, tag: int)

  /** Largest channel value while training: 255 << NetBiasShift. */
  const MaxBiased := 4080

  lemma MaxBiasedIsShifted()
    ensures MaxBiased == Shl(255, NetBiasShift)
  {
  }

  /** All three channels of `n` lie in [0, hi]. */
  predicate InBox(n: Neuron, hi: int)
  {
    0 <= n.b <= hi && 0 <= n.g <= hi && 0 <= n.r <= hi
  }

  predicate ChannelsWithin(ns: seq<Neuron>, hi: int)
  {
    forall k | 0 <= k < |ns| :: InBox(ns[k], hi)
  }

  /** L1 (Manhattan) distance between a neuron's colour and (b, g, r). */
  function Dist(n: Neuron, b: int, g: int, r: int): (d: int)
    ensures d >= 0
    ensures d == 0 <==> n.b == b && n.g == g && n.r == r
    ensures d >= n.g - g && d >= g - n.g
  {
    Abs(n.b - b) + Abs(n.g - g) + Abs(n.r - r)
  }

  /** Two colours in [0, hi]^3 are at most 3 * hi apart. */
  lemma DistAtMost(n: Neuron, b: int, g: int, r: int, hi: int)
    requires InBox(n, hi) && 0 <= b <= hi && 0 <= g <= hi && 0 <= r <= hi
    ensures Dist(n, b, g, r) <= 3 * hi
  {
  }

  /** The source's update of one neuron toward (b, g, r) by the fraction a/d,
      channel by channel; column 3 is not touched. */
  function MoveNeuron(n: Neuron, a: int, d: int, b: int, g: int, r: int): (moved: Neuron)
    requires d > 0
  {
    n.(b := MoveToward(n.b, a, d, b), g := MoveToward(n.g, a, d, g), r := MoveToward(n.r, a, d, r))
  }

  /** A move by a fraction in [0, 1] keeps the tag, keeps each channel between
      its old value and the target, and so never moves the neuron away from the
      target nor out of a box that holds both. */
  lemma MoveNeuronToward(n: Neuron, a: int, d: int, b: int, g: int, r: int, hi: int)
    requires 0 <= a <= d && 0 < d
    requires InBox(n, hi) && 0 <= b <= hi && 0 <= g <= hi && 0 <= r <= hi
    ensures MoveNeuron(n, a, d, b, g, r).tag == n.tag
    ensures InBox(MoveNeuron(n, a, d, b, g, r), hi)
    ensures Dist(MoveNeuron(n, a, d, b, g, r), b, g, r) <= Dist(n, b, g, r)
  {
    MoveTowardBetween(n.b, a, d, b);
    MoveTowardBetween(n.g, a, d, g);
    MoveTowardBetween(n.r, a, d, r);
  }

  /** The source's unbiasing of row k: channels shifted back to bytes, tag := k. */
  function Unbias(n: Neuron, k: int): (u: Neuron)
  {
    Neuron(Shr(n.b, NetBiasShift), Shr(n.g, NetBiasShift), Shr(n.r, NetBiasShift), k)
  }

  /** Unbiasing a trained neuron gives byte channels. */
  lemma UnbiasInRange(n: Neuron, k: int)
    requires InBox(n, MaxBiased)
    ensures InBox(Unbias(n, k), 255) && Unbias(n, k).tag == k
  {
    assert Pow2(NetBiasShift) == 16;
  }

  /** Rows ordered by channel 1 (g), ascending. */
  predicate SortedByG(ns: seq<Neuron>)
  {
    forall p, q | 0 <= p < q < |ns| :: ns[p].g <= ns[q].g
  }

  predicate TagsInRange(ns: seq<Neuron>)
  {
    forall k | 0 <= k < |ns| :: 0 <= ns[k].tag < |ns|
  }

  predicate TagsDistinct(ns: seq<Neuron>)
  {
    forall p, q | 0 <= p < q < |ns| :: ns[p].tag != ns[q].tag
  }

  /** Every tag is a position and no two rows share one: with as many tags
      as rows, the tags are a permutation of 0 .. |ns| - 1. */
  predicate TagsArePermutation(ns: seq<Neuron>)
  {
    TagsInRange(ns) && TagsDistinct(ns)
  }

  /** Swapping two rows keeps distinct tags distinct. */
  lemma SwapKeepsTagsDistinct(s: seq<Neuron>, i: int, j: int)
    requires 0 <= i < |s| && 0 <= j < |s|
    requires TagsDistinct(s)
    ensures TagsDistinct(s[i := s[j]][j := s[i]])
  {
    var t := s[i := s[j]][j := s[i]];
    forall p, q | 0 <= p < q < |t|
      ensures t[p].tag != t[q].tag
    {
      var p' := if p == i then j else if p == j then i else p;
      var q' := if q == i then j else if q == j then i else q;
      assert t[p] == s[p'] && t[q] == s[q'];
      assert p' != q';
      if p' < q' {
        assert s[p'].tag != s[q'].tag;
      } else {
        assert s[q'].tag != s[p'].tag;
      }
    }
  }

  /** Swapping two rows permutes the network. */
  lemma SwapIsPermutation(s: seq<Neuron>, i: int, j: int)
    requires 0 <= i < |s| && 0 <= j < |s|
    ensures multiset(s[i := s[j]][j := s[i]]) == multiset(s)
  {
    var t := s[i := s[j]];
    assert multiset(t) == multiset(s) - multiset{s[i]} + multiset{s[j]};
  }

  /** Swapping two rows keeps channel ranges and tags. */
  lemma SwapRows(s: seq<Neuron>, i: int, j: int, hi: int)
    requires 0 <= i < |s| && 0 <= j < |s|
    requires ChannelsWithin(s, hi) && TagsArePermutation(s)
    ensures ChannelsWithin(s[i := s[j]][j := s[i]], hi) && TagsArePermutation(s[i := s[j]][j := s[i]])
  {
    SwapKeepsTagsDistinct(s, i, j);
    var t := s[i := s[j]][j := s[i]];
    forall p | 0 <= p < |t|
      ensures InBox(t[p], hi) && 0 <= t[p].tag < |t|
    {
      var p' := if p == i then j else if p == j then i else p;
      assert t[p] == s[p'];
    }
  }

  /** Every weight lies in [0, top]. */
  predicate WeightsWithin(ws: seq<int>, top: int)
  {
    forall w | 0 <= w < |ws| :: 0 <= ws[w] <= top
  }

  /** Row p after alterneigh's update of the rows strictly between lo and hi
      around row i: every such row other than i moves toward (b, g, r) by the
      weight for its distance from i; any other row stays. */
  function MovedRow(ns: seq<Neuron>, weights: seq<int>, i: int, lo: int, hi: int,
                    b: int, g: int, r: int, p: int): (row: Neuron)
    requires 0 <= p < |ns| && i - |weights| <= lo && hi <= i + |weights|
  {
    if p != i && lo < p < hi
    then MoveNeuron(ns[p], weights[Abs(p - i)], AlphaRadBias, b, g, r)
    else ns[p]
  }

  /** Row p of the window update, for p strictly inside the window at
      distance d from i, is row p moved by weight number d. */
  lemma MovedRowAt(ns: seq<Neuron>, weights: seq<int>, i: int, lo: int, hi: int,
                   b: int, g: int, r: int, p: int, d: int, n: Neuron, w: int)
    requires i - |weights| <= lo && hi <= i + |weights| && 0 <= p < |ns|
    requires p != i && lo < p < hi && (d == p - i || d == i - p) && d >= 0
    requires n == ns[p] && w == weights[d]
    ensures MovedRow(ns, weights, i, lo, hi, b, g, r, p) == MoveNeuron(n, w, AlphaRadBias, b, g, r)
  {
  }

  /** With weights in [0, alpharadbias], the window update keeps every
      tag and channel range, and moves no row away from (b, g, r); a row
      outside the window, or row i itself, is exactly as it was. */
  lemma MovedRowKeeps(ns: seq<Neuron>, weights: seq<int>, i: int, lo: int, hi: int,
                      b: int, g: int, r: int, top: int, p: int)
    requires i - |weights| <= lo && hi <= i + |weights| && 0 <= p < |ns|
    requires WeightsWithin(weights, AlphaRadBias)
    requires InBox(ns[p], top) && 0 <= b <= top && 0 <= g <= top && 0 <= r <= top
    ensures InBox(MovedRow(ns, weights, i, lo, hi, b, g, r, p), top)
    ensures MovedRow(ns, weights, i, lo, hi, b, g, r, p).tag == ns[p].tag
    ensures Dist(MovedRow(ns, weights, i, lo, hi, b, g, r, p), b, g, r) <= Dist(ns[p], b, g, r)
    ensures p == i || p <= lo || hi <= p ==> MovedRow(ns, weights, i, lo, hi, b, g, r, p) == ns[p]
  {
    if p != i && lo < p < hi {
      MoveNeuronToward(ns[p], weights[Abs(p - i)], AlphaRadBias, b, g, r, top);
    }
  }
}
