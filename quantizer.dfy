/** The NeuQuant network: 256 neurons trained on a byte stream of pixels,
    unbiased to byte colours, sorted on channel 1 with an index on it, then
    queried for the nearest colour and read out as a palette. */
module Quantizer {
  import opened FixedPoint
  import opened Constants
  import opened Neurons
  import opened Fairness
  import opened Competition
  import opened Schedule
  import opened NetIndex
  import opened Search
  import opened Colours

  class NeuQuant {
    /** Alpha decay rate, set by Learn. */
    var alphadec: int
    /** The input stream: interleaved (b, g, r) bytes. */
    const thepicture: seq<byte>
    /** Number of bytes of `thepicture` to use: 3 * width * height. */
    const lengthcount: int
    /** Sampling factor 1..30 (forced to 1 for a short stream). */
    var samplefac: int
    /** The network itself: NetSize rows. */
    const network: array<Neuron>
    /** For each channel-1 value, a row to start the nearest-colour search at. */
    const netindex: array<int>
    const bias: array<int>
    const freq: array<int>
    /** Weights of the neighbourhood update, by distance in rows. */
    const radpower: array<int>

    /** The arrays have the source's fixed sizes and are distinct objects, and
        the stream holds lengthcount bytes of whole pixels. */
    ghost predicate Valid()
    {
      0 <= lengthcount <= |thepicture| && lengthcount % 3 == 0 &&
      network.Length == NetSize && netindex.Length == 256 &&
      bias.Length == NetSize && freq.Length == NetSize && radpower.Length == InitRad &&
      netindex != bias && netindex != freq && netindex != radpower &&
      bias != freq && bias != radpower && freq != radpower
    }

    /** What training keeps: every channel within [0, 255 << 4], every
        neuron's frequency and bias balanced, and every radius power a
        weight in [0, alpharadbias]. */
    ghost predicate Training()
      reads network, freq, bias, radpower
    {
      Valid() &&
      ChannelsWithin(network[..], MaxBiased) &&
      AllBalanced(freq[..], bias[..]) &&
      WeightsWithin(radpower[..], AlphaRadBias)
    }

    /** The state after construction: byte colours, rows sorted on channel 1,
        tags a permutation of 0..255, and an index whose every entry is a row
        and which, for every channel-1 value present, points at a row with
        that value. */
    ghost predicate Frozen()
      reads network, netindex
    {
      Valid() &&
      ChannelsWithin(network[..], 255) &&
      SortedByG(network[..]) &&
      TagsArePermutation(network[..]) &&
      EntriesAreRows(netindex[..], NetSize) &&
      PointsAtValue(network[..], netindex[..]) &&
      IndexIsMidpoints(network[..], netindex[..])
    }

    /** Spread the neurons along the grey diagonal, 16 apart in biased units,
        with frequency 1/netsize and no bias. */
    method InitNetwork()
      requires Valid()
      modifies network, freq, bias
      ensures forall k | 0 <= k < NetSize ::
        network[k].b == network[k].g == network[k].r == Shl(k, NetBiasShift) &&
        network[k].tag == old(network[k].tag)
      ensures forall k | 0 <= k < NetSize :: freq[k] == InitFreq && bias[k] == 0
      ensures ChannelsWithin(network[..], MaxBiased)
      ensures forall k | 0 <= k < NetSize :: Balanced(freq[k], bias[k])
    {
      assert Pow2(NetBiasShift) == 16 && Pow2(12) == 4096;
      var i := 0;
      while i < NetSize
        invariant 0 <= i <= NetSize
        invariant forall k | 0 <= k < i ::
          network[k].b == network[k].g == network[k].r == 16 * k &&
          network[k].tag == old(network[k].tag)
        invariant forall k | i <= k < NetSize :: network[k] == old(network[k])
        invariant forall k | 0 <= k < i :: freq[k] == InitFreq && bias[k] == 0
      {
        var v := GoDiv(Shl(i, NetBiasShift + 8), NetSize);
        assert v == 16 * i;
        network[i] := network[i].(b := v, g := v, r := v);
        freq[i] := IntBias / NetSize;
        bias[i] := 0;
        i := i + 1;
      }
      InitBalanced();
    }

    /** Find the neuron whose distance to (b, g, r), less its bias, is
        smallest, and return the first such position; meanwhile decay every
        frequency into its bias, and boost the first neuron at the smallest
        plain distance. */
    method Contest(b: int, g: int, r: int) returns (bestbiaspos: int)
      requires Training()
      requires 0 <= b <= MaxBiased && 0 <= g <= MaxBiased && 0 <= r <= MaxBiased
      modifies freq, bias
      ensures Training()
      ensures bestbiaspos == ArgMin(BiasedDists(network[..], old(bias[..]), b, g, r))
      ensures freq[..] == ContestFreqs(old(freq[..]), ArgMin(Dists(network[..], b, g, r)))
      ensures bias[..] == ContestBiases(old(bias[..]), old(freq[..]), ArgMin(Dists(network[..], b, g, r)))
    {
      ghost var ns, fs, bs := network[..], freq[..], bias[..];
      ghost var ds, bds := Dists(ns, b, g, r), BiasedDists(ns, bs, b, g, r);
      var bestd := MaxInt32;
      var bestbiasd := bestd;
      var bestpos := -1;
      bestbiaspos := bestpos;
      var i := 0;
      while i < NetSize
        invariant 0 <= i <= NetSize
        invariant bestpos == Scan(ds, i).0 && bestd == Scan(ds, i).1
        invariant bestbiaspos == Scan(bds, i).0 && bestbiasd == Scan(bds, i).1
        invariant forall k | 0 <= k < i :: freq[k] == DecayFreq(fs[k]) && bias[k] == CreditBias(bs[k], fs[k])
        invariant forall k | i <= k < NetSize :: freq[k] == fs[k] && bias[k] == bs[k]
      {
        var dist := Dist(network[i], b, g, r);
        DistsAt(ns, b, g, r, i);
        assert network[i] == ns[i];
        if dist < bestd {
          bestd := dist;
          bestpos := i;
        }
        var biasdist := dist - Shr(bias[i], IntBiasShift - NetBiasShift);
        BiasedDistsAt(ns, bs, b, g, r, i);
        if biasdist < bestbiasd {
          bestbiasd := biasdist;
          bestbiaspos := i;
        }
        var betafreq := Shr(freq[i], BetaShift);
        freq[i] := freq[i] - betafreq;
        bias[i] := bias[i] + Shl(betafreq, GammaShift);
        i := i + 1;
      }
      ScanFindsArgMin(ns, fs, bs, b, g, r);
      freq[bestpos] := freq[bestpos] + Beta;
      bias[bestpos] := bias[bestpos] - BetaGamma;
      DecayThenBoost(fs, bs, freq[..], bias[..], bestpos);
    }

    /** Move neuron i toward (b, g, r) by the fraction alpha / initalpha. */
    method AlterSingle(alpha: int, i: int, b: int, g: int, r: int)
      requires Training()
      requires 0 <= alpha <= InitAlpha && 0 <= i < NetSize
      requires 0 <= b <= MaxBiased && 0 <= g <= MaxBiased && 0 <= r <= MaxBiased
      modifies network
      ensures Training()
      ensures network[..] == old(network[..])[i := MoveNeuron(old(network[i]), alpha, InitAlpha, b, g, r)]
    {
      MoveNeuronToward(network[i], alpha, InitAlpha, b, g, r, MaxBiased);
      network[i] := MoveNeuron(network[i], alpha, InitAlpha, b, g, r);
    }

    /** Move the neighbours of neuron i, at distance 1 .. rad - 1 in the
        array and clipped to the array, toward (b, g, r), each by the radius
        power weight for its distance (MovedRowKeeps says what stays). */
    method AlterNeigh(rad: int, i: int, b: int, g: int, r: int)
      requires Valid()
      requires 1 <= rad <= InitRad && 0 <= i < NetSize
      modifies network
      ensures forall p | 0 <= p < NetSize ::
        network[p] == MovedRow(old(network[..]), radpower[..], i, Max(i - rad, -1), Min(i + rad, NetSize), b, g, r, p)
    {
      ghost var ns, ws := network[..], radpower[..];
      var lo := i - rad;
      if lo < -1 {
        lo := -1;
      }
      var hi := i + rad;
      if hi > NetSize {
        hi := NetSize;
      }
      var j := i + 1;
      var k := i - 1;
      var m := 1;
      while j < hi || k > lo
        invariant 1 <= m <= rad
        invariant i < j <= hi && lo <= k < i
        invariant j < hi ==> j == i + m
        invariant k > lo ==> k == i - m
        invariant forall p {:trigger network[p]} | 0 <= p < NetSize :: network[p] == if k < p < j then MovedRow(ns, ws, i, lo, hi, b, g, r, p) else ns[p]
        decreases hi - j + k - lo
      {
        var a := radpower[m];
        m := m + 1;
        if j < hi {
          MovedRowAt(ns, ws, i, lo, hi, b, g, r, j, m - 1, network[j], a);
          network[j] := MoveNeuron(network[j], a, AlphaRadBias, b, g, r);
          j := j + 1;
        }
        if k > lo {
          MovedRowAt(ns, ws, i, lo, hi, b, g, r, k, m - 1, network[k], a);
          network[k] := MoveNeuron(network[k], a, AlphaRadBias, b, g, r);
          k := k - 1;
        }
      }
    }

    /** The radius power table for neighbourhood radius rad: entry q becomes
        alpha * ((rad^2 - q^2) * radbias / rad^2) for q < rad, and the
        entries from rad on keep their values. */
    method FillRadPower(alpha: int, rad: int)
      requires Valid() && 0 <= alpha <= InitAlpha && 0 <= rad <= InitRad
      requires forall q | rad <= q < InitRad :: 0 <= radpower[q] <= AlphaRadBias
      modifies radpower
      ensures RadPowerTable(radpower[..], alpha, rad)
      ensures forall q | rad <= q < InitRad :: radpower[q] == old(radpower[q])
      ensures WeightsWithin(radpower[..], AlphaRadBias)
    {
      var j := 0;
      while j < rad
        invariant 0 <= j <= rad
        invariant forall q | 0 <= q < j :: radpower[q] == RadPower(alpha, rad, q) && 0 <= radpower[q] <= AlphaRadBias
        invariant forall q | j <= q < InitRad :: radpower[q] == old(radpower[q])
      {
        RadPowerBounds(alpha, rad, j, j);
        radpower[j] := alpha * GoDiv((rad * rad - j * j) * RadBias, rad * rad);
        j := j + 1;
      }
    }

    /** The learning loop: settle samplefac and alphadec, fill the radius
        power table, then for each of samplepixels samples taken a stride
        apart, pull the contest winner and its neighbours toward the sample,
        and every delta samples shrink alpha and the radius. The ghost
        result is the number of samples the loop ran. */
    method Learn() returns (ghost samples: int)
      requires Valid() && ChannelsWithin(network[..], MaxBiased) && AllBalanced(freq[..], bias[..])
      requires 1 <= samplefac <= 30
      modifies this, network, freq, bias, radpower
      ensures samplefac == EffectiveSampleFac(lengthcount, old(samplefac))
      ensures alphadec == AlphaDec(samplefac)
      ensures samples == SamplePixels(lengthcount, samplefac)
      ensures Training()
    {
      var samplepixels, step := Settle();
      var pix := 0;
      var lim := lengthcount;
      var delta := GoDiv(samplepixels, NCycles);
      var alpha := InitAlpha;
      var radius := InitRadius;
      var rad := Shr(radius, RadiusBiasShift);
      assert Pow2(RadiusBiasShift) == 64;
      FillRadPower(alpha, rad);

      ghost var d := Delta(samplepixels);
      var i := 0;
      while i < samplepixels
        invariant 0 <= i <= samplepixels
        invariant Training()
        invariant pix == SampleOffset(i, lengthcount)
        invariant delta == if i == 0 then GoDiv(samplepixels, NCycles) else d
        invariant alpha == AlphaAfter(i, alphadec, d)
        invariant radius == RadiusAfter(i, d) && rad == RadOf(radius) && 0 <= rad <= InitRad
        invariant RadPowerTable(radpower[..], alpha, rad)
        modifies network, freq, bias, radpower
      {
        SampleOffsetOk(i, lengthcount);
        AlphaAfterBounds(i, alphadec, d);
        RadiusAfterBounds(i, d);
        TrainOn(pix, alpha, rad);

        pix := pix + step;
        if pix >= lim {
          pix := pix - lengthcount;
        }

        i := i + 1;
        if delta == 0 {
          delta := 1;
        }
        if i % delta == 0 {
          alpha, radius, rad := Shrink(alpha, radius);
        }
      }
      samples := i;
    }

    /** The start of learn: a short stream is sampled in full, alphadec
        follows samplefac, and the number of samples and the stride follow
        the stream's length. */
    method Settle() returns (samplepixels: int, step: int)
      requires Valid() && 1 <= samplefac <= 30
      modifies this
      ensures samplefac == EffectiveSampleFac(lengthcount, old(samplefac)) && alphadec == AlphaDec(samplefac)
      ensures samplepixels == SamplePixels(lengthcount, samplefac) && step == Step(lengthcount)
      ensures 0 <= samplepixels && (samplepixels > 0 ==> lengthcount > 0)
    {
      if lengthcount < MinPictureBytes {
        samplefac := 1;
      }
      alphadec := 30 + GoDiv(samplefac - 1, 3);
      samplepixels := GoDiv(lengthcount, 3 * samplefac);
      if lengthcount < MinPictureBytes {
        step := 3;
      } else if lengthcount % Prime1 != 0 {
        step := 3 * Prime1;
      } else if lengthcount % Prime2 != 0 {
        step := 3 * Prime2;
      } else if lengthcount % Prime3 != 0 {
        step := 3 * Prime3;
      } else {
        step := 3 * Prime4;
      }
    }

    /** The end of a learning cycle: alpha and the radius shrink, the radius
        in neurons is clamped to 0 once it is at most 1, and the radius power
        table is refilled for the new radius. */
    method Shrink(alpha: int, radius: int) returns (alpha': int, radius': int, rad: int)
      requires Valid() && WeightsWithin(radpower[..], AlphaRadBias) && alphadec >= 1
      requires 0 <= alpha <= InitAlpha && 0 <= radius <= InitRadius
      modifies radpower
      ensures alpha' == DecayAlpha(alpha, alphadec) && radius' == DecayRadius(radius) && rad == RadOf(radius')
      ensures RadPowerTable(radpower[..], alpha', rad)
      ensures forall q | rad <= q < InitRad :: radpower[q] == old(radpower[q])
      ensures WeightsWithin(radpower[..], AlphaRadBias)
    {
      DecayAlphaBounds(alpha, alphadec);
      DecayRadiusBounds(radius);
      alpha' := alpha - GoDiv(alpha, alphadec);
      radius' := radius - GoDiv(radius, RadiusDec);
      rad := Shr(radius', RadiusBiasShift);
      if rad <= 1 {
        rad := 0;
      }
      FillRadPower(alpha', rad);
    }

    /** One step of the learning loop on the pixel at byte offset pix: the
        contest winner moves toward the pixel by alpha, and its neighbours
        within rad rows by the radius power table's weights. */
    method TrainOn(pix: int, alpha: int, rad: int)
      requires Training() && PixOk(pix, lengthcount) && 0 <= alpha <= InitAlpha && 0 <= rad <= InitRad
      modifies network, freq, bias
      ensures Training()
    {
      assert Pow2(NetBiasShift) == 16;
      // int(p[k]) & 0xff keeps a byte as it is
      var b := Shl(thepicture[pix + 0] as int % 256, NetBiasShift);
      var g := Shl(thepicture[pix + 1] as int % 256, NetBiasShift);
      var r := Shl(thepicture[pix + 2] as int % 256, NetBiasShift);
      var j := Contest(b, g, r);
      AlterSingle(alpha, j, b, g, r);
      if rad != 0 {
        ghost var ns, ws := network[..], radpower[..];
        AlterNeigh(rad, j, b, g, r);
        forall p | 0 <= p < NetSize
          ensures InBox(network[p], MaxBiased)
        {
          MovedRowKeeps(ns, ws, j, Max(j - rad, -1), Min(j + rad, NetSize), b, g, r, MaxBiased, p);
        }
      }
    }

    /** Shift every channel back to a byte and record each row's position as its tag. */
    method UnbiasNet()
      requires Valid()
      modifies network
      ensures forall k | 0 <= k < NetSize :: network[k] == Unbias(old(network[k]), k)
      ensures TagsArePermutation(network[..])
    {
      var i := 0;
      while i < NetSize
        invariant 0 <= i <= NetSize
        invariant forall k | 0 <= k < i :: network[k] == Unbias(old(network[k]), k)
        invariant forall k | i <= k < NetSize :: network[k] == old(network[k])
      {
        network[i] := network[i].(b := Shr(network[i].b, NetBiasShift), g := Shr(network[i].g, NetBiasShift),
                                  r := Shr(network[i].r, NetBiasShift), tag := i);
        i := i + 1;
      }
    }

    /** inxbuild's inner search: the first row at or after i whose channel 1
        is smallest among the rows from i on. */
    method SmallestG(i: int) returns (smallpos: int, smallval: int)
      requires Valid() && 0 <= i < NetSize
      ensures i <= smallpos < NetSize && smallval == network[smallpos].g
      ensures forall q | i <= q < NetSize :: smallval <= network[q].g
      ensures forall q | i <= q < smallpos :: smallval < network[q].g
    {
      smallpos := i;
      smallval := network[i].g;
      var j := i + 1;
      while j < NetSize
        invariant i < j <= NetSize && i <= smallpos < j && smallval == network[smallpos].g
        invariant forall q | i <= q < j :: smallval <= network[q].g
        invariant forall q | i <= q < smallpos :: smallval < network[q].g
      {
        if network[j].g < smallval {
          smallpos := j;
          smallval := network[j].g;
        }
        j := j + 1;
      }
    }

    /** inxbuild's filling loops: netindex[v] := value for from <= v < to. */
    method FillIndex(from: int, to: int, value: int)
      requires Valid() && 0 <= from && to <= 256
      modifies netindex
      ensures forall v | 0 <= v < 256 :: netindex[v] == if from <= v < to then value else old(netindex[v])
    {
      var j := from;
      while j < to
        invariant from <= j && (j <= to || j == from)
        invariant forall v | 0 <= v < 256 :: netindex[v] == if from <= v < j then value else old(netindex[v])
      {
        netindex[j] := value;
        j := j + 1;
      }
    }

    /** inxbuild's selection step: the first row from i on with the smallest
        channel 1 is swapped into row i. */
    method SelectRow(i: int) returns (smallval: int)
      requires Valid() && ChannelsWithin(network[..], 255) && TagsArePermutation(network[..])
      requires 0 <= i < NetSize && SortedPrefix(network[..], i)
      modifies network
      ensures multiset(network[..]) == multiset(old(network[..]))
      ensures ChannelsWithin(network[..], 255) && TagsArePermutation(network[..])
      ensures SortedPrefix(network[..], i + 1) && smallval == network[i].g
      ensures forall k | 0 <= k < i :: network[k] == old(network[k])
      ensures exists sp | i <= sp < NetSize ::
        (forall q | i <= q < NetSize :: old(network[sp]).g <= old(network[q]).g) &&
        (forall q | i <= q < sp :: old(network[sp]).g < old(network[q]).g) &&
        network[..] == old(network[..])[i := old(network[sp])][sp := old(network[i])]
    {
      var smallpos;
      smallpos, smallval := SmallestG(i);
      ghost var before := network[..];
      if i != smallpos {
        network[i], network[smallpos] := network[smallpos], network[i];
        assert network[..] == before[i := before[smallpos]][smallpos := before[i]];
        SwapIsPermutation(before, i, smallpos);
        SwapRows(before, i, smallpos, 255);
        SwapSelected(before, i, smallpos);
      } else {
        SelectedExtendsPrefix(before, i);
      }
    }

    /** inxbuild's index step for row i, whose channel 1 is smallval. */
    method IndexRow(i: int, smallval: int, previouscol: int, startpos: int) returns (col: int, start: int)
      requires Valid() && 0 <= i < NetSize && 0 <= previouscol < 256 && 0 <= smallval < 256
      modifies netindex
      ensures forall v | 0 <= v < 256 :: netindex[v] == StepEntry(old(netindex[..]), v, i, smallval, previouscol, startpos)
      ensures col == smallval && start == if smallval != previouscol then i else startpos
    {
      assert Pow2(1) == 2;
      col, start := previouscol, startpos;
      if smallval != col {
        netindex[col] := Shr(start + i, 1);
        FillIndex(col + 1, smallval, i);
        col := smallval;
        start := i;
      }
      netindex[col] := Shr(start + MaxNetPos, 1);
      FillIndex(col + 1, 256, MaxNetPos);
    }

    /** One pass of inxbuild's outer loop: row i receives the first row of
        smallest channel 1 from i on, and the index is built one row further. */
    method PlaceRow(i: int, previouscol: int, startpos: int) returns (col: int, start: int)
      requires Valid() && 0 <= i < NetSize
      requires ChannelsWithin(network[..], 255) && TagsArePermutation(network[..]) && SortedPrefix(network[..], i)
      requires IndexedRows(network[..], netindex[..], i, previouscol, startpos)
      requires EntriesSoFar(network[..], netindex[..], i, previouscol, startpos)
      modifies network, netindex
      ensures multiset(network[..]) == multiset(old(network[..]))
      ensures ChannelsWithin(network[..], 255) && TagsArePermutation(network[..]) && SortedPrefix(network[..], i + 1)
      ensures IndexedRows(network[..], netindex[..], i + 1, col, start)
      ensures EntriesSoFar(network[..], netindex[..], i + 1, col, start)
    {
      ghost var ns := network[..];
      var smallval := SelectRow(i);
      IndexedRowsFrame(ns, network[..], netindex[..], i, previouscol, startpos);
      EntriesFrame(ns, network[..], netindex[..], i, previouscol, startpos);
      ghost var idx := netindex[..];
      assert InBox(network[..][i], 255);
      col, start := IndexRow(i, smallval, previouscol, startpos);
      if smallval != previouscol {
        IndexStepNew(network[..], idx, netindex[..], i, previouscol, startpos);
        EntriesStepNew(network[..], idx, netindex[..], i, previouscol, startpos);
      } else {
        IndexStepSame(network[..], idx, netindex[..], i, previouscol, startpos);
        EntriesStepSame(network[..], idx, netindex[..], i, previouscol, startpos);
      }
    }

    /** Sort the rows on channel 1 by selection sort and build netindex. With
        a the first row whose channel 1 exceeds v (the last row when none
        does), entry v becomes (first row with value v + a) / 2 when v
        occurs, and a when it does not (IndexIsMidpoints). */
    method InxBuild()
      requires Valid() && ChannelsWithin(network[..], 255) && TagsArePermutation(network[..])
      modifies network, netindex
      ensures Frozen()
      ensures multiset(network[..]) == multiset(old(network[..]))
    {
      var previouscol, startpos := 0, 0;
      var i := 0;
      while i < NetSize
        invariant 0 <= i <= NetSize
        invariant multiset(network[..]) == multiset(old(network[..]))
        invariant ChannelsWithin(network[..], 255) && TagsArePermutation(network[..])
        invariant SortedPrefix(network[..], i) && IndexedRows(network[..], netindex[..], i, previouscol, startpos)
        invariant EntriesSoFar(network[..], netindex[..], i, previouscol, startpos)
      {
        previouscol, startpos := PlaceRow(i, previouscol, startpos);
        i := i + 1;
      }
      IndexComplete(network[..], netindex[..], previouscol, startpos);
      EntriesComplete(network[..], netindex[..], previouscol, startpos);
    }

    /** Map's test of row k once its channel-1 difference dist from g is
        known to be below bestd: the L1 distance is summed channel by
        channel, stopping as soon as it reaches bestd, and a row closer than
        bestd becomes the best. */
    method Consider(k: int, b: int, g: int, r: int, dist: int, bestd: int, best: int)
      returns (bestd': int, best': int)
      requires Valid() && 0 <= k < NetSize
      requires dist == network[k].g - g || dist == g - network[k].g
      ensures Dist(network[k], b, g, r) < bestd ==> bestd' == Dist(network[k], b, g, r) && best' == network[k].tag
      ensures Dist(network[k], b, g, r) >= bestd ==> bestd' == bestd && best' == best
    {
      bestd', best' := bestd, best;
      var p := network[k];
      var d := dist;
      if d < 0 {
        d := -d;
      }
      var a := p.b - b;
      if a < 0 {
        a := -a;
      }
      d := d + a;
      if d < bestd {
        a := p.r - r;
        if a < 0 {
          a := -a;
        }
        d := d + a;
        if d < bestd {
          bestd' := d;
          best' := p.tag;
        }
      }
    }

    /** The colour number of the row nearest (b, g, r) in L1 distance,
        searching outward from netindex[g] in both directions and stopping
        in a direction once the channel-1 gap alone reaches the best
        distance so far; -1 when no row is closer than 1000. */
    method Map(b: int, g: int, r: int) returns (best: int)
      requires Valid() && ChannelsWithin(network[..], 255) && SortedByG(network[..]) && TagsInRange(network[..])
      requires EntriesAreRows(netindex[..], NetSize) && 0 <= g < 256
      ensures best == -1 <==> forall k | 0 <= k < NetSize :: Dist(network[k], b, g, r) >= 1000
      ensures best != -1 ==> exists k | 0 <= k < NetSize ::
        network[k].tag == best && Dist(network[k], b, g, r) < 1000 &&
        forall m | 0 <= m < NetSize :: Dist(network[k], b, g, r) <= Dist(network[m], b, g, r)
      ensures 0 <= b < 256 && 0 <= r < 256 ==> 0 <= best < NetSize
    {
      var bestd := 1000;
      best := -1;
      ghost var ns := network[..];
      ghost var ds := Dists(ns, b, g, r);
      ghost var bestrow := -1;
      var i := netindex[g];
      var j := i - 1;
      while i < NetSize || j >= 0
        invariant -1 <= j < i <= NetSize
        invariant forall k | j < k < i :: ds[k] >= bestd
        invariant bestd <= 1000
        invariant bestrow == -1 ==> best == -1 && bestd == 1000
        invariant bestrow != -1 ==> j < bestrow < i && network[bestrow].tag == best && ds[bestrow] == bestd < 1000
        decreases NetSize - i + j
      {
        if i < NetSize {
          var dist := network[i].g - g;
          if dist >= bestd {
            FarAbove(ns, i, b, g, r, bestd);
            i := NetSize;
          } else {
            DistsAt(ns, b, g, r, i);
            var d0 := bestd;
            bestd, best := Consider(i, b, g, r, dist, bestd, best);
            if bestd < d0 {
              bestrow := i;
            }
            i := i + 1;
          }
        }
        if j >= 0 {
          var dist := g - network[j].g;
          if dist >= bestd {
            FarBelow(ns, j, b, g, r, bestd);
            j := -1;
          } else {
            DistsAt(ns, b, g, r, j);
            var d0 := bestd;
            bestd, best := Consider(j, b, g, r, dist, bestd, best);
            if bestd < d0 {
              bestrow := j;
            }
            j := j - 1;
          }
        }
      }
      forall k | 0 <= k < NetSize
        ensures ds[k] == Dist(network[k], b, g, r)
      {
        DistsAt(ns, b, g, r, k);
      }
      if bestrow != -1 {
        assert network[..][bestrow].tag >= 0;
      } else if 0 <= b < 256 && 0 <= r < 256 {
        assert InBox(network[..][0], 255);
        DistAtMost(network[0], b, g, r, 255);
      }
    }

    /** The palette: for each colour number t, the three channels of the
        row tagged t, as bytes. */
    method ColorMap() returns (colors: seq<byte>)
      requires Valid() && TagsInRange(network[..])
      ensures |colors| == 3 * NetSize
      ensures forall q | 0 <= q < 3 * NetSize :: colors[q] == PaletteByte(network[..], q)
    {
      var ret := new byte[3 * NetSize](_ => 0);
      var index := new int[NetSize](_ => 0);
      ghost var ns := network[..];
      var i := 0;
      while i < NetSize
        invariant 0 <= i <= NetSize
        invariant forall t | 0 <= t < NetSize :: index[t] == TagRow(ns, t, i)
        modifies index
      {
        index[network[i].tag] := i;
        i := i + 1;
      }
      var k := 0;
      i := 0;
      while i < NetSize
        invariant 0 <= i <= NetSize && k == 3 * i
        invariant forall q | 0 <= q < k :: ret[q] == PaletteByte(ns, q)
        modifies ret
      {
        var j := index[i];
        assert k / 3 == (k + 1) / 3 == (k + 2) / 3 == i && k % 3 == 0;
        ret[k] := ToByte(network[j].b);
        ret[k + 1] := ToByte(network[j].g);
        ret[k + 2] := ToByte(network[j].r);
        k := k + 3;
        i := i + 1;
      }
      colors := ret[..];
    }

    /** A quantiser for the first len bytes of thepic: the network is
        spread along the grey diagonal, trained, unbiased, sorted and
        indexed. */
    constructor (thepic: seq<byte>, len: int, sample: int)
      requires 0 <= len <= |thepic| && len % 3 == 0 && 1 <= sample <= 30
      ensures thepicture == thepic && lengthcount == len
      ensures samplefac == EffectiveSampleFac(len, sample) && alphadec == AlphaDec(samplefac)
      ensures Frozen()
    {
      thepicture := thepic;
      lengthcount := len;
      samplefac := sample;
      alphadec := 0;
      network := new Neuron[NetSize](_ => Neuron(0, 0, 0, 0));
      netindex := new int[256](_ => 0);
      bias := new int[NetSize](_ => 0);
      freq := new int[NetSize](_ => 0);
      radpower := new int[InitRad](_ => 0);
      new;
      InitNetwork();
      var _ := Learn();
      ghost var trained := network[..];
      UnbiasNet();
      forall k | 0 <= k < NetSize
        ensures InBox(network[k], 255)
      {
        UnbiasInRange(trained[k], k);
      }
      InxBuild();
    }
  }
}
