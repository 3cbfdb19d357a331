/** The parameters of the learning loop: the effective sampling factor, the
    alpha decay rate, the sampling stride and how the cursor wraps, and the
    per-cycle decay of alpha and of the neighbourhood radius together with the
    radius power table's weights. */
module Schedule {
  import opened FixedPoint
  import opened Constants

  /** A short stream is sampled in full, whatever factor was asked for. */
  function EffectiveSampleFac(lengthcount: int, samplefac: int): (f: int)
  {
    if lengthcount < MinPictureBytes then 1 else samplefac
  }

  /** The alpha decay rate: 30 + (samplefac - 1) / 3. */
  function AlphaDec(samplefac: int): (d: int)
    requires 1 <= samplefac <= 30
    ensures 30 <= d <= 39
  {
    30 + GoDiv(samplefac - 1, 3)
  }

  /** Number of pixels the loop samples. */
  function SamplePixels(lengthcount: int, samplefac: int): (count: int)
    requires samplefac >= 1
  {
    GoDiv(lengthcount, 3 * samplefac)
  }

  /** Every accepted stream gives at least one training sample. */
  lemma SamplePixelsPositive(lengthcount: int, samplefac: int)
    requires 0 < lengthcount && lengthcount % 3 == 0 && 1 <= samplefac <= 30
    ensures SamplePixels(lengthcount, EffectiveSampleFac(lengthcount, samplefac)) >= 1
  {
  }

  /** The sampling stride in bytes: 3 for a short stream, otherwise three
      times the first of 499, 491, 487 that does not divide the length, or
      three times 503. */
  function Step(lengthcount: int): (step: int)
  {
    if lengthcount < MinPictureBytes then 3
    else if lengthcount % Prime1 != 0 then 3 * Prime1
    else if lengthcount % Prime2 != 0 then 3 * Prime2
    else if lengthcount % Prime3 != 0 then 3 * Prime3
    else 3 * Prime4
  }

  /** The stride is a whole number of pixels, never longer than the stream,
      and on a long stream its prime does not divide the stream's length
      unless all four primes do. */
  lemma StepShape(lengthcount: int)
    requires 0 < lengthcount && lengthcount % 3 == 0
    ensures Step(lengthcount) % 3 == 0 && 3 <= Step(lengthcount) <= lengthcount
    ensures lengthcount >= MinPictureBytes ==>
      lengthcount % (Step(lengthcount) / 3) != 0 ||
      (lengthcount % Prime1 == 0 && lengthcount % Prime2 == 0 &&
       lengthcount % Prime3 == 0 && lengthcount % Prime4 == 0)
  {
  }

  /** The cursor after one sample: advance by the stride, and wrap once by
      the stream's length when it reaches `lim` (the source sets lim to the
      length). */
  function NextPix(pix: int, step: int, lim: int, lengthcount: int): (next: int)
  {
    if pix + step >= lim then pix + step - lengthcount else pix + step
  }

  /** The cursor always addresses a whole pixel inside the stream. */
  predicate PixOk(pix: int, lengthcount: int)
  {
    pix % 3 == 0 && 0 <= pix && pix + 2 < lengthcount
  }

  lemma NextPixOk(pix: int, lengthcount: int)
    requires 0 < lengthcount && lengthcount % 3 == 0
    requires PixOk(pix, lengthcount)
    ensures PixOk(NextPix(pix, Step(lengthcount), lengthcount, lengthcount), lengthcount)
  {
    var step := Step(lengthcount);
    StepShape(lengthcount);
    var a, s, len := pix / 3, step / 3, lengthcount / 3;
    assert pix == 3 * a && step == 3 * s && lengthcount == 3 * len;
    assert a + 1 <= len && 1 <= s <= len;
    var next := NextPix(pix, step, lengthcount, lengthcount);
    if pix + step >= lengthcount {
      assert next == 3 * (a + s - len) && 0 <= a + s - len < len;
    } else {
      assert next == 3 * (a + s) && a + s < len;
    }
  }

  /** alpha -= alpha / alphadec */
  function DecayAlpha(alpha: int, alphadec: int): (alpha': int)
    requires alphadec > 0
  {
    alpha - GoDiv(alpha, alphadec)
  }

  /** alpha never grows and never goes negative. */
  lemma DecayAlphaBounds(alpha: int, alphadec: int)
    requires 0 <= alpha && alphadec >= 1
    ensures 0 <= DecayAlpha(alpha, alphadec) <= alpha
  {
    assert 0 <= alpha / alphadec <= alpha;
  }

  /** radius -= radius / radiusdec */
  function DecayRadius(radius: int): (radius': int)
  {
    radius - GoDiv(radius, RadiusDec)
  }

  /** The radius in neurons: radius >> 6, clamped to 0 once it is at most 1. */
  function RadOf(radius: int): (rad: int)
  {
    var rad := Shr(radius, RadiusBiasShift);
    if rad <= 1 then 0 else rad
  }

  /** The radius never grows, never goes negative, and its neuron count
      stays within the radius power table and is never 1. */
  lemma DecayRadiusBounds(radius: int)
    requires 0 <= radius <= InitRadius
    ensures 0 <= DecayRadius(radius) <= radius
    ensures 0 <= RadOf(DecayRadius(radius)) <= RadOf(radius) <= InitRad
    ensures RadOf(DecayRadius(radius)) != 1
  {
    assert Pow2(RadiusBiasShift) == 64;
  }

  /** Once the radius has been clamped to 0 it stays 0. */
  lemma RadStaysZero(radius: int)
    requires 0 <= radius <= InitRadius && RadOf(radius) == 0
    ensures RadOf(DecayRadius(radius)) == 0
  {
    DecayRadiusBounds(radius);
  }

  /** The radius power table's entry for distance i:
      alpha * ((rad^2 - i^2) * radbias / rad^2). */
  function RadPower(alpha: int, rad: int, i: int): (w: int)
    requires rad > 0
  {
    alpha * RadWeight(rad, i)
  }

  /** Each weight lies in [0, alpharadbias], so a neighbour moves by a
      fraction in [0, 1]; and weights never grow with the distance. */
  lemma RadPowerBounds(alpha: int, rad: int, i: int, i': int)
    requires 0 <= alpha <= InitAlpha && 0 <= i <= i' < rad
    ensures 0 <= RadPower(alpha, rad, i') <= RadPower(alpha, rad, i) <= AlphaRadBias
  {
    var w', w := RadWeight(rad, i'), RadWeight(rad, i);
    RadWeightBounds(rad, i, i');
    MulMonotone(alpha, 0, w');
    MulMonotone(alpha, w', w);
    MulMonotone(alpha, w, RadBias);
    MulMonotone(RadBias, alpha, InitAlpha);
  }

  /** The first rad entries of ws are the radius power table for alpha and rad. */
  ghost predicate RadPowerTable(ws: seq<int>, alpha: int, rad: int)
  {
    rad <= |ws| && forall q | 0 <= q < rad :: ws[q] == RadPower(alpha, rad, q)
  }

  function RadWeight(rad: int, i: int): (w: int)
    requires rad > 0
  {
    GoDiv((rad * rad - i * i) * RadBias, rad * rad)
  }

  lemma RadWeightBounds(rad: int, i: int, i': int)
    requires 0 <= i <= i' < rad
    ensures 0 <= RadWeight(rad, i') <= RadWeight(rad, i) <= RadBias
  {
    var d := rad * rad;
    SquaresOrdered(i, i', rad);
    var x', x := (d - i' * i') * RadBias, (d - i * i) * RadBias;
    assert 0 < x' <= x <= d * RadBias;
    DivMonotone(x', x, d);
    DivMonotone(x, d * RadBias, d);
    MulDivCancel(d, RadBias);
  }

  lemma SquaresOrdered(i: int, i': int, rad: int)
    requires 0 <= i <= i' < rad
    ensures 0 <= i * i <= i' * i' < rad * rad
  {
    MulMonotone(i, i, i');
    MulMonotone(i', i, i');
    MulMonotone(i', i', rad);
    MulMonotone(rad, i', rad);
    assert i' * i' <= i' * rad < rad * rad;
  }

  lemma MulDivCancel(d: int, k: int)
    requires d > 0
    ensures (d * k) / d == k
  {
    var q := (d * k) / d;
    assert d * q + (d * k) % d == d * k;
    assert d * (k - q) == (d * k) % d;
    assert 0 <= d * (k - q) < d;
    if k - q > 0 {
      MulMonotone(d, 1, k - q);
    } else if k - q < 0 {
      MulMonotone(d, k - q, -1);
    }
  }

  lemma MulMonotone(a: int, x: int, y: int)
    requires 0 <= a && x <= y
    ensures a * x <= a * y && x * a <= y * a
  {
    assert a * y - a * x == a * (y - x);
  }

  lemma DivMonotone(x: int, y: int, d: int)
    requires 0 <= x <= y && d > 0
    ensures 0 <= x / d <= y / d
  {
    var qx, qy := x / d, y / d;
    assert d * qx + x % d == x && d * qy + y % d == y;
    if qx > qy {
      MulMonotone(d, qy + 1, qx);
    }
  }

  /** The byte offset of sample t: 0 for the first, then one stride further
      each time, wrapping as NextPix does. */
  function SampleOffset(t: nat, lengthcount: int): (pix: int)
  {
    if t == 0 then 0 else NextPix(SampleOffset(t - 1, lengthcount), Step(lengthcount), lengthcount, lengthcount)
  }

  /** Every sample the learning loop reads is a whole pixel inside the stream. */
  lemma {:induction false} SampleOffsetOk(t: nat, lengthcount: int)
    requires 0 < lengthcount && lengthcount % 3 == 0
    ensures PixOk(SampleOffset(t, lengthcount), lengthcount)
  {
    if t > 0 {
      SampleOffsetOk(t - 1, lengthcount);
      NextPixOk(SampleOffset(t - 1, lengthcount), lengthcount);
    }
  }

  /** Samples between two decays: samplepixels / ncycles, or 1 when that is 0. */
  function Delta(samplepixels: int): (d: int)
    requires samplepixels >= 0
    ensures d >= 1
  {
    var d := GoDiv(samplepixels, NCycles);
    if d == 0 then 1 else d
  }

  /** alpha after n samples: decayed after every delta-th sample. */
  function AlphaAfter(n: nat, alphadec: int, delta: int): (alpha: int)
    requires alphadec >= 1 && delta >= 1
  {
    if n == 0 then InitAlpha
    else
      var alpha := AlphaAfter(n - 1, alphadec, delta);
      if n % delta == 0 then DecayAlpha(alpha, alphadec) else alpha
  }

  /** The radius (scaled by 2^6) after n samples, decayed alongside alpha. */
  function RadiusAfter(n: nat, delta: int): (radius: int)
    requires delta >= 1
  {
    if n == 0 then InitRadius
    else
      var radius := RadiusAfter(n - 1, delta);
      if n % delta == 0 then DecayRadius(radius) else radius
  }

  /** alpha stays within [0, initalpha] and never grows from one sample to the next. */
  lemma {:induction false} AlphaAfterBounds(n: nat, alphadec: int, delta: int)
    requires alphadec >= 1 && delta >= 1
    ensures 0 <= AlphaAfter(n + 1, alphadec, delta) <= AlphaAfter(n, alphadec, delta) <= InitAlpha
  {
    if n > 0 {
      AlphaAfterBounds(n - 1, alphadec, delta);
    }
    DecayAlphaBounds(AlphaAfter(n, alphadec, delta), alphadec);
  }

  /** The radius stays within [0, initradius] and never grows; its neuron
      count stays within the radius power table, is never 1, and never grows. */
  lemma {:induction false} RadiusAfterBounds(n: nat, delta: int)
    requires delta >= 1
    ensures 0 <= RadiusAfter(n + 1, delta) <= RadiusAfter(n, delta) <= InitRadius
    ensures 0 <= RadOf(RadiusAfter(n + 1, delta)) <= RadOf(RadiusAfter(n, delta)) <= InitRad
    ensures RadOf(RadiusAfter(n + 1, delta)) != 1
  {
    if n > 0 {
      RadiusAfterBounds(n - 1, delta);
    }
    DecayRadiusBounds(RadiusAfter(n, delta));
    assert Pow2(RadiusBiasShift) == 64;
  }

  /** Once the neighbourhood has shrunk to nothing it stays so for the rest of learning. */
  lemma {:induction false} RadStaysZeroAfter(n: nat, n': nat, delta: int)
    requires delta >= 1 && n <= n' && RadOf(RadiusAfter(n, delta)) == 0
    ensures RadOf(RadiusAfter(n', delta)) == 0
    decreases n' - n
  {
    if n < n' {
      RadiusAfterBounds(n, delta);
      RadStaysZeroAfter(n + 1, n', delta);
    }
  }
}
