/** The quantiser's compile-time parameters: network size, the four strides'
    primes, and the fixed-point scales of colours, frequencies, the learning
    rate alpha and the neighbourhood radius. */
module Constants {
  import opened FixedPoint

  /** Number of colours (neurons). */
  const NetSize := 256

  /** Four primes near 500; the sampling stride is three times one of them. */
  const Prime1 := 499
  const Prime2 := 491
  const Prime3 := 487
  const Prime4 := 503

  /** Below this many bytes every pixel is sampled, with stride 3. */
  const MinPictureBytes := 3 * Prime4

  const MaxNetPos := NetSize - 1
  /** Colour channels are held shifted left by this many bits during training. */
  const NetBiasShift := 4
  /** Number of learning cycles. */
  const NCycles := 100

  /** Frequencies and biases are fractions scaled by 2^16. */
  const IntBiasShift := 16
  const IntBias := 65536         // 1 << IntBiasShift
  /** gamma = 1024 */
  const GammaShift := 10
  const Gamma := 1024            // 1 << GammaShift
  /** beta = 1/1024 */
  const BetaShift := 10
  const Beta := 64               // IntBias >> BetaShift
  const BetaGamma := 65536       // IntBias << (GammaShift - BetaShift)

  /** The neighbourhood radius starts at 32 neurons and is held shifted by 6 bits. */
  const InitRad := 32            // NetSize >> 3
  const RadiusBiasShift := 6
  const RadiusBias := 64         // 1 << RadiusBiasShift
  const InitRadius := InitRad * RadiusBias
  /** The radius shrinks by a factor 1/30 each cycle. */
  const RadiusDec := 30

  /** alpha starts at 1.0, scaled by 2^10. */
  const AlphaBiasShift := 10
  const InitAlpha := 1024        // 1 << AlphaBiasShift

  /** Scales of the neighbourhood weights. */
  const RadBiasShift := 8
  const RadBias := 256           // 1 << RadBiasShift
  const AlphaRadBShift := AlphaBiasShift + RadBiasShift
  const AlphaRadBias := 262144   // 1 << AlphaRadBShift

  /** Go's `math.MaxInt32`, the initial "best distance" in contest. */
  const MaxInt32 := 0x7fff_ffff

  /** Each scale written out above is the shift the comment beside it names. */
  lemma ScalesAreShifts()
    ensures IntBias == Shl(1, IntBiasShift) && Beta == Shr(IntBias, BetaShift)
    ensures BetaGamma == Shl(IntBias, GammaShift - BetaShift)
    ensures InitRad == Shr(NetSize, 3) && RadiusBias == Shl(1, RadiusBiasShift)
    ensures InitAlpha == Shl(1, AlphaBiasShift) && RadBias == Shl(1, RadBiasShift)
    ensures AlphaRadBias == Shl(1, AlphaRadBShift) && Gamma == Shl(1, GammaShift)
  {
    assert Pow2(10) == 1024;
    assert Pow2(16) == 65536;
    assert Pow2(18) == 262144;
  }
}
