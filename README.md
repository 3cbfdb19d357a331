# NeuQuant colour quantiser — a verified Dafny model

This project models `NeuQuant.go`, the Go port of Anthony Dekker's
NeuQuant quantiser. NeuQuant is a self-organising map of 256 neurons that
learns a palette from a stream of interleaved (b, g, r) pixel bytes. All of
its arithmetic is fixed-point integer arithmetic. The model follows the
source's life cycle:

- **Initialisation.** `NewNeuQuant` spreads the neurons along the grey
  diagonal. Each neuron starts with frequency 1/256 and bias 0.
- **Training.** `learn` samples the stream with a prime stride that wraps
  around the stream. For each sample:
  - `contest` picks the winning neuron by biased L1 distance;
  - `altersingle` pulls the winner toward the sample by alpha;
  - `alterneigh` pulls the winner's neighbours by the radius power weights.

  Alpha and the neighbourhood radius decay every `delta` samples.
- **Unbias and index.** `unbiasnet` shifts every channel back to a byte and
  tags each row with its colour number. `inxbuild` then selection-sorts the
  rows on channel 1 (g) and builds `netindex`, a table from each g value to
  a row where the nearest-colour search should start.
- **Queries.** `Map` is a branch-and-bound nearest-colour search under L1
  distance that scans outward from `netindex[g]`. `ColorMap` reads out the
  768-byte palette in tag order.

The struct becomes the class `Quantizer.NeuQuant`, whose arrays (`network`,
`netindex`, `bias`, `freq`, `radpower`) are updated in place by methods with
loop invariants. Each row `network[i]` is a `Neuron(b, g, r, tag)` value.
Go's `int` arithmetic is written out explicitly:

- `/` truncates toward zero (`FixedPoint.GoDiv`);
- `>>` is an arithmetic shift (`FixedPoint.Shr`);
- `byte(x)` keeps the low eight bits (`FixedPoint.ToByte`).

Pure modules state what the methods compute, and lemmas prove the source's
promises about it:

- `Fairness`: the frequency/bias bookkeeping.
- `Competition`: "first position of a minimum".
- `Schedule`: the learning parameters and the alpha/radius decay.
- `NetIndex`: the index build.
- `Search`: pruning in `Map`.
- `Colours`: the palette.

The main results:

- every channel stays in [0, 255 << 4] = [0, 4080] throughout training,
  because neither update ever overshoots its target;
- `contest` never returns −1: every biased distance stays below the
  `math.MaxInt32` sentinel, because `bias == gamma * (1/netsize − freq)`
  holds for every neuron at every step;
- `inxbuild` (`InxBuild`) leaves the rows a permutation of the rows it was
  given, the unbiased rows; each of its steps (`SelectRow`) exchanges row i
  with the first row of smallest g from i on;
- after construction the state is `Frozen`:
  - channels are bytes;
  - the rows are sorted on g;
  - the tags are a permutation of 0..255;
  - every `netindex` entry is a row, and the entry for any g present
    names a row with that g;
  - exactly, with a the first row whose g exceeds v (255 when none
    does), entry v is (first row with g == v + a) / 2 when v occurs, and a
    when it does not;
- `Map` returns the tag of a row at minimal L1 distance, never −1 for byte
  inputs;
- `ColorMap` puts row j's channel c at byte `3 * tag_j + c`.

Two details follow the code rather than what its comments suggest:

- `inxbuild` is a selection sort, although its comment calls it an
  insertion sort.
- `Map` returns −1 exactly when no row is closer than 1000, its initial
  `bestd`. For byte inputs that never happens, and the model proves it.

## Model

| member | source | states |
|---|---|---|
| FixedPoint.GoDivTruncates | NeuQuant.go:205-206 | Go's `/` divides the magnitude and keeps the sign, and agrees with floor division on a non-negative dividend |
| FixedPoint.ToByte | NeuQuant.go:100-102 | `byte(x)` is x for 0 <= x < 256, and otherwise congruent to x modulo 256 |
| FixedPoint.MoveTowardBetween | NeuQuant.go:329-331 | `c -= (a*(c-t))/d` with 0 <= a <= d lands between c and t: truncation never overshoots |
| FixedPoint.MoveTowardInRange | NeuQuant.go:313-315 | such a move keeps a channel inside any interval that holds both the channel and the target |
| Constants.ScalesAreShifts | NeuQuant.go:29-52 | intbias, beta, betagamma, initrad, radiusbias, initalpha, radbias, alpharadbias and gamma are the shifts the source defines them by |
| Neurons.MaxBiasedIsShifted | NeuQuant.go:25 | the largest training channel 4080 is 255 << netbiasshift |
| Neurons.Dist | NeuQuant.go:347-360 | the L1 distance is non-negative, is zero exactly for the same colour, and is at least the channel-1 gap |
| Neurons.DistAtMost | NeuQuant.go:220 | two colours with channels in [0, hi] are at most 3*hi apart (765 for bytes, below Map's 1000) |
| Neurons.MoveNeuronToward | NeuQuant.go:328-332 | altersingle's move with 0 <= alpha <= initalpha keeps the tag, keeps the row inside any box holding it and the target, and never increases its distance to the target |
| Neurons.UnbiasInRange | NeuQuant.go:287-294 | unbiasing a row with channels in [0, 4080] gives channels in 0..255 and tag = its position |
| Neurons.SwapKeepsTagsDistinct | NeuQuant.go:122-127 | swapping two whole rows keeps the tags distinct |
| Neurons.SwapIsPermutation | NeuQuant.go:122-127 | swapping two whole rows keeps the multiset of rows |
| Neurons.SwapRows | NeuQuant.go:122-127 | swapping two whole rows keeps channel ranges and a tag permutation |
| Neurons.MovedRowAt | NeuQuant.go:310-323 | a row strictly inside alterneigh's window at distance d from i moves by radpower[d] over alpharadbias |
| Neurons.MovedRowKeeps | NeuQuant.go:296-325 | with weights in [0, alpharadbias], alterneigh keeps every row's tag and channel box and moves no row away from the target; rows outside (lo, hi), and row i, are unchanged |
| Fairness.InitBalanced | NeuQuant.go:80-81 | the initial (freq, bias) = (1/netsize, 0) satisfies bias == gamma*(1/netsize - freq) with 0 <= freq <= 1 |
| Fairness.DecayKeepsBalanced | NeuQuant.go:370-372 | moving freq>>betashift from freq into bias (shifted by gammashift) keeps that relation, never raises freq, and leaves room for a beta boost |
| Fairness.BoostKeepsBalanced | NeuQuant.go:374-375 | the winner's freq += beta, bias -= betagamma keeps the relation |
| Fairness.BiasedDistBelowSentinel | NeuQuant.go:342-369 | for a balanced neuron and a distance of at most 3*4080, `dist - (bias >> 12)` is below math.MaxInt32 |
| Fairness.ContestKeepsBalanced | NeuQuant.go:370-375 | decaying every neuron and boosting any one winner keeps every neuron balanced |
| Fairness.DecayThenBoost | NeuQuant.go:346-375 | contest's element-wise decay followed by the winner's boost gives exactly the contest frequencies and biases, and they stay balanced |
| Competition.DistsBelowSentinel | NeuQuant.go:342-369 | while channels are in [0, 4080] and every neuron is balanced, every plain and biased distance is below the sentinel |
| Competition.FirstArgMinUnique | NeuQuant.go:361-369 | the first position of a minimum is unique |
| Competition.ArgMinIsFirst | NeuQuant.go:361-369 | ArgMin is the first position of a minimum: no larger than any value, and strictly smaller than every earlier one |
| Competition.ScanIsArgMin | NeuQuant.go:342-369 | contest's strict-`<` scan from (-1, MaxInt32), over values below the sentinel, ends at the first position of the minimum and holds its value |
| Competition.ScanFindsArgMin | NeuQuant.go:342-369 | during training, both of contest's scans (plain and biased) end at the first minimum, so neither returns -1 |
| Schedule.AlphaDec | NeuQuant.go:149 | alphadec = 30 + (samplefac-1)/3 lies in 30..39 for samplefac in 1..30 |
| Schedule.SamplePixelsPositive | NeuQuant.go:146-153 | a non-empty stream of whole pixels gives at least one sample, with samplefac forced to 1 below 1509 bytes |
| Schedule.StepShape | NeuQuant.go:167-182 | the stride is a whole number of pixels, 3 <= step <= lengthcount, and on a long stream its prime does not divide the length unless all four primes do |
| Schedule.NextPixOk | NeuQuant.go:195-198 | advancing by the stride and wrapping once keeps the cursor a multiple of 3 with pix+2 < lengthcount |
| Schedule.SampleOffsetOk | NeuQuant.go:184-198 | every cursor the loop reaches addresses a whole pixel inside the stream, so the reads at lines 186-188 are in bounds |
| Schedule.Delta | NeuQuant.go:154 | the decay period is at least 1 (samplepixels/ncycles, raised from 0 to 1) |
| Schedule.DecayAlphaBounds | NeuQuant.go:205 | `alpha -= alpha/alphadec` never grows alpha and never makes it negative |
| Schedule.DecayRadiusBounds | NeuQuant.go:206-210 | `radius -= radius/30` never grows the radius or makes it negative; rad stays in 0..initrad, never grows, and is never 1 |
| Schedule.RadStaysZero | NeuQuant.go:206-210 | once rad is clamped to 0 the next decay leaves it 0 |
| Schedule.RadPowerBounds | NeuQuant.go:162 | each radius power lies in [0, alpharadbias] and does not grow with the distance |
| Schedule.RadWeightBounds | NeuQuant.go:162 | `((rad^2 - i^2)*radbias)/rad^2` lies in [0, radbias] and does not grow with i |
| Schedule.AlphaAfterBounds | NeuQuant.go:204-205 | alpha after any number of samples lies in [0, initalpha] and never grows from one sample to the next |
| Schedule.RadiusAfterBounds | NeuQuant.go:204-210 | the radius after any number of samples lies in [0, initradius] and never grows; rad stays in 0..initrad, never grows, and is never 1 |
| Schedule.RadStaysZeroAfter | NeuQuant.go:206-210 | once rad reaches 0 it is 0 for every later sample |
| NetIndex.SelectedExtendsPrefix | NeuQuant.go:111-128 | a row at most every later row on g extends the sorted prefix by one |
| NetIndex.SwapSelected | NeuQuant.go:111-128 | swapping the minimum of the suffix into row i extends the sorted prefix to i+1 |
| NetIndex.IndexStepNew | NeuQuant.go:129-140 | a row with a new g closes the previous run at its middle row, points the skipped values at row i and keeps the index built one row further |
| NetIndex.IndexStepSame | NeuQuant.go:137-140 | a row that continues the current run keeps the index built one row further |
| NetIndex.IndexedRowsFrame | NeuQuant.go:121-127 | the index built over rows 0..i-1 survives a swap that leaves those rows alone |
| NetIndex.IndexComplete | NeuQuant.go:109-142 | after the last row every netindex entry is in 0..255, and the entry for any g present names a row with that g |
| NetIndex.FirstHitSpec | NeuQuant.go:129-136 | the first row with g == v (or g > v) among the first n is -1 exactly when there is none, and otherwise a matching row with no matching row before it |
| NetIndex.FirstHitFrame | NeuQuant.go:121-127 | that first row depends only on the first n rows, which later swaps leave alone |
| NetIndex.PrefixBelowCol | NeuQuant.go:111-128 | with the first i+1 rows in final order, every row before i has g at most row i-1's, and row i at least that |
| NetIndex.EntryBelowStays | NeuQuant.go:129-140 | placing row i leaves the closed-form entry of every value below the current run unchanged |
| NetIndex.NewRunEntries | NeuQuant.go:129-135 | a row opening a new value is that value's first row, the skipped values' entry is that row, and the previous value's entry is (its first row + that row) / 2 |
| NetIndex.EntriesStepNew | NeuQuant.go:129-140 | after a row with a new g, the entries below the new value are in closed form, the run starts at that row, and the entries above are 255 |
| NetIndex.EntriesStepSame | NeuQuant.go:137-140 | after a row that continues the run, the same closed form holds one row further |
| NetIndex.EntriesFrame | NeuQuant.go:121-127 | the closed form over the first i rows survives a swap that leaves those rows alone |
| NetIndex.EntriesComplete | NeuQuant.go:109-142 | after the last row every entry v equals (first row with g == v + first row with g > v, or 255) / 2 when v occurs, and the first row with g > v (or 255) when it does not |
| Search.FarAbove | NeuQuant.go:228-230 | on rows sorted by g, once row i's g exceeds g by bestd, no row from i upward is closer than bestd, so stopping the upward scan loses nothing |
| Search.FarBelow | NeuQuant.go:256-258 | the same for the downward scan from row j |
| Colours.TagRowFinds | NeuQuant.go:94-96 | with distinct tags, ColorMap's index records each row's own position for its tag |
| Colours.PaletteOfRow | NeuQuant.go:91-106 | with tags a permutation, palette byte 3*tag_j + c is byte(network[j][c]) and lies inside the 768-byte palette |
| Quantizer.NeuQuant.InitNetwork | NeuQuant.go:75-82 | every row starts at grey 16*i in all three channels (tags untouched), freq = 1/netsize, bias = 0, so channels are in [0, 4080] and every neuron is balanced |
| Quantizer.NeuQuant.Contest | NeuQuant.go:335-377 | returns the first position minimising `dist - (bias>>12)` over the old biases; freq and bias become the decay of every neuron plus the boost of the first position at minimal plain distance; training invariants kept |
| Quantizer.NeuQuant.AlterSingle | NeuQuant.go:328-332 | only row i changes, by the alpha/initalpha move; training invariants kept |
| Quantizer.NeuQuant.AlterNeigh | NeuQuant.go:296-325 | every row is MovedRow of the old network: rows strictly between max(i-rad,-1) and min(i+rad,256), except i, move by radpower[|p-i|]; all others are unchanged |
| Quantizer.NeuQuant.FillRadPower | NeuQuant.go:161-163 | radpower[q] = alpha*(((rad^2-q^2)*radbias)/rad^2) for q < rad; entries from rad on keep their values; all lie in [0, alpharadbias] |
| Quantizer.NeuQuant.Settle | NeuQuant.go:146-182 | samplefac forced to 1 below 1509 bytes, alphadec = 30+(samplefac-1)/3, samplepixels = lengthcount/(3*samplefac), step as chosen by the primes |
| Quantizer.NeuQuant.Shrink | NeuQuant.go:204-213 | alpha and radius decay, rad is radius>>6 clamped to 0 when at most 1, and the radius power table is refilled below the new rad for the new alpha, with the entries from rad on unchanged |
| Quantizer.NeuQuant.TrainOn | NeuQuant.go:186-193 | one sample's contest, altersingle and alterneigh keep channels in [0, 4080], every neuron balanced and the weights in range |
| Quantizer.NeuQuant.Learn | NeuQuant.go:145-216 | sets samplefac and alphadec as the source does; the ghost result is the loop's final counter, equal to lengthcount/(3*samplefac), so the loop runs exactly that many samples; the training invariants hold throughout, and the loop invariants pin pix, alpha, radius and rad to their closed forms |
| Quantizer.NeuQuant.UnbiasNet | NeuQuant.go:287-294 | row k becomes its channels shifted right by 4 with tag k, so the tags form the identity permutation |
| Quantizer.NeuQuant.SmallestG | NeuQuant.go:112-120 | returns the first row from i on with the smallest g, and that g |
| Quantizer.NeuQuant.FillIndex | NeuQuant.go:131-133 | netindex[v] becomes value for from <= v < to; other entries are unchanged |
| Quantizer.NeuQuant.SelectRow | NeuQuant.go:112-128 | the new rows are the old rows with row i and row sp exchanged, where sp is the first row from i on with the smallest g; hence rows are permuted, rows before i are unchanged, the prefix up to i+1 is sorted, and tags and channel ranges are kept |
| Quantizer.NeuQuant.IndexRow | NeuQuant.go:129-140 | every netindex entry becomes StepEntry of the old index: on a new g, the previous run's entry becomes `(startpos+i)>>1` and the skipped values point at row i; then the current value's entry becomes `(start+255)>>1` and every value above it 255; returns col = smallval and start = i on a new g, else startpos |
| Quantizer.NeuQuant.PlaceRow | NeuQuant.go:111-140 | one pass of the outer loop: rows are permuted, the prefix up to i+1 is sorted, and the index (IndexedRows and the closed form EntriesSoFar) is built one row further |
| Quantizer.NeuQuant.InxBuild | NeuQuant.go:109-142 | the rows become a permutation of the old rows, sorted on g, with tags still a permutation; every netindex entry is a row, for each g present it names a row with that g, and entry v is exactly (first row with g == v + first row with g > v, or 255) / 2 when v occurs and that first row above when it does not |
| Quantizer.NeuQuant.Consider | NeuQuant.go:233-251 | the early-exit partial sums decide exactly whether row k's full L1 distance is below bestd; if so bestd becomes that distance and best becomes row k's tag, otherwise both stay |
| Quantizer.NeuQuant.Map | NeuQuant.go:219-284 | returns -1 exactly when every row is at least 1000 away; otherwise returns the tag of a row at minimal L1 distance from (b, g, r); for byte inputs the result is a tag in 0..255 |
| Quantizer.NeuQuant.ColorMap | NeuQuant.go:91-106 | returns 768 bytes; byte q is channel q%3 of the row tagged q/3, as a byte (with PaletteOfRow: ret[3*tag_j + c] == network[j][c]); the network is not modified |
| Quantizer.NeuQuant.constructor | NeuQuant.go:68-89 | keeps the picture and length, settles samplefac and alphadec, and leaves the network trained, unbiased, sorted and indexed (Frozen) |

## Left out

- Palette.go is not part of this model. It adapts Go's `image` and `color` packages, and it runs goroutines joined by a `sync.WaitGroup`.
- Options.go is not part of this model. It is glue for `image/gif` and `draw.Image`.
- How good the learned palette is, or whether training converges, is not stated: the model proves the exact arithmetic and its invariants, not quality.
- Go's 64-bit `int` overflow is not modelled. Every value stays far below 2^63: channels are at most 4080, weights at most 2^18, and frequencies and biases at most about 2^26. `math.MaxInt32` appears only as contest's sentinel.
- Quantizer.NeuQuant.TrainOn: states only that a sample keeps the training invariants. What each step does is stated by Contest, AlterSingle and AlterNeigh.
- Quantizer.NeuQuant.AlterNeigh: requires only array sizes and a radius in 1..32, and states the new rows exactly. It does not restate the channel bounds; Neurons.MovedRowKeeps gives those, and TrainOn uses it.
- Quantizer.NeuQuant.Map: requires the parts of the constructed state it relies on: byte channels, rows sorted on g, tags in range, and netindex entries that are rows. Every constructed quantiser has these. For other states the source still returns some value, which the model does not describe.
- Quantizer.NeuQuant.Learn: what `network`, `freq`, `bias` and `radpower` hold after training is given only by the training invariants (channels in [0, 4080], every neuron balanced, weights in [0, alpharadbias], the radius power table for the current alpha and rad), not as a fold over the samples. Each sample's exact effect is stated by Contest, AlterSingle and AlterNeigh, and the loop invariants fix pix, alpha, radius and rad at every sample. Its result is a ghost copy of the loop counter at exit, which the source does not return; it states the iteration count.
- The picture's bytes are a sequence of bytes. `int(p[k]) & 0xff` is kept as `% 256`, which leaves a byte unchanged.
