# iLBC codec and call program: a verified model

This project models a Go port of the RFC 3951 speech codec (iLBC) and the small UDP call program that uses it, and
proves properties of that model. `dafny verify dfyconfig.toml` checks everything.

The main results; everything else exists to reach them:

- Lock step. The encoder runs the decoder's reconstruction while it encodes. For any loss pattern, a received frame
  whose predecessor was received (or that is the first) gives the decoder exactly the encoder's local excitation and
  predictors, and every received frame makes both sides' spectral histories equal again. `Session.Call` states this of
  an encoder object and a decoder object with a lossy network between them.
- Analysis by synthesis. Every field of a frame is the decision about its own samples: each subframe's code is the search's
  for that subframe, over the reconstruction that the decoder will have next to it, and what the decoder constructs from a
  code is what the search built.
- Decoder runs. Any sequence of packets with arbitrary bytes, and of missing packets, keeps every lag, pitch period,
  table index and buffer index of decoding, concealment and enhancement in range.
- Frames. Fields and frames correspond one to one, the importance classes end at bytes 6, 14 and 38 (8, 20 and 50 for
  30 ms), and no frame of the encoder is taken for a lost one.
- Adaptive codebook. Encoder and decoder build the same vector for every index; the energies that the search updates
  and caches are the direct sums of squares; the index it returns is the best of those it examines; and each returned
  index lies in the set that its bit field or its seven-bit renumbering can carry.
- Numerical kernels over the reals. Levinson-Durbin solves the normal equations in place, its error energy is a sum of
  squares, and what the analysis filter leaves; analysis and synthesis filters are inverse over whole streams; the root
  search brackets sign changes of the rotated predictor's real and imaginary part in at most 149 evaluations; the stability pass stabilises; the rate changers are convolutions; no block of the centre's energy within
  the smoother's error bound correlates better with the neighbours than the block it returns.
- Concealment and enhancement. The noise generator runs through all 2^31 values before it repeats; a voiced loss repeats the
  pitch and an unvoiced one is noise; a burst of losses decays and ends in silence; a segment correlates as the search that
  placed it found; exactly repeating signals are found, repeated and passed unchanged.
- Call program. The jitter buffer refines a map over unbounded positions, an accepted packet is played in its turn unless
  a later one jumps over it, and the handshake binds one peer and one session.

## How the model is built

Three kinds of arithmetic are used, each where it says most. Where only agreement of two computations matters (lock
step, codebook vectors, quantiser indices) the number type `F` and its operations are arbitrary deterministic functions,
so the results hold bit for bit of single-precision floats too. Where a numerical fact is the point, samples are exact
reals; square root and cosine are parameters, with the defining property of the root as a hypothesis where it is used.
Bits, bytes, counters and 32-bit wrap-around are modelled exactly on integers.

Objects whose methods update fields are classes (`Decoder.Decoder`, `LossConcealment.Concealer`,
`EnhancerInterface.PitchHistory`, `LockStep.Encoder`, `JitterBuffer.Buffer`); loops over buffers are methods with
invariants, proved equal to functions on sequences. The decoder's state struct is split by concern into the first three
of these. Read-only spans are passed as sequences. Block positions of the enhancer are multiples of a quarter sample and
are modelled as integers in that unit.

| module | concern |
|---|---|
| Bits, Packing, Bitstream, FrameFormat | bits of numbers, cursors, whole frames, the two bit allocations |
| Codebook, CodebookEnergies, SearchWindow, CodebookSearch, StagedSearch, SearchQuality | codebook vectors and their search |
| GainCorrection, LouderCode | what the final correction of the first gain does to the decoded vector |
| GainQuantisation, ScalarQuantisation, Nearest, IndexConversion, FrameClassify | quantisers, renumbering, the choice of the start block |
| ResidualSpec, ResidualDecoding, CodeConstruction, LsfCoding, EncoderModel, EncoderSearches, LockStep | excitation and predictors on both sides |
| LinearPrediction, Levinson, PredictionGain, RootSearch, LinePairs, LsfStability, Resampling, Smoothing | numerical kernels |
| PitchSearch, Enhancer, SegmentCorrelation, EnhancerInterface, NoiseGenerator, LossConcealment, Repetition, Decoder, Session | the decoder's state over runs |
| Protocol, JitterBuffer, Handshake | the call program |
| Basics, Arithmetic, RealArithmetic, Vectors | shared types and facts |

Two findings about the code:

- `upsampleEnhancement` is shifted by one sample for short sequences of even length, and its middle output then reads one
  element behind the end (`Resampling.AlignedExactly` has the exact condition). `refiner` calls it with length 4 when the
  estimated position lies in [2, 2.5) samples, where the element behind the end is the zero it was cleared to; the middle
  is then right and only what lies behind it is shifted (`Resampling.AlignedExactlyBehindZero`). So the quarters of the
  fourth position repeat those of the third (`Enhancer.QuarterAnswersFor`), the search never ends there
  (`Enhancer.FourthIsNeverFound`), and it can miss the best position (`Enhancer.FourthIsMissed`, with the code's table).
- The encoder raises the first gain index after it has chosen the later stages' gains relative to the unraised one. Its
  test, that the built vector stays quieter than the target when scaled by the ratio of the two levels, speaks of what the
  decoder builds exactly if the later gains scale alike, which is the case exactly if the quantiser's floor of 0.1 acts on
  none that matters (`GainCorrection.FollowsExactly`). Then the decoded vector is quieter than the target
  (`GainCorrection.RaisedStaysQuieter`); otherwise it can be louder (`LouderCode.RaisedCodeCanBeLouder`: a search with the
  code's tables whose raised code has twice the target's energy). Both sides decode with the raised index, so lock step is
  not affected.

## Model

| member | source | states |
|---|---|---|
| Session.Call | src/codec.go:55-157 | An encoder object and a decoder object joined by a network with any loss pattern: every received frame after a received one excites the decoder with the encoder's local excitation, every received frame equalises the spectral histories, and nine (30 ms: six) losses in a row end in silence |
| LockStep.LockStep | src/ilbc_encode.go:99-166 | For every encoder run, loss pattern and received frame: it is not concealed, the histories agree after it, predictors and excitation agree if the predecessor was received, and the excitation agrees anyway for a 30 ms frame that starts at the second subframe pair or later |
| LockStep.FrameAgrees | src/ilbc_decode.go:237-245 | One frame of the encoder heard with any spectral history: the histories agree afterwards, everything agrees if they agreed before |
| LockStep.Encoder.EncodeFrame | src/ilbc_encode.go:39-207 | The bytes written carry a choice of fields; each of them is the decision about this block's own frequencies and residual samples; the local excitation, predictors and new histories are what the choice denotes to a decoder with the encoder's history |
| LockStep.Encoder.EncodeAll | src/codec.go:55-71 | Encoding any blocks one after the other gives an encoder run that starts from the history held before |
| LockStep.Receive | src/ilbc_decode.go:161-246 | For arbitrary bytes of frame length: concealment exactly when the start index or last bit demands it, and otherwise the excitation, predictors and history that the fields denote |
| LockStep.ChosenFieldsSurvive | src/icbconstruct.go:8-34 | Whatever the encoder chooses fits the bit fields once renumbered, and the decoder's renumbering restores it |
| LockStep.ReceivedFieldsArePlayable | src/ilbc_decode.go:226-242 | Any frame that is not concealed indexes every table and every codebook memory inside its bounds |
| EncoderModel.EncodeResidual | src/ilbc_encode.go:80-166 | Every subframe's code is what the search finds for that subframe's samples and filter over the nearest reconstructed samples, forwards after the start block and backwards before it; the start block's fields are the decisions about its samples; and the reconstruction is the excitation that the chosen fields denote |
| EncoderSearches.DecidedIsSearched | src/ilbc_encode.go:80-161 | With the verified classifier and searches, the start block is the loudest pair, its scalar part the louder end of it, and each code a search result for its own subframe |
| EncoderSearches.ChooseFirst | src/ilbc_encode.go:82-98 | The scalar part is the start block's beginning exactly if that has more energy than its end |
| ResidualDecoding.Decode | src/ilbc_decode.go:57-126 | The in-place reconstruction equals the excitation defined by growing a history forwards and backwards around the start block |
| ResidualDecoding.ConstructCodebook | src/icbconstruct.go:36-60 | The three vectors, each with its gain relative to the one before, are summed into the caller's buffer and nothing else changes |
| CodeConstruction.GainsAgree | src/icbconstruct.go:41-47 | Over the reals the gains of construction are the gains that the search computed for the same indices |
| CodeConstruction.ConstructedIsBuilt | src/icbconstruct.go:36-60 | The constructed vector is the one that the search built for the code, corrected first gain included |
| CodeConstruction.CorrectedDecodesQuieter | src/icbsearch.go:281-292 | Where no gain floor acts, what the decoder constructs from a corrected code has less energy than the target |
| CodeConstruction.SubframeIsBuilt | src/ilbc_encode.go:125-161 | Every adaptive subframe of the local reconstruction is the search's sum for its code over the reconstructed samples next to it |
| LsfCoding.QuantizeLsf | src/lpcencode.go:80-85 | The dequantised frequencies are the table rows of the returned indices, which fit 6, 7 and 7 bits, and each split's index is where its scan over all distances ends |
| LsfCoding.ScanFindsNearest | src/helpfun.go:80-108 | Over the reals the scan ends at the first of the nearest codewords |
| LsfCoding.DequantizeLsf | src/lpcdecode.go:12-37 | The decoder's table walk returns the rows that the encoder's quantiser chose |
| LsfCoding.SimpleInterpolate | src/lpcencode.go:38-78 | Synthesis filters come from the quantised and weighting filters from the unquantised frequencies, each from its own history, and both histories move to the last analysis |
| LsfCoding.DecoderInterpolate | src/lpcdecode.go:39-72 | The decoder's interpolation gives the same predictors from the same history, weighting filters from those predictors, and moves the history the same way |
| LsfCoding.SubframesFollowAnalyses | src/lpcdecode.go:39-72 | With the weights' end values a frame's last subframes use its last analysis alone, the second of a 30 ms frame its first analysis, and only the first of a 30 ms frame the frame before |
| EncoderSearches.Search | src/icbsearch.go:59-293 | Weighting and three-stage search for any request return indices and gain indices in the ranges of their fields |
| EncoderSearches.SearchResultFits | src/icbsearch.go:236-292 | Every index a search returns has seven bits (extra vector), is one of the renumbered set (first subframe, later stages) or has eight bits, and every gain index, corrected or not, fits its table |
| EncoderSearches.VerifiedDecisionsAreSound | src/ilbc_encode.go:80-161 | Decisions made by the classifier, the scalar quantiser and the search satisfy the ranges that lock step assumes |
| StagedSearch.SearchCodebook | src/icbsearch.go:73-293 | Each stage returns the first vector of greatest measure among those examined, with directly computed energies, for what the stages before left over, and the nearest gain; the first gain index is then replaced by what the correction returns for the energies of the built vector and the target |
| StagedSearch.SearchStage | src/icbsearch.go:73-236 | One stage over cached energies chooses the best of the first section and of the 34-vector window, and keeps the caches correct |
| StagedSearch.IndexSpace | src/constants.go:227-233 | For the search ranges in use, the reachable indices fit their fields, and the renumbered set is exactly the reachable one |
| StagedSearch.BuiltPlusLeft | src/icbsearch.go:274-278 | What was built and what is left add up to the target after every stage |
| StagedSearch.CorrectGain | src/icbsearch.go:285-292 | Although the guard follows the running index, the loop returns the last entry that passes the energy test and comes right after an entry below twice the gain, or the gain's own entry if there is none |
| GainCorrection.RaisedExactly | src/icbsearch.go:281-292 | The first gain index is raised exactly if the next level passes the energy test |
| GainCorrection.FollowsExactly | src/gainquant.go:41-59 | Raising the first gain index multiplies all three decoded gains by the same ratio exactly if, at the second and at the third stage, the gain before is at least 0.1 or the stage's own level is zero |
| GainCorrection.RaisedStaysQuieter | src/icbsearch.go:281-292 | If so, the vector that the raised code decodes to is the built one times that ratio, no quieter than it, and has less energy than the target |
| LouderCode.RaisedCodeCanBeLouder | src/icbsearch.go:236-292 | If not, it can be louder: with the code's tables and filter, a memory with one sample and a target with two, the search's own choices and correction give a code of more than twice the target's energy |
| CodebookSearch.NextEnergy | src/icbsearch.go:81-119 | The running update of a delay's energy, in either section, gives the sum of squares of that delay's vector |
| CodebookSearch.ExamineKeepsBest | src/icbsearch.go:129-135 | Examining one more candidate keeps the best one the first of greatest measure under the gain limit |
| SearchQuality.MeasureIsTaken | src/icbsearch.go:124-131 | With its own gain a candidate takes at least its measure out of the target's energy |
| SearchQuality.BestLeavesLeast | src/icbsearch.go:110-136 | The best candidate with its gain leaves less of the target than any other examined one with any gain, but for the sliver that the guard constant costs |
| CodebookSearch.SearchAugmented | src/createcb.go:32-103 | Recursive energies over a range of lags score every augmented vector as if computed directly |
| CodebookEnergies.AugmentedSums | src/createcb.go:54-82 | Energy and correlation of one lag, continued from the unfaded part, are those of the cross-faded vector |
| CodebookEnergies.AugmentedContinues | src/createcb.go:105-130 | The vector starts as the memory's own end, and where that end repeats itself it is the continuation of the repetition |
| SearchWindow.Restrict | src/icbsearch.go:141-187 | The case analysis computes one window of positions around the best first-section index, moved to stay inside the codebook |
| SearchWindow.WindowIsAround | src/icbsearch.go:188-235 | Whatever the first section's best index, exactly 34 consecutive positions are examined, its own among them |
| Codebook.BothSidesAgree | src/icbsearch.go:247-273 | For vector lengths 22, 23 and 40, every memory and every index the encoder can choose, its slice or cross-faded vector is the vector that the decoder rebuilds |
| Codebook.GetCBvec | src/getcbvec.go:6-99 | The decoder's four branches, filtering only what they need, give the vector that the index denotes |
| Codebook.FilteredCBvecs | src/createcb.go:8-30 | The whole memory is filtered, with zeros outside it |
| Codebook.CreateAugmentedVec | src/createcb.go:105-130 | The vector that repeats the memory's end with a five-sample cross-fade |
| GainQuantisation.GainQuant | src/gainquant.go:8-39 | The index is the first of the nearest levels among those closer than the scan's starting limit, and the value is what the decoder computes for it |
| ScalarQuantisation.SortSq | src/helpfun.go:123-141 | The nearest level of a rising table, the lower of two equally near ones |
| IndexConversion.ConversionsAreInverse | src/icbconstruct.go:8-34 | The two renumberings are inverse bijections between the restricted indices and 0..127 |
| FrameClassify.Classify | src/frameclassify.go:6-73 | The start index is the first pair of subframes with the greatest windowed, tapered energy, and is one the decoder accepts |
| Packing.DoPack | src/packing.go:18-41 | The low bits of a number are appended behind the cursor, across byte borders, and earlier bits stay |
| Packing.Unpack | src/packing.go:43-67 | The next bits of the string as a number, across byte borders |
| Bitstream.PackFrame | src/ilbc_encode.go:167-206 | Splitting every field over three classes fills the frame exactly, the last bit clear |
| FrameFormat.ClassesEndAtBytes | src/constants.go:63-199 | For both bit allocations the classes end at bytes 6, 14 and 38, or 8, 20 and 50 |
| FrameFormat.FramesAreFields | src/ilbc_decode.go:161-225 | Unpacking returns the packed fields, and a byte string is the frame of its fields exactly when its last bit is clear |
| FrameFormat.FramesDiffer | src/ilbc_encode.go:167-206 | Fields determine their frame |
| FrameFormat.EncodedFramesAreReceived | src/ilbc_decode.go:226-236 | A frame is concealed exactly when its start index is not one that classification can choose, or its last bit is set |
| Decoder.Decoder.Play | src/codec.go:112-157 | Any run of packets with arbitrary bytes and of missing ones keeps the decoder valid, starts every frame from a lag in 20..119, and leaves the state that the packets determine |
| Decoder.Decoder.DecodeFrame | src/ilbc_decode.go:128-306 | One frame: history, concealment state and predictors follow from the packet; the output is the synthesis of the excitation or of its enhancement, one or two subframes late |
| Decoder.FiltersAreInTime | src/ilbc_decode.go:258-283 | Every subframe of the output, delayed by the enhancer or not, is synthesised with the predictor of the time its samples come from |
| Decoder.DecoderFollowsEncoder | src/ilbc_decode.go:237-245 | A decoder that plays what arrives of an encoder's run holds the encoder's excitation and history wherever lock step promises it |
| Decoder.LongLossIsSilent | src/docplc.go:73-88 | However a run went before, the excitation is zero from the 9th (30 ms: 6th) missing frame in a row |
| LossConcealment.Concealer.DoThePlc | src/docplc.go:35-149 | The state after a lost frame: count, searched or kept lag, seed, and the damped mixture of pitch repetition and noise, or noise alone if too quiet; after a received one: its excitation and predictor |
| LossConcealment.SearchLag | src/docplc.go:57-68 | The lag is the first of the best of the seven around the given one, with its periodicity |
| LossConcealment.VoicedLossRepeatsPitch | src/docplc.go:89-135 | If the root of the voicing exceeds the upper threshold, every sample of a lost frame is the damped sample one repeat lag before it, whatever is drawn; or plain noise if that is too quiet |
| LossConcealment.UnvoicedLossIsNoise | src/docplc.go:89-135 | If it is at most the lower threshold, the frame is damped noise, whatever the pitch; each noise sample is an earlier one its own draw before it |
| LossConcealment.ShapeOfMixture | src/docplc.go:89-127 | The repeat lag is one or two periods and at least two subframes from a period of 40 on, the level only falls along a frame, and the blend rises from none to all between the thresholds |
| Repetition.RepeatingFrameIsVoiced | src/docplc.go:57-93 | After a frame whose end repeats exactly at one of the seven lags, the chosen lag scores as much, the voicing is one, and the loss is pure repetition |
| LossConcealment.BurstDecays | src/docplc.go:73-135 | Every lost frame's peak is at most its gain times the peak before, and the gain never rises within a burst |
| LossConcealment.BurstEndsInSilence | src/docplc.go:73-88 | From the 9th (30 ms: 6th) loss of a burst on, every sample is zero |
| LossConcealment.BurstDraws | src/docplc.go:104-112 | The generator draws once for every concealed sample of a burst, without a break |
| NoiseGenerator.DrawsRepeatOnlyAfterFullPeriod | src/docplc.go:105 | Two draws of the wrapped and masked generator agree exactly when they lie a multiple of 2^31 apart |
| NoiseGenerator.EveryValueIsDrawn | src/docplc.go:105-106 | From any seed every 31-bit value is drawn within one period |
| EnhancerInterface.PitchHistory.Interface | src/enhancer.go:294-416 | The history moves, each new block's period is twice its best lag at half the rate, a lost frame's end is repaired by a faded prediction, periods stay in 19..119, and every output block is the smoother's value for the segments found around its centre |
| Repetition.RepairKeepsRepetition | src/enhancer.go:350-405 | The repair after a loss predicts each sample by the one a lag later and leaves a history alone that repeats into the new frame |
| Enhancer.GetSSeq | src/enhancer.go:233-269 | For any history and periods in range, three steps each way from the centre place or silence the seven segments, every index inside its buffer |
| Enhancer.Refiner | src/enhancer.go:102-157 | The segment is the history delayed to the first of the best quarter positions around the estimate |
| SegmentCorrelation.WholeSegmentIsHistory | src/enhancer.go:127-157 | A segment placed at a whole position is that part of the history, and correlates with the centre block as well as the best quarter that the search saw |
| SegmentCorrelation.SegmentCorrelatesAsFound | src/enhancer.go:127-157 | A segment placed between whole positions correlates as well as the best quarter found, plus exactly what its taps add from positions that were not tried |
| SegmentCorrelation.SegmentCombines | src/enhancer.go:138-156 | Any segment's correlation with the centre block is its table row's combination of seven whole-sample correlations |
| Enhancer.QuarterAnswersFor | src/enhancer.go:117-128 | Every quarter position is interpolated around its own whole position, except that below two and a half samples the fourth repeats the third |
| Enhancer.FourthIsNeverFound | src/enhancer.go:129-136 | So there the first best quarter never lies behind the third position |
| Enhancer.FourthIsMissed | src/enhancer.go:127-136 | A history, with the code's own filter table, whose fourth position correlates best while the search ends before it |
| Enhancer.PlacedIsNear | src/enhancer.go:117-141 | A placed segment lies between 9 quarters before and 13 quarters after its estimate |
| PitchSearch.BestBackLag | src/ilbc_decode.go:285-294 | The first lag of greatest normalised correlation in the range |
| Repetition.RepetitionIsFound | src/ilbc_decode.go:285-294 | No lag scores more than the target's own energy, an exact repetition scores that, and the search ends there or at an earlier lag that scores as much |
| PitchSearch.CorrelationNeedsEnergy | src/enhancer.go:277-292 | A regressor without energy has no correlation, so the quotient never divides by zero |
| Smoothing.Smath | src/enhancer.go:159-231 | For every seven segments the result is their weighted surround scaled to the centre's energy if that is within the error bound, otherwise the mix of surround and centre whose weights solve the constraint for the clamped energies, or the centre itself if their denominator is at most 0.0001 |
| Smoothing.StaysClose | src/enhancer.go:202-230 | The result differs from the centre by at most alpha0 * max(centre energy, 1), and has exactly the centre's energy when no energy was clamped |
| Smoothing.NothingCorrelatesBetter | src/enhancer.go:193-231 | With nothing clamped and the first attempt accepted or the denominator above 0.0001, no block of the centre's energy within the error bound correlates better with the surround than the result, which is one of them |
| Smoothing.ClampedError | src/enhancer.go:213-225 | The constrained weights give a squared error of exactly alpha0 times the clamped centre energy |
| Repetition.PeriodicPassesUnchanged | src/enhancer.go:159-231 | Seven equal segments, loud enough not to be clamped, are returned unchanged |
| Resampling.UpsampleEnhancement | src/enhancer.go:36-100 | Every block of four outputs is the polyphase convolution of the zero-extended sequence, or for a short even length the shifted one |
| Resampling.AlignedExactly | src/enhancer.go:48-99 | Each output is centred on its own sample for all contents exactly when the length is odd or at least the filter's, or the output lies before the middle |
| Resampling.AlignedExactlyBehindZero | src/enhancer.go:48-99 | With a zero behind the end, as its only caller leaves it, that holds exactly when the length is odd or at least the filter's, or the output does not lie behind the middle |
| Resampling.DownSample | src/filter.go:35-84 | For an even length, every second sample of the low-pass output, with history on the left and zeros on the right |
| LinearPrediction.StreamSurvivesAnalysisAndSynthesis | src/anafilter.go:6-43 | Over any stream of blocks with their own coefficients, synthesis of the analysis returns the stream, and the memories stay equal |
| LinearPrediction.AnalysisInvertsSynthesis | src/syntfilter.go:6-41 | Analysis of a synthesis returns the excitation |
| LinearPrediction.AnaFilter | src/anafilter.go:6-43 | The loops over memory and block compute the analysis, and the memory becomes the block's end |
| PredictionGain.AnalysisLeavesAlpha | src/anafilter.go:6-43 | Run over a signal with the predictor computed from it, the analysis filter leaves exactly the recursion's error energy |
| LinearPrediction.SyntFilter | src/syntfilter.go:6-41 | The in-place loops compute the synthesis, and the memory becomes the result's end |
| LinearPrediction.AllPoleFilter | src/filter.go:6-15 | The in-place recursion is the synthesis behind ten samples of history |
| Levinson.Levdurb | src/helpfun.go:26-58 | The half-length in-place update computes the recursion's polynomial and reflection coefficients, and zeros for a silent frame |
| Levinson.NormalEquations | src/helpfun.go:26-58 | For every order, when no error energy is zero, the polynomial solves the Toeplitz normal equations with the error energy on the right |
| Levinson.AlphaIsProduct | src/helpfun.go:37-57 | The error energy is r[0] times the product of (1 - k^2) |
| Levinson.AlphaIsErrorEnergy | src/helpfun.go:6-58 | On an autocorrelation the error energy is the sum of squares of the prediction error |
| Levinson.ErrorEnergyStaysPositive | src/helpfun.go:6-58 | On the autocorrelation of a non-zero signal it is positive at every order, so no division by zero occurs |
| RootSearch.A2Lsf | src/lsf.go:8-102 | For every coefficient vector and cosine ten frequencies are returned after at most 149 evaluations: even ones for the sum polynomial and odd ones for the difference polynomial, each the end of smaller value of a bracket one finest step wide where its polynomial changes sign, unless half the rate is reached or the search never left where the one before stopped; coarse stops never go back |
| LinePairs.PolynomialIsPart | src/lsf.go:31-66 | For any cosine and sine with the product rules, the even searches' polynomial times its trivial zero is the real part of the predictor on the unit circle rotated by eleven half steps, the odd ones' the imaginary part |
| LinePairs.EvaluateInWholes | src/lsf.go:63-68 | The Chebyshev recursion sums the polynomial as a series in the cosines of multiples |
| RootSearch.FindRoot | src/lsf.go:47-98 | One root: the final bracket is one finest step wide, and the frequency is the end with the smaller value |
| RootSearch.UndershootIsBounded | src/lsf.go:47-102 | A later frequency undershoots an earlier one by at most one coarse step |
| LsfStability.CheckLsf | src/helpfun.go:143-187 | Two passes leave every vector non-decreasing, its first nine entries in [0.01, 3.14], the tenth at least 0.0195 above the ninth; a change is reported exactly when some vector was not well spaced |
| JitterBuffer.Buffer.Insert | cmd/talk/protocol.go:76-93 | On wrapped numbers the slots behave as a map over the 64 unbounded positions from the next one on |
| JitterBuffer.Buffer.Take | cmd/talk/protocol.go:95-109 | The packet returned is the one held for the next position, if any, and that position moves on |
| JitterBuffer.PlayoutIsOrdered | cmd/talk/protocol.go:76-109 | Over any run played positions strictly increase and every played packet has its position's number |
| JitterBuffer.HeldIsPlayedUnlessJumpedOver | cmd/talk/protocol.go:76-109 | A held packet is played exactly at its turn, or a jump of 64 or more intervenes |
| JitterBuffer.AcceptedIsPlayed | cmd/talk/protocol.go:76-109 | In any run of a new buffer an arrival that is not late and the first of its position is played at the position its number stands for, once that has passed, exactly if no later arrival jumps over it; nothing else is played there |
| JitterBuffer.Playout | cmd/talk/call.go:51-78 | Over any interleaving of arrivals and ticks the playout loop hears, tick by tick, exactly what the run of the map over unbounded positions gives |
| Protocol.ParseOfEncode | cmd/talk/protocol.go:27-63 | Parsing a marshalled well-formed packet returns it |
| Protocol.EncodeOfParse | cmd/talk/protocol.go:40-63 | Every datagram the parser accepts is the marshalled form of the packet it returns |
| Handshake.AtMostOneCallCompletes | cmd/talk/network.go:35-85 | Over a network that loses, duplicates and reorders but does not forge, every client that completes is the address and session the server bound, and there is at most one |
| Handshake.ServerPlaysOnlyItsPeer | cmd/talk/network.go:87-126 | Every packet the server queues was sent by the bound peer in the bound session, and an honest peer had completed with that session |
| Handshake.ClientPlaysOnlyTheServer | cmd/talk/network.go:87-126 | Every packet a client queues was sent by the server, which is bound to that client and session |
| Handshake.BindingIsForever | cmd/talk/network.go:74-80 | The server keeps its first peer for the rest of the call |

## Left out

- Rounding of single-precision floats, NaN, infinity and overflow: numerical results are over exact reals, agreement results over arbitrary operations.
- Session.Call: the conversion between 16-bit samples and floats and the output filter lie outside; agreement is of excitation, predictors and histories.
- Decoder.Decoder.DecodeFrame: the output high-pass filter, rounding to 16-bit samples and subnormal flushing behind it are not modelled.
- LockStep.Encoder.EncodeFrame: input high-pass filter, windowing, autocorrelation to frequencies, analysis filter and the insides of the state quantiser are one deterministic function each; the numerical kernels among them are proved separately over the reals.
- ResidualDecoding.Decode: the inverse state quantiser, gain dequantisation and the conversion of frequencies to predictors are deterministic functions of their inputs, with the table bounds of their indices as preconditions.
- StagedSearch.SearchCodebook: a cross-fade step of exactly one fifth replaces its nearest float, and the cached energies are compared with direct sums over the reals, where rounding of the running updates does not occur.
- LossConcealment.SearchLag: the gain that the correlation routine also returns is not modelled, since its caller never uses it; a periodicity of zero by zero counts as zero, where the float computation yields a NaN that every later comparison treats the same way.
- LsfStability.CheckLsf: the vector dimension is fixed at ten, the only one in use.
- Resampling.DownSample: for an odd length the last output skips one position, as the code does; only even lengths are used.
- Resampling.UpsampleEnhancement: the table's contents are arbitrary; only its size matters to the result.
- JitterBuffer.Playout: decoding and the playback queue behind the loop are not part of it.
- Enhancer.GetSSeq: positions are exact multiples of a quarter sample, which the floats represent without rounding.
- Table contents of the float codebooks, windows and weights: only sizes, dimensions and, where a result needs it, monotonicity; the examples that contradict an expectation use the code's own gain, filter and interpolation tables.
- Size validation, reset and the zero-allocation claim of the public interface: each is settled by reading one function.
- Handshake.AtMostOneCallCompletes: timers, socket errors, cancellation and the bounded queue between receive loop and playout; a packet that the full queue drops is one that the network lost.
- Audio devices, option parsing and goroutine wiring of the call program.
