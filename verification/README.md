# Delta runs between numeric arrays

This project models the core of a Swift playground,
`ModelPlayground_In_2.2.playground/Contents.swift`, that turns one numeric
array into another in steps. For the integer element types it covers:

- **Range translation**: `Range.range(in:for:)` maps a sub-range of one index
  domain onto the matching sub-range of another. The two domains are walked
  in lockstep. (`RangeMapping`)
- **Comparison policy**: `isEqual`, `isGreater` and `isLess` for the integer
  types, which are exact, and the policy-based free functions `min` and `max`.
  (`Comparison`)
- **Deltas**: `deltas(from:for:)` gives the element-wise differences
  `self[k] - from[k]` over an optional range. (`DeltaEngine`)
- **Segmentation**: `nonZeroMaxDeltaRangesAndDeltas(from:)` splits the deltas
  into maximal runs of same-signed non-zero deltas. Each run carries its delta
  closest to zero: `min` folds a positive run and `max` folds a negative one.
  (`Segmentation`)
- **Apply**: `apply(_:to:)` adds one delta over a range and gives a new
  array. (`SequenceApplier`)
- **Convergence**: `deltasAndRangesWithNewArrays(from:deltaPicker:)`
  segments, lets a caller-supplied picker choose a run, applies it, and
  records the step until no run is left. (`Convergence`)

`Options` holds the `Option` type; it stands for Swift optionals and `nil`.
`Spans` holds the half-open index range `start..<end`.

Each loop of the source is a `method` with the same branches. Each method is
proved equal to a pure function: `MappedRange`, `DeltasOf`, `Segments` /
`SegmentsOf`, `Applied`, `Converged`. The properties are proved about those
functions:

- the closed form of range translation;
- that the segmentation is a maximal partition of the non-zero deltas, each
  run tagged with its delta closest to zero;
- that apply has an inverse;
- for the convergence loop: every recorded step applies an offered run, the
  last array is the target, there are at most as many steps as elements, and
  a picker that never declines always reaches the target.

The expected results written beside the sample calls are proved as lemmas.
For toTarget3 this includes the full option list and the new array of each of
the nine steps. There are two exceptions:

- The comment on `options6` (Contents.swift:311) gives a third run `2..<4`,
  which overlaps the fourth run `3..<4`. The scan gives `2..<3` there, and
  `SegmentsVectorsAD` proves that.
- The literal result written for toTarget3 as a whole (Contents.swift:390) is
  proved only up to its shape; see the last line under "## Left out".

The convergence loop ends because every applied run empties at least one
position. The number of runs need not drop each round: deltas `[5, 3]` give
one run with representative 3, and applying it leaves `[2, 0]`, still one
run. The model proves that the set of non-zero positions strictly shrinks.

## Model

| member | source | states |
|---|---|---|
| RangeMapping.RangeIn | ModelPlayground_In_2.2.playground/Contents.swift:9-29 | the lockstep walk returns exactly the closed form: a result iff `sub` starts at or after `base.start` and ends within `base.start + min(len base, len other)`, shifted onto `other.start` |
| RangeMapping.MappedRangeKeepsLength | ModelPlayground_In_2.2.playground/Contents.swift:9-29 | a translated range is valid, has the length of `sub`, and keeps its offset from the domain start |
| RangeMapping.MappedRangeFullDomain | ModelPlayground_In_2.2.playground/Contents.swift:9-29 | for two domains of equal size, the whole of one maps onto the whole of the other |
| RangeMapping.MappedRangeOutside | ModelPlayground_In_2.2.playground/Contents.swift:4-7 | a range outside `base`, or reaching past the end of `other`, has no counterpart |
| RangeMapping.MappedRangeVectors | ModelPlayground_In_2.2.playground/Contents.swift:37-65 | the documented results of range0 to range6 |
| Comparison.PolicyIsTotalOrder | ModelPlayground_In_2.2.playground/Contents.swift:96-109 | the integer policy is a strict total order: exactly one of `isLess`, `isEqual`, `isGreater` holds, and `isLess` is transitive |
| Comparison.IsLess | ModelPlayground_In_2.2.playground/Contents.swift:105-108 | the integer `isLess` is irreflexive |
| Comparison.IsGreater | ModelPlayground_In_2.2.playground/Contents.swift:101-104 | `isGreater(a, b)` holds exactly when `isLess(b, a)` does |
| Comparison.IsEqual | ModelPlayground_In_2.2.playground/Contents.swift:97-100 | `isEqual` holds exactly when neither `isGreater` nor `isLess` does |
| Comparison.Min | ModelPlayground_In_2.2.playground/Contents.swift:160-163 | `min` returns one of its arguments and is at most both |
| Comparison.Max | ModelPlayground_In_2.2.playground/Contents.swift:165-168 | `max` returns one of its arguments and is at least both |
| DeltaEngine.DeltasOf | ModelPlayground_In_2.2.playground/Contents.swift:171-191 | no result iff the counts differ or the range leaves the indices; otherwise one entry per position of the range, each `target[p] - source[p]` |
| DeltaEngine.Deltas | ModelPlayground_In_2.2.playground/Contents.swift:175-191 | the translate-slice-generate loop computes `DeltasOf` |
| DeltaEngine.DeltasOfWhole | ModelPlayground_In_2.2.playground/Contents.swift:179-180 | with no range given, the deltas are the position-by-position difference of the two arrays |
| DeltaEngine.DeltasVectors | ModelPlayground_In_2.2.playground/Contents.swift:274-290 | the documented results of deltas0 to deltas3 |
| Segmentation.ExtremalClosest | ModelPlayground_In_2.2.playground/Contents.swift:222-224 | folding a same-signed run with `min` for positive and `max` for negative deltas yields a member of the run closest to zero, with the run's sign |
| Segmentation.SegmentsCorrect | ModelPlayground_In_2.2.playground/Contents.swift:193-244 | the runs are non-empty and same-signed, cannot be extended on either side, carry their delta closest to zero, are in order without overlap, and cover exactly the non-zero positions |
| Segmentation.SegmentsEmptyIffAllZero | ModelPlayground_In_2.2.playground/Contents.swift:200-243 | there are no runs exactly when every delta is zero |
| Segmentation.SegmentsMaximal | ModelPlayground_In_2.2.playground/Contents.swift:215-240 | two touching runs have opposite signs; positions between runs that do not touch are zero |
| Segmentation.RepresentativeClosestToZero | ModelPlayground_In_2.2.playground/Contents.swift:222-224 | a run's delta is non-zero, occurs in the run, has the run's sign, and no delta of the run is closer to zero |
| Segmentation.SegmentsOfCorrect | ModelPlayground_In_2.2.playground/Contents.swift:195-198 | segmentation has no result exactly when the counts differ; otherwise it is a maximal partition of the deltas |
| Segmentation.ProductSign | ModelPlayground_In_2.2.playground/Contents.swift:217 | for non-zero deltas, the product test `isLess(a * b, zero)` is exactly a sign change |
| Segmentation.NonZeroMaxDeltaRangesAndDeltas | ModelPlayground_In_2.2.playground/Contents.swift:197-244 | the method computes `SegmentsOf`: no result on mismatching counts, the empty list for empty arrays, otherwise the runs of the scan |
| Segmentation.ScanRuns | ModelPlayground_In_2.2.playground/Contents.swift:206-243 | the sentinel scan with head, tail, product test and flush computes the reference runs `Segments` |
| Segmentation.AsWrittenSplitsEveryNonZeroDelta | ModelPlayground_In_2.2.playground/Contents.swift:215 | with the test as written, the deltas of arrayA from arrayB give four one-element runs instead of the documented two |
| Segmentation.AsWrittenEmitsZeroRun | ModelPlayground_In_2.2.playground/Contents.swift:215 | with the test as written, the deltas `[0, 5]` give a run whose representative is zero, which is not a correct run |
| Segmentation.AsWrittenAllNonZero | ModelPlayground_In_2.2.playground/Contents.swift:206-243 | `ScanAsWritten`, the sentinel scan with the test as written, on deltas with no zero: every non-zero delta flushes the open run and opens a new one, so each position becomes its own run whatever the signs |
| Segmentation.AsWrittenAllZero | ModelPlayground_In_2.2.playground/Contents.swift:206-243 | the sentinel scan as written, on all-zero deltas: a zero delta opens or extends a run, giving one run over the whole range with representative zero, where the corrected scan gives none |
| Segmentation.SegmentsVectorsAB | ModelPlayground_In_2.2.playground/Contents.swift:292-317 | the documented results of options0, options1 and options7 |
| Segmentation.SegmentsVectorsEF | ModelPlayground_In_2.2.playground/Contents.swift:299-304 | the documented results of options2 and options3 |
| Segmentation.SegmentsVectorsGH | ModelPlayground_In_2.2.playground/Contents.swift:305-310 | the documented results of options4 and options5 |
| Segmentation.SegmentsVectorsAD | ModelPlayground_In_2.2.playground/Contents.swift:311-313 | options6: four one-element runs, the third being `2..<3` |
| SequenceApplier.Apply | ModelPlayground_In_2.2.playground/Contents.swift:245-261 | no result iff the range leaves the array; otherwise same length, `delta` added inside the range and nothing changed outside |
| SequenceApplier.ApplyInverse | ModelPlayground_In_2.2.playground/Contents.swift:248-261 | applying `-delta` to the same range undoes an application |
| SequenceApplier.ApplyVectors | ModelPlayground_In_2.2.playground/Contents.swift:320-336 | the documented results of applied0 to applied4 |
| Convergence.ApplyOfferedRun | ModelPlayground_In_2.2.playground/Contents.swift:355-359 | applying an offered run stays in bounds, zeroes one of its positions, moves the others toward zero without changing sign, and leaves the positions outside it alone |
| Convergence.ApplyOfferedRunShrinks | ModelPlayground_In_2.2.playground/Contents.swift:351-360 | each round strictly shrinks the set of positions where the array differs from the target, so the loop terminates |
| Convergence.ConvergeFromDeclined | ModelPlayground_In_2.2.playground/Contents.swift:355-356 | a picker that declines a non-empty list makes the whole loop fail |
| Convergence.ConvergeFromDone | ModelPlayground_In_2.2.playground/Contents.swift:351-354 | with no run left, the loop stops and records nothing more |
| Convergence.NoRunsIffEqual | ModelPlayground_In_2.2.playground/Contents.swift:351-353 | no run is offered exactly when the current array is the target |
| Convergence.ConvergeFromFollowed | ModelPlayground_In_2.2.playground/Contents.swift:351-367 | a partial trace whose every step applies the picker's choice from the runs offered before it is a prefix of the loop's result, and the loop continues from its last array |
| Convergence.DeltasAndRangesWithNewArrays | ModelPlayground_In_2.2.playground/Contents.swift:344-368 | the loop computes `Converged` |
| Convergence.ConvergeFromTrace | ModelPlayground_In_2.2.playground/Contents.swift:351-367 | a successful trace is parallel, each step applies an offered run to the array before it, the last array is the target, and there is at most one step per differing position |
| Convergence.ConvergedCorrect | ModelPlayground_In_2.2.playground/Contents.swift:339-345 | the loop fails on mismatching counts; on success its trace is valid and has at most as many steps as elements |
| Convergence.ConvergeFromTotal | ModelPlayground_In_2.2.playground/Contents.swift:351-366 | with a picker that never declines, the loop always succeeds |
| Convergence.FirstPicksOffered | ModelPlayground_In_2.2.playground/Contents.swift:391 | the picker `$0.first` picks an offered run and never declines a non-empty list |
| Convergence.ConvergedMismatchVectors | ModelPlayground_In_2.2.playground/Contents.swift:376-388 | toTarget0 to toTarget2 give no result |
| Convergence.SampleOptions0 | ModelPlayground_In_2.2.playground/Contents.swift:396 | step 0 of toTarget3: segmenting the target against the documented array gives exactly the documented 7-run option list, in order, starting with `0..<2, 41` |
| Convergence.SampleOptions1 | ModelPlayground_In_2.2.playground/Contents.swift:400 | step 1 of toTarget3: segmenting the target against the documented array gives exactly the documented 7-run option list, in order, starting with `1..<2, 257` |
| Convergence.SampleOptions2 | ModelPlayground_In_2.2.playground/Contents.swift:404 | step 2 of toTarget3: segmenting the target against the documented array gives exactly the documented 6-run option list, in order, starting with `3..<4, 409` |
| Convergence.SampleOptions3 | ModelPlayground_In_2.2.playground/Contents.swift:408 | step 3 of toTarget3: segmenting the target against the documented array gives exactly the documented 5-run option list, in order, starting with `4..<5, -400` |
| Convergence.SampleOptions4 | ModelPlayground_In_2.2.playground/Contents.swift:412 | step 4 of toTarget3: segmenting the target against the documented array gives exactly the documented 4-run option list, in order, starting with `6..<7, 1892` |
| Convergence.SampleOptions5 | ModelPlayground_In_2.2.playground/Contents.swift:416 | step 5 of toTarget3: segmenting the target against the documented array gives exactly the documented 3-run option list, in order, starting with `7..<8, -21` |
| Convergence.SampleOptions6 | ModelPlayground_In_2.2.playground/Contents.swift:420 | step 6 of toTarget3: segmenting the target against the documented array gives exactly the documented 2-run option list, in order, starting with `8..<10, 610` |
| Convergence.SampleOptions7 | ModelPlayground_In_2.2.playground/Contents.swift:424 | step 7 of toTarget3: segmenting the target against the documented array gives exactly the documented 2-run option list, in order, starting with `8..<9, 10497` |
| Convergence.SampleOptions8 | ModelPlayground_In_2.2.playground/Contents.swift:428 | step 8 of toTarget3: segmenting the target against the documented array gives exactly the documented 1-run option list, in order, starting with `11..<12, 1` |
| Convergence.SampleRound0 | ModelPlayground_In_2.2.playground/Contents.swift:394-397 | step 0 of toTarget3: pick `0..<2, 41` and the documented array |
| Convergence.SampleRound1 | ModelPlayground_In_2.2.playground/Contents.swift:398-401 | step 1 of toTarget3: pick `1..<2, 257` and the documented array |
| Convergence.SampleRound2 | ModelPlayground_In_2.2.playground/Contents.swift:402-405 | step 2 of toTarget3: pick `3..<4, 409` and the documented array |
| Convergence.SampleRound3 | ModelPlayground_In_2.2.playground/Contents.swift:406-409 | step 3 of toTarget3: pick `4..<5, -400` and the documented array |
| Convergence.SampleRound4 | ModelPlayground_In_2.2.playground/Contents.swift:410-413 | step 4 of toTarget3: pick `6..<7, 1892` and the documented array |
| Convergence.SampleRound5 | ModelPlayground_In_2.2.playground/Contents.swift:414-417 | step 5 of toTarget3: pick `7..<8, -21` and the documented array |
| Convergence.SampleRound6 | ModelPlayground_In_2.2.playground/Contents.swift:418-421 | step 6 of toTarget3: pick `8..<10, 610` and the documented array |
| Convergence.SampleRound7 | ModelPlayground_In_2.2.playground/Contents.swift:422-425 | step 7 of toTarget3: pick `8..<9, 10497` and the documented array |
| Convergence.SampleRound8 | ModelPlayground_In_2.2.playground/Contents.swift:426-429 | step 8 of toTarget3: pick `11..<12, 1`, which reaches the target |
| Convergence.SampleFinish | ModelPlayground_In_2.2.playground/Contents.swift:426-432 | from step 8 the loop records one last step and stops at the target with no options left |
| Convergence.ConvergedSample | ModelPlayground_In_2.2.playground/Contents.swift:389-392 | the whole call toTarget3 with the first-run picker: it succeeds, records nine new arrays, and the last of them is the target |

## Left out

- Floating-point comparison policies (`Double` and `Float`, Contents.swift:122-158) are not modelled. Elements are unbounded integers with the exact integer policy.
- Fixed-width integer types (`Int` and `UInt` at Contents.swift:75 and 80, `Int8` to `UInt64` at Contents.swift:76-84, and their policies at 111-120) are not modelled. Elements are unbounded integers, so overflow and trapping arithmetic are left out.
- Segmentation.ProductSign: holds only over unbounded `int`. On Swift's `Int` the product `deltaForRangeHere * deltaAtPosition` (Contents.swift:217) traps when it exceeds the type's range, even when both deltas fit.
- Floating-point tolerance: the `Double` and `Float` policies (Contents.swift:127-135 and 146-154) compare relative to the operand, scaling it by one plus or minus `accuracyPctInDouble` or `accuracyPctInFloat` (0.001 percent, lines 122 and 141), not by a fixed absolute epsilon. That tolerance is not modelled.
- The commented-out `AccuracyTolerable` design (Contents.swift:435 onward) is not modelled. It is not compiled code.
- Swift generics over `CollectionType` and its index types are not modelled. Sequences are indexed from 0 by `int`.
- The sample data and `print` calls are not modelled. The documented results appear as lemmas instead.
- Convergence.DeltasAndRangesWithNewArrays: requires the picker to answer with a run from the list it is given, or with none. Without that, the force-unwrap of `apply` (Contents.swift:359) can crash, and a picker that invents runs can keep the loop going forever.
- Convergence.Converged: the picker is a pure function from the offered list to an optional run. The `@noescape` closure of the source (Contents.swift:344) may capture and change state, and so answer the same list differently on two calls; the model cannot express that.
- Convergence.DeltasAndRangesWithNewArrays: the `return nil` branch for a failed segmentation inside the loop (Contents.swift:363-365) is not written. The counts are checked before the loop, so that branch cannot run.
- The `fatalError` branch of the scan (Contents.swift:212-214) is not written. The deltas generator always yields a value at a position before the end.
- The convergence sample toTarget3 is proved round by round, and as a whole only up to its shape (success, nine new arrays, the last one the target). The single literal equation for the whole recorded deltas, ranges and arrays is not proved, because it is too costly for the prover.

## Findings

| source | as written | input that shows it | evidently intended | confidence | as-written member | corrected member |
|---|---|---|---|---|---|---|
| ModelPlayground_In_2.2.playground/Contents.swift:215 | a delta opens or extends a run when it is equal to zero (modelled as `Segmentation.ScanAsWritten`) | deltas `[-29, -140, -36, 7]` (arrayA from arrayB) give four one-element runs; deltas `[0, 5]` give a run with representative 0 | a delta opens or extends a run when it is not zero, giving the documented `[(0..<3, -29), (3..<4, 7)]` | high; not executed | Segmentation.AsWrittenSplitsEveryNonZeroDelta | Segmentation.NonZeroMaxDeltaRangesAndDeltas |
