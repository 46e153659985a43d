# DivaDid document degradation core, in Dafny

DivaDid degrades images of historical documents for training and testing document-analysis
methods. A script (an XML file) names a sequence of commands, and each command changes the
images the script holds in memory. The core of the system works in the gradient domain:

- an image is split into one gradient map per colour channel (`GradientMap`);
- the maps are edited by pasting or multiplying gradients taken from other images;
- the values are rebuilt from the edited gradients by an iterative relaxation, run on one
  processor, on several processor threads (`ReconstructionThread`) or on an OpenCL device;
- the rebuilt channels are pasted back onto the image.

Around this core, the model also covers:

- the image store (`Image`): samples, weights, turning, inverting, normalising and the
  packed-pixel file format;
- the command that drives the gradient pipeline (`AbstractGradientManipulation`, with the
  pasting edits of `ManualGradientModification`);
- the two selective blurs (`SelectiveBlur`, `SelectiveHVBlur`);
- the mixing of a degraded image with its original (`MixImages`);
- the command line (`DivaDid.main`, which turns `key=value` arguments into script aliases).

Layout, one module per file:

| file | module | models |
|---|---|---|
| outcomes.dfy | Outcomes | `Option`, `Result` and the exceptions the code throws |
| grids.dfy | Grids | `float[][]` / `float[][][]` as sequences, the row-major buffers, coordinate clamping, loop-progress helpers |
| relaxation.dfy | Relaxation | the four reconstruction kernels and the step schedule, as functions |
| gradient_map.dfy | Gradients | class `GradientMap` and the functions that specify its methods |
| reconstruction_thread.dfy | Workers | class `ReconstructionThread` and `MultiCPUReconstruct` |
| images.dfy | Images | class `Image` and the functions that specify its methods |
| commands.dfy | Commands | script elements (`Element`) and `getParameter` |
| abstract_gradient_manipulation.dfy | Manipulation | option parsing, the three strategies, the degradation edits, `execute` |
| selective_blur.dfy | SelectiveBlur | `SelectiveBlur` |
| selective_hv_blur.dfy | SelectiveHVBlur | `SelectiveHVBlur` |
| mix_images.dfy | MixImages | `MixImages` |
| diva_did.dfy | DivaDid | `main`'s argument loop and `Script.setAlias` |

Conventions:

- Samples are reals.
- A map or an image is a class over arrays (`array2<real>`, `array3<real>`), as in the source.
- Each method is specified by a function on sequences indexed `[x][y]` (or `[x][y][layer]`);
  the properties are proved as lemmas about those functions.
- Exceptions that the commands and the argument loop throw on bad input (missing options,
  unknown images, size mismatches, unparsable numbers) become the `Err` case of a `Result`.
  Their messages are the text after `"\n" + commandName`. Out-of-range indices and
  mismatched sizes passed to the `Image` and `GradientMap` methods are excluded by `requires`
  instead (see "## Left out").

## Model

| member | source | states |
|---|---|---|
| Grids.FlattenAt | diva-did/src/ch/unifr/diuf/diva/did/GradientMap.java:179-188 | cell (x, y) of a map lands at position y*width + x of the one-dimensional buffer (rows of x, one after the other) |
| Grids.UnflattenAt | diva-did/src/ch/unifr/diuf/diva/did/GradientMap.java:190-197 | reading a buffer back puts position y*width + x into cell (x, y) |
| Grids.UnflattenFlatten | diva-did/src/ch/unifr/diuf/diva/did/GradientMap.java:179-197 | reading back a buffer written by getValues1D/getGX1D/getGY1D gives the same map |
| Grids.FlattenUnflatten | diva-did/src/ch/unifr/diuf/diva/did/GradientMap.java:179-197 | a buffer of width*height values survives setValues1D followed by getValues1D |
| Grids.Clamp | diva-did/src/ch/unifr/diuf/diva/did/Image.java:272-289 | the coordinate is clamped to [lo, hi]: kept inside, lo below, hi above |
| Relaxation.ForwardStep | diva-did/src/ch/unifr/diuf/diva/did/GradientMap.java:227-231 | at interior position p of a left-to-right (or top-to-bottom) line, the new value is (old value + already updated previous value + previous gradient) / 2 |
| Relaxation.BackwardStep | diva-did/src/ch/unifr/diuf/diva/did/GradientMap.java:239-243 | at interior position p of a right-to-left (or bottom-to-top) line, the new value is (old value + already updated next value - own gradient) / 2 |
| Relaxation.StepCellLR | diva-did/src/ch/unifr/diuf/diva/did/GradientMap.java:227-231 | reconstructStepLR(y): cell (x, y), 2 <= x < width-2, becomes (v[x][y] + v'[x-1][y] + gx[x-1][y]) / 2, using the updated left neighbour |
| Relaxation.StepCellRL | diva-did/src/ch/unifr/diuf/diva/did/GradientMap.java:239-243 | reconstructStepRL(y): cell (x, y) becomes (v[x][y] + v'[x+1][y] - gx[x][y]) / 2, using the updated right neighbour |
| Relaxation.StepCellTB | diva-did/src/ch/unifr/diuf/diva/did/GradientMap.java:251-255 | reconstructStepTB(x): cell (x, y) becomes (v[x][y] + v'[x][y-1] + gy[x][y-1]) / 2 |
| Relaxation.StepCellBT | diva-did/src/ch/unifr/diuf/diva/did/GradientMap.java:263-267 | reconstructStepBT(x): cell (x, y) becomes (v[x][y] + v'[x][y+1] - gy[x][y]) / 2 |
| Relaxation.SweepLineKeeps | diva-did/src/ch/unifr/diuf/diva/did/GradientMap.java:227-231 | one line sweep changes only positions 2 .. n-3 of its own line |
| Relaxation.SweepLineTouchesOnlyItsLine | diva-did/src/ch/unifr/diuf/diva/did/GradientMap.java:221-267 | a sweep of line a leaves every cell outside line a as it was |
| Relaxation.OtherLinesUnchanged | diva-did/src/ch/unifr/diuf/diva/did/GradientMap.java:221-267 | sweeping line a first does not change what the sweep of another line r computes |
| Relaxation.SweepLinesCompose | diva-did/src/ch/unifr/diuf/diva/did/GradientMap.java:221-267 | sweeping line a and then a set R of other lines is the same as sweeping R plus a at once |
| Relaxation.LinesIndependent | diva-did/src/ch/unifr/diuf/diva/did/GradientMap.java:221-225 | sweeping the lines one after the other, in any order without repeats, equals sweeping their set at once |
| Relaxation.StepSweepsInterior | diva-did/src/ch/unifr/diuf/diva/did/GradientMap.java:221-267 | one reconstruction step sweeps exactly the lines 2 .. n-3 of its direction |
| Relaxation.SweepLinesWritesInterior | diva-did/src/ch/unifr/diuf/diva/did/GradientMap.java:221-267 | sweeping any set of lines writes only cells with 2 <= x < width-2 and 2 <= y < height-2 |
| Relaxation.StepKeepsBorder | diva-did/src/ch/unifr/diuf/diva/did/GradientMap.java:221-267 | a step keeps the two-cell border and never changes the gradients |
| Relaxation.ReconstructKeepsBorder | diva-did/src/ch/unifr/diuf/diva/did/GradientMap.java:275-298 | any number of steps keeps the two-cell border and the gradients |
| Relaxation.LineKernelsFixed | diva-did/src/ch/unifr/diuf/diva/did/GradientMap.java:227-243 | a line whose values already have the given differences is left unchanged by both kernels |
| Relaxation.StepFixesConsistent | diva-did/src/ch/unifr/diuf/diva/did/GradientMap.java:221-267 | a map whose values have exactly its gradients as differences is a fixed point of every step |
| Relaxation.ReconstructFixesConsistent | diva-did/src/ch/unifr/diuf/diva/did/GradientMap.java:275-298 | such a consistent map comes out of CPUReconstruct unchanged, for any step count |
| Relaxation.RampScenario | diva-did/src/ch/unifr/diuf/diva/did/GradientMap.java:221-231 | on a 10x10 ramp, one left-to-right step gives 4.0 at (2, 2), and any reconstruction gives the ramp back |
| Relaxation.Reconstruct | diva-did/src/ch/unifr/diuf/diva/did/GradientMap.java:275-298 | nbSteps steps in the order LR, TB, RL, BT keep the size and the gradients |
| Gradients.FromChannel | diva-did/src/ch/unifr/diuf/diva/did/GradientMap.java:81-98 | a new map holds the clamped channel of every pixel, forward differences inside and zero gradients on the last column and row, so it is consistent |
| Gradients.ReadChannel | diva-did/src/ch/unifr/diuf/diva/did/GradientMap.java:87-91 | the array read from the image is the channel's samples, cell by cell |
| Gradients.Differences | diva-did/src/ch/unifr/diuf/diva/did/GradientMap.java:92-97 | gx and gy are the forward differences of the values, zero on the last column and row |
| Gradients.GradientMap.constructor | diva-did/src/ch/unifr/diuf/diva/did/GradientMap.java:81-98 | the map built from an image and a channel is FromChannel of its samples, in fresh arrays |
| Gradients.ErrorZeroIffConsistent | diva-did/src/ch/unifr/diuf/diva/did/GradientMap.java:120-131 | the error is never negative, and it is zero exactly when the values match the gradients everywhere |
| Gradients.FreshMapHasNoError | diva-did/src/ch/unifr/diuf/diva/did/GradientMap.java:81-131 | a map just built from an image has error 0 |
| Gradients.GradientMap.GetError | diva-did/src/ch/unifr/diuf/diva/did/GradientMap.java:120-131 | getError returns the sum of the absolute residuals of both gradients over cells (0 .. width-2, 0 .. height-2) |
| Gradients.ValuesPastedRight | diva-did/src/ch/unifr/diuf/diva/did/GradientMap.java:139-151 | pasting values leaves the target's columns right of the map unchanged |
| Gradients.PasteDifferenceZeroIffUnchanged | diva-did/src/ch/unifr/diuf/diva/did/GradientMap.java:139-151 | the reported difference is non-negative, and zero exactly when the paste changes nothing |
| Gradients.NoChangesUnchanged | diva-did/src/ch/unifr/diuf/diva/did/GradientMap.java:139-151 | if no pasted sample changes, the image stays as it was |
| Gradients.UnchangedNoChanges | diva-did/src/ch/unifr/diuf/diva/did/GradientMap.java:139-151 | if the image stays as it was, every reported change is zero |
| Gradients.GradientMap.PasteValues | diva-did/src/ch/unifr/diuf/diva/did/GradientMap.java:139-151 | every pixel that is not dark (some layer >= 0.1) takes the map's value in layer `channel`; the result is the sum of the absolute changes |
| Gradients.PastedBeside | diva-did/src/ch/unifr/diuf/diva/did/GradientMap.java:153-177 | pasteGradient leaves the target's gradient columns outside the source window unchanged |
| Gradients.PasteGradientStrengthens | diva-did/src/ch/unifr/diuf/diva/did/GradientMap.java:153-177 | no target cell loses gradient magnitude, and a cell that changes lies in the window (px < width-1, py < height-1, not dark) and takes the boosted source gradient |
| Gradients.PasteZeroBoostKeepsTarget | diva-did/src/ch/unifr/diuf/diva/did/GradientMap.java:153-177 | with boost 0 nothing is pasted |
| Gradients.PasteGradientIdempotent | diva-did/src/ch/unifr/diuf/diva/did/GradientMap.java:153-177 | pasting the same source at the same place a second time changes nothing more |
| Gradients.GradientMap.PasteGradient | diva-did/src/ch/unifr/diuf/diva/did/GradientMap.java:153-177 | the target's gradients become GradientPasted of the old ones; the source map and all values are unchanged |
| Gradients.MultipliedBeside | diva-did/src/ch/unifr/diuf/diva/did/GradientMap.java:535-553 | multiplyGradient leaves the target's gradient columns outside the source window unchanged |
| Gradients.MultiplyZeroBoostKeepsTarget | diva-did/src/ch/unifr/diuf/diva/did/GradientMap.java:535-553 | with boost 0 every factor is 1 and the target is unchanged |
| Gradients.MultiplyUnitSourceKeepsTarget | diva-did/src/ch/unifr/diuf/diva/did/GradientMap.java:535-553 | a source whose values are all 1 scales nothing, for any boost |
| Gradients.MultiplyKeepsOrientation | diva-did/src/ch/unifr/diuf/diva/did/GradientMap.java:535-570 | multiplying the gradients never changes their orientation: the weighted orientation difference to the original is 0 |
| Gradients.GradientMap.MultiplyGradient | diva-did/src/ch/unifr/diuf/diva/did/GradientMap.java:535-553 | the target's gradients become GradientMultiplied of the old ones (both scaled by 1 - (1 - v)*boost inside 1 .. n-3, skipping dark pixels); the source is unchanged |
| Gradients.OrientationDifferenceMetric | diva-did/src/ch/unifr/diuf/diva/did/GradientMap.java:555-570 | the orientation difference is non-negative, symmetric, and 0 for a map with itself |
| Gradients.CrossTermsSymmetric | diva-did/src/ch/unifr/diuf/diva/did/GradientMap.java:555-570 | the per-cell terms (d*d)/2 are the same with the two maps swapped |
| Gradients.CrossTermsSelfZero | diva-did/src/ch/unifr/diuf/diva/did/GradientMap.java:555-570 | the per-cell terms of a map with itself add up to 0 |
| Gradients.GradientMap.WeightedOrientationDifference | diva-did/src/ch/unifr/diuf/diva/did/GradientMap.java:555-570 | maps of different sizes give IllegalArgument "dimensions mismatch"; an empty map gives NotANumber (0/0); otherwise the mean of the per-cell terms |
| Gradients.GradientMap.GetValues1D | diva-did/src/ch/unifr/diuf/diva/did/GradientMap.java:179-188 | the buffer is the values in row-major order |
| Gradients.GradientMap.GetGX1D | diva-did/src/ch/unifr/diuf/diva/did/GradientMap.java:199-208 | the buffer is gx in row-major order |
| Gradients.GradientMap.GetGY1D | diva-did/src/ch/unifr/diuf/diva/did/GradientMap.java:210-219 | the buffer is gy in row-major order |
| Gradients.GradientMap.SetValues1D | diva-did/src/ch/unifr/diuf/diva/did/GradientMap.java:190-197 | the values become the buffer read back in row-major order; the gradients are unchanged |
| Gradients.GradientMap.ReconstructRowLR | diva-did/src/ch/unifr/diuf/diva/did/GradientMap.java:227-231 | the map after reconstructStepLR(y) is SweepLine(LR) of line y |
| Gradients.GradientMap.ReconstructRowRL | diva-did/src/ch/unifr/diuf/diva/did/GradientMap.java:239-243 | the map after reconstructStepRL(y) is SweepLine(RL) of line y |
| Gradients.GradientMap.ReconstructColumnTB | diva-did/src/ch/unifr/diuf/diva/did/GradientMap.java:251-255 | the map after reconstructStepTB(x) is SweepLine(TB) of column x |
| Gradients.GradientMap.ReconstructColumnBT | diva-did/src/ch/unifr/diuf/diva/did/GradientMap.java:263-267 | the map after reconstructStepBT(x) is SweepLine(BT) of column x |
| Gradients.GradientMap.ReconstructStepLR | diva-did/src/ch/unifr/diuf/diva/did/GradientMap.java:221-225 | the map after the step is Step(LR) of the old map |
| Gradients.GradientMap.ReconstructStepRL | diva-did/src/ch/unifr/diuf/diva/did/GradientMap.java:233-237 | the map after the step is Step(RL) of the old map |
| Gradients.GradientMap.ReconstructStepTB | diva-did/src/ch/unifr/diuf/diva/did/GradientMap.java:245-249 | the map after the step is Step(TB) of the old map |
| Gradients.GradientMap.ReconstructStepBT | diva-did/src/ch/unifr/diuf/diva/did/GradientMap.java:257-261 | the map after the step is Step(BT) of the old map |
| Gradients.GradientMap.CPUReconstruct | diva-did/src/ch/unifr/diuf/diva/did/GradientMap.java:275-298 | the map after nbSteps steps is Reconstruct(old map, nbSteps) |
| Workers.Owned | diva-did/src/ch/unifr/diuf/diva/did/ReconstructionThread.java:67-74 | the lines a worker takes are exactly those in [lo, hi) whose index is id modulo nbCPU, each once |
| Workers.WorkerLines | diva-did/src/ch/unifr/diuf/diva/did/ReconstructionThread.java:67-96 | a worker's lines are exactly the interior lines 2 .. n-3 congruent to its id, each once |
| Workers.WorkersPartitionInterior | diva-did/src/ch/unifr/diuf/diva/did/ReconstructionThread.java:67-96 | the workers' line sets are pairwise disjoint, lie in the interior, and together cover every interior line |
| Workers.SweepLinesUnion | diva-did/src/ch/unifr/diuf/diva/did/ReconstructionThread.java:67-96 | sweeping a set A and then a set B equals sweeping A + B at once |
| Workers.RunWorkersSweeps | diva-did/src/ch/unifr/diuf/diva/did/GradientMap.java:318-323 | the workers of one round, one after another, sweep exactly the lines their ids own |
| Workers.WorkerStepSweeps | diva-did/src/ch/unifr/diuf/diva/did/ReconstructionThread.java:67-96 | one worker's share of a step sweeps exactly its own line set |
| Workers.FirstWorkerApart | diva-did/src/ch/unifr/diuf/diva/did/ReconstructionThread.java:67-96 | with distinct ids, the first worker's lines are apart from all the others' lines |
| Workers.WorkersComposeToStep | diva-did/src/ch/unifr/diuf/diva/did/GradientMap.java:300-342 | when the ids are distinct and are exactly 0 .. nbCPU-1, one round of all workers gives the single-core step |
| Workers.ReconstructionThread.constructor | diva-did/src/ch/unifr/diuf/diva/did/ReconstructionThread.java:42-49 | a worker holds its map, id and processor count |
| Workers.ReconstructionThread.RunStep | diva-did/src/ch/unifr/diuf/diva/did/ReconstructionThread.java:53-98 | a worker that sees isDone stops and the map is unchanged; otherwise the map becomes its share of step `step`, kernel step % 4 |
| Workers.ReconstructionThread.Share | diva-did/src/ch/unifr/diuf/diva/did/ReconstructionThread.java:67-96 | the map becomes WorkerStep of the kernel: the worker's own lines swept, nothing else |
| Workers.RunRound | diva-did/src/ch/unifr/diuf/diva/did/GradientMap.java:318-323 | one round runs every worker's share; with ids exactly 0 .. nbCPU-1 the result is Step of the step's kernel |
| Workers.MultiCPUReconstruct | diva-did/src/ch/unifr/diuf/diva/did/GradientMap.java:300-342 | with the threads started as in the source, the map after nbSteps rounds is Reconstruct(old map, nbSteps), the same as CPUReconstruct |
| Workers.StartThreads | diva-did/src/ch/unifr/diuf/diva/did/GradientMap.java:312-316 | the created threads share the map and nbCPU, and their ids are distinct and exactly 0 .. nbCPU-1 |
| Images.Blank | diva-did/src/ch/unifr/diuf/diva/did/Image.java:132-142 | a new image has every sample 0 |
| Images.Inverted | diva-did/src/ch/unifr/diuf/diva/did/Image.java:505-513 | every sample becomes 1 - sample |
| Images.InvertTwice | diva-did/src/ch/unifr/diuf/diva/did/Image.java:505-513 | inverting twice gives the image back |
| Images.Blackened | diva-did/src/ch/unifr/diuf/diva/did/Image.java:223-243 | the listed layers are 0 and the others are kept |
| Images.LayersMakeBlack | diva-did/src/ch/unifr/diuf/diva/did/Image.java:223-243 | blackening layers 0, 1 and 2 one at a time is toBlack, and toBlack makes every sample 0 |
| Images.Turned | diva-did/src/ch/unifr/diuf/diva/did/Image.java:200-217 | the turned image is height x width, and target (tx, ty) holds source (width-1-ty, tx) |
| Images.TurnMovesPixel | diva-did/src/ch/unifr/diuf/diva/did/Image.java:200-217 | source pixel (x, y) moves to (y, width-1-x) |
| Images.FourTurns | diva-did/src/ch/unifr/diuf/diva/did/Image.java:200-217 | four left turns give the image back |
| Images.SamplesWithinExtremes | diva-did/src/ch/unifr/diuf/diva/did/Image.java:533-546 | every sample lies between the scanned minimum (started at Float.MAX_VALUE) and maximum (started at Float.MIN_VALUE) |
| Images.BlankHasDistinctExtremes | diva-did/src/ch/unifr/diuf/diva/did/Image.java:533-546 | on an all-zero image the maximum stays at Float.MIN_VALUE, so min != max and normalize rescales it |
| Images.NormalizedInRange | diva-did/src/ch/unifr/diuf/diva/did/Image.java:533-558 | equal extremes leave the image unchanged; otherwise every sample is mapped to 2*(v-min)/(max-min) - 1, which lies in [-1, 1] |
| Images.RescaleBounds | diva-did/src/ch/unifr/diuf/diva/did/Image.java:552-556 | a sample between min and max is mapped into [-1, 1] |
| Images.PasteAllSums | diva-did/src/ch/unifr/diuf/diva/did/Image.java:526-531 | after n weighted pastes onto a zero pixel, the weight is n and each layer holds the sum of the pasted samples |
| Images.MeanOfPastes | diva-did/src/ch/unifr/diuf/diva/did/Image.java:526-572 | weighted pastes followed by normalizeWeights leave weight 1 and the mean of the pasted samples in each layer |
| Images.NormalizeWeightsPerPixel | diva-did/src/ch/unifr/diuf/diva/did/Image.java:560-572 | a pixel of weight 0 is untouched; otherwise its samples are divided by its weight and its weight becomes 1 |
| Images.UnpackRGB | diva-did/src/ch/unifr/diuf/diva/did/Image.java:106-114 | the three components of a packed word are bytes |
| Images.UnpackGray | diva-did/src/ch/unifr/diuf/diva/did/Image.java:92-105 | a gray-level word gives its low byte in all three layers |
| Images.UnpackPack | diva-did/src/ch/unifr/diuf/diva/did/Image.java:106-114 | unpacking a packed colour (with any alpha byte) gives its three components back |
| Images.EncodeDecode | diva-did/src/ch/unifr/diuf/diva/did/Image.java:182-189 | writing a loaded component gives the same byte back: clamp((int)(256 * c/255)) == c |
| Images.ScaledByteTruncates | diva-did/src/ch/unifr/diuf/diva/did/Image.java:182-189 | the same round trip on integers, for every byte |
| Images.PixelWordRoundTrip | diva-did/src/ch/unifr/diuf/diva/did/Image.java:106-114 | repacking the unpacked components of a word gives its low 24 bits |
| Images.LoadWriteRoundTrip | diva-did/src/ch/unifr/diuf/diva/did/Image.java:172-197 | a colour word loaded and written comes back as its low 24 bits; a gray word comes back as its low byte repeated three times |
| Images.RepackColour | diva-did/src/ch/unifr/diuf/diva/did/Image.java:106-114 | the three masks and shifts of the colour branch repack to the word's low 24 bits |
| Images.FormatOf | diva-did/src/ch/unifr/diuf/diva/did/Image.java:155-165 | a name ending in jpg gives "jpg", else in png gives "png"; anything else gives IllegalArgument |
| Images.Image.constructor | diva-did/src/ch/unifr/diuf/diva/did/Image.java:132-142 | a new w x h image is black, with weights 0 and every row marked RGB |
| Images.Image.Copy | diva-did/src/ch/unifr/diuf/diva/did/Image.java:144-153 | the copy has the source's size and samples in fresh arrays, with weights 0 |
| Images.Image.Load | diva-did/src/ch/unifr/diuf/diva/did/Image.java:74-125 | the loaded samples are the decoded words (colour or gray branch), with weights 0 and every row RGB |
| Images.Image.EncodePixel | diva-did/src/ch/unifr/diuf/diva/did/Image.java:181-191 | the packed word of one pixel is EncodedPixel of its samples |
| Images.Image.Encode | diva-did/src/ch/unifr/diuf/diva/did/Image.java:172-197 | the written words are EncodedWords of the samples, pixel by pixel |
| Images.Image.Get | diva-did/src/ch/unifr/diuf/diva/did/Image.java:272-289 | get returns the sample at the clamped layer and coordinates, and the sample itself when all are in range |
| Images.Image.Set | diva-did/src/ch/unifr/diuf/diva/did/Image.java:298-300 | exactly one sample changes, to the given value |
| Images.Image.Values | diva-did/src/ch/unifr/diuf/diva/did/Image.java:521-523 | getValues returns the pixel's three samples |
| Images.Image.TurnLeft | diva-did/src/ch/unifr/diuf/diva/did/Image.java:200-217 | the samples become Turned of the old ones and width and height swap; the weights and row types are the same arrays |
| Images.Image.ToBlack | diva-did/src/ch/unifr/diuf/diva/did/Image.java:223-231 | every sample becomes 0 |
| Images.Image.LayerToBlack | diva-did/src/ch/unifr/diuf/diva/did/Image.java:237-243 | every sample of the layer becomes 0 and the other layers are kept |
| Images.Image.Invert | diva-did/src/ch/unifr/diuf/diva/did/Image.java:505-513 | every sample becomes 1 - sample |
| Images.Image.WeightedPaste | diva-did/src/ch/unifr/diuf/diva/did/Image.java:526-531 | the pixel becomes Paste of its samples and weight: the source samples added and the weight increased by 1 |
| Images.Image.NormalizeWeights | diva-did/src/ch/unifr/diuf/diva/did/Image.java:560-572 | the samples become WeightsDivided and the weights WeightsReset of the old ones |
| Images.Image.Extremes | diva-did/src/ch/unifr/diuf/diva/did/Image.java:534-546 | the scan returns MinSample and MaxSample of the samples |
| Images.Image.Normalize | diva-did/src/ch/unifr/diuf/diva/did/Image.java:533-558 | the samples become Normalized of the old ones |
| Commands.Child | diva-did/src/ch/unifr/diuf/diva/did/commands/AbstractCommand.java:48 | getChild is None exactly when no child has the name, and otherwise the text of the first child with it |
| Commands.Parameter | diva-did/src/ch/unifr/diuf/diva/did/commands/AbstractCommand.java:47-56 | a missing child fails with IllegalArgument ": cannot find parameter <name>"; otherwise the preprocessed text of the first such child |
| Manipulation.ReadTag | diva-did/src/ch/unifr/diuf/diva/did/commands/AbstractGradientManipulation.java:72-95 | a child fails exactly when it is iterations (or gpu with text) whose number does not parse; iterations sets the steps, multi-core / single-core / gpu (any case) set the strategy, gpu text sets the platform, any other child changes nothing |
| Manipulation.ReadTagsAppend | diva-did/src/ch/unifr/diuf/diva/did/commands/AbstractGradientManipulation.java:72-95 | reading a + b is reading a and then b from its result, and an error in a stops the loop |
| Manipulation.NoOptionsDefaults | diva-did/src/ch/unifr/diuf/diva/did/commands/AbstractGradientManipulation.java:65-71 | a task without option children runs 500 steps on all processors, platform 0 |
| Manipulation.UnknownChildIgnored | diva-did/src/ch/unifr/diuf/diva/did/commands/AbstractGradientManipulation.java:72-95 | a child that is not an option can be removed without changing the result |
| Manipulation.LastIterationsWins | diva-did/src/ch/unifr/diuf/diva/did/commands/AbstractGradientManipulation.java:73-76 | the last iterations child decides the number of steps |
| Manipulation.LastStrategyWins | diva-did/src/ch/unifr/diuf/diva/did/commands/AbstractGradientManipulation.java:78-94 | the last strategy child decides the strategy |
| Manipulation.GpuTagAnyCase | diva-did/src/ch/unifr/diuf/diva/did/commands/AbstractGradientManipulation.java:88-94 | GPU and Gpu select the accelerator, while Single-Core (not lower case) is ignored |
| Manipulation.ReadParameters | diva-did/src/ch/unifr/diuf/diva/did/commands/AbstractGradientManipulation.java:72-95 | the loop over the children returns Parameters of them |
| Manipulation.Reconstructed | diva-did/src/ch/unifr/diuf/diva/did/commands/AbstractGradientManipulation.java:106-118 | both processor strategies give Reconstruct(f, nbSteps); any strategy keeps the size and the gradients |
| Manipulation.IdleDeviceKeepsField | diva-did/src/ch/unifr/diuf/diva/did/GradientMap.java:344-481 | an accelerator that hands the value buffer back unchanged leaves the map as it was |
| Manipulation.GPUReconstruct | diva-did/src/ch/unifr/diuf/diva/did/GradientMap.java:344-481 | the values become the accelerator's buffer read back as setValues1D reads it; an unusable device or a short buffer is an error and the map is unchanged |
| Manipulation.ReconstructWith | diva-did/src/ch/unifr/diuf/diva/did/commands/AbstractGradientManipulation.java:106-118 | the map becomes Reconstructed under the chosen strategy, with single-core and multi-core the same |
| Manipulation.Split | diva-did/src/ch/unifr/diuf/diva/did/commands/AbstractGradientManipulation.java:97-101 | the three maps are FromChannel of layers 0, 1 and 2 |
| Manipulation.DegradeAllSnoc | diva-did/src/ch/unifr/diuf/diva/did/commands/ManualGradientModification.java:43-58 | the degradations are applied one after the other, in document order |
| Manipulation.DegradeStrengthens | diva-did/src/ch/unifr/diuf/diva/did/commands/ManualGradientModification.java:43-58 | one degradation never lowers the gradient magnitude of any cell of any map |
| Manipulation.DegradeAllStrengthens | diva-did/src/ch/unifr/diuf/diva/did/commands/ManualGradientModification.java:43-58 | a sequence of degradations never lowers the gradient magnitude of any cell |
| Manipulation.NoEditsKeepImage | diva-did/src/ch/unifr/diuf/diva/did/commands/AbstractGradientManipulation.java:97-124 | without edits, the processor strategies give the image back unchanged |
| Manipulation.PasteOwnChannel | diva-did/src/ch/unifr/diuf/diva/did/commands/AbstractGradientManipulation.java:119-124 | pasting a channel's own fresh map back changes nothing |
| Manipulation.ProcessorsNeverFail | diva-did/src/ch/unifr/diuf/diva/did/commands/AbstractGradientManipulation.java:105-118 | single-core and multi-core reconstruction never fail |
| Manipulation.DarkPixelsKept | diva-did/src/ch/unifr/diuf/diva/did/commands/AbstractGradientManipulation.java:119-124 | a pixel dark in all three layers is left as it is by the three pastes |
| Manipulation.DegradeLevel | diva-did/src/ch/unifr/diuf/diva/did/commands/ManualGradientModification.java:52-55 | one level of a degradation pastes the source's map of that level onto map lvl |
| Manipulation.DegradeOnce | diva-did/src/ch/unifr/diuf/diva/did/commands/ManualGradientModification.java:52-55 | the three maps become Degrade of the old ones |
| Manipulation.ModifyGradient | diva-did/src/ch/unifr/diuf/diva/did/commands/ManualGradientModification.java:43-58 | the three maps become DegradeAll of the degradations, in order |
| Manipulation.DegradeNext | diva-did/src/ch/unifr/diuf/diva/did/commands/ManualGradientModification.java:45-57 | after degradation i the maps are DegradeAll of the first i+1 degradations |
| Manipulation.Execute | diva-did/src/ch/unifr/diuf/diva/did/commands/AbstractGradientManipulation.java:46-126 | a missing ref is an error (NullPointer when aliases exist); an unknown image gives ": cannot find image <name>"; a bad option leaves the image unchanged; otherwise the image becomes Manipulated of its samples |
| Manipulation.Manipulate | diva-did/src/ch/unifr/diuf/diva/did/commands/AbstractGradientManipulation.java:97-124 | the image becomes the result of Manipulated: split, degrade, reconstruct and paste back |
| Manipulation.RebuildAndPaste | diva-did/src/ch/unifr/diuf/diva/did/commands/AbstractGradientManipulation.java:105-124 | the edited maps are reconstructed and pasted back; a failed reconstruction leaves the image unchanged |
| Manipulation.EditedMaps | diva-did/src/ch/unifr/diuf/diva/did/commands/AbstractGradientManipulation.java:97-103 | three fresh maps of the image's size holding DegradeAll of the split image |
| Manipulation.BuildMaps | diva-did/src/ch/unifr/diuf/diva/did/commands/AbstractGradientManipulation.java:97-101 | three fresh maps of the image's size holding Split of its samples |
| Manipulation.PasteBack | diva-did/src/ch/unifr/diuf/diva/did/commands/AbstractGradientManipulation.java:119-124 | the image becomes PasteAll of the three maps, layer 0 first |
| Manipulation.Reconstruction | diva-did/src/ch/unifr/diuf/diva/did/commands/AbstractGradientManipulation.java:106-118 | all three maps are reconstructed with the chosen strategy, or the first error is returned |
| SelectiveBlur.Options | diva-did/src/ch/unifr/diuf/diva/did/commands/SelectiveBlur.java:43-66 | the ref, the range child, its number and the threshold child are checked in that order, each with its message; on success the preprocessed name, range and threshold |
| SelectiveBlur.NeighboursExactly | diva-did/src/ch/unifr/diuf/diva/did/commands/SelectiveBlur.java:76-92 | a position is averaged exactly when it is in the image, within range of the centre on both axes, and its colour distance squared is at most threshold squared |
| SelectiveBlur.CentreJoins | diva-did/src/ch/unifr/diuf/diva/did/commands/SelectiveBlur.java:76-92 | for a range >= 0 the centre is always averaged, so the count is at least 1 |
| SelectiveBlur.LoopsAverage | diva-did/src/ch/unifr/diuf/diva/did/commands/SelectiveBlur.java:74-94 | the loop's sum over its count equals the mean of the averaged neighbours |
| SelectiveBlur.MeanWithin | diva-did/src/ch/unifr/diuf/diva/did/commands/SelectiveBlur.java:74-94 | when every sample of a layer lies in [lo, hi], so does every blurred sample |
| SelectiveBlur.Blurred | diva-did/src/ch/unifr/diuf/diva/did/commands/SelectiveBlur.java:71-97 | every sample of the result is the Mean of its pixel's admitted neighbours in that layer, read from the unblurred image |
| SelectiveBlur.FlatLayerKept | diva-did/src/ch/unifr/diuf/diva/did/commands/SelectiveBlur.java:71-97 | a layer that is constant stays that constant |
| SelectiveBlur.ZeroRangeKeepsImage | diva-did/src/ch/unifr/diuf/diva/did/commands/SelectiveBlur.java:71-97 | with range 0 the image is unchanged |
| SelectiveBlur.ColumnSum | diva-did/src/ch/unifr/diuf/diva/did/commands/SelectiveBlur.java:77-92 | the inner loop computes ColumnTotal and ColumnCount |
| SelectiveBlur.WindowSum | diva-did/src/ch/unifr/diuf/diva/did/commands/SelectiveBlur.java:76-93 | the two offset loops compute WindowTotal and WindowCount |
| SelectiveBlur.Blur | diva-did/src/ch/unifr/diuf/diva/did/commands/SelectiveBlur.java:68-97 | a fresh copy holding Blurred of the source's samples |
| SelectiveBlur.Execute | diva-did/src/ch/unifr/diuf/diva/did/commands/SelectiveBlur.java:42-100 | option errors first; an unknown image gives NullPointer; a negative range on a non-empty image gives NotANumber; otherwise the blurred copy replaces the binding and the others are kept |
| SelectiveHVBlur.CrossTimes | diva-did/src/ch/unifr/diuf/diva/did/commands/SelectiveHVBlur.java:76-99 | how often each position is averaged: once per arm it passes on, so the centre twice |
| SelectiveHVBlur.ArmsExactly | diva-did/src/ch/unifr/diuf/diva/did/commands/SelectiveHVBlur.java:76-99 | a position is averaged exactly when it shares a row or a column with the centre, within range, in the image, and within the threshold |
| SelectiveHVBlur.CentreTwice | diva-did/src/ch/unifr/diuf/diva/did/commands/SelectiveHVBlur.java:76-99 | for a range >= 0 the centre is counted twice and the count is at least 2 |
| SelectiveHVBlur.LoopAverage | diva-did/src/ch/unifr/diuf/diva/did/commands/SelectiveHVBlur.java:74-100 | the loop's sum over its count is the CrossMean |
| SelectiveHVBlur.CrossMeanWithin | diva-did/src/ch/unifr/diuf/diva/did/commands/SelectiveHVBlur.java:74-100 | when every sample of a layer lies in [lo, hi], so does every blurred sample |
| SelectiveHVBlur.CrossBlurred | diva-did/src/ch/unifr/diuf/diva/did/commands/SelectiveHVBlur.java:71-103 | every sample of the result is the CrossMean of its pixel in that layer, read from the unblurred image |
| SelectiveHVBlur.CrossFlatLayerKept | diva-did/src/ch/unifr/diuf/diva/did/commands/SelectiveHVBlur.java:71-103 | a constant layer stays that constant |
| SelectiveHVBlur.CrossZeroRangeKeepsImage | diva-did/src/ch/unifr/diuf/diva/did/commands/SelectiveHVBlur.java:71-103 | with range 0 the image is unchanged |
| SelectiveHVBlur.CrossSum | diva-did/src/ch/unifr/diuf/diva/did/commands/SelectiveHVBlur.java:74-99 | the offset loop computes CrossTotal and CrossCount |
| SelectiveHVBlur.CrossBlur | diva-did/src/ch/unifr/diuf/diva/did/commands/SelectiveHVBlur.java:68-103 | a fresh copy holding CrossBlurred of the source's samples |
| SelectiveHVBlur.Execute | diva-did/src/ch/unifr/diuf/diva/did/commands/SelectiveHVBlur.java:42-106 | as SelectiveBlur.Execute, with this command's messages and the cross average |
| MixImages.Ratio | diva-did/src/ch/unifr/diuf/diva/did/commands/MixImages.java:84-87 | the share lies in [0, 1], is 1 exactly when 4*gray^2 >= 1, and is 0 for gray 0 |
| MixImages.RatioMonotone | diva-did/src/ch/unifr/diuf/diva/did/commands/MixImages.java:84-87 | the share does not decrease as the gray level moves away from 0 |
| MixImages.BlendBetween | diva-did/src/ch/unifr/diuf/diva/did/commands/MixImages.java:89 | a blend with a share in [0, 1] lies between its two samples |
| MixImages.Mixed | diva-did/src/ch/unifr/diuf/diva/did/commands/MixImages.java:79-95 | each sample is ratio*noised + (1-ratio)*original, with the ratio from the original's gray level |
| MixImages.MixedBetween | diva-did/src/ch/unifr/diuf/diva/did/commands/MixImages.java:79-95 | every mixed sample lies between the original's and the noised image's |
| MixImages.DarkKeepsOriginal | diva-did/src/ch/unifr/diuf/diva/did/commands/MixImages.java:83-90 | a pixel of gray level 0 keeps the original |
| MixImages.BrightTakesNoised | diva-did/src/ch/unifr/diuf/diva/did/commands/MixImages.java:83-90 | a pixel of gray level at least 1/2 away from 0 takes the noised image |
| MixImages.MixSelf | diva-did/src/ch/unifr/diuf/diva/did/commands/MixImages.java:73-96 | mixing an image with itself gives it back |
| MixImages.Mix | diva-did/src/ch/unifr/diuf/diva/did/commands/MixImages.java:73-96 | different sizes give the size-mismatch error; otherwise a fresh image with weights 0 holding Mixed |
| MixImages.Execute | diva-did/src/ch/unifr/diuf/diva/did/commands/MixImages.java:42-71 | no ref, a missing original, an unknown ref image, an unknown original and a size mismatch fail in that order; otherwise the mix replaces the ref binding and the others are kept |
| DivaDid.IndexOf | diva-did/src/ch/unifr/diuf/diva/did/DivaDid.java:47 | the first position of the character, or -1 exactly when it does not occur |
| DivaDid.SplitRefuses | diva-did/src/ch/unifr/diuf/diva/did/DivaDid.java:47-54 | an argument is refused exactly when it has no '=' or starts with one |
| DivaDid.SplitParts | diva-did/src/ch/unifr/diuf/diva/did/DivaDid.java:55 | a split argument is key + "=" + value, with a non-empty key free of '=' |
| DivaDid.JoinSplits | diva-did/src/ch/unifr/diuf/diva/did/DivaDid.java:47-55 | a non-empty key free of '=' joined to any value splits back into the same two parts |
| DivaDid.LastAssignmentWins | diva-did/src/ch/unifr/diuf/diva/did/DivaDid.java:41-56 | when every argument splits, each key maps to the value of its last assignment and other keys keep their entries |
| DivaDid.FirstBadArgumentFails | diva-did/src/ch/unifr/diuf/diva/did/DivaDid.java:47-54 | the first argument that does not split decides the error, with its own text in the message |
| DivaDid.AliasesSucceedExactly | diva-did/src/ch/unifr/diuf/diva/did/DivaDid.java:41-56 | the alias arguments fill a table exactly when every one of them splits |
| DivaDid.Script.constructor | diva-did/src/ch/unifr/diuf/diva/did/Script.java:86-117 | a new script has the file name and no aliases |
| DivaDid.Script.SetAlias | diva-did/src/ch/unifr/diuf/diva/did/Script.java:136-138 | setAlias puts the pair into the table, overwriting an earlier value |
| DivaDid.Start | diva-did/src/ch/unifr/diuf/diva/did/DivaDid.java:38-59 | no argument gives NullPointer at script.run(); otherwise the first argument names a fresh script and the others' aliases fill it, or the first bad argument's error is returned |

## Left out

- Floating point: samples, gradients, thresholds and ratios are reals, so float rounding and overflow are not modelled. NaN and infinities cannot be represented either: `Float.parseFloat` results are only the finite values the caller's `parseFloat` returns.
- SelectiveBlur.Execute: with a negative range on a non-empty image, Java writes 0/0 = NaN into every sample. The model returns `Err(NotANumber)` instead of an image of NaNs. SelectiveHVBlur.Execute does the same.
- Gradients.GradientMap.WeightedOrientationDifference: Java returns 0/0 = NaN for an empty map; the model returns `Err(NotANumber)`.
- Manipulation.GPUReconstruct: the OpenCL kernel source, JOCL's platform, device, context and buffer calls are not modelled. The device is a function parameter: it receives the platform index, the step count, the three row-major buffers and the dimensions, and returns the value buffer, or nothing when it cannot be used. The read-back is modelled as `setValues1D`. The kernel's own sweep range is not claimed to match the processor kernels.
- Workers.MultiCPUReconstruct: the semaphores, `tryAcquire` time-outs, `AtomicBoolean` and the thread scheduling are not modelled. Each round is the workers' shares run one after another with a perfect barrier, which the source's lock-step intends. A time-out that lets a worker skip or repeat a step is not captured.
- Timing, progress messages and `System.out` output of the reconstructions, as well as `System.gc` and `Thread.yield`, are not modelled.
- File input and output are not modelled: `ImageIO.read` / `ImageIO.write` become arrays of packed 32-bit words (Images.Image.Load, Images.Image.Encode), and `Image.write(result)` keeps only the choice of format (Images.FormatOf).
- The XML script is given as data (Commands.Task, Commands.Tag). Script parsing, the command table of the `Script` constructor and `Script.run` are not modelled: DivaDid.Start stops where `script.run()` is called.
- DivaDid.Start: the `IOException` or `JDOMException` that the `Script` constructor raises when the file cannot be read, before any alias is read, is not modelled.
- `Script.preprocess` (regular-expression alias substitution), `Integer.parseInt` and `Float.parseFloat` are function parameters, so their behaviour is not modelled.
- Commands.Parameter: the "cannot be empty" branch of `getParameter` is not modelled, because a JDOM child's text is never null. The message drops the appended `"\n" + e.toString()`.
- Manipulation.Execute: a missing `ref` throws `NullPointerException` inside `preprocess` when the script has aliases, and otherwise `IllegalArgumentException`. The model takes whether aliases exist as the flag `aliased`.
- Manipulation.ModifyGradient: `modifyGradient` is abstract. Only `ManualGradientModification`'s pasting edits are modelled, as a list of already loaded degradation images with their positions and strengths; the file names and the reading of `<degradation>` children are not. The other subclasses (`NoiseGradients`, `FadeGradients`) use randomness and are not part of this model; `multiplyGradient` is modelled and proved on its own.
- Images.Image.Get: requires a non-empty image. Java throws `ArrayIndexOutOfBoundsException` on `pixel[0][0]` when the image has no pixels.
- Images.Image.Set: requires an in-range layer and position; Java throws `ArrayIndexOutOfBoundsException` outside. Every modelled caller passes matching sizes and in-range positions, so this exception is not modelled.
- Images.Image.WeightedPaste: requires an in-range position and three source samples from `from` on; Java throws `ArrayIndexOutOfBoundsException` otherwise. Every modelled caller passes matching sizes and in-range positions, so this exception is not modelled.
- Gradients.GradientMap.PasteValues: requires the map to be no larger than the target image; Java throws `ArrayIndexOutOfBoundsException` when it is larger. The three pastes of `AbstractGradientManipulation.execute` use maps built from the same image.
- Gradients.GradientMap.PasteGradient: requires the image to cover the target's window and the source and target maps to be distinct objects. `ManualGradientModification.modifyGradient` pastes a freshly built map onto a map of the degraded image, so aliasing and the out-of-range read are not modelled.
- Gradients.GradientMap.MultiplyGradient: requires the image to cover the target's window and the source and target maps to be distinct objects; the aliased call and the out-of-range read are not modelled.
- Gradients.GradientMap.SetValues1D: requires a buffer of at least width*height values; Java throws `ArrayIndexOutOfBoundsException` on a shorter one. Its one modelled caller, Manipulation.GPUReconstruct, returns `Err(IndexOutOfBounds)` for a short device buffer before calling it.
- Images.Image.TurnLeft: as in the source, the weights and the row colour types are not rotated.
- The colour-space conversions (`toYUV`, `toRGB`, `toHSV` and their helpers), `toGrayLevel` and `normalizePatch` are not used by the modelled commands and are not part of this model.
- Pixels are read straight from the arrays by the blur loops and by `mixImages`. Every read is in bounds there, so `get`'s clamping never applies. `mixImages` writes the array directly instead of calling `set`, which writes the same sample.
- MixImages.Mixed: the gray level is `(c0 + c2 + c2) / 3` as written (layer 1 is not used).
- Images.Normalized: the maximum starts at `Float.MIN_VALUE` (the smallest positive float) as written, so an image whose samples are all zero or negative is still rescaled.
- SelectiveBlur.Execute: an unknown image name fails in `new Image(null)`; the model returns `Err(NullPointer)`. SelectiveHVBlur.Execute does the same.
