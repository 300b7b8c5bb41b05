# A verified model of the MAST repository's algorithmic parts

The repository is a test-access framework. Four of its parts do real computation, and this project
models them and proves what they are for:

1. **The mixed-radix FFT** (`External_Libs/kissfft`). The recursive, in-place, strided transform of
   `kiss_fft.c` with its five butterflies, its factoriser and its entry points is proved to compute
   the discrete Fourier transform for every size, input, offset and stride, and the inverse
   transform to undo the forward one. The second factoriser, in `kissfft.hh`, is proved to produce
   the same list, and the fast-size search to return the least fast size. In the fixed-point build
   every bin is proved to be within 8 times the sum of the radices, in units of the last place, of the
   exact bin divided by the size, and bin 0 not to overflow whatever the input.
2. **The asynchronous logger** (`Logger`). The shared queue, the active objects, the worker's
   fan-out to the sinks, the destructor and the fatal path are transition systems; delivery of
   what the events of a run enqueue is proved for every run, whatever way the threads interleave. The global side of `g3log.cpp`
   (which worker is active, the one message kept from before) is a class.
3. **The ADC emulator and its reader** (`SPICE/adc.py`, `Examples/PDL/Classifier.cpp`). What is
   printed is read back exactly, the decoded voltage is within half a step exactly when a stated
   condition holds, and the reader's term-by-term spectrum is what the FFT computes.
4. **The coverage merge** (`gcovr.py`). Reading one file with its exclusion regions, merging
   several files, which gives the same result for every order of the files, and the summary of
   uncovered lines as ranges.

## How it is laid out

Each module is a file of the same name.

| modules | part |
|---|---|
| `ComplexNumbers`, `Twiddles`, `Transform` | exact complex numbers and finite sums; powers of a root of unity; the transform as a sum, and what holds of it however it is computed |
| `Recombination`, `Radices`, `Butterflies` | what one stage leaves behind, column by column; the outputs for radix 2, 3, 4, 5; the in-place butterflies |
| `Work`, `Api` | the recursion, and the calls of a user |
| `Factorization`, `Factorisers`, `FastSizes`, `FastTransforms` | the number theory, the two factorisers, fast sizes, and which sizes come to the generic butterfly |
| `FixedPoint`, `FixedMean` | the fixed-point macros and the range of bin 0; how near bin 0 is to the mean of the samples |
| `Closeness`, `FixedColumns`, `FixedRounding`, `FixedAccuracy` | distances between complex numbers; what the fixed-point butterflies compute from a column; what they round; how far a stage is from the exact one |
| `FixedTransform` | the fixed-point butterflies and recursion: bin 0 exactly, every bin up to the error |
| `SharedQueue`, `Logger`, `Frontend` | the logger |
| `Adc`, `Classifier` | writer and reader |
| `GcovReader`, `Coverage`, `GcovMerge` | reading a file, merging reports, both together |
| `Basics` | Option and small helpers |

Code that changes things step by step is written as methods over arrays and objects and proved
against a specification function; threads are steps of a transition system; everything else is
functions and lemmas. Samples and voltages are exact reals.

The twiddle table enters as one predicate, `Twiddles.RootsOfUnity`: w(0) = w(N) = 1,
w(a + b) = w(a)w(b), w(-a) is the conjugate of w(a), w(d) is not 1 for 0 < d < N, and w(N/4) is -i
or +i when 4 divides N. Everything the butterflies use beyond that (w(N/2) = -1, the real part
-1/2 at N/3, the symmetries at N/5) is derived from it. `Twiddles.RootTablesExist` shows that tables
for 1, 2 and 4 points satisfy it.

## What turned out not to hold as promised

* **One file alone need not have disjoint lists.** Covered lines are taken out of the uncovered and
  the exceptional ones only by an update. A single file keeps a line in both lists exactly when it
  says both of it: `GcovMerge.OneFileDisjoint`; two lines that do are in `GcovMerge.OneFileOverlaps`.
* **Exclusion markers do not stop branches.** A branch record is kept inside an excluded region unless
  unreachable branches are asked to be dropped and it stands behind a line that is excluded or
  trivial: `GcovReader.ReportedBranches` is the exact condition, `GcovMerge.ExcludedBranchKept` an
  input. Which header a marker has decides nothing: `GcovMerge.HeadersDoNotMatter` for every file,
  `GcovMerge.OtherHeaderCloses` for an LCOV stop behind a GCOV start.
* **The generic butterfly is not only for sizes with other factors.** A transform of one point comes
  to it too, with radix 1; apart from that, exactly the sizes that are not fast do
  (`FastTransforms.GenericExactly`).
* **A message pushed between two sessions is stored but never saved.** The comment on
  `pushMessageToLogger` says the first message before initialisation is kept; the once-flags never
  reset, so after the first worker nothing pushed without a worker is ever seen
  (`Frontend.UninitializedPushIsLost`; an input is `Frontend.BetweenSessionsLost`). Exactly the very
  first message, pushed before any worker, is kept (`Frontend.FirstPushIsSaved`).

Where a promise holds, these are its exact limits:

* **The half-step error bound** holds if and only if the scaled magnitude leaves [0, vref] by at most
  half a step, for every gain: `Classifier.VoltageError`.
* **Multiplying by twiddle 0** is exact if and only if the value lies in (-h, h] of the fixed-point
  range [-(2h-1), 2h-1]: `FixedPoint.TwiddleZeroExact`. After the division by a radix every value does.
* **Merging** is independent of the order of the files because the reader never makes an empty branch
  table; for arbitrary tables it would not be (`Coverage.OrderIndependence`, `Coverage.OrderCanShow`).
* **Writer and reader**: if the file `adc.py` writes were handed to the reader of `Classifier.cpp` as it
  is, its first line would be taken for a header and the first sample dropped
  (`Classifier.ConvertAndRead`). The reader's own input is a file from the simulation.

## Model

| member | source | states |
|---|---|---|
| Twiddles.RootTablesExist | External_Libs/kissfft/kiss_fft.c:357-363 | the hypothesis on twiddles is satisfiable for 1, 2 and 4 points in both directions |
| Twiddles.OneExactlyAtWholeTurns | External_Libs/kissfft/kiss_fft.c:357-363 | w(e) is 1 exactly when N divides e |
| Twiddles.Reduced | External_Libs/kissfft/kiss_fft.c:226-228 | the entry at e mod N is the power e: a table of N entries holds every power |
| Twiddles.ThirdTurn | External_Libs/kissfft/kiss_fft.c:104-131 | the third of a turn has real part -1/2 and the second third is its conjugate, as the radix-3 butterfly takes for granted |
| Twiddles.QuarterTurns | External_Libs/kissfft/kiss_fft.c:77-87 | the quarter turns are -i, -1, i forward and i, -1, -i inverse, as the branch on `inverse` takes for granted |
| Twiddles.FifthTurns | External_Libs/kissfft/kiss_fft.c:146-193 | the fourth and third fifth of a turn are the conjugates of the first and second |
| Twiddles.Orthogonality | External_Libs/kissfft/kiss_fft.c:357-363 | the N powers of w(e) sum to N when N divides e, and cancel otherwise |
| Transform.ExponentSplits | External_Libs/kissfft/kiss_fft.c:280-290 | a root of the long transform is a block's twiddle times a root of the short transform, in which only k mod m matters |
| Transform.DecimationInTime | External_Libs/kissfft/kiss_fft.c:280-301 | a butterfly over the transforms of the p decimated inputs is the transform of the whole input |
| Transform.OppositeTransformInverts | External_Libs/kissfft/kiss_fft.c:357-363 | a transform followed by the one with conjugate roots multiplies every sample by N |
| Transform.RealSpectrumMirrors | Examples/PDL/Classifier.cpp:266-280 | for real samples X[N-k] is the conjugate of X[k] |
| Radices.Radix2 | External_Libs/kissfft/kiss_fft.c:32-41 | both outputs of a radix-2 column are the sum and difference of the twiddled entries |
| Radices.Radix3 | External_Libs/kissfft/kiss_fft.c:108-133 | the three outputs of a column in the half-sum form of the code |
| Radices.Radix4 | External_Libs/kissfft/kiss_fft.c:60-89 | the four outputs of a column, for both directions |
| Radices.Radix5 | External_Libs/kissfft/kiss_fft.c:159-194 | the five outputs of a column from the two table constants ya and yb |
| Recombination.ColumnBin | External_Libs/kissfft/kiss_fft.c:213-233 | output t of a column is a transform of length p of the twiddled column |
| Recombination.ColumnCompleted | External_Libs/kissfft/kiss_fft.c:213-233 | overwriting one column with its outputs completes exactly one more column of the stage and touches nothing else |
| Butterflies.TwiddleInRange | External_Libs/kissfft/kiss_fft.c:60-74 | every twiddle a butterfly reads is inside the table, and the pointers advance by q*fstride |
| Butterflies.RunningIndex | External_Libs/kissfft/kiss_fft.c:226-228 | one conditional subtraction keeps the running index reduced modulo N |
| Butterflies.Pass3 | External_Libs/kissfft/kiss_fft.c:108-133 | one in-place pass: three outputs from three old entries, the rest of the buffer unchanged |
| Butterflies.Pass4 | External_Libs/kissfft/kiss_fft.c:60-89 | one in-place pass: four outputs from four old entries, the rest unchanged |
| Butterflies.ClassPass4 | External_Libs/kissfft/kissfft.hh:136-151 | the pass of the C++ class, with a sign in place of the branch, has the same effect as the C one |
| Butterflies.Pass5 | External_Libs/kissfft/kiss_fft.c:159-194 | one in-place pass: five outputs from five old entries, the rest unchanged |
| Butterflies.Bfly2 | External_Libs/kissfft/kiss_fft.c:21-42 | the blocks become their butterfly, in place, nothing else changes |
| Butterflies.Bfly3 | External_Libs/kissfft/kiss_fft.c:92-134 | the same for radix 3 |
| Butterflies.Bfly4 | External_Libs/kissfft/kiss_fft.c:44-90 | the same for radix 4, both directions |
| Butterflies.Bfly5 | External_Libs/kissfft/kiss_fft.c:136-195 | the same for radix 5 |
| Butterflies.GenericOutput | External_Libs/kissfft/kiss_fft.c:222-231 | the inner loop accumulates the whole sum, its index always the reduced exponent |
| Butterflies.BflyGeneric | External_Libs/kissfft/kiss_fft.c:198-235 | the same for any radix, through the scratch buffer |
| Work.Recombine | External_Libs/kissfft/kiss_fft.c:294-301 | whichever butterfly is picked, the blocks become their butterfly; it is the generic one exactly for radices other than 2 to 5 |
| Work.RecombineBothWays | External_Libs/kissfft/kiss_fft.c:294-301 | the special butterflies refine the generic one: equal buffers stay equal |
| Work.DecimatedInput | External_Libs/kissfft/kiss_fft.c:280-289 | the strided input of a recursive call is every p-th sample of its caller's input |
| Work.StageCompletes | External_Libs/kissfft/kiss_fft.c:292-301 | once every block holds its transform, the butterfly completes the transform |
| Work.CopyInputs | External_Libs/kissfft/kiss_fft.c:275-279 | with a remainder of 1 the copied samples are the transforms of the blocks |
| Work.WorkUnit | External_Libs/kissfft/kiss_fft.c:281-290 | a recursive call finishes its own block and leaves every other one and the rest of the buffer |
| Work.KfWork | External_Libs/kissfft/kiss_fft.c:237-302 | for every plan, offset and stride, forwards or backwards, the n entries become the discrete Fourier transform of n strided samples, nothing else is written, and the recursion ends; some call comes to the generic butterfly exactly when some radix has none of its own |
| Work.KfWorkAnyOrder | External_Libs/kissfft/kiss_fft.c:252-274 | the same when the p sub-transforms run in any order whatever |
| Factorization.Euclid | External_Libs/kissfft/kiss_fft.c:315-329 | a prime that divides a product divides a factor |
| Factorization.RadicesProduct | External_Libs/kissfft/kiss_fft.c:304-307 | the radices multiply to n |
| Factorization.RadicesCanonical | External_Libs/kissfft/kiss_fft.c:315-329 | the radices are fours, then at most one two, then odd primes that never decrease |
| Factorization.CanonicalUnique | External_Libs/kissfft/kiss_fft.c:315-329 | a list of that form is determined by its product |
| Factorization.StageCount | External_Libs/kissfft/_kiss_fft_guts.h:22-26 | 2 to the number of stages is at most n |
| Factorisers.FactorListFits | External_Libs/kissfft/_kiss_fft_guts.h:22-31 | the list of every int fits the 2*MAXFACTORS entries |
| Factorisers.Proceed | External_Libs/kissfft/kiss_fft.c:317-325 | trying the next candidate, or jumping to n past the square root, never passes a divisor over |
| Factorisers.Taken | External_Libs/kissfft/kiss_fft.c:326-328 | a candidate that divides is the radix to take, and the search may go on from it |
| Factorisers.KfFactor | External_Libs/kissfft/kiss_fft.c:309-330 | writes exactly the factor list in front of the buffer, for every positive int, and ends |
| Factorisers.StageVectors.Prepare | External_Libs/kissfft/kissfft.hh:19-47 | appends exactly the same list to the two stage vectors |
| Factorisers.FactoriseBothWays | External_Libs/kissfft/kissfft.hh:29-46 | both factorisers agree on every positive int |
| FastSizes.StripFactor | External_Libs/kissfft/kiss_fft.c:400-402 | dividing a prime out leaves every other prime divisor and adds none |
| FastSizes.IsFast | External_Libs/kissfft/kiss_fft.c:399-404 | the test accepts exactly the numbers with no prime factor but 2, 3 and 5 |
| FastSizes.NextFastSize | External_Libs/kissfft/kiss_fft.c:396-408 | the least such number from n on, and the search ends |
| FastSizes.NextFastSizeReal | External_Libs/kissfft/kiss_fft.h:116-118 | the least even one from n on |
| FastSizes.FastExactlyWithSmallRadices | External_Libs/kissfft/kiss_fft.c:309-330 | a size of two or more is fast exactly when every radix in its written factor list is 2, 3, 4 or 5 |
| FastTransforms.GenericExactly | External_Libs/kissfft/kiss_fft.c:294-330 | following the written list, some stage is generic exactly when the size is 1 or not fast |
| FastTransforms.TransformOfSize | External_Libs/kissfft/kiss_fft.c:237-302 | a whole transform comes to the generic butterfly exactly when its size is 1 or not fast |
| FastTransforms.NextSizeIsNotGeneric | External_Libs/kissfft/kiss_fft.c:396-408 | so the next fast size from two on never needs it |
| Api.TableIsValid | External_Libs/kissfft/kiss_fft.c:357-363 | the table filled for either direction satisfies the hypothesis for that direction |
| Api.FactorListIsPlan | External_Libs/kissfft/kiss_fft.c:245-247 | a written factor list is a plan the recursion can follow |
| Api.Configure | External_Libs/kissfft/kiss_fft.c:352-366 | a configuration ready for use, with the table and the factor list of its size |
| Api.KissFftAlloc | External_Libs/kissfft/kiss_fft.c:339-368 | a configuration, or null exactly when malloc fails, the block is missing or it is too short; the length needed comes back exactly when a length is passed |
| Api.MemGrows | External_Libs/kissfft/kiss_fft.c:342-343 | a state for one point needs the size of the structure, and every further point one more complex number |
| Api.KissFftStride | External_Libs/kissfft/kiss_fft.c:371-383 | the output is the transform of every s-th input sample for positive, negative and zero s, also when both buffers are the same one |
| Api.KissFft | External_Libs/kissfft/kiss_fft.c:385-388 | the output is the transform of the input |
| Api.InverseOfForward | External_Libs/kissfft/kiss_fft.c:357-363 | with the two tables the library fills, either transform undoes the other up to the factor N |
| Api.ForwardThenInverse | External_Libs/kissfft/kiss_fft.c:371-388 | with a configuration for each direction, transforming and transforming back gives N times every sample, also in one buffer |
| FixedPoint.ProductFits | External_Libs/kissfft/_kiss_fft_guts.h:64-71 | the sums of products that are rounded fit the double-width type |
| FixedPoint.FixDivBound | External_Libs/kissfft/_kiss_fft_guts.h:73-78 | a full-scale value divided by p is at most SAMP_MAX/p |
| FixedPoint.DivScalarIsNear | External_Libs/kissfft/_kiss_fft_guts.h:73-78 | the division is within one and a half of the true quotient, for every full-scale value and every radix |
| FixedPoint.BuildConstants | External_Libs/kissfft/_kiss_fft_guts.h:45-55 | the two builds are the cases h = 2^14 and h = 2^30 |
| FixedPoint.TwiddleZeroExact | External_Libs/kissfft/_kiss_fft_guts.h:64-71 | the product with twiddle 0 is exact exactly in (-h, h] |
| FixedRounding.TableEntryNear | External_Libs/kissfft/_kiss_fft_guts.h:127-145 | an entry of the fixed-point table is SAMP_MAX times the exact root, rounded to the nearest, and twiddle 0 is (SAMP_MAX, 0) |
| FixedRounding.ProductClose | External_Libs/kissfft/_kiss_fft_guts.h:64-71 | the product of a scaled entry with a table entry is within 3 of the product with the exact root |
| FixedRounding.PartClose | External_Libs/kissfft/kiss_fft.c:280-301 | an entry within e of the exact one is, divided by the radix p and turned by its twiddle, within e/p + 5.25 of it |
| FixedRounding.Outputs3Near | External_Libs/kissfft/kiss_fft.c:108-133 | the halving and the multiplication by a constant of radix 3 add at most 4.5 |
| FixedRounding.Outputs5Near | External_Libs/kissfft/kiss_fft.c:159-194 | the multiplications by the two constants of radix 5 add at most 10.2 |
| FixedAccuracy.ColumnClose | External_Libs/kissfft/kiss_fft.c:294-301 | for every radix each output of a column is within e + 8p of the exact butterfly, when its p entries are within e |
| FixedAccuracy.StageClose | External_Libs/kissfft/kiss_fft.c:280-301 | a stage over blocks within e of their transforms is within e + 8p of the transform of all samples, each divided by its length |
| FixedPoint.ScaledTimesTwiddleZero | External_Libs/kissfft/kiss_fft.c:33-36 | after the division by a radix that product is exact |
| FixedPoint.PartialSumsInRange | External_Libs/kissfft/_kiss_fft_guts.h:112-117 | no partial sum of at most p scaled terms leaves the range, in whatever order they are added |
| FixedPoint.BinZeroInRange | External_Libs/kissfft/kiss_fft.c:214-231 | bin 0 of every sub-transform at every level stays in range |
| FixedPoint.TransformBinZeroInRange | External_Libs/kissfft/kiss_fft.c:237-302 | so does bin 0 of a whole transform of any size N >= 2 |
| FixedMean.SumByResidues | External_Libs/kissfft/kiss_fft.c:280-290 | the samples a stage reads are those of its sub-transforms: a sum over p*m of them is the sum over the residues modulo p |
| FixedMean.BinZeroNearMean | External_Libs/kissfft/kiss_fft.c:280-301 | bin 0 of a sub-transform, for any list of radices, offset and stride, is within 3/2 times the sum of the radices of the mean of the samples it reads |
| FixedMean.BinZeroOfSizeNearMean | External_Libs/kissfft/kiss_fft.c:237-302 | so is bin 0 of a whole transform of any size N >= 2, with the radices of N |
| FixedTransform.Pass2 | External_Libs/kissfft/kiss_fft.c:32-41 | one in-place fixed-point pass leaves the two outputs of the column, which the rows above hold against the exact ones, and writes nothing else |
| FixedTransform.Pass3 | External_Libs/kissfft/kiss_fft.c:108-133 | the same for radix 3 |
| FixedTransform.Pass4 | External_Libs/kissfft/kiss_fft.c:60-89 | the same for radix 4, both directions |
| FixedTransform.Pass5 | External_Libs/kissfft/kiss_fft.c:159-194 | the same for radix 5 |
| FixedTransform.FixedBflyGeneric | External_Libs/kissfft/kiss_fft.c:198-235 | a whole stage of any radix: every column becomes the outputs of the generic butterfly, and nothing outside the blocks changes |
| FixedTransform.FixedRecombine | External_Libs/kissfft/kiss_fft.c:294-301 | whichever butterfly is picked, every column becomes its outputs, and nothing outside the blocks changes |
| FixedColumns.FirstOutputs | External_Libs/kissfft/kiss_fft.c:294-301 | for every radix, and for the generic butterfly, output 0 of column 0 is the sum of the scaled terms |
| FixedTransform.FixedWork | External_Libs/kissfft/kiss_fft.c:237-302 | for every plan, offset and stride, forwards or backwards, bin 0 is exactly the sum whose range and distance from the mean are bounded above, every bin is within 8 times the sum of the radices of the exact transform of the strided samples divided by n, and nothing else is written |
| FixedTransform.FixedTransformOf | External_Libs/kissfft/kiss_fft.c:371-388 | a whole fixed-point transform: bin 0 of full-scale input is in range and within 3/2 times the sum of the radices of the mean of the samples; and where the moduli of the samples leave room for the error, every bin is in range and within 8 times the sum of the radices of the exact transform of the buffer divided by N |
| SharedQueue.FirstInFirstOut | Logger/g3log/shared_queue.hpp:39-69 | in every run the items of the push events are the items popped followed by the items waiting, and as many are popped as there are waits that end and tries on a queue that is not empty |
| SharedQueue.EveryPushCounts | Logger/g3log/shared_queue.hpp:39-45 | each push puts the item of the producer that holds the mutex behind all items pushed before |
| SharedQueue.PushCount | Logger/g3log/shared_queue.hpp:39-45 | there are as many items as pushes |
| SharedQueue.AnItemArrives | Logger/g3log/shared_queue.hpp:39-69 | a run in which the item of a producer reaches a consumer that slept waiting for it |
| SharedQueue.NoLostWakeUp | Logger/g3log/shared_queue.hpp:39-69 | with any number of producers and consumers, while one sleeps and an item waits, some thread is on its way to notify or to look |
| SharedQueue.SingleConsumerWakeUp | Logger/g3log/active.hpp:37-57 | with one consumer that thread is a producer between its push and its notify |
| SharedQueue.SettlingEnds | Logger/g3log/shared_queue.hpp:39-69 | every step that carries on what a thread has begun lowers a measure |
| SharedQueue.SettlesWithin | Logger/g3log/shared_queue.hpp:39-69 | without new arrivals a run takes no more steps than the measure says |
| SharedQueue.SettledMeansServed | Logger/g3log/shared_queue.hpp:58-69 | and where it has ended, nobody sleeps beside a waiting item |
| Logger.DoneRanUpToStop | Logger/g3log/active.hpp:37-82 | a joined active object has run its callbacks up to the stop action and nothing behind it |
| Logger.InvStep | Logger/logworker.cpp:55-139 | every step of every thread keeps the pipeline's invariant |
| Logger.SentIsEnqueued | Logger/logworker.cpp:127-139 | what the queue of the worker has got is just what the events of the run enqueued, in that order |
| Logger.CallsAreSent | Logger/g3log/active.hpp:68-71 | a call through a handle reaches its sink, once |
| Logger.SeenIsPrefixOfDue | Logger/logworker.cpp:67-81 | at any time a sink has seen, in order and each once, a first part of the messages the events of the run have enqueued after its registration |
| Logger.DestructorDelivers | Logger/logworker.cpp:55-64 | after the destructor every registered sink has seen exactly the messages that the events of the run enqueued between its registration and the stop action, and nothing queued behind the stop action has run |
| Logger.EveryMessageArrives | Logger/logworker.cpp:55-133 | stated on the events alone: a sink added before the destructor began has seen as many messages as were sent after that and before the destructor began, each in its place |
| Logger.AMessageArrives | Logger/logworker.cpp:55-133 | a run in which the destructor returns and the one sink has seen the one message |
| Logger.FatalDelivers | Logger/logworker.cpp:83-118 | when the process ends every registered sink has seen all messages enqueued before the fatal one, then the fatal one, and nothing after |
| Logger.ShutdownNeverStuck | Logger/logworker.cpp:55-64 | once the destructor has started, until it returns, and once the worker has begun a callback, until that is through or the process ends, some thread of the pipeline can take a step |
| Logger.ShutdownEnds | Logger/logworker.cpp:55-64 | left alone the pipeline comes to rest however its threads are scheduled, within a number of steps known beforehand; with the row above, shutting down completes |
| Frontend.Globals.InitializeLogging | Logger/g3log.cpp:141-173 | refused exactly when a worker is active or none is given; otherwise that worker is active, and the first worker is handed the kept message |
| Frontend.Globals.PushMessage | Logger/g3log.cpp:302-321 | saved with the active worker, kept if it is the very first, otherwise dropped |
| Frontend.Globals.ShutDownLogging | Logger/g3log.cpp:219-223 | no worker is active afterwards |
| Frontend.Globals.ShutDownLoggingForActiveOnly | Logger/g3log.cpp:232-244 | ignored exactly when another worker is active |
| Frontend.FirstPushIsSaved | Logger/g3log.cpp:160-165 | in every run the very first message reaches the first worker, ahead of all others |
| Frontend.UninitializedPushIsLost | Logger/g3log.cpp:304-317 | any other message pushed without a worker changes nothing that is ever saved |
| Frontend.BetweenSessionsLost | Logger/g3log.cpp:304-317 | a run of two sessions with a message pushed between them that no worker ever saves |
| Classifier.ClampedCode | SPICE/adc.py:85-96 | for a positive reference the code is the rounded fraction of the scale in range and the end of the scale on its side out of range, for a negative one 0 |
| Classifier.EndsOfScalePrinted | SPICE/adc.py:85-96 | a magnitude at full scale or beyond prints as ones only, one at zero or below as zeros only |
| Adc.Magnitudes | SPICE/adc.py:141-151 | the binary magnitudes in order, and exactly the positions of the negative voltages |
| Adc.Convert | SPICE/adc.py:118-157 | one line per voltage, or exactly the error that applies |
| Adc.AutoReferenceNeverClamps | SPICE/adc.py:122-125 | with the automatic reference and gain 1 no sample is clamped |
| Adc.MaxAbsAttained | SPICE/adc.py:122-125 | the largest magnitude is the magnitude of some sample |
| Adc.AutoReferenceIs | SPICE/adc.py:122-125 | the automatic reference is 21/20 of the largest magnitude, and 1 where that is 0 |
| Adc.RoundIs | SPICE/adc.py:90-90 | rounding gives the nearest integer, and of two equally near exactly the even one |
| Adc.CodesOfWidth | SPICE/adc.py:89-95 | the codes of a width are exactly the numbers with at most that many binary digits |
| Adc.FullScale | SPICE/adc.py:89-95 | the greatest code prints as ones only |
| Classifier.Stoull | Examples/PDL/Classifier.cpp:45-52 | the number in base 2, or an exception for no digits and for more than 64 bits |
| Classifier.BinaryToCode | Examples/PDL/Classifier.cpp:36-53 | the number its bits denote, and 0 where that does not fit |
| Classifier.BitsOfOne | Examples/PDL/Classifier.cpp:38-41 | of one character the filter keeps a 0 or a 1 and drops everything else |
| Classifier.BitsOfParts | Examples/PDL/Classifier.cpp:38-41 | it does so character by character, in order |
| Classifier.ReadSamples | Examples/PDL/Classifier.cpp:240-253 | one voltage per non-empty line after the first |
| Classifier.SamplesOfOne | Examples/PDL/Classifier.cpp:246-252 | an empty line gives no sample, any other one |
| Classifier.SamplesOfParts | Examples/PDL/Classifier.cpp:244-252 | lines give their samples one by one, in order |
| Classifier.CodeRoundTrip | SPICE/adc.py:150-151 | a printed code of any width from 1 to 64 has exactly that width and reads back as the code |
| Classifier.LineReadBack | Examples/PDL/Classifier.cpp:246-252 | a printed line reads back as its code times the step, with its sign |
| Classifier.VoltageError | Examples/PDL/Classifier.cpp:225-251 | the decoded voltage is within half a step of gain*v if and only if the scaled magnitude leaves [0, vref] by at most that |
| Classifier.AutoReferenceIsClose | SPICE/adc.py:122-151 | with the automatic reference and gain 1 every sample comes back within half a step, given a reader that uses that reference and width |
| Classifier.ConvertAndRead | Examples/PDL/Classifier.cpp:240-253 | given the file of the writer, and its reference and width, the reader gets all samples if a header line stands in front and all but the first otherwise |
| Classifier.SpectrumBin | Examples/PDL/Classifier.cpp:272-278 | the inner loop computes one bin of the transform |
| Classifier.Spectrum | Examples/PDL/Classifier.cpp:266-280 | the bins up to half the length |
| Classifier.FastSpectrum | External_Libs/kissfft/kiss_fft.c:385-388 | the FFT gives the same bins |
| Classifier.HalfSpectrumSuffices | Examples/PDL/Classifier.cpp:267-280 | those bins, and their magnitudes, determine the whole spectrum |
| GcovReader.Reader.ReadMarkers | gcovr.py:1016-1044 | the stack holds the open regions, and on top, at most once, the mark for the line alone |
| GcovReader.Reader.ReadLine | gcovr.py:1004-1113 | one more line is accounted for, and between lines the stack holds open regions only |
| GcovReader.ReadFile | gcovr.py:1000-1137 | the report of the whole file; regions are left over exactly when a start was never closed |
| GcovReader.DepthPositive | gcovr.py:1018-1035 | a region is open exactly when some start has no stop of its own |
| GcovReader.MarkersInOrder | gcovr.py:1016-1035 | the markers of a file count line by line, in order |
| GcovReader.NumberIs | gcovr.py:1009-1014 | a line without a number counts under the last number read |
| GcovReader.ExcludedExactly | gcovr.py:1016-1048 | a line is excluded exactly when it is marked itself or lies behind such a start |
| GcovReader.ReportedLines | gcovr.py:1048-1062 | a line is reported uncovered or exceptional exactly when a line that is not excluded says so |
| GcovReader.ReportedNoncode | gcovr.py:1048-1056 | a line is counted as no code exactly when some line read for it is excluded and no record, or is a '-' or '#' line that is no code |
| GcovReader.ReportedCounts | gcovr.py:1063-1065 | the count reported is that of the last line that is not excluded and has one |
| GcovReader.ReportedBranches | gcovr.py:1066-1090 | a branch is reported exactly when a record of it is not dropped, excluded region or not, and with the count of the last such record; dropped is stated on the lines: on request, when the last line of code before has the same number and is excluded or trivial |
| GcovReader.DroppedIs | gcovr.py:1066-1079 | the variables the reader keeps about the last line of code decide just that |
| Coverage.CoverageData.constructor | gcovr.py:532-545 | the state made from a first report |
| Coverage.CoverageData.Update | gcovr.py:547-561 | the whole new state, whatever order the tables are walked in |
| Coverage.MergeAll | gcovr.py:1126-1129 | creating once and updating after that computes the merge |
| GcovMerge.ProcessFiles | gcovr.py:1000-1129 | reading and merging the files of one source computes the merge of what they report |
| GcovMerge.NoEmptyTables | gcovr.py:1085-1090 | no report read from a file has a line with an empty branch table |
| GcovMerge.FilesIgnoreOrder | gcovr.py:547-561 | the coverage of a source file is the same for every order of its gcov files |
| GcovMerge.OneFileDisjoint | gcovr.py:532-545 | a single file leaves the lists disjoint exactly when it does not say both of some line |
| GcovMerge.OneFileOverlaps | gcovr.py:532-545 | a file of two lines that keeps a line both uncovered and covered |
| GcovMerge.ExcludedBranchKept | gcovr.py:1048-1090 | a file whose excluded line of code is not reported while the branch record behind it is |
| GcovMerge.OtherHeaderCloses | gcovr.py:1021-1028 | an LCOV stop closes a GCOV start |
| GcovMerge.HeadersDoNotMatter | gcovr.py:1018-1035 | changing the headers of the markers changes no report |
| Coverage.MergedLines | gcovr.py:547-561 | each set and count of a merge in terms of what the reports say, without their order |
| Coverage.MergedBranches | gcovr.py:556-559 | the same for the branch counts |
| Coverage.MergeInvariant | gcovr.py:547-561 | the lines are exactly the uncovered, exceptional and covered ones; after an update the first two share none with the third |
| Coverage.OrderIndependence | gcovr.py:547-561 | for arbitrary tables: two orders merge to the same state exactly when their first reports agree on the lines that no report gives a branch |
| Coverage.OrderCanShow | gcovr.py:556-559 | with an empty branch table, which the reader never makes, the order would show: the update adds no entry for one |
| Coverage.UncoveredRanges | gcovr.py:589-620 | ranges in order, not empty, not touching, that expand to exactly the set |
| Coverage.RangesUnique | gcovr.py:589-620 | such ranges are the only ones: none can be joined or split |

## Left out

* Floating-point rounding and the values of sine and cosine: arithmetic is over exact reals and the twiddle table is a hypothesis.
* Integer widths in the FFT: indices are unbounded. The running index of the generic butterfly stays below 2N, so it needs N up to 2^30; `p*p` in `kissfft.hh` exceeds an int only for n near 2^31 without a small factor; `kiss_fft_next_fast_size` near the largest int, and with 0, which loops, are not modelled.
* The bytes of a caller's block: a configuration made in it is a new object here. Input and output buffers of `kiss_fft_stride` that overlap without being the same pointer, which the code does not support either.
* The OpenMP branch with a remainder of 1, which recurses past the factor list, and threads inside one sub-transform: sub-transforms are whole units taken in any order.
* The recursion and the other butterflies of the C++ class: they are the C code again, apart from the radix-4 pass, which is modelled.
* Wrap-around in the fixed-point transform: sums are unbounded integers. That those of bin 0 fit is `FixedPoint.PartialSumsInRange`; that all stored results fit, when the moduli of the samples leave room for the error, is part of `FixedTransform.FixedTransformOf`; the scratch values of the other bins are not followed.
- FixedTransform.FixedTransformOf: the error bound is stated for samples whose moduli leave room for it below SAMP_MAX, because a twiddle can turn a larger modulus into a part beyond the range.
- Work.KfWorkAnyOrder: does not interleave the steps of two sub-transforms, because each writes its own block and the input is only read.
* Callbacks that throw in an active object, which end its loop; futures of sink handles; the unsynchronised read of the global worker pointer; the notice printed when there are no sinks; the text added to a fatal message. The fatal path assumes the worker holds the last reference to each sink; the end of the process is a final state.
* Clients that never stop enqueuing: shutting down is proved to complete once they do, for every scheduling.
- Logger.DestructorDelivers: takes pushing to and popping from a queue as single steps, which is what SharedQueue.FirstInFirstOut justifies.
* The crash-handler installation and the fatal hook of `initializeLogging`; the process exit of an illegal call is a false result.
* Reading the analog file, its SI suffixes and the command line of `adc.py`; text encoding and line ends.
- Classifier.AutoReferenceIsClose: assumes that writer and reader agree on reference and width; the reader has 1.317204 and 32 built in.
- Classifier.ConvertAndRead: assumes the same, and that the file written is the file read; the programs name different files, with the simulation in between.
* The neural network, file access and console output of `Classifier.cpp`. Line 217 and lines 241-242 are not valid C++ as they stand; the evident loop is modelled. The constants 1.317204 and 32 are parameters.
* Splitting a gcov line into columns, `is_non_code` and comment stripping: a line arrives with its number, its markers, its kind and two flags. Warnings about mismatched headers are not modelled, regions never closed are.
* The reports of `gcovr.py`, the branch mode of its summaries, percentages, path search, options and the text form of ranges.
* The rest of the repository: access interfaces, scheduler, readers, translators, drivers and demo programs.
