# Verification of the GRASPO judging and guarding code

GRASPO is a training framework. This project models, in Dafny, the parts of it that decide whether a run counts and
whether a run may start, and proves what they promise:

- **`Verdict.dfy`, `Calibration.dfy`**: the verdict engine. Run evidence becomes criteria A1 to A7, a failure class, a
  ledger status and a max-context entry; the A4 tolerance is derived from a pool of readings and looked up by a
  five-part key.
- **`Collect.dfy`, `Numerals.dfy`**: the evidence folds in front of it, from rank-metric rows and rank files to series
  and counters, and the reading of numbers.
- **`LiteralWrapper.dfy`**: the wrapper that cuts an escaped string literal into lines.
- **`GpuGuard.dfy`**: the device-lock guard with its parser, printer and policy.
- **`BodyLock.dfy`, `Images.dfy`, `RequestBody.dfy`, `Readiness.dfy`**: the evaluation client. The temperature lock,
  image placement, the bodies that are sent, the retry loops and their time bound.
- **`BatchReader.dfy`**: the length-framed reader of `git cat-file --batch`.
- **`ErrorTable.dfy`, `Summary.dfy`**: the aggregators and what they conserve.
- **`Texts.dfy`, `Seqs.dfy`, `Wrappers.dfy`**: string and sequence operations and result types shared by the others.

`dafny verify dfyconfig.toml` checks the whole project.

## How to read it

Code that computes a value is a function; code that loops is a method with its loop, proved equal to a specification
function or against a direct statement; code that writes to objects is a class (`BatchReader.BatchStream` with its
position, `Collect.SeriesEvidence` with its fields, `Images.ImageSlot`, the dict whose URL is written in place). What
the source promises is then proved about the specifications, for all inputs. Lemmas carry `{:induction false}`, so
every induction is the one written down.

Numbers that are floats in the source are exact reals here; a reading is `Finite`, `NaN`, an infinity or `Missing`, and
comparisons with NaN are false, as in Python. The network, clocks and files are inputs: a reply script, a byte stream,
rows, path and encoding functions. The set of log classes whose pattern occurs in a log is an input too.

## Where the code and its documentation differ

The model follows the code in each case.

- The wrapper promises to keep every text and each line within the width (`scripts/a4_calibrate.py:215-220`). It breaks
  six-character escapes (`LongEscapeIsCut`), gives an empty text for an empty value that does not fit on its line, and
  overruns by one column when an escape starts in the last one (`EscapeOverruns`). `SafeExactly` and `FitsExactly`
  say for which alphabets the promises hold.
- The sign-flip test is documented to need its second clause for the T032 fingerprint
  (`src/graspo/core/result_judge.py:842-846`). The clause is never reached (`RelativeGapIsNeverReached`).
- Completing missing tier coordinates is documented never to raise a tolerance
  (`src/graspo/core/result_judge.py:978-983`). It does for the losses listed in `LossRaises`, and only for those
  (`DroppedCoordinates`): an ms-swift run on one card with SFT that loses its backend rises from 0.00672 to 0.04675.
- A number that cannot be read is documented to count as missing evidence (`scripts/collect_results.py:144-145`). A6 looks
  for the missing marker among the losses only, so rows without a single gradient norm pass (`UnreadGradientsPass`);
  `A6IsFailClosedExactly` says when the promise holds. What else a usable tier may lack is in `AbsentReadingsThatPass`.
- A final loss of NaN passes A4 (`NanFinalLossPasses`): the comparison at `src/graspo/core/result_judge.py:2206` is
  false for NaN.
- A2 is documented to require changed weights (`src/graspo/core/result_judge.py:1765`); behind an unreachable step gate
  it does not look at them (`UnreachableGateIgnoresWeights`).
- The comments of `judge_tier` call A3 a diagnostic (`src/graspo/core/result_judge.py:2669`); in the code it is a
  primary criterion (`UsableExactly`).
- Out-of-memory and a clean exit are said to exclude each other as a rule (`src/graspo/core/result_judge.py:2722-2725`).
  A run that exits 0 and lacks only its skip count is classed as a real out-of-memory, with a recorded boundary, when
  its log quotes such a text (`QuotedOomAfterCleanExit`).
- A positive skip count is documented to fail A7 (`src/graspo/core/result_judge.py:1927`); a guarantee text makes A7
  pass whatever the count (`CollectAndJudgeA7`).
- Every rank is meant to be counted (`scripts/collect_results.py:1955-1959`); two rank files with one name in different
  directories share a dict entry, and the later hides the earlier (`SameNameHidesSkips`).
- The allow variable is documented to set which cards may be used (`src/graspo/core/gpu_guard.py:204-209`); it cannot
  open a card above index 7 (`AllowVariableCannotRaiseTheBound`).
- The temperature lock is documented to catch a temperature at any level; a number inside a list is judged by its index
  label and passes (`ListedTemperaturePasses`).
- Waiting for the server announces ten minutes and admits one probe more (`src/graspo/eval/vllm_client.py:308-318`);
  that probe may take 366 s with the defaults (`DefaultWaitIsBounded`), and some run takes them
  (`DefaultBoundIsReached`; `BoundIsReached` and `BoundNeedsRounds` for other configurations). A negative budget counts as
  zero (`WaitingIsBounded`). A limit below one ends in a run-time error (`PollMeans`), and a negative interval does
  exactly when a pause is due (`BadSleepExactly`).
- An overlap analysis with an empty overlap is documented to exclude 0 samples
  (`src/graspo/eval/evaluate.py:86-88`); it reports the number of error records (`EmptyOverlap`).
- The history reader is documented to yield blobs (`tools/gate_common.py:292`); it yields every present object that has
  a path, trees included (`TreeIsYielded`), so only blobs exactly when every one of them is a blob (`OnlyBlobsExactly`).
- More observed cards than the cap are documented to be refused (`src/graspo/core/gpu_guard.py:535`). The cap is compared
  with the count only, so an inventory whose index list is longer than its count passes with the longer list
  (`BothChannelsAreCapped`); the inventories of the probe are consistent.

## Model

| member | source | states |
|---|---|---|
| `LiteralWrapper.DecodeUndoesBody` | scripts/a4_calibrate.py:209-211 | decoding the escaped body by the rules of section 7 of RFC 8259 gives back every value, control characters included |
| `LiteralWrapper.EscapeTable` | scripts/a4_calibrate.py:209-211 | the seven short escapes, six characters for every other control character, and every other character as it stands |
| `LiteralWrapper.WidthCounts` | scripts/a4_calibrate.py:251-258 | the display width of a text is its length plus the number of its wide characters |
| `LiteralWrapper.ScanColumns` | scripts/a4_calibrate.py:233-235 | the column loop stops exactly at the first character of the current line that no longer fits |
| `LiteralWrapper.CountBackslashes` | scripts/a4_calibrate.py:239-243 | the backward probe counts the run of backslashes before the cut and never looks before the start of the line |
| `LiteralWrapper.CutChunks` | scripts/a4_calibrate.py:225-247 | the nested loops terminate for every text and budget and yield the chunk list of the recursive specification, in order |
| `LiteralWrapper.WrapLiteral` | scripts/a4_calibrate.py:214-248 | one line when the literal fits, otherwise the quoted, indented chunks joined by newlines |
| `LiteralWrapper.ChunksCoverBody` | scripts/a4_calibrate.py:225-248 | for any text the chunks concatenate to the text: nothing is dropped, doubled or reordered |
| `LiteralWrapper.ParityFindsBoundary` | scripts/a4_calibrate.py:238-245 | an even run of backslashes before a cut means the cut is an escape boundary of the value, an odd run means the boundary is one character further |
| `LiteralWrapper.CutIsClean` | scripts/a4_calibrate.py:231-247 | every single cut of an escaped text falls between two characters of the value, is at most one column too wide and, unless it is the last, leaves at most one column unused |
| `LiteralWrapper.ChunksDecode` | scripts/a4_calibrate.py:214-248 | each chunk decodes on its own and the decoded chunks join to the value |
| `LiteralWrapper.ChunksUseColumns` | scripts/a4_calibrate.py:223-247 | counting wide characters twice, no chunk takes more than budget + 1 columns, and every chunk but the last takes at least budget - 1 |
| `LiteralWrapper.WrappedLines` | scripts/a4_calibrate.py:222-248 | what does not fit on one line becomes lines of indent, quote, chunk, quote, whose chunks join to the escaped text and fill the width less indent and quotes, or 20 columns |
| `LiteralWrapper.WrappedShort` | scripts/a4_calibrate.py:222-224 | the literal stays whole when its characters, its wide characters once more and the indent fit the width |
| `LiteralWrapper.ShortTextsSurvive` | scripts/a4_calibrate.py:214-248 | reading the wrapped text as adjacent literals gives back every value without six-character escapes |
| `LiteralWrapper.LongEscapeIsCut` | scripts/a4_calibrate.py:238-245 | for every control character that needs a six-character escape there is a text that the wrapper breaks |
| `LiteralWrapper.SafeExactly` | scripts/a4_calibrate.py:214-248 | for indented pages the wrapper keeps every text over an alphabet with a plain letter if and only if the alphabet has no such control character and the line has room for two quotes |
| `LiteralWrapper.EscapeOverruns` | scripts/a4_calibrate.py:244-245 | a line filled up to its last column with an escape starting there is one column too wide |
| `LiteralWrapper.FitsExactly` | scripts/a4_calibrate.py:214-248 | every text over an alphabet with a plain letter keeps every line within the documented width if and only if the alphabet needs no escape and the line has room for 20 columns |
| `GpuGuard.ReadIndexList` | src/graspo/core/gpu_guard.py:284-308 | the parsing loop returns the distinct indices of the text or the first complaint in the order of the guard |
| `GpuGuard.IndexListExactly` | src/graspo/core/gpu_guard.py:171-201 | a list text reads as the numbers it spells between commas and blanks if they are distinct; a blank item, an item that is no number and a repeat each have their own complaint |
| `GpuGuard.CsvReadsBack` | src/graspo/core/gpu_guard.py:893-895 | printing a non-empty integer list and parsing it gives the list back when it is natural and duplicate-free, and otherwise the one complaint it deserves |
| `GpuGuard.AcceptsExactly` | src/graspo/core/gpu_guard.py:311-394 | a text is accepted iff it parses, both policy variables parse, no card is reserved, all are allowed, none is above the bound and there are few enough; what is returned is the parsed list |
| `GpuGuard.LockExactly` | src/graspo/core/gpu_guard.py:311-394 | the answer for every text that spells a device list, reason by reason in order; a given allowed or reserved set decides, otherwise the variable does, otherwise the default |
| `GpuGuard.LockRefuses` | src/graspo/core/gpu_guard.py:236-308 | no text, a blank one, `all` and the runtime markers in any case are refused for their own reason; so is every text that spells no list, and every text when a policy variable spells none |
| `GpuGuard.PolicyComplaints` | src/graspo/core/gpu_guard.py:171-201 | a policy variable that spells no list is refused with its own complaint, the allow variable first |
| `GpuGuard.ReserveVariableDecides` | src/graspo/core/gpu_guard.py:222-233 | cards printed into the reserve variable are never handed out, and a list naming one is refused as reserved |
| `GpuGuard.PolicyReads` | src/graspo/core/gpu_guard.py:204-233 | which set is in force: the given one, else what the variable spells, else the default; the allow variable only counts under the built-in bound |
| `GpuGuard.PrintedListAcceptance` | src/graspo/core/gpu_guard.py:311-394 | under any readable policy the printed form of a list is accepted iff the list is duplicate-free, natural and permitted, and it comes back unchanged |
| `GpuGuard.MalformedPolicyRefuses` | src/graspo/core/gpu_guard.py:171-201 | a malformed policy variable refuses every device list |
| `GpuGuard.DefaultGuardIsSafe` | src/graspo/core/gpu_guard.py:311-394 | whatever the environment, an accepted list has one to four distinct cards, none above index 7, all in the allowed set |
| `GpuGuard.AllowVariableCannotRaiseTheBound` | src/graspo/core/gpu_guard.py:204-219 | a card above index 7 is refused even when the allow variable lists it |
| `GpuGuard.PlanRoundTrip` | src/graspo/core/gpu_guard.py:903-919 | parsing the printed form of a parsed plan returns the same plan |
| `GpuGuard.BothChannelsAreCapped` | src/graspo/core/gpu_guard.py:591-640 | through either channel the observed count is between one and the cap; the returned list is too unless it is an observed index list longer than the cap, and agrees with the count iff the cards are explicit or the inventory is consistent |
| `GpuGuard.ContainerExactly` | src/graspo/core/gpu_guard.py:591-640 | the answer of the container side for every device text and inventory, reason by reason in order |
| `BodyLock.AssertRequestBodyLocked` | src/graspo/eval/vllm_client.py:83-121 | accepts iff no path is longer than 32 and no dict entry at any depth has a temperature name and a hot number; otherwise reports the first offence of the walk, a path that leads to the reported value |
| `BodyLock.LockedExactly` | src/graspo/eval/vllm_client.py:83-148 | a body is accepted iff no chain of keys and index labels is longer than 32 or ends, under a name with the letters temp in any case, at a number other than zero |
| `BodyLock.WalkLeads` | src/graspo/eval/vllm_client.py:124-142 | the walk visits exactly the places that chains of keys and index labels lead to |
| `BodyLock.TemperatureNames` | src/graspo/eval/vllm_client.py:145-148 | a name matches iff it contains the letters temp, each small or capital |
| `BodyLock.WalkIsExact` | src/graspo/eval/vllm_client.py:124-142 | the path walk below any node meets an offence iff the subtree is too deep for that path or holds a hot entry |
| `BodyLock.OnePatternSuffices` | src/graspo/eval/vllm_client.py:145-148 | the three name patterns are together equivalent to the one substring `temp` |
| `BodyLock.IndexLabelsAreCold` | src/graspo/eval/vllm_client.py:138-142 | no list index label is ever a temperature name |
| `BodyLock.OrderIsIrrelevant` | src/graspo/eval/vllm_client.py:83-142 | two bodies that differ only in dict order, at any depth, get the same answer |
| `BodyLock.ReorderingIsInvisible` | src/graspo/eval/vllm_client.py:131-136 | permuting the entries of a dict leaves its order-free view unchanged |
| `BodyLock.ListedTemperaturePasses` | src/graspo/eval/vllm_client.py:138-142 | a list of numbers passes under any key, `temperature` included |
| `RequestBody.RequestPassesExactly` | src/graspo/eval/vllm_client.py:204-237 | whatever the model and the images, the lock accepts the request iff every role, content and text passed on from the sample is cool and fits its place and the tool schemas, if sent, are cool and at most 31 levels deep |
| `RequestBody.TextRequestPassesExactly` | src/graspo/eval/vllm_client.py:204-237 | when roles, contents and items are texts only the tool schemas can be the reason for a refusal |
| `RequestBody.MessagesDecide` | src/graspo/eval/vllm_client.py:227-234 | of the fixed fields of the body only the messages can be the reason for a refusal |
| `RequestBody.ProbePasses` | src/graspo/eval/vllm_client.py:330-336 | the readiness probe body passes the lock for every model name |
| `RequestBody.RequestFields` | src/graspo/eval/vllm_client.py:227-237 | which key of a request holds which value; tools only when they are not empty |
| `RequestBody.MessageFields` | src/graspo/eval/vllm_client.py:204-226 | under the i-th message stand the role and the content of the i-th message and nothing else |
| `RequestBody.ContentFields` | src/graspo/eval/vllm_client.py:162-201 | plain contents go out as they are; the j-th part of a list has its type and its text or image URL |
| `RequestBody.ProbeFields` | src/graspo/eval/vllm_client.py:330-335 | which key of the readiness probe holds which value |
| `RequestBody.SettingsAreHarmless` | src/graspo/eval/vllm_client.py:233 | the key `chat_template_kwargs` counts as a temperature name, yet its value can never be the reason for a refusal |
| `BatchReader.BatchStream.ReadLine` | tools/gate_common.py:328 | returns up to and including the next newline and moves past it |
| `BatchReader.BatchStream.Read` | tools/gate_common.py:342-343 | returns as many bytes as there are, all of them for a negative count, and moves past them |
| `BatchReader.SplitOnceExactly` | tools/gate_common.py:306-309 | a listing line splits at its first space, and names nothing without one |
| `BatchReader.SizeFieldMeans` | tools/gate_common.py:334-337 | a size field is digits after an optional sign, and anything else is no size |
| `BatchReader.OddHeader` | tools/gate_common.py:328-337 | any header of three words announces what its third word says, unless it ends like that of a missing object |
| `BatchReader.NegativeSizeReadsAll` | tools/gate_common.py:335-343 | a negative size passes the limit and reads all that is left |
| `BatchReader.Drain` | tools/gate_common.py:353-359 | reads away exactly size + 1 bytes or the rest of the stream, in bounded pieces |
| `BatchReader.ReadObject` | tools/gate_common.py:328-344 | one turn on any byte stream, well formed or not, equals the reply specification: delivered body and remaining stream |
| `BatchReader.IterBlobs` | tools/gate_common.py:325-344 | the object loop on any byte stream equals the batch specification: yielded blobs in order and remaining stream |
| `BatchReader.HeaderIsUnderstood` | tools/gate_common.py:328-337 | for every header git writes the announced size is the length of the body, and a missing object announces nothing |
| `BatchReader.OneReplyStaysAligned` | tools/gate_common.py:328-344 | for any body bytes and any bytes behind them, a reply is delivered or skipped whole and the next header comes next |
| `BatchReader.BatchStaysAligned` | tools/gate_common.py:291-350 | for every request list and answer list the reader yields exactly the present bodies within the limit, in order, and ends at the end of the replies |
| `BatchReader.DeliveredExactly` | tools/gate_common.py:325-344 | the yielded items are the bodies of exactly the present answers within the limit, in order |
| `BatchReader.OnlyBlobsExactly` | tools/gate_common.py:325-344 | only blobs are yielded iff every present object within the limit is a blob |
| `BatchReader.TreeIsYielded` | tools/gate_common.py:332-344 | a tree that was listed with a path is yielded like a blob |
| `BatchReader.CollectRequests` | tools/gate_common.py:303-313 | every named object is requested once, in listing order, with the path of the first line that names it |
| `Calibration.PairGapsAreGaps` | src/graspo/core/result_judge.py:778-787 | the double comprehension lists the gaps of all pairs of positions and nothing else |
| `Calibration.WorstPairIsSpread` | src/graspo/core/result_judge.py:778-787 | the quadratic worst pair equals maximum minus minimum |
| `Calibration.ValidatorTripsExactly` | src/graspo/core/result_judge.py:662-687 | the derived tolerance fails its own validator iff there are enough readings, they differ, and half the signature is below the baseline |
| `Calibration.ToleranceIsBounded` | src/graspo/core/result_judge.py:790-826 | with the default signature the tolerance always exists, lies between baseline and half the bug signature, and is calibrated iff there are five readings that are not all equal |
| `Calibration.ToleranceValue` | src/graspo/core/result_judge.py:790-826 | in numbers: for least and greatest reading lo and hi the tolerance is 1.5 (hi - lo), at most half the signature and at least 0.0010302; with too few or equal readings it is 0.0010302 with its own outcome |
| `Calibration.DefaultToleranceValue` | src/graspo/core/result_judge.py:790-826 | the same with five readings and the cap 0.04675 |
| `Calibration.ValidatorBounds` | src/graspo/core/result_judge.py:662-687 | the load-time check passes exactly the tolerances from 0.0010302 to 0.04675 |
| `Calibration.PermutingReadings` | src/graspo/core/result_judge.py:790-826 | tolerance and worst pair depend only on the multiset of readings |
| `Calibration.ShiftingReadings` | src/graspo/core/result_judge.py:790-826 | adding a constant to every reading changes nothing |
| `Calibration.AddingAReading` | src/graspo/core/result_judge.py:790-826 | one more reading anywhere in the pool never lowers the tolerance |
| `Calibration.PoolAdmitsItself` | src/graspo/core/result_judge.py:790-826 | a calibrated pool accepts all of its own pairs iff its worst pair is within the cap |
| `Calibration.SignFlipMeans` | src/graspo/core/result_judge.py:829-864 | for every tolerance the two-clause test is equivalent to opposite signs and a difference above the tolerance |
| `Calibration.RelativeGapIsNeverReached` | src/graspo/core/result_judge.py:859-864 | with opposite signs one of the earlier exits always fires, so the relative-gap clause is never evaluated |
| `Calibration.OrderIsRanked` | src/graspo/core/result_judge.py:909-933 | the candidate keys are exactly the admissible keys, in strictly increasing rank |
| `Calibration.LookupIsExact` | src/graspo/core/result_judge.py:936-968 | for every table, the row returned is admissible, of the best rank present and the first of that rank; nothing is returned iff no row is admissible |
| `Calibration.AlgorithmAlias` | src/graspo/core/result_judge.py:461-480 | a GRASPO run is looked up like a GRPO run in every table, and every other name only meets rows of its own name |
| `Calibration.UnknownNeverGetsNamed` | src/graspo/core/result_judge.py:936-968 | a query with unknown model or mode never gets a row that names one |
| `Calibration.ResolutionIsOrdered` | src/graspo/core/result_judge.py:971-999 | with missing coordinates the answer is the lookup of the first completion that has a row, in the order backend, cards, algorithm; there is none iff every lookup fails |
| `Calibration.ResolutionIsExact` | src/graspo/core/result_judge.py:971-999 | in particular a hit is an admissible row for some completion, and there is none iff no completion has an admissible row |
| `Calibration.RegisteredTable` | src/graspo/core/result_judge.py:488-659 | every registered tolerance passes the load-time validator, and coordinates resolve in the registered table iff some row agrees with all that are known |
| `Calibration.RegisteredRowsAreDerived` | src/graspo/core/result_judge.py:488-596 | the first, third, fourth and fifth row carry what their recorded readings derive, and the second 1.5 times its recorded worst pair |
| `Calibration.TwoCardRowIsDerived` | src/graspo/core/result_judge.py:597-642 | the last row carries what its recorded readings derive, up to less than a float can tell |
| `Calibration.RegisteredLookup` | src/graspo/core/result_judge.py:936-968 | the registered table answers by backend, cards and normalised algorithm alone |
| `Calibration.ResolvedWithout` | src/graspo/core/result_judge.py:971-999 | which row answers after losing any of backend, cards and algorithm |
| `Calibration.DroppedCoordinates` | src/graspo/core/result_judge.py:971-999 | for every run that has a row and every subset of backend, cards and algorithm that it loses, the completed lookup has a row, and its tolerance is higher iff the loss is one of the four listed kinds |
| `Verdict.StepRulesAgree` | src/graspo/core/result_judge.py:1764-1912 | A2 passing implies the step criterion; the third-state flag implies that A2 fails on facts; A2 never passes with zero or unknown steps |
| `Verdict.A2AndWeights` | src/graspo/core/result_judge.py:1845-1911 | a passing A2 saw changed weights or had an unreachable step gate |
| `Verdict.UnreachableGateIgnoresWeights` | src/graspo/core/result_judge.py:1845-1870 | with an unreachable gate A2 passes whatever the weights did |
| `Verdict.MoreStepsKeepA2` | src/graspo/core/result_judge.py:1764-1912 | A2 is monotone in the number of optimizer steps |
| `Verdict.A2Exactly` | src/graspo/core/result_judge.py:1764-1912 | A2 passes iff every reported step total is positive, the steps reach the declared total and the plan or the gate of five or as many as the manifest says, and weights changed where the gate applies |
| `Verdict.DefaultGate` | src/graspo/core/result_judge.py:1655-1689 | without a threshold and a reach, a tier with all other evidence is usable iff it made at least five steps and moved its weights |
| `Verdict.StepCriterionExactly` | src/graspo/core/result_judge.py:2601-2638 | the step criterion and the gate-not-applicable flag in numbers, for every form the threshold and the reach can take |
| `Verdict.UsableExactly` | src/graspo/core/result_judge.py:2641-2791 | a tier is usable iff there is positive evidence for clean exit, steps, content-level reload, all artifacts, finite losses, no non-finite gradient and zero skips or a guarantee; second run, switch and calibration table play no part |
| `Verdict.AbsentReadingsThatPass` | src/graspo/core/result_judge.py:2324-2368 | a usable tier stays usable without any readable gradient norm, without a source of the reload evidence, and without step totals |
| `Verdict.AbsentReadingsThatBlock` | src/graspo/core/result_judge.py:2641-2791 | without exit code, steps, reload result, losses, gradient series, artifacts, a skip count or guarantee, or weights where the gate applies, no tier is usable |
| `Verdict.StatusMatchesClass` | src/graspo/core/result_judge.py:1617-1630 | status usable iff no failure class, not measurable iff gate-not-applicable or evidence gap, unusable iff any other; gate-not-applicable iff the flag holds and all other primary criteria pass |
| `Verdict.FlagsMean` | src/graspo/core/result_judge.py:2641-2791 | the flags of a judgement: all else in order iff the other evidence is there, a gap iff that is the class, counted towards the maximal context iff the class is real out-of-memory, passed iff there is no class |
| `Verdict.GapsExactly` | src/graspo/core/result_judge.py:1642-1998 | each primary criterion lays its failure to missing evidence iff the evidence listed for it is missing |
| `Verdict.AnomalyExactly` | src/graspo/core/result_judge.py:2307-2368 | A6 names an anomaly iff a NaN or an infinity was read, and an unread loss iff one was and nothing non-finite |
| `Verdict.NonFiniteMeansAnomaly` | src/graspo/core/result_judge.py:2516-2590 | a NaN or an infinity that was read makes a run that nothing stopped a numeric anomaly whatever its log says |
| `Verdict.UnreadLossIsUnclassified` | src/graspo/core/result_judge.py:2516-2590 | an unread loss among readings that are otherwise finite leaves such a run unclassified whatever its log says |
| `Verdict.LogOrderSpelledOut` | src/graspo/core/result_judge.py:1196-1326 | the order of precedence of the nine log classes |
| `Verdict.NoClassExactly` | src/graspo/core/result_judge.py:2516-2590 | the classifier names nothing iff nothing stopped the run, it exited 0 or not at all, and neither numbers nor log say anything |
| `Verdict.LogDecides` | src/graspo/core/result_judge.py:2516-2590 | with nothing found in process and numbers the first class of the log decides, but for a hardware text after a clean exit; without one a failed process stays unclassified |
| `Verdict.ExitCodesDecide` | src/graspo/core/result_judge.py:2574-2580 | the time-out class occurs iff the run timed out or exited 124, and exits 86 and 21 decide the class whatever the log says |
| `Verdict.EvidenceGapExactly` | src/graspo/core/result_judge.py:2691-2748 | an evidence gap occurs iff something fails, everything that fails lacks evidence, no loss of an otherwise present series is unread, the process did not fail, and the log names nothing but a discounted hardware class |
| `Verdict.DiagnosticsDoNotDecide` | src/graspo/core/result_judge.py:2641-2791 | second run, dual-channel switch and calibration table change nothing but the diagnostic criterion |
| `Verdict.RealOomExactly` | src/graspo/core/result_judge.py:2516-2590 | the class is real out-of-memory iff no timeout or reserved exit code, no earlier log class, no numeric finding, no third state and no pass |
| `Verdict.MaxContextExactly` | src/graspo/core/result_judge.py:2899-2906 | a length is recorded iff it was given and the tier passed (labelled feasible) or is a real out-of-memory (labelled boundary) |
| `Verdict.QuotedOomAfterCleanExit` | src/graspo/core/result_judge.py:2721-2745 | any passing run that loses its skip count and quotes an out-of-memory text becomes a real out-of-memory with a recorded boundary, although it exited 0 |
| `Verdict.QuietLogAfterCleanExit` | src/graspo/core/result_judge.py:2739-2748 | the same run with a silent log is an evidence gap and records nothing |
| `Verdict.A4PassesExactly` | src/graspo/core/result_judge.py:2097-2304 | A4 passes iff its conditions hold; sub-check 3 is not among them, so it never changes what sub-check 2 left |
| `Verdict.A4Sound` | src/graspo/core/result_judge.py:2097-2304 | over finite readings a pass implies equal steps, identical first-step losses when both are step 1, and final losses within the tier tolerance and so within 4.675e-2 |
| `Verdict.ChainedPassesStayUnderSignature` | src/graspo/core/result_judge.py:2097-2304 | two chained passes differ by at most 9.35e-2 |
| `Verdict.PerfectReproductionNeedsIndependence` | src/graspo/core/result_judge.py:2052-2094 | identical fingerprints with identical final losses pass only with two independence signals: another location, and no shared timestamp |
| `Verdict.SignalsExactly` | src/graspo/core/result_judge.py:2052-2094 | two signals are reached iff run root and output differ, or one of them and the time stamps, and never with one and the same time stamp |
| `Verdict.A4GapExactly` | src/graspo/core/result_judge.py:2097-2304 | A4 lays its failure to missing evidence iff a second run, a series, a calibration or a telling channel is missing |
| `Verdict.A4IsSymmetric` | src/graspo/core/result_judge.py:2097-2304 | with equal tier coordinates swapping the runs keeps the verdict and the evidence flag |
| `Verdict.NanFinalLossPasses` | src/graspo/core/result_judge.py:2196-2206 | replacing the final loss of a passing pair by NaN still passes |
| `Verdict.A4PassOrNotANumber` | src/graspo/core/result_judge.py:2196-2206 | a passing pair is within the tolerance unless its final gap is not a number |
| `Numerals.ReadIsSound` | scripts/collect_results.py:78-80 | whatever the numeric pattern accepts is a well-formed literal that spells the text |
| `Numerals.ReadIsComplete` | scripts/collect_results.py:78-80 | every well-formed literal is accepted and read as itself |
| `Numerals.ParseNumericExactly` | scripts/collect_results.py:141-157 | for every text: it is worth the float of the literal that its bare part spells, and nothing when that spells none: never NaN, never zero |
| `Numerals.DecimalReads` | scripts/collect_results.py:141-157 | `whole.digits` reads as the number whose product with the power of ten is all its digits, negated by a sign, or as an infinity from the overflow bound on |
| `Numerals.ExponentMultiplies` | scripts/collect_results.py:141-157 | a suffix `e` with n multiplies what is read by 10^n |
| `Numerals.ExponentDivides` | scripts/collect_results.py:141-157 | a suffix `e-` with n divides what is read by 10^n |
| `Numerals.WholeReads` | scripts/collect_results.py:141-157 | digits alone read as their number |
| `Numerals.SpecialsRead` | scripts/collect_results.py:141-157 | `nan`, `inf` and `-inf` read as such in any case |
| `Numerals.OverflowIsPastTheLargest` | scripts/collect_results.py:155 | the bound from which a literal reads as an infinity is the largest double and half a unit of its last place more |
| `Numerals.PaddingIsIgnored` | scripts/collect_results.py:148-150 | blanks and then quotes around a literal change nothing |
| `Numerals.QuotedNewlineIsIgnored` | scripts/collect_results.py:78-80 | one newline between a literal and its closing quote changes nothing |
| `Numerals.BareMeans` | scripts/collect_results.py:150 | the bare part is the text without its outer blanks, then without its outer quotes |
| `Collect.SeriesEvidence.AddRow` | scripts/collect_results.py:598-615 | one row appends one loss and one gradient reading, a null or unreadable one as the missing marker, and an integer step total if there is one |
| `Collect.CollectSeries` | scripts/collect_results.py:566-628 | the row loop leaves exactly the readings, step totals, step count and first step of the rows |
| `Collect.A6Exactly` | src/graspo/core/result_judge.py:2324-2368 | after collection A6 passes iff there are rows, every loss reads as finite and no gradient reads as NaN or infinite; an anomaly is named iff one was read; every other failure is a gap |
| `Collect.UnreadGradientsPass` | src/graspo/core/result_judge.py:2346-2368 | rows with finite losses and no gradient norm at all pass A6 |
| `Collect.A6IsFailClosedExactly` | src/graspo/core/result_judge.py:2346-2368 | A6 passes exactly on rows whose losses and gradient norms all read as finite, unless the losses do and a gradient norm cannot be read |
| `Collect.ParseNumericIsReader` | scripts/collect_results.py:141-157 | null reads as nothing and no text reads as the missing marker, so what holds for every reader of numbers holds for this one |
| `Collect.UsableRunExactly` | scripts/collect_results.py:1960-2008 | for every reader of numbers, a run collected from rows and rank files is usable iff it exited cleanly, its rows are healthy and meet the gate, its largest skip total is zero or guaranteed, it reloads and its artifacts are there |
| `Collect.CollectAndJudge` | scripts/collect_results.py:1960-2008 | the row loop, the file loop and the judgement together give exactly that verdict |
| `Collect.UsableMeansSilentRanks` | scripts/collect_results.py:1960-2008 | with distinct file names, non-negative readings, at least one of them and no guarantee, usable means healthy rows and no skip in any row of any rank |
| `Collect.ReproducedRows` | src/graspo/core/result_judge.py:2097-2304 | two collected healthy runs that pass A4 have as many rows, the same first loss and final losses within 4.675e-2 |
| `Collect.RankTotal` | scripts/collect_results.py:289-312 | the row loop sums the larger counter of every row that has one |
| `Collect.MaxValue` | scripts/collect_results.py:317 | the reported count bounds every rank and is attained, or there is no rank |
| `Collect.ExtractSkipped` | scripts/collect_results.py:285-322 | the file loop builds the per-rank dict and returns its maximum |
| `Collect.PerRankHolds` | scripts/collect_results.py:287-314 | the dict entry of a name is the total of the last file of that name that has a reading |
| `Collect.CollectAndJudgeA7` | scripts/collect_results.py:1960-1970 | with a reading and no guarantee, A7 passes iff the largest total of a deciding rank file is zero, which for non-negative readings means that all of them are silent; without readings it follows the fallback count |
| `Collect.ZeroMeansSilent` | scripts/collect_results.py:304-317 | for non-negative readings the largest deciding total is zero iff every reading of every deciding file is zero |
| `Collect.NoRankIsHidden` | scripts/collect_results.py:285-322 | with distinct file names the reported count bounds every rank total and some rank attains it |
| `Collect.DistinctRanksAllCount` | src/graspo/core/result_judge.py:1915-1956 | with distinct file names A7 sees every row of every rank |
| `Collect.SameNameHidesSkips` | scripts/collect_results.py:287-314 | of two files with one name the later hides any number of skips |
| `Collect.MoreEvidenceNeverLowers` | scripts/collect_results.py:285-322 | adding ranks or raising totals never lowers the reported count |
| `Collect.InsertingARow` | scripts/collect_results.py:304-312 | inserting a row with a non-negative or missing reading never lowers the total of its rank |
| `Collect.TotalIsZeroExactly` | scripts/collect_results.py:304-312 | a rank total is zero iff every reading of the rank is zero |
| `Collect.RowValueMeans` | scripts/collect_results.py:304-309 | a row counts the larger of its two counters, and nothing only without both |
| `Readiness.PostOnce` | src/graspo/eval/vllm_client.py:416-438 | the retry loop equals its specification: outcome, clock and number of tries |
| `Readiness.WaitUntilReady` | src/graspo/eval/vllm_client.py:339-357 | the polling loop equals its specification: verdict, clock, probes and tries |
| `Readiness.ProbeIsBounded` | src/graspo/eval/vllm_client.py:416-438 | one probe ends within R tries of at most T plus the sum of min(2i, 10) over its pauses, and makes at most R tries |
| `Readiness.WaitingIsBounded` | src/graspo/eval/vllm_client.py:301-357 | for every reply script, waiting ends by the budget plus the cost of one probe, after at most `limit` probes |
| `Readiness.DefaultWaitIsBounded` | src/graspo/eval/vllm_client.py:323-329 | with the defaults waiting ends within 966 s and 60 probes |
| `Readiness.PostMeans` | src/graspo/eval/vllm_client.py:416-438 | a request reports choices, or crashes, iff one of its tries did, and that try is its last |
| `Readiness.RefusedRequestTakes` | src/graspo/eval/vllm_client.py:416-438 | a request whose n tries are all refused after d seconds takes n d and pauses of 2, 4, 6, 8 and then 10 seconds, in all 10n - 30 past six tries |
| `Readiness.LimitInNumbers` | src/graspo/eval/vllm_client.py:316-329 | a given number of probes is taken as it is; otherwise it is the number of intervals that fit the budget, or one |
| `Readiness.PollMeans` | src/graspo/eval/vllm_client.py:339-357 | waiting returns normally iff a try saw choices; giving up means the probes or the budget were used up; no attempt iff the limit is below one |
| `Readiness.BadSleepExactly` | src/graspo/eval/vllm_client.py:347-354 | waiting ends in the run-time error of a negative pause iff the interval is negative and a second probe would be due after one that neither saw choices nor crashed |
| `Readiness.BoundIsReached` | src/graspo/eval/vllm_client.py:301-357 | for every configuration whose rounds can fill the budget, and for every one without a budget, some run ends exactly at the budget plus the cost of one whole probe |
| `Readiness.DefaultBoundIsReached` | src/graspo/eval/vllm_client.py:323-357 | with the defaults some run takes exactly 966 s |
| `Readiness.BoundNeedsRounds` | src/graspo/eval/vllm_client.py:339-357 | conversely the bound is reached only with a second probe, a positive interval and rounds long enough to fill the budget |
| `Readiness.OneTryBoundExactly` | src/graspo/eval/vllm_client.py:339-357 | with one try to a probe and a positive budget some run reaches the bound iff there is a second probe, a positive interval, and enough rounds of timeout plus interval to fill the budget |
| `Images.ResolveImagePaths` | src/graspo/eval/dataset.py:167-184 | the loops return the resolved non-empty paths of the image items in traversal order |
| `Images.BuildMessages` | src/graspo/eval/vllm_client.py:162-201 | succeeds iff there are as many image items as paths; roles, texts, order and kinds carry over and no two places share a slot |
| `Images.ConsistentExactly` | src/graspo/eval/dataset.py:167-184 | a sample agrees with its own resolved paths iff no image item has an empty path |
| `Images.FillUrls` | src/graspo/eval/vllm_client.py:217-225 | in place: every slot gets the URL of its position, the cursor never overruns and ends at the number of URLs |
| `Images.EncodeAll` | src/graspo/eval/vllm_client.py:212-216 | encodes every path in order or reports the first that cannot be read |
| `Images.BuildRequest` | src/graspo/eval/vllm_client.py:204-225 | success means no empty reference and every slot showing the encoding of its resolved path; each error means exactly its own cause |
| `Images.SlotHoldsItsReference` | src/graspo/eval/vllm_client.py:217-225 | in a finished request the k-th image slot encodes the k-th image reference of the sample |
| `ErrorTable.CategoriesMean` | src/graspo/cli/analysis.py:472-518 | every completion lands in a listed category, and each of the ten categories names exactly its own completions |
| `ErrorTable.ParseKinds` | src/graspo/cli/analysis.py:495-502 | the first parser message that names a category decides; without one the parse failed otherwise |
| `ErrorTable.KeepTerminal` | src/graspo/cli/analysis.py:530-535 | per sample and step the kept record is the last among those with the greatest attempt number, once per group, in order of first appearance |
| `ErrorTable.CellsCount` | src/graspo/cli/analysis.py:546-555 | a cell counts its own events, lists their samples once each, and exists iff it has one |
| `ErrorTable.TableHoldsAllEvents` | src/graspo/cli/analysis.py:537-557 | the cells together count every event once |
| `ErrorTable.ToRows` | src/graspo/cli/analysis.py:559-578 | every cell has its row, the counts are kept, and the rows ascend by bucket and then in category order |
| `ErrorTable.CountErrors` | src/graspo/cli/analysis.py:543-557 | the completion loop feeds both tables exactly the events of the kept records |
| `ErrorTable.EventsOccur` | src/graspo/cli/analysis.py:543-557 | the events of a bucket and category are as many as the completions that carry them, counted by position |
| `ErrorTable.AggregateErrors` | src/graspo/cli/analysis.py:521-583 | step and epoch rows sum to exactly the completions of the kept records that have a step or an epoch; rows are sorted, and each counts the completions of its category in its step or epoch and lists their samples once |
| `Summary.Summarize` | src/graspo/eval/evaluate.py:73-141 | the record loop equals the summary as counts over the records |
| `Summary.SummaryTotals` | src/graspo/eval/evaluate.py:93-141 | total, errors, valid, correct and incorrect counted over the positions of the records |
| `Summary.SummaryAccuracies` | src/graspo/eval/evaluate.py:119-141 | accuracy and percentage are the share of hits rounded to six and four places, over all valid records and over those outside the overlap |
| `Summary.SummaryTables` | src/graspo/eval/evaluate.py:104-118 | the tables count records and hits by tool and by action, nameless ones under `unknown` |
| `Summary.RoundingIsNearest` | src/graspo/eval/evaluate.py:119-141 | rounding takes the nearest integer, and of two the even one |
| `Summary.TallyMeans` | src/graspo/eval/evaluate.py:111-114 | a per-key tally counts exactly the valid records filed under the key |
| `Summary.TableAddsUp` | src/graspo/eval/evaluate.py:111-114 | each per-key table adds up to the totals of correct and valid records |
| `Summary.SummaryConserves` | src/graspo/eval/evaluate.py:119-141 | total = valid + errors, valid = correct + incorrect, both tables balance, excluded = errors + valid overlapped samples |
| `Summary.EmptyOverlap` | src/graspo/eval/evaluate.py:123-127 | an empty overlap leaves the accuracy unchanged; its excluded count is the number of errors, so it is zero iff there are none |
| `Summary.ComparabilityNotes` | src/graspo/eval/evaluate.py:225-255 | the reasons that apply, in the order they are looked at |
| `Summary.NotesAreExact` | src/graspo/eval/evaluate.py:225-255 | a reason is noted iff it applies, and none is noted iff the reports are comparable |
| `Summary.ComputeDelta` | src/graspo/eval/evaluate.py:165-222 | a delta is given iff the reports are comparable and the baseline role is as demanded; it is the difference of the percentages with its two threshold verdicts; otherwise the error names its cause |
| `Summary.DeltaIsAccurate` | src/graspo/eval/evaluate.py:203-212 | the delta of rounded percentages is within 1e-4 points of the exact difference, so a threshold verdict can only be wrong that close to it |
| `Summary.DeltasCompose` | src/graspo/eval/evaluate.py:203-212 | comparability is transitive and symmetric, and deltas add along chains |

## Left out

- Regular expressions on logs and their texts; only the order of the classes and which of them match are modelled.
- Floating-point rounding: readings, tolerances, clocks and percentages are exact, and `round` is decimal rounding.
- Unicode: digits, blanks and case are the ASCII ones, the display width is an arbitrary predicate that is false on
  ASCII, and a non-ASCII byte of a header becomes the replacement character.
- `int()` of a header field with underscores or inner blanks; git writes plain digits.
- Error and note texts, except the two A6 details that later code branches on.
- Subprocesses, files, HTTP, CUDA and torch; a sleep lasts exactly as long as asked.
- Messages without a role and list items that are no dicts, which end in a run-time error, and image references that are
  no text, which the source prints first.
- The sentinel object for an unreadable NaN, which A6 treats like a missing reading.
- Overflow of a huge JSON integer in the temperature lock, which ends in a run-time error.
- JSON keys are texts, buckets are integers and the nested cell dicts are one map keyed by bucket and category.
- A record without an attempt number counts as attempt 0; the model takes the number as given.
- Completion parsing and the value comparison of the classifier, which are inputs.
- The other series sources of the collector (trainer state, standard output, the ms-swift counter) and the declared step
  total they add to the evidence.
- `SeriesEvidence` fields that only carry notes, sources and epochs.
- Probing `nvidia-smi`, sample targets and the idle check of the guard.
- Metadata validation and building of calibration rows, the median-shift ratio and the notes on degenerate passes.
- Peak-memory columns and performance analysis, which copy and scale fields of single records; step analysis, whose
  sample ranges are the one thing that depends on the record before; attribution, which counts per step and decision
  over the records that `KeepTerminal` selects.
- Train overlap of image sets: two set comprehensions and a subset test.
- Calibration.RegisteredTable: the load-time check that doubles a tolerance allows rounding slack, which exact reals do
  not need.
- LiteralWrapper.SafeExactly: is about alphabets with a plain letter, one that takes one column and needs no escape, and
  about indents of spaces, tabs and form feeds; without a plain letter it also depends on how the widths of the escapes
  divide the budget whether a cut meets one.
- LiteralWrapper.FitsExactly: is about alphabets with a plain letter, for the same reason.
- Readiness.BoundIsReached: fills the budget with rounds of one try each; configurations that need longer rounds lie
  between it and `BoundNeedsRounds`; with one try to a probe there are none (`OneTryBoundExactly`).
