# Verification of mishegos

A Dafny 4.11 model of the parts of the mishegos differential fuzzer that carry its correctness, with proofs. Check it
with `dafny verify dfyconfig.toml`.

- **The chunk ring** (`Ring*.dfy`). Main fills a ring of input chunks, the workers decode every slot, main collects the
  answers. Main, the workers and main's SIGCHLD handler are agents of a state machine whose steps interleave in any
  order; workers may die in any call of `try_decode`. Ring size, slots per chunk, number of workers, inputs and decoders
  are parameters, and a decoder may answer differently each time it is called. `RingMachine` holds the machine,
  `RingInvariant` and `RingSteps` its invariant and one lemma for each step, `RingRuns` what holds in every state of every
  schedule, `RingProgress` and `RingCompletion` when main gets to the end. `RingProgram` is the imperative form: a class
  over shared memory whose methods are the code between two scheduling points.
- **The futex protocol** (`Futex.dfy`): spinning, registering, the kernel's check-and-sleep, notifying. `RingFutex.dfy` is
  the ring with its waits made of these operations, and reaches the same states as the ring machine; `RingFairness.dfy`
  says when main gets to the end of that.
- **Output** (`OnlineFilter`, `Wire`, `Reader`, `Cohorts`, `Hex`, `Json*.dfy`): the filter and writer of
  `process`, the reader and printer of mish2jsonl on arbitrary byte streams, hexadecimal text, JSON escaping.
- **Mutators** (`Mutator.dfy`, `Rng.dfy`): which candidates come out, their windows, the random number generator.
- **Analysis** (`Passes`, `PassOrder`): the size-discrepancy passes, dedupe, the topological sort of passes.
- **The Ghidra worker** (`PcodeCache`, `DisassemblyCache`): the relocating varnode pool with label back-patching, and the
  cache of parser contexts.
- **`EndToEnd`** puts ring, filter, stream, reader and passes together.

## Results in short

1. Whatever the interleaving, the crashes and the timing of the handler, the records main has handed to `process` are a
   prefix of what one sequential pass over the inputs gives, and all of it once main leaves its loop
   (`RingRuns.RingRefinesSequential`). A crash shows as `S_CRASH` in exactly the slot whose decoding died. A reader of the
   stream gets exactly those of the sequential records that pass the filter (`EndToEnd.CampaignIsSequential`).
2. No reachable state deadlocks, and every step that moves lowers a well-founded measure, with one exception that the
   source has. A worker decrements `remaining_workers` (`src/mishegos/mishegos.c:181`) and only afterwards looks at
   `input_count` (line 185) to see whether to leave. Main may refill that chunk in between; if it refills it with the
   short last chunk, the worker leaves one lap early and main waits for it for ever. A fair schedule finishes if and only
   if that happens to no worker (`RingCompletion.FairFinishes`); if it finishes, the ring has been drained completely
   (`FairRunComplete`), and if it does not, exactly the records of the last lap are lost (`FairHangLosesLastLap`). Every
   fair schedule finishes if and only if there are no workers or there are fewer inputs than the ring has slots, 65536
   (`FinishesExactlyWhen`). All of this also holds with the waits made of futex operations, for every infinite run in
   which main, each worker and the handler take turns again and again, whoever spins or sleeps how long
   (`RingFairness.FairPlayIsFairRun` and what follows it). Result 1 holds in all cases.
3. The doc comment of `getParserContext` promises distinct contexts for distinct addresses of one window. That fails when
   an old hit is mixed with later misses (`DisassemblyCaching.HitThenMissCollide`); `DistinctExactlyWhenSafe` says
   exactly when it holds, and `WorkingSet` that it holds for misses.
4. `find-size-discrepancies` by itself also keeps cohorts without any success (`Passes.FindSizeDiscrepanciesKeeps`); in
   its profile `filter-incomparable` removes them first.
5. Of a stream that breaks off inside a cohort, mish2jsonl drops the broken cohort, without any complaint, unless the
   break is inside its last result text, past the text's first byte; then it takes the cohort for complete
   (`Wire.Truncated`). Three fields of the stream are not checked. A length byte above 15 leads the printer out of its
   buffers (`Reader.OverlongInput`); a soname length of 2^64 - 1 makes the size of its block wrap to 0, and whatever bytes
   follow are read past it (`WrappingName`); 2^31 workers or more overflow the `int` that counts them
   (`OverflowingCount`). A stream is read and printed within memory exactly if none of these is met on the way
   (`Reader.CohortReader.PrintResults`), and the fuzzer writes no others (`EndToEnd.CampaignPrints`).
6. The soname is the one text that mish2jsonl prints without escaping. A printed line reads back as a document that shows
   its cohort if and only if no soname holds a quote, a backslash or a control character (`JsonDocument.PrintedLine`).
7. Moving dedupe across a filter is harmless exactly when, for every input, a later cohort passes only if the first does
   (`Passes.DedupeCommutesExactly`).

The help text says that `-s -1` means one worker less than all; the code (lines 433-438) makes it all workers, and the
model follows the code. `docs/output_cohorts_format.md` describes a `workerno` field and a length-prefixed input that the
code neither writes nor reads; the model follows the code.

## Model

| member | source | states |
|---|---|---|
| RingRuns.RingRefinesSequential | src/mishegos/mishegos.c:443-497 | in every state of every schedule the records handed to `process` are a prefix of the sequential program's, and all of them when main has left its loop |
| RingRuns.SequentialAt | src/mishegos/mishegos.c:463-467 | record k of the sequential program pairs input k with each worker's k-th call of `try_decode`, `S_CRASH` where that call died |
| RingRuns.SequentialPrefix | src/mishegos/mishegos.c:463-467 | the sequential program on fewer inputs gives a prefix |
| RingRuns.RunInv | src/mishegos/mishegos.c:157-193 | the ring invariant holds, and all indices are in bounds, in every reachable state |
| RingRuns.ExclusiveAccess | src/mishegos/mishegos.c:444-490 | while main processes or refills a chunk, no worker is decoding in it, dead in it, or has slots of it left |
| RingRuns.CounterIsOwing | src/mishegos/mishegos.c:181-182 | `remaining_workers` of a published chunk is the number of workers that owe it less those crashed in it with a pending restart, and its generation is the one main published |
| RingRuns.LagBound | src/mishegos/mishegos.c:157-163 | no worker is ahead of main or more than one lap behind, and comparing generations modulo 2^32 tells a waiting worker exactly whether its chunk is published |
| RingRuns.AttemptsInOrder | src/mishegos/mishegos.c:168-179 | across crashes and restarts each worker attempts the inputs once each, in order, and at most one of its chunks has a non-zero `remaining` |
| RingRuns.CrashRecoveryExact | src/mishegos/mishegos.c:311-328 | for a dead worker not yet reaped, the handler's search ends at the chunk it died in and `input_count - remaining` is the slot whose decoding died |
| RingRuns.CrashedSlot | src/mishegos/mishegos.c:168-179 | after a crash `remaining` of the current chunk is the number of slots from the crashing one on |
| RingRuns.FinishedLogged | src/mishegos/mishegos.c:469-471 | main leaves its loop only after all inputs have been handed on |
| RingSteps.NextInv | src/mishegos/mishegos.c:443-497 | every step of every agent keeps the ring invariant |
| RingSteps.InitInv | src/mishegos/mishegos.c:398-432 | zeroed shared memory and freshly started workers satisfy it |
| RingSteps.BeginInv | src/mishegos/mishegos.c:163-170 | taking up a chunk, at its start or behind a crashed slot, keeps it |
| RingSteps.DecodeInv | src/mishegos/mishegos.c:171-179 | decoding one slot, or dying in it, keeps it |
| RingSteps.FinishInv | src/mishegos/mishegos.c:181-182 | signing off a chunk keeps it |
| RingSteps.CheckReads | src/mishegos/mishegos.c:184-186 | the `input_count` read after signing off is short exactly if the chunk was the last one, or the last one has already replaced it |
| RingSteps.CheckInv | src/mishegos/mishegos.c:184-192 | leaving or moving on keeps it |
| RingSteps.ReapCrashInv | src/mishegos/mishegos.c:310-328 | the handler's work on a crashed worker keeps it |
| RingSteps.ReapExitInv | src/mishegos/mishegos.c:330-332 | reaping a worker that left in the ordinary way changes no chunk and keeps it |
| RingSteps.AwaitInv | src/mishegos/mishegos.c:444-444 | the end of main's wait keeps it, handler's decrements included |
| RingSteps.RestartInv | src/mishegos/mishegos.c:448-456 | restarting a worker undoes the decrement and keeps it |
| RingSteps.WaitAgainInv | src/mishegos/mishegos.c:457-460 | waiting again after a restart keeps it |
| RingSteps.StartProcessInv | src/mishegos/mishegos.c:463-464 | after a scan without restarts every worker is done with the chunk |
| RingSteps.AnswerInPlace | src/mishegos/mishegos.c:463-467 | every worker's slot then holds its answer of the sequential program |
| RingSteps.RecordIsSequential | src/mishegos/mishegos.c:463-467 | what main hands to `process` is the sequential program's record |
| RingSteps.ProcessInv | src/mishegos/mishegos.c:463-467 | handing on a record keeps the invariant |
| RingSteps.AfterProcessInv | src/mishegos/mishegos.c:469-474 | stopping, refilling or draining keeps it |
| RingSteps.FillInv | src/mishegos/mishegos.c:475-486 | refilling a chunk, in full or with the last inputs, keeps it |
| RingSteps.StoreWorkersInv | src/mishegos/mishegos.c:487-487 | storing `remaining_workers` keeps it |
| RingSteps.StoreGenerationInv | src/mishegos/mishegos.c:488-488 | publishing the generation keeps it |
| RingSteps.AdvanceInv | src/mishegos/mishegos.c:492-496 | moving to the next index keeps it |
| RingSteps.GenerationTest | src/mishegos/mishegos.c:163-163 | the equality test on wrapped generations agrees with publication |
| RingPositions.PositionFormula | src/mishegos/mishegos.c:492-496 | chunk number = (generation - 1) * chunks + index |
| RingPositions.NextPosition | src/mishegos/mishegos.c:188-192 | the step of index and generation leads to the next chunk number |
| RingPositions.IdxWindow | src/mishegos/mishegos.c:188-192 | chunks less than a lap apart never share an index |
| RingMachine.FirstBusy | src/mishegos/mishegos.c:312-315 | the first chunk with a non-zero `remaining`, if there is one |
| RingInvariant.ChunkShape | src/mishegos/mishegos.c:474-486 | all chunks but the last are full, the last is short (perhaps empty), and they tile the inputs |
| RingProgress.SomeoneCanMove | src/mishegos/mishegos.c:443-497 | no deadlock: unless main has finished or waits for a worker that left early, some event moves |
| RingProgress.StepMeasure | src/mishegos/mishegos.c:443-497 | every event that moves lowers a lexicographic measure, however many workers crash |
| RingProgress.LeftNonNegative | src/mishegos/mishegos.c:443-497 | that measure is bounded below |
| RingProgress.WhoOwes | src/mishegos/mishegos.c:444-444 | while main waits with a non-zero counter, some worker owes the chunk |
| RingCompletion.FinishesExactlyWhen | src/mishegos/mishegos.c:181-186 | every fair schedule brings main to the end of its loop if and only if there are no workers or fewer inputs than slots in the ring |
| RingCompletion.FairFinishes | src/mishegos/mishegos.c:443-497 | a fair schedule brings main to the end of its loop if and only if no worker leaves a lap early on it, wherever in the ring the inputs run out |
| RingCompletion.StraysNeverFinishes | src/mishegos/mishegos.c:181-186 | fair or not, a schedule on which a worker leaves a lap early never finishes |
| RingCompletion.FairEnd | src/mishegos/mishegos.c:443-497 | a fair schedule comes to rest with main finished, or waiting for a worker that left a lap early |
| RingCompletion.FairRunComplete | src/mishegos/mishegos.c:463-496 | every fair schedule that finishes, in the first lap, in a later one or on a boundary, has handed on exactly the sequential program's records, and every worker has attempted every input once, in order, and left |
| RingCompletion.FairHangLosesLastLap | src/mishegos/mishegos.c:463-496 | a fair schedule that does not finish stops with exactly the chunks in front of the last lap handed on |
| RingCompletion.SomeFairScheduleHangs | src/mishegos/mishegos.c:181-186 | otherwise some fair schedule never gets main to its end |
| RingCompletion.DriveToStray | src/mishegos/mishegos.c:181-186 | the schedule that makes a worker leave one lap early |
| RingCompletion.Settles | src/mishegos/mishegos.c:443-497 | every schedule comes to rest after finitely many moves |
| RingProgram.Campaign.constructor | src/mishegos/mishegos.c:398-432 | the initial shared memory |
| RingProgram.Campaign.WorkerMove | src/mishegos/mishegos.c:162-193 | one atomic piece of the worker's loop changes the memory as the machine's worker step |
| RingRuns.DecodesNext | src/mishegos/mishegos.c:168-179 | a worker in its slot loop, begun at the first slot or behind a crash, is about to decode the first input it has not attempted, and `remaining` counts the slots from there on |
| RingProgram.Campaign.SigchldHandler | src/mishegos/mishegos.c:303-333 | the handler's search loop marks, records and decrements as the machine's handler step |
| RingProgram.Campaign.MainMove | src/mishegos/mishegos.c:443-497 | one atomic piece of main's loop changes the memory as the machine's main step |
| RingProgram.Campaign.Collect | src/mishegos/mishegos.c:463-467 | the record of a slot holds every worker's output |
| RingProgram.Campaign.FillChunk | src/mishegos/mishegos.c:475-486 | the mutator loop takes the next inputs up to a chunk, and sets the exit index at the first refusal |
| RingProgram.Execute | src/mishegos/mishegos.c:443-497 | running any schedule of the three agents collects a prefix of the sequential records, all of them if main gets to its end |
| Futex.NoLostWakeup | src/mishegos/mishegos.c:63-98 | in every schedule, a waiter asleep on a cell that holds its target has a writer that has stored and not finished notifying |
| Futex.WaiterReturns | src/mishegos/mishegos.c:63-79 | with no such writer left, a waiter on a cell that holds its target returns within four of its moves |
| Futex.NextInv | src/mishegos/mishegos.c:63-98 | every load, store, notify, sleep, wake and restarted system call keeps the futex invariant |
| Futex.RunInv | src/mishegos/mishegos.c:63-98 | which therefore holds in every reachable state |
| Futex.HandlerStepInv | src/mishegos/mishegos.c:324-327 | the handler's unnotified decrement keeps it, since it interrupts the only waiter |
| RingFutex.NobodySleepsForEver | src/mishegos/mishegos.c:63-98 | with the ring's waits made of futex operations, from every reachable state, whoever sleeps, any event of the ring machine can be brought about by further turns |
| RingFutex.PlayRefinesSequential | src/mishegos/mishegos.c:443-497 | with spinning, sleeping and notifying, the records handed on are still a prefix of the sequential program's, and all of them at the end |
| RingFutex.PlayIsRun | src/mishegos/mishegos.c:63-98 | the state of the ring after any turns is one the ring machine reaches |
| RingFutex.RunIsPlay | src/mishegos/mishegos.c:63-98 | and every state the ring machine reaches is reached by some turns |
| RingFutex.TurnCoherent | src/mishegos/mishegos.c:63-98 | every turn keeps the cells in step with the ring: who waits where, for what, and who has a notification left to do |
| RingFutex.SleeperHasWaker | src/mishegos/mishegos.c:93-98 | a sleeper whose cell holds its target has a writer one or two moves from waking it |
| RingFutex.MainWaits | src/mishegos/mishegos.c:444-444 | main leaves its wait exactly when it sees zero |
| RingFutex.HandlerMarks | src/mishegos/mishegos.c:324-327 | the handler's unnotified decrement, at any moment of main's wait, keeps the cells in step |
| RingFutex.WorkerSignsOff | src/mishegos/mishegos.c:181-182 | a worker's decrement keeps the cells in step, and leaves it with a notification to do exactly if the counter is now zero |
| RingFutex.MainPublishes | src/mishegos/mishegos.c:488-489 | publishing a generation keeps the cells in step and leaves main with a notification to do |
| RingFutex.BringsNearer | src/mishegos/mishegos.c:63-98 | the turn of the agent that an event waits for, whoever must wake a sleeper or the event's own agent, makes the event happen or brings it nearer, spinning or not |
| RingFutex.OthersNoFarther | src/mishegos/mishegos.c:63-98 | while the ring stands still nobody else's turn puts the event farther off or makes it wait for another agent at the same distance |
| RingFairness.FairPlayIsFairRun | src/mishegos/mishegos.c:63-98 | every infinite run with futex waits in which all agents take turns again and again is, state by state, a fair schedule of the ring machine |
| RingFairness.PlayFinishesExactlyWhen | src/mishegos/mishegos.c:157-193 | with futex waits, every fair run brings main to the end of its loop if and only if there are no workers or fewer inputs than slots in the ring |
| RingFairness.FairPlayFinishes | src/mishegos/mishegos.c:443-497 | a fair run with futex waits finishes if and only if on it no worker leaves a lap early |
| RingFairness.FairPlayComplete | src/mishegos/mishegos.c:463-496 | if it finishes, it has handed on exactly the sequential program's records and all workers are through with all inputs |
| RingFairness.FairPlayHangLosesLastLap | src/mishegos/mishegos.c:463-496 | if not, it comes to rest in main's wait with exactly the chunks in front of the last lap handed on |
| RingFairness.SomeFairPlayHangs | src/mishegos/mishegos.c:181-186 | such a run exists for every stream that does not end in the first lap |
| RingFairness.StillStuck | src/mishegos/mishegos.c:63-98 | where the ring stands still on a fair run, no event of the ring machine can move it: no agent is kept from its move by a wait or a sleep |
| Wire.RoundTrip | src/mishegos/mishegos.c:234-247 | reading any concatenation of complete cohorts gives all of them back in order and then stops |
| Wire.Truncated | src/mish2jsonl/mish2jsonl.c:136-192 | what is read from a stream that breaks off inside a cohort, for every place of the break |
| Wire.WholeCohort | src/mish2jsonl/mish2jsonl.c:178-192 | one written cohort in front of any tail is read back, the tail is left |
| Wire.WholeOutputs | src/mish2jsonl/mish2jsonl.c:183-189 | so are the answers of any number of workers, none included |
| Wire.WholeOutput | src/mish2jsonl/mish2jsonl.c:184-188 | one worker's name, status, size and text, an empty text included |
| Wire.WholeString | src/mish2jsonl/mish2jsonl.c:165-176 | a length-prefixed string with a prefix of either width |
| Wire.CutString | src/mish2jsonl/mish2jsonl.c:136-176 | a string of which at least one byte is there is accepted and filled up with zeros |
| Wire.CutAnswer | src/mish2jsonl/mish2jsonl.c:184-188 | an answer cut anywhere but inside its text ends the parse |
| Wire.CutCohort | src/mish2jsonl/mish2jsonl.c:178-192 | a cohort cut anywhere but inside its last text ends the parse |
| Wire.ValueOf | src/mishegos/mishegos.c:240-246 | little-endian integers of any width read back |
| Wire.AnswerLayout | src/mishegos/mishegos.c:240-246 | where the fields of an answer lie, and their widths |
| Wire.CohortLayout | src/mishegos/mishegos.c:234-238 | where the worker count, the length byte, the slot and the answers lie |
| Reader.CohortReader.PrintResults | src/mish2jsonl/mish2jsonl.c:221-229 | on any byte stream: reading and printing stay within memory exactly if every cohort's length byte is at most 15 and no soname length wraps with bytes behind it and no worker count overflows the loop counter; then the lines are those of all cohorts the stream parses to, in order, and otherwise those in front of the first cohort where this fails (`JsonDocument.PrintedLine` says what a line tells) |
| Reader.OverlongInput | src/mish2jsonl/mish2jsonl.c:111-116 | a stream that is read without complaint and whose cohort cannot be printed within the buffers |
| Reader.WrappingName | src/mish2jsonl/mish2jsonl.c:165-172 | a stream whose soname length wraps the size of its block to 0: it gives no cohort and is read past the block |
| Reader.OverflowingCount | src/mish2jsonl/mish2jsonl.c:178-183 | a worker count of 2^31, which overflows the loop counter |
| Reader.WrittenPrintable | src/mishegos/mishegos.c:234-247 | what the fuzzer writes for slots as the mutators fill them can always be read and printed within memory |
| Wire.CohortsStayInside | src/mish2jsonl/mish2jsonl.c:178-192 | in front of any tail, written cohorts are read within memory, and the whole is if the tail is |
| JsonLines.PrintCohort | src/mish2jsonl/mish2jsonl.c:110-134 | one cohort gives the values of its line exactly if its length byte is at most 15 (`JsonDocument.PrintedLine` says what they tell) |
| JsonDocument.PrintedLine | src/mish2jsonl/mish2jsonl.c:110-134 | the text of a line reads back as a JSON document that shows, under their names, the worker count, the bytes of the input, and for each worker the status by number and name, the number of bytes decoded, the length, the soname and the result up to its NUL; if and only if no soname needs escaping |
| JsonDocument.LineReadsBack | src/mish2jsonl/mish2jsonl.c:110-134 | the same for any reader that does with these forms of text what RFC 7159 says, whatever the heap left in `workerno` |
| JsonDocument.PrintLine | src/mish2jsonl/mish2jsonl.c:110-134 | the `fprintf`s with their loop and its commas give that text |
| JsonDocument.FileReadsBack | src/mish2jsonl/mish2jsonl.c:221-229 | read line by line, the output gives one such document for each cohort, in order, as long as no soname needs escaping |
| JsonText.Rfc7159Lawful | src/mish2jsonl/mish2jsonl.c:51-53 | a reader written after sections 2 to 7 of RFC 7159 is one of those readers |
| JsonText.ReadsAsItself | src/mish2jsonl/mish2jsonl.c:124-128 | a text that is put between quotes as it is, as the soname is, reads back as itself exactly if it holds no quote, backslash or control character |
| JsonLines.EscapedText | src/mish2jsonl/mish2jsonl.c:122-128 | printing the escaped buffer as a C string prints all of the escaped text |
| Reader.CohortReader.ReadNext | src/mish2jsonl/mish2jsonl.c:178-192 | true exactly if no read has failed, with the next cohort in `results` and the rest of the stream left; leaves memory exactly if the worker count overflows the loop counter or a soname length wraps with bytes behind it |
| Reader.CohortReader.ReadHeader | src/mish2jsonl/mish2jsonl.c:179-181 | the unchecked first read cannot hide a short stream |
| Reader.CohortReader.ReadAnswers | src/mish2jsonl/mish2jsonl.c:183-189 | the loop over workers, which runs on after a failed read and whose counter is an `int` |
| Reader.CohortReader.ReadOutput | src/mish2jsonl/mish2jsonl.c:184-188 | one entry, whatever the allocator left in it |
| Reader.CohortReader.ReadString | src/mish2jsonl/mish2jsonl.c:165-176 | a string, zero-filled when short; reads past its block exactly if the length plus one wraps and a byte follows |
| Reader.CohortReader.ReadText | src/mish2jsonl/mish2jsonl.c:168-175 | the bytes of a string into a zeroed block whose size is a 64-bit sum |
| Reader.CohortReader.MFread | src/mish2jsonl/mish2jsonl.c:136-143 | the sticky end flag is raised exactly if no complete item came where one was wanted |
| Cohorts.SeenOutputs | src/mish2jsonl/mish2jsonl.c:16-28 | what a reader should hold for each worker |
| Cohorts.StatusShown | src/mish2jsonl/mish2jsonl.c:33-49 | the number and the name of every status, and the name of numbers that no status has |
| Cohorts.StatusesApart | src/include/mish_common.h:23-30 | no two statuses share a number or a name |
| OnlineFilter.Writer.Process | src/mishegos/mishegos.c:213-248 | the stream grows, by the encoded cohort, exactly if the number of workers that succeed is within the bounds, or `-n` is set and two that succeed differ in size |
| OnlineFilter.Writer.Selects | src/mishegos/mishegos.c:215-232 | the one-pass loop decides just that |
| OnlineFilter.KeepsExactly | src/mishegos/mishegos.c:225-232 | the filter in terms of the set of workers that succeed and their sizes |
| OnlineFilter.KeptAt | src/mishegos/mishegos.c:225-232 | the kept records are those at exactly the places where the filter lets a record pass, in order |
| OnlineFilter.Writer.ProcessAll | src/mishegos/mishegos.c:463-467 | main's loop writes the stream of the records it has handed on |
| OnlineFilter.DefaultKeeps | src/mishegos/mishegos.c:203-206 | the defaults and `-s 1:-1` keep exactly the records that some worker decodes |
| OnlineFilter.NegativeBound | src/mishegos/mishegos.c:433-438 | a bound that is not negative is taken as it is, and a negative bound `-k` is a bound of `k - 1` on the number of workers that do not succeed |
| OnlineFilter.WrittenIsKept | src/mishegos/mishegos.c:213-248 | the stream is the concatenation of the kept cohorts |
| Hex.ParsePrinted | src/mishegos/mutator.c:410-414 | `hex2bytes` undoes the printer on all bytes |
| Hex.PrintParsed | src/mish2jsonl/mish2jsonl.c:111-116 | printing what was parsed gives the text in lower case exactly if the text is hexadecimal |
| Hex.HexTextInjective | src/mish2jsonl/mish2jsonl.c:111-116 | two inputs print alike exactly if the bytes that count agree |
| Hex.Hex2Bytes | src/mishegos/mutator.c:410-414 | the loop parses pair after pair and leaves the rest of the buffer alone |
| Hex.PrintHex | src/mish2jsonl/mish2jsonl.c:111-116 | the loop stays within the slot and the fixed buffer exactly if the length byte is at most 15, and then leaves the text and its NUL |
| Hex.ManualCandidate | src/mishegos/mutator.c:419-438 | a slot is filled from lines of 1 to 30 characters, with half as many bytes |
| Hex.LineLength | src/mishegos/mutator.c:428-429 | the length of a line up to its first newline or NUL |
| JsonEscape.EscapeReadsBack | src/mish2jsonl/mish2jsonl.c:66-107 | between quotes in any document, the escaped text reads back by section 7 of RFC 7159, up to the closing quote and no further |
| JsonEscape.EscapedIsPrintable | src/mish2jsonl/mish2jsonl.c:97-104 | it holds no control character |
| JsonEscape.WorstCase | src/mish2jsonl/mish2jsonl.c:58-59 | six bytes for each input byte are reached by texts of long-form control characters only |
| JsonEscape.EscapeInjective | src/mish2jsonl/mish2jsonl.c:66-107 | different texts stay different |
| JsonEscape.EscapeOnlyWhereNeeded | src/mish2jsonl/mish2jsonl.c:66-107 | a text is left as it is exactly if it holds no quote, backslash or control character |
| JsonEscape.JsonEscapeString | src/mish2jsonl/mish2jsonl.c:53-108 | the cursor stays inside the buffer, and the buffer ends up with the escaped text up to the first NUL, and a NUL |
| JsonEscape.Output.PutText | src/mish2jsonl/mish2jsonl.c:66-105 | the loop over the text |
| JsonEscape.Output.PutEscaped | src/mish2jsonl/mish2jsonl.c:67-104 | one turn of it, in seven bytes of room |
| Rng.Generator.Next | src/mishegos/mutator.c:112-127 | the five in-place updates give the next state, and the number determines the old word `s1` by an explicit inverse of the scrambling |
| Rng.UnscrambleScramble | src/mishegos/mutator.c:113-113 | rotating back and multiplying by the inverses of 9 and 5 modulo 2^64 undoes the scrambling |
| Rng.BackOfStep | src/mishegos/mutator.c:115-124 | an explicit inverse undoes the state update |
| Rng.StepOfBack | src/mishegos/mutator.c:115-124 | on either side, so the update is a bijection |
| Rng.RewindSteps | src/mishegos/mutator.c:112-127 | any number of steps can be rewound |
| Rng.StepsOfRewind | src/mishegos/mutator.c:112-127 | and every state is reached from some state in any number of steps |
| Rng.NeverZero | src/mishegos/mutator.c:112-127 | the all-zero state is reached from itself only |
| Rng.UnshiftLeft | src/mishegos/mutator.c:115-122 | the inverse of `x ^ (x << 17)` |
| Mutator.Slider.Fill | src/mishegos/mutator.c:300-327 | over any run the slots stay within their buffers and are an unbroken stretch of the windows of the candidates built |
| Mutator.Slider.SlidingCandidate | src/mishegos/mutator.c:300-327 | one call emits the window at the offset, of a new candidate if the offset was zero, and moves to the next window or back to zero after the last |
| Mutator.Slider.BuildSlidingCandidate | src/mishegos/mutator.c:221-283 | a candidate has the parts the comments describe, is the one that the numbers drawn select, is 7 to 28 bytes long and zero behind |
| Mutator.WindowsCover | src/mishegos/mutator.c:308-324 | the windows hold every byte of the candidate, and are 15 bytes long or the whole of a shorter candidate |
| Mutator.SlidingLength | src/mishegos/mutator.c:19-33 | every sliding candidate is 7 to 28 bytes long |
| Mutator.Dice.RandOpcode | src/mishegos/mutator.c:159-219 | the low bits of the first number drawn select one of the eight formats, whose free bytes are the next numbers |
| Mutator.StructuredCandidate | src/mishegos/mutator.c:332-396 | structured candidates have the described parts and 1 to 15 bytes, and are those that the numbers drawn select |
| Mutator.HavocCandidate | src/mishegos/mutator.c:287-295 | havoc candidates have 1 to 15 bytes, and all fifteen bytes of the slot are the bytes drawn |
| Mutator.SlidingComesOut | src/mishegos/mutator.c:221-283 | every candidate of the described shape comes out of some numbers |
| Mutator.SlidingSound | src/mishegos/mutator.c:221-283 | and no other |
| Mutator.StructuredComesOut | src/mishegos/mutator.c:332-396 | every structured candidate of the described shape comes out of some numbers |
| Mutator.StructuredSound | src/mishegos/mutator.c:332-396 | and no other |
| Mutator.HavocComesOut | src/mishegos/mutator.c:287-295 | every slot of fifteen bytes with every length from 1 to 15 comes out of some numbers |
| Passes.OnlineEqualsOffline | src/mishegos/mishegos.c:215-232 | with `-s 1:0 -n` a record is kept exactly if two successes differ in size, exactly if all four passes keep what a reader makes of it |
| Passes.SizeFiltersKeep | src/analysis/passes.yml:22-27 | the four passes together keep exactly the cohorts in which two successes differ in size |
| Passes.FilterAllFailureKeeps | src/analysis/pass/filter-all-failure/filter-all-failure:15-22 | that pass keeps the cohorts in which some worker answers anything but failure |
| Passes.FilterNdecodedSameKeeps | src/analysis/pass/filter-ndecoded-same/filter-ndecoded-same:19-27 | that pass keeps the cohorts in which two workers, successful or not, differ in size |
| Passes.FilterIncomparableKeeps | src/analysis/pass/filter-incomparable/filter-incomparable:16-27 | that pass keeps the cohorts in which at least two workers succeed |
| Passes.FindSizeDiscrepanciesKeeps | src/analysis/pass/find-size-discrepancies/find-size-discrepancies:18-24 | that pass alone keeps these and the cohorts without success |
| Passes.UniqOne | src/analysis/pass/find-size-discrepancies/find-size-discrepancies:21-21 | `uniq` leaves one element exactly of a non-empty list of equal ones |
| Passes.RunFilter | src/analysis/pass/filter-incomparable/filter-incomparable:16-27 | the line loop of a filter keeps the passing lines in order and counts the others |
| Passes.SelectAt | src/analysis/passes.yml:22-27 | the lines a filter keeps are those at exactly the places where a line passes, in order |
| Passes.Dedupe | src/analysis/pass/dedupe/dedupe:11-24 | no two lines that stay have the same input bytes, the bytes of every line are those of one that stays, and the others are counted |
| Passes.DedupedAt | src/analysis/pass/dedupe/dedupe:11-24 | a line stays exactly if no earlier line has the same input bytes, and the lines that stay keep their order |
| Passes.DedupeCommutesExactly | src/analysis/passes.yml:22-29 | dedupe can be moved across a filter exactly if, for every input, a later cohort passes only if the first does |
| Passes.FailsThenSucceeds | src/analysis/passes.yml:23-26 | a stream on which the order of dedupe and filter-all-failure matters |
| Passes.DedupeAnywhere | src/analysis/passes.yml:22-29 | on streams where equal inputs carry equal outputs dedupe may run anywhere among the filters |
| Passes.FiltersSnoc | src/analysis/passes.yml:22-27 | a row of filters keeps a cohort exactly if each of them does |
| EndToEnd.CampaignIsSequential | src/mishegos/mishegos.c:443-497 | a reader of a finished run gets exactly the sequential records that pass the filter, of an unfinished run a prefix of them |
| EndToEnd.CampaignPrints | src/mish2jsonl/mish2jsonl.c:221-229 | with slots as the mutators fill them and decoders that stay in theirs, everything written can be read and printed within memory, and the lines are those of the sequential records that pass the filter |
| EndToEnd.CampaignReadsBack | src/mish2jsonl/mish2jsonl.c:221-229 | an analysis that reads the printed lines of a finished campaign gets, one document for each, the sequential records that pass the filter, as long as no soname needs escaping |
| EndToEnd.OnlineEqualsProfile | src/analysis/passes.yml:22-29 | filtering while fuzzing and then dropping duplicates equals fuzzing unfiltered and running the size-discrepancies profile, on consistent streams |
| EndToEnd.FiltersEqualKept | src/mishegos/mishegos.c:215-232 | without dedupe the two agree on every stream |
| EndToEnd.ReadBack | src/mish2jsonl/mish2jsonl.c:221-229 | what is read from the fuzzer's stream are the kept records |
| PassOrder.PassList.Order | src/analysis/analysis:64-95 | raises exactly if a named pass is missing or the dependencies are cyclic, leaving the list alone; otherwise the list becomes a permutation with every pass behind those it depends on |
| PassOrder.BuildGraph | src/analysis/analysis:35-50 | an edge for exactly the pairs where one pass names the other; raises exactly on a missing name |
| PassOrder.TopologicalSort | src/analysis/analysis:67-89 | ends, with the ordered passes closed under predecessors and exactly the edges between unordered passes left |
| PassOrder.Expand | src/analysis/analysis:78-89 | one round keeps the invariant of the sort |
| PassOrder.StuckMeansCycle | src/analysis/analysis:91-91 | edges left over mean a cycle |
| PassOrder.OrderMeansAcyclic | src/analysis/analysis:91-93 | a cycle, self-dependencies included, leaves no possible order |
| PassOrder.SortedAll | src/analysis/analysis:91-94 | no edges left over means all passes are ordered |
| PassOrder.PredecessorClosedCycle | src/analysis/analysis:91-91 | a set in which every pass has a predecessor contains a cycle |
| PcodeCache.PcodeCacher.BuildInstruction | src/worker/ghidra/sleighMishegos.cc:134-148 | for any sequence of requests on the real pool, moved however often and anywhere: throws exactly if for some label reference the label whose id is in the low 32 bits of the varnode's offset was never placed; else the patched offset plus the number of operations before the reference is the number of operations before the label's last place, modulo 256 to the varnode's width, at most eight bytes, and no other varnode changes |
| PcodeCache.PcodeCacher.PerformAll | src/worker/ghidra/sleighMishegos.cc:55-129 | any sequence of requests since `clear` leaves what the same requests leave in an array that never moves |
| PcodeCache.RelativeBranches | src/worker/ghidra/sleighMishegos.cc:134-148 | the same of the array that never moves |
| PcodeCache.ResolveThrows | src/worker/ghidra/sleighMishegos.cc:138-142 | patching throws exactly if some reference has no placed label in the low 32 bits of its offset |
| PcodeCache.ResolvePatches | src/worker/ghidra/sleighMishegos.cc:143-146 | otherwise each reference gets its distance and nothing else changes |
| PcodeCache.RelativeCongruent | src/worker/ghidra/sleighMishegos.cc:143-146 | the masked 64-bit difference is right modulo the width |
| PcodeCache.LabelTable | src/worker/ghidra/sleighMishegos.cc:114-120 | the label table holds for every label the number of operations issued before its last place, and the marker for labels never placed |
| PcodeCache.PlayVars | src/worker/ghidra/sleighMishegos.hh:86-94 | a varnode holds what the last request that wrote it wrote |
| PcodeCache.PlayOps | src/worker/ghidra/sleighMishegos.hh:99-105 | so does an operation |
| PcodeCache.PlayRefs | src/worker/ghidra/sleighMishegos.cc:100-106 | every recorded reference was made by a request, and carries the number of operations issued before it |
| PcodeCache.RefsPlayed | src/worker/ghidra/sleighMishegos.cc:100-106 | and every such request is recorded |
| PcodeCache.MaskWidth | src/worker/ghidra/sleighMishegos.cc:145-145 | the mask keeps as many bytes as the varnode has, all from eight on |
| PcodeCache.PlaceLabelPlaces | src/worker/ghidra/sleighMishegos.cc:114-120 | placing one label changes no other |
| PcodeCache.PcodeCacher.ExpandPool | src/worker/ghidra/sleighMishegos.cc:55-95 | the pool moves, grows by what is missing or by 100 if that is more, and everything the cacher refers to keeps its meaning and contents |
| PcodeCache.PcodeCacher.AllocateVarnodes | src/worker/ghidra/sleighMishegos.hh:86-94 | an allocation lies behind all earlier ones, and all earlier varnodes, operations and references keep their meaning |
| PcodeCache.PcodeCacher.RelocateIssued | src/worker/ghidra/sleighMishegos.cc:72-83 | operand pointers of issued operations denote the same varnodes in the new pool |
| PcodeCache.PcodeCacher.RelocateRefs | src/worker/ghidra/sleighMishegos.cc:84-88 | so do the label references |
| PcodeCache.PcodeCacher.AllocateInstruction | src/worker/ghidra/sleighMishegos.hh:99-105 | appends an operation without operands |
| PcodeCache.PcodeCacher.AddLabelRef | src/worker/ghidra/sleighMishegos.cc:100-106 | records the varnode and the index of the next operation |
| PcodeCache.PcodeCacher.AddLabel | src/worker/ghidra/sleighMishegos.cc:114-120 | the padding loop and the store place the label |
| PcodeCache.PcodeCacher.Clear | src/worker/ghidra/sleighMishegos.cc:122-129 | forgets everything and keeps the pool |
| PcodeCache.PcodeCacher.ResolveRelatives | src/worker/ghidra/sleighMishegos.cc:134-148 | patches in place as specified, up to a throw |
| DisassemblyCaching.WorkingSet | src/worker/ghidra/sleighMishegos.cc:495-518 | up to `minimumreuse` misses on distinct addresses of one window give distinct contexts, and looking each up again hits its context |
| DisassemblyCaching.DistinctExactlyWhenSafe | src/worker/ghidra/sleighMishegos.cc:495-518 | distinct addresses get distinct contexts exactly if no hit context is nearer to the recycling pointer than the misses that follow |
| DisassemblyCaching.HitThenMissCollide | src/worker/ghidra/sleighMishegos.cc:495-500 | the documented promise fails for an old hit followed by a miss |
| DisassemblyCaching.WindowHashes | src/worker/ghidra/sleighMishegos.cc:498-506 | addresses of one window have different table places |
| DisassemblyCaching.DisassemblyCache.Initialize | src/worker/ghidra/sleighMishegos.cc:451-470 | throws exactly unless the table size is a power of two or 0; else gives an empty cache, which can look things up exactly if the size is not 0 |
| DisassemblyCaching.DisassemblyCache.GetParserContext | src/worker/ghidra/sleighMishegos.cc:503-518 | a lookup updates list, pointer and table as specified, the context carries the address, a miss must be parsed again, and no other parse is lost |

## Left out

- Processes, threads, pipes, `dlopen`, `mmap`, `prctl`, real signals, option parsing and files. Workers load, die only
  inside `try_decode` and have distinct live pids. Thread mode is the runs without crashes.
- Weak memory: the relaxed accesses to `waiters` are taken as sequentially consistent.
- Decoders: one oracle that gives the whole slot or dies. The source clears `len` and `ndecoded` before each call but not
  `status`; a decoder that leaves its status unset is not modelled.
- Slots for which the mutator returns false, which main never counts (`src/mishegos/mishegos.c:477-483`).
- Main's 64-bit generation is unbounded here; what workers and chunks hold wraps at 32 bits.
- RingRuns.CrashRecoveryExact: does not cover workers that die outside decoding, which the source calls a bug.
- Seeding the random number generator from the system; the mutators take any sequence of numbers.
- Wire.RoundTrip: is stated for a little-endian host and records that fit the fields (31 workers, slots as the mutators
  fill them, 248 bytes of text, names shorter than 2^64 - 1).
- Reader.CohortReader.PrintResults: `calloc` and `malloc` give a block of the size asked for. What the source does after an
  access outside its memory is undefined and not modelled.
- JsonText.Rfc7159Lawful: the reader has no fractions, exponents, negative numbers, `true`, `false` or `null`, none of
  which is ever printed.
- JsonEscape.EscapeReadsBack: reads surrogate pairs as errors; the escaper never writes them. Bytes above 127 pass
  through, valid UTF-8 or not.
- The array form `-n` of mish2jsonl, which differs in separators only.
- Passes.Dedupe: takes parsed cohorts; JSON parsing and printing by the passes is left out.
- The passes that rewrite inputs, the consensus and destroy filters, `minimize-input`, `normalize`, `mishmat`.
- PassOrder.PassList.Order: takes unique pass names, which `verify!` checks before (`src/analysis/analysis:52-59`).
- PcodeCache.PcodeCacher.ExpandPool: sizes are unbounded, the source's `uint4` pool sizes are not; raw pointers that
  `SleighBuilder` keeps across an allocation are outside.
- PcodeCache.RelativeBranches: for fewer than 0xbadbeef operations and each varnode registered once.
- DisassemblyCaching.DisassemblyCache.Initialize: needs a positive cache size; with zero the source reads a missing
  element. `setParserState` is a flag.
- SleighBuilder, `resolve`, `resolveHandles` and everything that depends on Ghidra classes outside the repository.
