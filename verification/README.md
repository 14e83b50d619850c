# GopherTrunk command layer: verified model

GopherTrunk is a software trunking-radio scanner. This project models the parts of its
command layer (`cmd/gophertrunk`) and of its release script that carry real logic, in
Dafny 4.11, and proves properties of them:

- **Capture pipeline** (`Capture.dfy`): a drain loop feeds every input chunk through N
  stateful down-converters and hands copies over a bounded channel to a writer whose
  sinks may fail. A state machine with one event per atomic action of either goroutine,
  over every interleaving.
- **Probe windows, carrier estimate, consensus** (`ProbeWindows.dfy`,
  `CarrierEstimate.dfy`, `CarrierConsensus.dfy`): the spread probe windows, the circular
  sliding sum with plateau centring behind the FFT, and the median consensus.
- **Live IQ slack queue** (`SlackQueue.dfy`): the forwarder that never blocks and the
  reader that carries leftovers, over every interleaving.
- **Event-driven recorder** (`AutoRecorder.dfy`): cooldown, in-flight cap, pruned
  activity map, path reservation.
- **Restart budget and drop reporter** (`RetryBudget.dfy`, `DropObserver.dfy`).
- **Scan planning and key selection** (`ScanPlan.dfy`, `KeySelection.dfy`).
- **CSV reading and writing, configuration merge, release references** (`CsvLine.dfy`,
  `TalkgroupFile.dfy`, `TalkgroupReading.dfy`, `NameCollapse.dfy`, `ConfigMerge.dfy`, `ReleaseRefs.dfy`).
- **LO offset search** (`LOOffset.dfy`).

`Arith.dfy`, `Text.dfy` and `Wrappers.dfy` hold the integer, text and option facts the
others share. Concurrent code is a step relation over values, because several goroutines
share the state; sequential code that updates objects is a class with methods; code that
loops is a method with a loop, proved against a specification.

Conventions: time is an integer or natural number of the unit the constants use; Go's
floats are real numbers; a Go `int`, `int64` or counter that only counts is unbounded;
where the code depends on a width or on truncating division, that is written out (16-bit
key IDs, the ALGID byte, 32-bit talkgroups and channels, 64-bit priorities, Go's `/` and
`%`). Strings are sequences of characters; case mapping is the ASCII one.

## Where code and documentation disagree

The model follows the code.

- The consensus comment asks for a majority of the estimates. The code does what it says
  unless two or more estimates within 1000 Hz of the median are exactly half of all; those
  it accepts too (`CarrierConsensus.AcceptedWithoutMajority`,
  `CarrierConsensus.HalfIsAccepted`).
- The retry comments say a run of 10 to 60 s "decays" the counter. The death that ends
  the run raises it again, so the net effect is nil (`RetryBudget.MediumRunsForgiveNothing`);
  a stream whose runs all last 10 s still never escalates
  (`RetryBudget.ProgressNeverEscalates`).
- The key listing promises to mark what would load. It does if and only if no rejected
  key is a decoy for a loaded one (`KeySelection.ListingAgreesExactly`), in particular
  when all lengths and IDs are valid.
- The configuration merge promises that the node tree did not drift from the validated
  structure. The two paths look an import up under different names: the struct path under
  the collapsed one, the node path under the parsed one. With `--force` they agree if and
  only if every import that meets an existing system either way has a non-empty name the
  collapse leaves alone, up to case, and no two new imports are alike; without it, if and
  only if both or neither find a collision (`ConfigMerge.MergesAgreeExactly`, for any
  systems and any imports). A forced import of a name the collapse changes, over the
  collapsed system, validates one system and writes two of the same name
  (`ConfigMerge.SecondSystemWritten`).
- `bump` promises files that `check` accepts. A malformed `--date` makes it insert a
  heading that `check` does not see, and a second bump insert another
  (`ReleaseRefs.BumpEstablishesCheck`, `ReleaseRefs.SecondBump`).
- The LO offset search promises an offset whose products all stay outside the channel.
  That holds exactly above 3 737 500 / 7 Hz; between 3 000 000 / 7 Hz and there an offset
  is returned all the same although no offset in range is clear
  (`LOOffset.PickIsClipSafeExactly`).

## Model

| member | source | states |
|---|---|---|
| Capture.StepKeepsInv | cmd/gophertrunk/capture.go:678-764 | every atomic step of drain and writer keeps the pipeline's invariant: per-sink order, the down-converter states, the probe, the single write error |
| Capture.Delivery | cmd/gophertrunk/capture.go:655-765 | without a sink failure, at return every sink holds its own down-converter's output on a prefix of the chunks, the prefixes are non-increasing over the sinks and at most one chunk apart, the returned counts are the sizes written, all prefixes are the whole input unless the loop broke in mid-chunk, and then the last one is not; the end of the stream and an error-free end never break there |
| Capture.LeftOver | cmd/gophertrunk/capture.go:699-749 | outputs are left over at the end exactly when the loop was left while an output was being sent |
| Capture.ErrorTellsEnd | cmd/gophertrunk/capture.go:708-764 | over every run that has returned, the returned error tells how the loop was left: the end of the stream, the cancellation or the error of a failed sink call; left by the timer or at the target it is the error of a failed sink call if there was one, and none otherwise |
| Capture.LoopLeftOnce | cmd/gophertrunk/capture.go:708-749 | exactly one step of such a run leaves the loop |
| Capture.OneSinkFails | cmd/gophertrunk/capture.go:681-694 | at most one sink call fails in a run, so that error is unique |
| Capture.RawOutputIsInput | cmd/gophertrunk/capture.go:718-723 | the reference output of an output without a down-converter is the input, unchanged |
| Capture.DdcRunsThrough | cmd/gophertrunk/capture.go:718-723 | that of a down-converter is one run of it over all chunks, each call starting in the state the call before left |
| Capture.NeverCorrupted | cmd/gophertrunk/capture.go:678-743 | at any moment of any run, whatever failed, what a sink accepted is a prefix of its down-converter's output; the queue never exceeds its depth of 256 |
| Capture.ProbeSeesEverything | cmd/gophertrunk/capture.go:716-735 | the carrier probe has been fed output 0 of every chunk received |
| Capture.FailureIsFinalAndReported | cmd/gophertrunk/capture.go:681-694 | after a failed sink call no sink is called again and the return carries an error; a write error is returned only after a failed call |
| Capture.ReadsUpToTarget | cmd/gophertrunk/capture.go:660-715 | no chunk is read once the target is reached, and an error-free return has reached it unless the timer fired |
| Capture.RankFalls | cmd/gophertrunk/capture.go:699-753 | every step but a chunk's arrival lowers a progress measure over queue and phases |
| Capture.RunsAreBounded | cmd/gophertrunk/capture.go:699-764 | a run has at most a fixed number of steps per chunk received: no livelock |
| Capture.NeverStuck | cmd/gophertrunk/capture.go:690-752 | no deadlock: before the return some internal step is enabled, except where the drain waits for input, the context or the timer |
| Capture.JoinCompletes | cmd/gophertrunk/capture.go:751-764 | once the loop is left, internal steps alone reach the return within the measure |
| Capture.CanReturn | cmd/gophertrunk/capture.go:699-764 | every run can be continued to one that has returned, with a cancelled context and returning sink calls alone |
| Capture.WholeRun | cmd/gophertrunk/capture.go:655-765 | a complete error-free run of eight steps exists: one sample arrives, is recorded raw and ends the capture |
| ProbeWindows.CarrierProbe.constructor | cmd/gophertrunk/capture_carrier.go:54-72 | the windows start at 0, are pairwise disjoint and, with more than one, end within the expected length |
| ProbeWindows.CarrierProbe.Feed | cmd/gophertrunk/capture_carrier.go:76-98 | after a feed every window holds exactly the stream's slice from its start, the position is the stream's length and the clip count the stream's |
| ProbeWindows.TakeShare | cmd/gophertrunk/capture_carrier.go:80-97 | the overlap arithmetic turns the window of the stream so far into the window of the stream with the chunk |
| ProbeWindows.FeedWindowExtends | cmd/gophertrunk/capture_carrier.go:76-98 | the same as a fact about the arithmetic, for every stream, start and chunk |
| ProbeWindows.ChunkingIrrelevant | cmd/gophertrunk/capture_carrier.go:74-98 | however a stream is cut into chunks a window ends up with the same slice |
| ProbeWindows.CountClippedLoop | internal/siglab/signal.go:197-206 | the loop counts the samples at the rail |
| ProbeWindows.CountClippedConcat | internal/siglab/signal.go:197-206 | clip counts add up over chunks, so the total does not depend on the chunking |
| ProbeWindows.CountClippedExactly | internal/siglab/signal.go:190-206 | the count is the number of samples with a component of 0.98 or more in magnitude |
| CarrierEstimate.FftSize | cmd/gophertrunk/capture_carrier.go:220-224 | the largest power of two not above the window's length or the probe size |
| CarrierEstimate.HumpSlides | cmd/gophertrunk/capture_carrier.go:258-261 | one slide of the running sum keeps it equal to the direct circular sum |
| CarrierEstimate.Smooth | cmd/gophertrunk/capture_carrier.go:251-265 | every smoothed bin equals the direct circular sum around it and bestK is the first maximiser |
| CarrierEstimate.ExpandPlateau | cmd/gophertrunk/capture_carrier.go:279-294 | l and r bound the maximal circular run of bins at or over the threshold around the peak, the whole circle included |
| CarrierEstimate.CentreOnPlateau | cmd/gophertrunk/capture_carrier.go:295-296 | the centre bin still reaches the threshold, also when the whole circle does, and short of that is the exact middle |
| CarrierEstimate.PlateauOffset | cmd/gophertrunk/capture_carrier.go:275-304 | from peak to signed offset: the offset is the in-band alias of the frequency of a plateau's centre bin |
| CarrierEstimate.CarrierEnds | cmd/gophertrunk/capture_carrier.go:267-279 | a spectrum that passes the peak test falls below the plateau threshold somewhere, since its humps add up to the window width times the power: a detected plateau is never the whole circle |
| CarrierEstimate.CaptureCarrierOffset | cmd/gophertrunk/capture_carrier.go:225-305 | an estimate exists exactly when some hump over a 64th of the bins has three times the mean energy; it is the frequency of the exact middle of the first maximum's plateau, or that minus one sampling rate, in [-rate/2, rate/2) |
| CarrierEstimate.ReportedBinIsNearPeak | cmd/gophertrunk/capture_carrier.go:275-296 | the reported bin's smoothed power is within a thousandth of the maximum, for any spectrum |
| CarrierEstimate.SymmetricCarrierIsExact | cmd/gophertrunk/capture_carrier.go:211-218 | a channel symmetric about a bin that its first maximum's hump reaches is reported at exactly that bin's in-band frequency: no bias from the smoothing |
| CarrierEstimate.ToneIsExact | cmd/gophertrunk/capture_carrier.go:275-304 | a pure tone in bin t is always detected and reported at t * rate / n or one sampling rate below, whichever is in band, across the wrap too |
| CarrierEstimate.OneAliasInBand | cmd/gophertrunk/capture_carrier.go:300-304 | only one of the frequencies a whole number of sampling rates apart is in band, so that report is unique |
| CarrierEstimate.GateExactly | cmd/gophertrunk/capture_carrier.go:267-272 | the noise gate is three times the energy of an average window |
| CarrierConsensus.CarrierOffsetConsensus | cmd/gophertrunk/capture_carrier.go:160-199 | the loops compute the specified outcome, every field of it; the laws below say what that is |
| CarrierConsensus.UsableCounts | cmd/gophertrunk/capture_carrier.go:163-168 | the usable windows are those of at least 1024 samples, with or without an estimate |
| CarrierConsensus.EstimatesCount | cmd/gophertrunk/capture_carrier.go:163-170 | every value is held as often as a usable window yields it |
| CarrierConsensus.ReportedCounts | cmd/gophertrunk/capture_carrier.go:160-188 | the counts reported are those of usable windows, of estimates and of estimates within 1000 Hz of the median |
| CarrierConsensus.MaxAbsIsGreatest | cmd/gophertrunk/capture_carrier.go:171-173 | the reported maximum is the greatest magnitude of an estimate |
| CarrierConsensus.MedianIsUpper | cmd/gophertrunk/capture_carrier.go:179-181 | the median is the upper one of any sorted arrangement |
| CarrierConsensus.LoneWindowDecides | cmd/gophertrunk/capture_carrier.go:156-198 | with exactly one window of 1024 samples the result is accepted if and only if that window has an estimate, and is that estimate |
| CarrierConsensus.AcceptedOffsetBalances | cmd/gophertrunk/capture_carrier.go:192-197 | an accepted offset is the mean of the estimates within 1000 Hz of the median: their deviations from it add up to nothing |
| CarrierConsensus.SortedIsPermutation | cmd/gophertrunk/capture_carrier.go:179-181 | the median is taken from a sorted permutation of the estimates |
| CarrierConsensus.SortedUnique | cmd/gophertrunk/capture_carrier.go:179-180 | a bag has one sorted arrangement, so any correct sort gives the same median |
| CarrierConsensus.OffsetNearMedian | cmd/gophertrunk/capture_carrier.go:182-198 | an accepted offset lies within 1000 Hz of the median |
| CarrierConsensus.MajorityHoldsMedian | cmd/gophertrunk/capture_carrier.go:179-181 | a strict majority within an interval holds the median in it, whatever the rest |
| CarrierConsensus.MajorityDecides | cmd/gophertrunk/capture_carrier.go:152-199 | with two or more estimates, a strict majority within an interval no wider than 1000 Hz makes the result OK with the median in the interval, whatever the outliers |
| CarrierConsensus.AcceptsExactly | cmd/gophertrunk/capture_carrier.go:182-191 | with two windows of 1024 samples or more, estimate or not, a result is accepted exactly when at least two of the estimates, and at least half, lie within 1000 Hz of their median |
| CarrierConsensus.AcceptedWithoutMajority | cmd/gophertrunk/capture_carrier.go:157-191 | the code does what its comment asks for (two near the median, and a majority) if and only if the estimates near the median are not, being two or more, exactly half of all |
| CarrierConsensus.HalfIsAccepted | cmd/gophertrunk/capture_carrier.go:157-159 | a concrete consensus accepted on half the estimates |
| CarrierConsensus.OrderIrrelevant | cmd/gophertrunk/capture_carrier.go:160-199 | the verdict depends on the estimates as a bag only |
| SlackQueue.RunInv | cmd/gophertrunk/hunt_iqsource.go:79-146 | the queue and reader invariants hold in every state of every run |
| SlackQueue.Conservation | cmd/gophertrunk/hunt_iqsource.go:79-107 | chunks received = taken + queued + dropped, taken and queued are the undropped ones in order, the queue never exceeds 64 |
| SlackQueue.CapturesLoseNothing | cmd/gophertrunk/hunt_iqsource.go:109-146 | between two retunes the results followed by the leftover are exactly the dequeued samples, a cancelled Capture loses none; a result has n samples unless the stream ended |
| SlackQueue.ResultAnswersCall | cmd/gophertrunk/hunt_iqsource.go:129-146 | a result is for the number of samples the last Capture call asked for and consists of the oldest samples not yet handed out |
| SlackQueue.TuneStartsAfresh | cmd/gophertrunk/hunt_iqsource.go:109-127 | after a retune nothing taken or queued before is left |
| SlackQueue.ForwarderNeverBlocks | cmd/gophertrunk/hunt_iqsource.go:90-105 | the forwarder can take the next chunk in any state and leaves the reader's side alone |
| SlackQueue.CaptureWaitsOnlyForInput | cmd/gophertrunk/hunt_iqsource.go:129-142 | Capture waits only while a live stream has nothing queued |
| SlackQueue.WholeStreamDelivered | cmd/gophertrunk/hunt_iqsource.go:79-146 | without drops or retunes the results up to the end of the stream are the whole stream |
| SlackQueue.NoDropsWhileKeepingUp | cmd/gophertrunk/hunt_iqsource.go:71-107 | a run in which every chunk finds room drops nothing |
| RetryBudget.RunWithRetry | cmd/gophertrunk/daemon.go:4370-4410 | the loop escalates exactly at the fourth run shorter than 10 s since the later of the first death and the last run of 60 s, with the back-offs in schedule and in range; every other ending is the script's (the wideband loop, 4495-4530, is the same) |
| RetryBudget.EndingIsUnique | cmd/gophertrunk/daemon.go:4370-4410 | a script of run endings leaves exactly one outcome, one list of deaths and one list of back-offs |
| RetryBudget.ShortRunsExhaust | cmd/gophertrunk/daemon.go:4330-4410 | a stream that keeps dying within 10 s is given up at its fifth death, after waits of 1, 2, 5 and 10 s |
| RetryBudget.CreditIsShortsSince | cmd/gophertrunk/daemon.go:4382-4402 | the counter after the credit is the number of short runs since that base, for every history |
| RetryBudget.ShortsSinceStep | cmd/gophertrunk/daemon.go:4386-4391 | that number one death at a time |
| RetryBudget.ProgressNeverEscalates | cmd/gophertrunk/daemon.go:4352-4361 | a trace whose runs all last 10 s never escalates |
| RetryBudget.MediumRunsForgiveNothing | cmd/gophertrunk/daemon.go:4346-4361 | a run of 10 to 60 s anywhere after the first death changes nothing |
| RetryBudget.HealthyRunForgivesAll | cmd/gophertrunk/daemon.go:4341-4344 | after a run of 60 s the earlier history no longer matters |
| DropObserver.RunInv | cmd/gophertrunk/daemon.go:4260-4306 | the per-device invariant holds in every state of every interleaving of the atomic operations |
| DropObserver.DropsConserved | cmd/gophertrunk/daemon.go:4276-4297 | per device, drops counted = sum of the reported counts + the pending counter, and every log slot won is reported once |
| DropObserver.SlotsSpaced | cmd/gophertrunk/daemon.go:4277-4284 | log slots of a device are at least a second apart, in whatever order the goroutines read the clock |
| DropObserver.QuietDropIsReported | cmd/gophertrunk/daemon.go:4276-4297 | a drop a second or more after the last log line, with no other call in between, is reported together with all that were pending |
| AutoRecorder.ObservedKeyInjective | cmd/gophertrunk/iqautorecord.go:305-307 | the string key tells calls apart even when system names contain the separator |
| AutoRecorder.PrunedFollowsHistory | cmd/gophertrunk/iqautorecord.go:355-366 | stamping and pruning keep the map in step with the full grant history |
| AutoRecorder.SeenCountsActiveCalls | cmd/gophertrunk/iqautorecord.go:365-365 | the map's size is the number of distinct calls of the full history within the window |
| AutoRecorder.IqAutoRecorder.TrackConcurrency | cmd/gophertrunk/iqautorecord.go:355-366 | returns the number of distinct calls granted in the last 4 s |
| AutoRecorder.IqAutoRecorder.OnGrant | cmd/gophertrunk/iqautorecord.go:310-316 | a grant fires exactly when classified on the count at its first clock reading and not throttled at its second |
| AutoRecorder.IqAutoRecorder.MaybeFire | cmd/gophertrunk/iqautorecord.go:395-418 | fires exactly with fewer than two captures running and, unless manual, a cooldown after the last automatic one; only an automatic capture restarts the cooldown |
| AutoRecorder.IqAutoRecorder.CaptureFinished | cmd/gophertrunk/iqautorecord.go:422-426 | a completion gives back one in-flight slot |
| AutoRecorder.IqAutoRecorder.ReserveCapturePath | cmd/gophertrunk/iqautorecord.go:495-515 | terminates with the first candidate neither handed out nor on disk, and records it |
| AutoRecorder.FirstFreeIsLeast | cmd/gophertrunk/iqautorecord.go:500-514 | the search ends, at the least free candidate |
| AutoRecorder.CandidateInjective | cmd/gophertrunk/iqautorecord.go:496-505 | different counters give different paths |
| AutoRecorder.CounterBeforeExtension | cmd/gophertrunk/iqautorecord.go:496-505 | the counter goes before the extension, whatever dots and directories come earlier in the name |
| AutoRecorder.InFlightIsRunning | cmd/gophertrunk/iqautorecord.go:395-426 | over every interleaving of triggers and completions inFlight is the number of captures running, 0 to 2 |
| AutoRecorder.AutomaticCapturesSpaced | cmd/gophertrunk/iqautorecord.go:395-412 | automatic captures are at least a cooldown apart, manual ones in between notwithstanding |
| AutoRecorder.PathsNeverCollide | cmd/gophertrunk/iqautorecord.go:484-515 | over any sequence of requests no path is handed out twice or while on disk |
| ScanPlan.MergeSortedInts | cmd/gophertrunk/conv_multi.go:122-136 | the two-index loop computes the merge |
| ScanPlan.MergeFacts | cmd/gophertrunk/conv_multi.go:122-136 | merging two increasing disjoint lists gives their increasing union |
| ScanPlan.Split | cmd/gophertrunk/conv_multi.go:67-92 | the pass over the list makes one group per named radio, each with exactly its channels, groups in order of first appearance, and collects the rest in order |
| ScanPlan.PlanConvScanGroups | cmd/gophertrunk/conv_multi.go:50-120 | nothing without voice radios, else a plan: one group per radio listing exactly its own channels, dedicated exactly when named, in order of first channels, and the shared radio (the last unclaimed voice radio, else the last) last when needed, the all-claimed merge included |
| ScanPlan.PlanIsPartition | cmd/gophertrunk/conv_multi.go:50-61 | a plan puts every channel in exactly one group, lists are increasing, no two groups share a radio, a channel naming a voice radio runs on it, unpinned channels are in the last group |
| ScanPlan.ChannelRunsWhereNamed | cmd/gophertrunk/conv_multi.go:26-36 | a channel runs on the voice radio whose serial its trimmed device is; without a device, with an unknown one or one of another role it is in the last group |
| KeySelection.EkcKeys | cmd/gophertrunk/daemon_keyfiles.go:55-104 | entry i carries the ID, algorithm and material of the winner for the i-th key ID by first appearance, and every counter is the number of keys with its verdict |
| KeySelection.EligibleExactly | cmd/gophertrunk/daemon_keyfiles.go:23-36 | a key is eligible exactly when it is a traffic key of the keyset asked for with a 16-bit ID, an algorithm with a decoder and a length that algorithm takes |
| KeySelection.VerdictsExactly | cmd/gophertrunk/daemon_keyfiles.go:63-88 | a key that several reasons leave out is counted under the first of them |
| KeySelection.PickIsWinner | cmd/gophertrunk/daemon_keyfiles.go:88-98 | the replacement rule holds exactly the first eligible key of an active keyset, else the first eligible key |
| KeySelection.LoadConserves | cmd/gophertrunk/daemon_keyfiles.go:40-48 | loaded + KEK + other keyset + bad ID + bad length + superseded + unknown = the container's size |
| KeySelection.EachIDOnce | cmd/gophertrunk/daemon_keyfiles.go:60-102 | every key ID with an eligible key is loaded exactly once |
| KeySelection.ActiveTwin | cmd/gophertrunk/ekc_cmd.go:67-77 | finds a listable key of an active keyset with the same ID, if any |
| KeySelection.Listing | cmd/gophertrunk/ekc_cmd.go:32-58 | a row is marked exactly when it is admissible and no earlier admissible row has its low ID |
| KeySelection.ListingAgreesExactly | cmd/gophertrunk/ekc_cmd.go:30-58 | the listing marks exactly the loaded keys if and only if no rejected key is a decoy for a loaded one |
| KeySelection.ListingAgreesOnValidKeys | cmd/gophertrunk/ekc_cmd.go:30-58 | in particular whenever all candidates have valid lengths and in-range IDs |
| KeySelection.BadLengthHidesLoadedKey | cmd/gophertrunk/ekc_cmd.go:51-52 | an active key of bad length leaves the loaded key, and every row, unmarked |
| KeySelection.OutOfRangeIDListedInstead | cmd/gophertrunk/ekc_cmd.go:51-52 | a key whose ID exceeds 16 bits is marked in place of the loaded one |
| CsvLine.SplitCSVLine | cmd/gophertrunk/import_csv.go:236-287 | the index loop computes the parse, both errors included |
| CsvLine.ParsesExactly | cmd/gophertrunk/import_csv.go:236-287 | a line is accepted exactly when it is a comma-separated rendering of cells (an optional quoted part with doubled quotes, then plain text), and reads as their trimmed values |
| CsvLine.WriteThenRead | cmd/gophertrunk/import_csv.go:236-287 | for every list of fields and every quoting that section 2 of RFC 4180 allows, the written line reads as the fields, trimmed |
| CsvLine.RoundTrip | cmd/gophertrunk/import_csv.go:236-287 | trimmed fields survive unchanged |
| CsvLine.ReadWriteRead | cmd/gophertrunk/import_csv.go:236-287 | an accepted line is stable under read, write, read |
| TalkgroupFile.BuildTalkgroupCSV | cmd/gophertrunk/import_writer.go:247-287 | header and one record per talkgroup, in order |
| TalkgroupFile.RowSurvivesExactly | cmd/gophertrunk/import_csv.go:497-543 | a written row reads back as it was, but unencrypted, if and only if hex is non-empty, lower-case and trimmed, mode is D, A or M, the texts are trimmed and the priority is not negative |
| TalkgroupFile.HexTextDenotes | cmd/gophertrunk/import_csv.go:506-509 | a missing hexadecimal column is filled with the lower-case digits that denote the decimal |
| TalkgroupFile.AtoiDenotes | cmd/gophertrunk/import_csv.go:524-530 | signed decimal text denotes its number, up to the ends of 64 bits |
| TalkgroupReading.RowOutcome | cmd/gophertrunk/import_csv.go:497-531 | any row at all: passed over without a decimal, and accepted exactly with a 32-bit decimal, one of seven modes and a blank or 64-bit priority |
| TalkgroupReading.ParsedCells | cmd/gophertrunk/import_csv.go:502-543 | what an accepted row becomes, cell by cell |
| TalkgroupFile.ParseRRNativeCSV | cmd/gophertrunk/import_csv.go:659-703 | the reading loop computes the specified list or error |
| TalkgroupFile.ColumnMapOf | cmd/gophertrunk/import_csv.go:292-311 | the two loops compute the columns: later header names win, an alias counts only where the canonical name is missing |
| TalkgroupReading.ColumnsExactly | cmd/gophertrunk/import_csv.go:292-311 | for any header and any order of visiting the alias table, a column is where the best of its names that the header has stands last, and missing if the header has none |
| TalkgroupReading.ReadingSplits | cmd/gophertrunk/import_csv.go:659-703 | below the header lines are read one by one: a table and its continuation read as one after the other, and one refused line refuses the whole |
| TalkgroupReading.CommentsIgnored | cmd/gophertrunk/import_csv.go:659-703 | a blank or comment line may be put in anywhere, also above the header |
| TalkgroupFile.FileReadsBack | cmd/gophertrunk/import_csv.go:659-703 | a file of such talkgroups without line feeds reads back whole and in order, under any plain header that resolves column by column |
| TalkgroupFile.HeaderResolves | cmd/gophertrunk/import_csv.go:292-311 | the writer's header does, whatever order the alias table is visited in |
| TalkgroupFile.WrittenFileReadsBack | cmd/gophertrunk/import_writer.go:247-287 | so what the writer writes the reader reads |
| TalkgroupFile.HeaderIsPlain | internal/trunking/csvwrite.go:25-28 | the header the writer uses meets what the file round trip asks of a header |
| ConfigMerge.BuildSystemMappingNode | cmd/gophertrunk/import_writer.go:399-415 | builds the node with the four keys in order |
| ConfigMerge.SystemNodeRoundTrip | cmd/gophertrunk/import_writer.go:396-415 | a written node decodes to the system it was written for |
| ConfigMerge.MergeStructs | cmd/gophertrunk/import_writer.go:73-128 | the struct path's loops compute the specified list or collision; every new system has its import's collapsed name and its protocol, control channels and file |
| ConfigMerge.MergeNodes | cmd/gophertrunk/import_writer.go:314-334 | the node path's loops compute the specified list or collision |
| NameCollapse.CutIsLastWord | cmd/gophertrunk/import_writer.go:228-235 | the collapse cuts at the start of the last word, wherever else its letters occur |
| NameCollapse.CollapseAlike | cmd/gophertrunk/import_writer.go:219-236 | names that differ in case only collapse to names that differ in case only |
| NameCollapse.DoubledCollapses | cmd/gophertrunk/import_writer.go:213-236 | a name that ends in the same word twice, up to case, loses the last one and the blanks before it |
| NameCollapse.OnlyDoubledCollapses | cmd/gophertrunk/import_writer.go:213-236 | no other name changes |
| ConfigMerge.MergesAgreeExactly | cmd/gophertrunk/import_writer.go:73-144 | for any systems, imports and names both merges give entry-by-entry equal lists or both reject, with force if and only if every import meets the same system in both and no two new names are alike up to case, without if and only if both or neither find a collision |
| ConfigMerge.DistinctStableNamesAgree | cmd/gophertrunk/import_writer.go:73-144 | in particular on non-empty names that differ up to case and do not collapse |
| ConfigMerge.CollapsedNameDuplicated | cmd/gophertrunk/import_writer.go:95-144 | with force, for every name the collapse changes, over the collapsed system the validated list has one system and the written one two |
| ConfigMerge.SecondSystemWritten | cmd/gophertrunk/import_writer.go:110-163 | for a whole document: both validations pass and what is written decodes to two systems of the same name |
| ConfigMerge.ImportsAreWritten | cmd/gophertrunk/import_writer.go:322-334 | every import, the last of several alike, is in the written list as a node that decodes to a system of the collapsed name with the import's own protocol, control channels and file and nothing else |
| ConfigMerge.ImportsAreMerged | cmd/gophertrunk/import_writer.go:95-128 | so it is in the list of structs, the last of several that meet one existing system; imports of new names are all in it |
| ConfigMerge.OthersAreKept | cmd/gophertrunk/import_writer.go:289-334 | an existing node no import names keeps its place and content |
| ConfigMerge.OnlySystemsChange | cmd/gophertrunk/import_writer.go:311-384 | no other key of the document or of its trunking section changes |
| ConfigMerge.MergeIntoConfig | cmd/gophertrunk/import_writer.go:54-163 | nothing is written before both validations pass or in a dry run; then the tables in order and the configuration last, up to the first failed write |
| ConfigMerge.WriteFiles | cmd/gophertrunk/import_writer.go:151-162 | the writes are the tables in order, then the configuration, stopping at the first failure |
| ConfigMerge.WrittenIsValidated | cmd/gophertrunk/import_writer.go:130-147 | once the structs have passed, the configuration to be written decodes to exactly them if and only if the merges must agree, and then the second validation cannot fail |
| ReleaseRefs.HeadingRoundTrip | scripts/release-refs.py:53-53 | a heading line reads back as its tag and date exactly when the date is well-formed |
| ReleaseRefs.HeadingsExactly | scripts/release-refs.py:53-53 | a line is read as a heading exactly when it is written like one with a well-formed date |
| ReleaseRefs.TagsNameVersions | scripts/release-refs.py:52-52 | a text is a tag exactly when it spells a version: three numbers and perhaps a prerelease |
| ReleaseRefs.HeadingsOrderVersions | scripts/release-refs.py:62-66 | two headings are in order exactly when the first version is the later one: by its three numbers, then a release above its prereleases, then by the prerelease text |
| ReleaseRefs.AboveIsLater | scripts/release-refs.py:62-66 | and a tag is above a changelog exactly when its version is later than the newest one documented |
| ReleaseRefs.KeyTotal | scripts/release-refs.py:62-66 | the sort keys are strictly and totally ordered |
| ReleaseRefs.DescendingThroughout | scripts/release-refs.py:120-123 | neighbours in order make the whole list strictly descending, so no release is listed twice |
| ReleaseRefs.NewestStableIsGreatest | scripts/release-refs.py:127-127 | the first stable heading is the greatest stable release |
| ReleaseRefs.BumpAddsHeading | scripts/release-refs.py:165-184 | bumping an undocumented tag puts exactly its heading in front of the others, or none if the date is malformed |
| ReleaseRefs.BumpOnlyInserts | scripts/release-refs.py:165-184 | it loses and reorders no line |
| ReleaseRefs.BumpKeepsUnreleased | scripts/release-refs.py:165-184 | [Unreleased] stays the first section |
| ReleaseRefs.BumpMovesEntries | scripts/release-refs.py:165-184 | the entries under [Unreleased] become those of the new heading, with none left behind; where there were none it gets the placeholder |
| ReleaseRefs.ReferencesSet | scripts/release-refs.py:203-215 | as many README references as before, all to the tag |
| ReleaseRefs.ReferencesExactly | scripts/release-refs.py:54-55 | a README line is a reference exactly when it assigns a tag without white space |
| ReleaseRefs.Repository.Check | scripts/release-refs.py:112-162 | reports no fault exactly when the files are consistent and not behind git, with headings in the order of the versions they name |
| ReleaseRefs.Repository.Bump | scripts/release-refs.py:187-220 | the whole new state of the three files for every outcome, and success exactly when they are consistent |
| ReleaseRefs.BumpEstablishesCheck | scripts/release-refs.py:33-38 | from a changelog that opens with [Unreleased] and descends, after a bump the check passes if and only if the tag was the newest stable heading already, or is above the newest heading with a well-formed date; a prerelease also needs references that were right |
| ReleaseRefs.BumpIsCurrent | scripts/release-refs.py:135-143 | after such a bump of a stable tag the git comparison fails exactly when git has a newer stable tag |
| ReleaseRefs.SecondBump | scripts/release-refs.py:33-37 | a second bump changes nothing if and only if the first left the tag documented |
| LOOffset.WrapIsDistance | cmd/gophertrunk/conv_offset.go:134-143 | the wrapped magnitude is the distance to the nearest multiple of the rate |
| LOOffset.WrapIsEven | cmd/gophertrunk/conv_offset.go:134-143 | it is even, so one sign per product suffices |
| LOOffset.LoOffsetClearanceHz | cmd/gophertrunk/conv_offset.go:121-132 | the loop computes the least clearance over the eight products |
| LOOffset.PositiveClearanceIsClipSafe | cmd/gophertrunk/conv_offset.go:113-120 | the clearance is positive if and only if every alias of every product on either side, with its spread, misses the channel |
| LOOffset.QuarterIsWorst | cmd/gophertrunk/conv_offset.go:45-50 | a quarter of the rate attains the global minimum clearance |
| LOOffset.PickClipSafeLOOffsetHz | cmd/gophertrunk/conv_offset.go:95-111 | returns the smallest grid offset of the greatest clearance, 0 exactly when the grid is empty |
| LOOffset.PickIsClipSafeExactly | cmd/gophertrunk/conv_offset.go:41-50 | the offset returned is clip-safe if and only if the rate exceeds 3 737 500 / 7 Hz, over all real rates |
| LOOffset.PickIsNotQuarter | cmd/gophertrunk/conv_offset_test.go:223-225 | at no positive rate is a quarter of it picked |

## Left out

- SDR drivers, brokers, decoders, HTTP, gRPC, TUI, storage and the construction half of
  `daemon.go`: they appear only as the inputs of the modelled steps.
- The FFT, FIR and oscillator numerics and floating-point rounding: the estimator starts
  from the power spectrum, a down-converter is an arbitrary state transformer.
- Log lines, warning throttles and message formatting, except the drop reporter's slots.
- The capture pipeline, the slack queue and the drop observer are step relations over
  values rather than classes: their state belongs to several goroutines at once. Buffer
  aliasing (the fresh copy per chunk) is therefore not modelled.
- The settling time of `Tune`: only the clearing of the leftover and the discarding of
  dequeued chunks are decided by the code.
- CarrierConsensus.SortedIsPermutation: the library sort is modelled by an insertion
  sort; `SortedUnique` shows the choice does not matter.
- TalkgroupFile.WrittenFileReadsBack: the scanner's line-length limit and the byte order
  mark are not modelled; `Encrypted` has no column and is lost.
- RadioReference section files, site rows, frequencies in text and the PDF parser.
- YAML text, comments, anchors and null scalars: a document is a tree of mappings,
  sequences and scalars. The slug and path of a talkgroup table and the collection of
  control channels are inputs.
- The rest of the configuration's validation is a predicate on the systems.
- ReleaseRefs.BumpEstablishesCheck: tags and dates contain no line feed, and digits are
  ASCII ones; the docs fallback is a sequence of text pieces and assignments rather than
  text searched by a pattern; git is a parameter.
- Full precedence of section 11 of Semantic Versioning 2.0.0: `semver_key` compares
  prerelease text as one string, and the order proved is that one.
- `convDedicatedSerials`, `convScannerLOOffsetHz` and the overload watch of the scanner
  front end: they add no hard property.
- Cryptography, key containers' encryption and password prompts.
