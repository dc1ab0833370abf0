# Speculative latency sweep and its log visualizer

A Dafny model of two pieces of the network-simulation scripts in `gem5/`.

**The sweep.** `gem5/run_script.py` runs one experiment as a speculative sweep over injection rates. The experiment is a network configuration, a benchmark and a latency limit. The sweep has these parts:
- Up to five workers are in flight at once, bounded by a semaphore.
- Each worker simulates one rate, 0.02 above the previous one.
- Each worker measures the average packet latency at its rate and queues the measurement.
- The first worker whose latency exceeds the limit sets `done`.
- After the dispatching loop is left, the workers still registered are terminated and the queue is drained into the returned list.

Every step after the first is logged through `Experiment.log` as `Experiment: NAME -> MESSAGE`, with worker steps as `worker RATE -> MESSAGE`. The exception is the opening line (line 137), `Starting experiment: NAME`. It is written with the module's bare `log`, without that prefix.

**The visualizer.** `gem5/visualizer.py` rereads that log on every refresh. It classifies each line by its experiment prefix and its worker tag, then folds the lines into these values:
- the experiments seen and the ones that exited;
- each experiment's started and completed workers;
- each experiment's peak latency.

**The modules:**
- `Text` models the renderings involved and the scripts' character tests:
  - `%d`, `%1.2f` of a rate, and `%f` of a whole latency;
  - `float()` of a digit string;
  - `str.upper()`;
  - Python's `\s`;
  - substring search.
- `RunScript` models the value side of `run_script.py`:
  - the configuration records;
  - `get_flags`, `get_output_dir`, `name`;
  - the text of the log lines;
  - `Measurement.toDict` and `Experiment.toDict`.
- `Sweep` models the bookkeeping of `Experiment.run`. The state is the dispatch counter, `done`, the free permits, the registry from rate to worker index, the list of workers and the queue. It is modelled in two forms:
  - Pure: a `State` datatype with one step function per stretch of code that runs without interleaving, replayed over a schedule of events. The stretches are a turn of the dispatch loop, a worker's put of its measurement, a worker's deregistration, and the cleanup. The invariant and the properties of whole schedules are proved about this form.
  - Imperative: `class Run` holds the same variables as fields. Its methods change them in place, and each method is proved to do what the corresponding step function does. `RunSchedule` drives a `Run` through a schedule.
- `Visualizer` models the refresh pass:
  - `f.readlines()` on a file opened in text mode, with universal newlines;
  - the three regular expressions, with Python's matching semantics. The experiment prefix (line 30) has its own matcher; the worker tag (line 35) and the latency tag (line 43) share `MatchMarker`;
  - the classification of a line;
  - the loop that updates the sets and the peak. `Refresh` is that loop, proved equal to a fold over the classified lines.
- `LogRoundTrip` connects the two sides. Every line the sweep writes is classified by the visualizer as the experiment, worker and event it reports.

Rates are whole numbers of hundredths, so dispatch k has rate 2k. Latencies are whole numbers, compared with the limit by a strict `>`.

## Model

| member | source | states |
|---|---|---|
| Text.NatToString | gem5/run_script.py:95 | `%d` of a non-negative number is a non-empty digit string without a leading zero |
| Text.ParseNatToString | gem5/run_script.py:95 | reading the digits of `%d` back gives the number |
| Text.ParseIntToString | gem5/run_script.py:95 | `%d` of any integer (optional minus sign, then digits) reads back to that integer |
| Text.IntToStringChars | gem5/run_script.py:128 | a rendered integer holds digits and at most a leading minus sign |
| Text.UpperShape | gem5/run_script.py:130 | `upper()` turns each lower-case letter into its own capital and keeps every other character in place, so it keeps the length, leaves no lower-case letter and adds no whitespace |
| Text.FormatHundredths | gem5/run_script.py:122 | `%1.2f` of a rate ends in a point and two decimals |
| Text.FormatHundredthsRoundTrip | gem5/run_script.py:122 | the two-decimal rendering of a rate reads back to the rate |
| Text.FormatHundredthsInjective | gem5/run_script.py:133 | distinct rates render differently |
| Text.FormatHundredthsChars | gem5/run_script.py:172 | a rendered rate is made of digits and points only |
| Text.FormatLatency | gem5/run_script.py:188 | `%f` of a whole latency is its `%d` digits followed by `.000000` |
| Text.PointIndex | gem5/visualizer.py:44 | finds the first point: nothing before it is a point |
| Text.ParseDecimal | gem5/visualizer.py:44 | `float()` accepts only digit-and-point strings (None is where it raises), and keeps the value of the digits before the first point |
| Text.ParseDecimalDefined | gem5/visualizer.py:44 | both directions: `float()` of a `[\d.]+` group is defined exactly when it holds at most one point and at least one digit |
| Text.ParseDecimalExamples | gem5/visualizer.py:44 | `float()` raises on `.` and on `1.2.3` and reads `12` as 12; with the fraction dropped (see Left out), `0.42` reads as 0 |
| Text.ParseDecimalOfLatency | gem5/visualizer.py:44 | `float()` of the `%f` rendering of a latency gives the latency back |
| RunScript.GetFlags | gem5/run_script.py:89-123 | eighteen flags, the last one the rate at two decimals |
| RunScript.FlagsDifferOnlyInRate | gem5/run_script.py:89-123 | two runs of one experiment share the first seventeen flags, and distinct rates give distinct last flags |
| RunScript.OutputDirComponents | gem5/run_script.py:125-134 | seven components in join order: the output directory, the core count, the routing algorithm's name, the upper-cased benchmark, `freq-N`, `vc-N`, and `inj-` with the rate |
| RunScript.OutputDirShape | gem5/run_script.py:125-134 | a run's directory is the experiment's directory followed by `inj-RATE` (`os.path.join` with no absolute later component) |
| RunScript.OutputDirDistinct | gem5/run_script.py:125-134 | distinct rates of one experiment get distinct output directories |
| RunScript.NameNoSpace | gem5/run_script.py:255-256 | a name is non-empty and whitespace-free whenever the benchmark is |
| RunScript.MeasurementToDict | gem5/run_script.py:75-76 | exactly the keys `injection_rate` and `packet_latency` |
| RunScript.MeasurementDictRoundTrip | gem5/run_script.py:75-76 | the dictionary gives back the measurement |
| RunScript.ExperimentToDictAsWritten | gem5/run_script.py:248-253 | as written, every call raises AttributeError for `benchmark` |
| RunScript.ExperimentToDict | gem5/run_script.py:248-253 | corrected: exactly `cores`, `benchmark` and `vc`, two numbers and a text |
| RunScript.ExperimentDictAgreesWithName | gem5/run_script.py:248-256 | the corrected record rendered in the name's format is the experiment's name |
| Sweep.InitInvariant | gem5/run_script.py:148-168 | the initial state (five permits, empty registry, list and queue) satisfies the invariant |
| Sweep.RegisteredIndex | gem5/run_script.py:214-217 | a registered rate's index is the number of workers dispatched before it |
| Sweep.RatesIncrease | gem5/run_script.py:210-217 | rates in the worker list strictly increase |
| Sweep.BoundedSpeculation | gem5/run_script.py:154 | at most five workers are registered |
| Sweep.DispatchEffect | gem5/run_script.py:200-221 | a dispatch starts a worker exactly when `done` is unset and a permit is free; the new rate is 0.02 above the last, unregistered and above every earlier rate; it takes one permit and adds one registry entry; otherwise nothing is registered |
| Sweep.PutEffect | gem5/run_script.py:186-191 | a put enqueues its measurement whatever the latency, as the first of its rate; it sets `done` exactly when the latency exceeds the limit (or keeps it), and leaves the registry and the permits alone |
| Sweep.DeregisterEffect | gem5/run_script.py:194-197 | a deregistration follows the worker's queued measurement; it removes only its own rate, shrinking the registry by one, and returns one permit |
| Sweep.DispatchKeepsQueueAccounts | gem5/run_script.py:200-221 | a dispatch keeps the queue accounting: every queued rate is dispatched, once, and its worker has deregistered or put |
| Sweep.DispatchKeepsRegistry | gem5/run_script.py:208-217 | a dispatch keeps rates in order and permits plus registry size at five |
| Sweep.DispatchPreservesInvariant | gem5/run_script.py:200-221 | a dispatch preserves the invariant |
| Sweep.PutKeepsQueuedRates | gem5/run_script.py:186 | after a put every queued rate is a dispatched rate whose worker has deregistered or has put, and no rate is queued twice |
| Sweep.PutKeepsQueueCover | gem5/run_script.py:186 | after a put every deregistered worker and every worker that has put has a queued measurement |
| Sweep.PutKeepsDoneAccounts | gem5/run_script.py:186-190 | after a put `done` holds exactly when a queued latency exceeds the limit |
| Sweep.PutPreservesInvariant | gem5/run_script.py:186-191 | a put preserves the invariant |
| Sweep.DeregisterKeepsQueueAccounts | gem5/run_script.py:194-197 | after a deregistration the worker's queued measurement still accounts for it |
| Sweep.DeregisterKeepsRegistry | gem5/run_script.py:194-197 | a deregistration keeps permits plus registry size at five, and the registry not full once `done` is set unless a registered worker has put |
| Sweep.DeregisterPreservesInvariant | gem5/run_script.py:194-197 | a deregistration preserves the invariant |
| Sweep.ApplyPreservesInvariant | gem5/run_script.py:186-221 | every event preserves the invariant |
| Sweep.ReplayPreservesInvariant | gem5/run_script.py:186-221 | every schedule preserves the invariant |
| Sweep.ReplayInvariant | gem5/run_script.py:148-221 | every state a schedule reaches from the start satisfies the invariant (permits plus registry size is five, rates in order, queue accounting, `done` exactly when a queued latency is over the limit) |
| Sweep.NoDispatchOnceDone | gem5/run_script.py:200-206 | once `done` is set it stays set, and no rate is dispatched or registered any more |
| Sweep.DoneOnlyByLatency | gem5/run_script.py:189-190 | `done` becomes set only through a worker's put whose latency exceeds the limit |
| Sweep.LimitUnchanged | gem5/run_script.py:189 | no event changes the latency limit |
| Sweep.DispatchedRates | gem5/run_script.py:210-217 | the rates dispatched are 0.02, 0.04, ... in order |
| Sweep.FinishTerminatesRegistered | gem5/run_script.py:229-234 | the terminated indices are exactly those of workers still registered |
| Sweep.FinishCountsStragglers | gem5/run_script.py:231-239 | the straggler count is the number terminated and the registry size, at most five, and five only when a terminated worker's measurement is queued |
| Sweep.FinishLeavesRegisteredTerminated | gem5/run_script.py:229-235 | after the cleanup a worker is terminated exactly when it is still registered |
| Sweep.FinishEffect | gem5/run_script.py:229-246 | the cleanup terminates exactly the registered workers and reports their number, at most five. It returns the queue in order: one measurement per deregistered worker, one for each terminated worker that had put before the cleanup, none for the other terminated ones, no rate twice |
| Sweep.FinishPreservesInvariant | gem5/run_script.py:229-246 | the cleanup preserves the invariant |
| Sweep.StoppedQueue | gem5/run_script.py:200-206 | once the loop is left, some queued latency exceeds the limit and every queued rate was dispatched |
| Sweep.RunOutcomeShape | gem5/run_script.py:136-246 | a sweep that left its loop returns its queue, which holds a latency over the limit and only dispatched rates; it reports at most five stragglers, and five only when a straggler's measurement is among those returned |
| Sweep.FiveDispatches | gem5/run_script.py:200-221 | five dispatches take every permit and register the rates 0.02 to 0.10 at indices 0 to 4 |
| Sweep.FiveStragglers | gem5/run_script.py:186-246 | with limit 2.00, five dispatches, a put of latency 2.01 by the first worker and a loop test give five stragglers, the first worker among them, and its measurement returned |
| Sweep.PresentSnoc | gem5/run_script.py:186 | putting an item at the back of the queue appends its measurement, if any |
| Sweep.Run.constructor | gem5/run_script.py:148-168 | the locals start as the initial state |
| Sweep.Run.Dispatch | gem5/run_script.py:200-221 | one turn of the loop changes the locals as the dispatch step does, and leaves the queue alone |
| Sweep.Run.Put | gem5/run_script.py:186-191 | a worker's put changes the locals as the put step does, putting its measurement at the back of the queue |
| Sweep.Run.Deregister | gem5/run_script.py:194-197 | a worker's deregistration changes the locals as the deregistration step does, and leaves the queue alone |
| Sweep.Run.Finish | gem5/run_script.py:229-246 | the cleanup reports and changes the locals as the cleanup step does, and empties the queue |
| Sweep.Run.TerminateStragglers | gem5/run_script.py:231-235 | the loop over the registry's values terminates exactly those indices |
| Sweep.Run.DrainQueue | gem5/run_script.py:242-243 | putting the sentinel and taking items until it returns yields the queued measurements in order and leaves the queue empty |
| Sweep.RunSchedule | gem5/run_script.py:136-246 | the run under a schedule returns what the replayed step functions give |
| Visualizer.Translate | gem5/visualizer.py:17 | text-mode reading leaves no `\r`: `\r\n` and a lone `\r` arrive as `\n` |
| Visualizer.TranslateUnchanged | gem5/visualizer.py:17 | contents without `\r`, such as the script's own log, are read as written |
| Visualizer.TranslateKeepsText | gem5/visualizer.py:17 | every character other than `\r` and `\n` occurs in what is read exactly when it occurs in the file, and a leading one stays in front |
| Visualizer.FirstLineLength | gem5/visualizer.py:29 | the first line stops at, and includes, the first newline |
| Visualizer.SplitLinesConcat | gem5/visualizer.py:29 | the pieces of the split put back together are the text split |
| Visualizer.SplitLinesAreLines | gem5/visualizer.py:29 | each piece is a line, only the last may lack its newline, and a character absent from the text is absent from every piece |
| Visualizer.ReadLinesConcat | gem5/visualizer.py:17-29 | the lines `readlines()` returns put back together are the file contents with their newline sequences translated |
| Visualizer.ReadLinesAreLines | gem5/visualizer.py:17-29 | each line is non-empty, holds no `\r`, holds a newline only as its last character, and ends in one unless it is the file's last line |
| Visualizer.ReadLinesBreaks | gem5/visualizer.py:17-29 | `\r\n`, a lone `\r` and `\n` each end a line, which is read with a single `\n` at its end |
| Visualizer.NonSpaceRun | gem5/visualizer.py:30 | the run of non-whitespace stops at the first whitespace |
| Visualizer.NonSpaceRunAt | gem5/visualizer.py:30 | the run is the only prefix without whitespace that is followed by whitespace or the end |
| Visualizer.MatchExperimentOf | gem5/visualizer.py:30-32 | a line starting with `Experiment: `, a non-empty whitespace-free name and ` ->` matches that name |
| Visualizer.MatchExperimentShape | gem5/visualizer.py:30-32 | a matched name is non-empty and whitespace-free, and the line starts with tag, name and ` ->` |
| Visualizer.MatchExperimentIff | gem5/visualizer.py:30-32 | both directions: a line names an experiment exactly when it starts with the tag, that name and ` ->` |
| Visualizer.LastMarked | gem5/visualizer.py:35-37 | the greedy `.*` settles on the last position where the marker, followed by a digit or point, is reachable without crossing a newline |
| Visualizer.RateRun | gem5/visualizer.py:35-37 | the group is the longest run of digits and points after the marker |
| Visualizer.MatchMarkerAt | gem5/visualizer.py:35-37 | a line with one marked position matches the rate run after it |
| Visualizer.ClassifyUnrelated | gem5/visualizer.py:30-33 | a line is ignored exactly when its experiment prefix does not match, and otherwise is classified under the matched name |
| Visualizer.Refresh | gem5/visualizer.py:21-50 | the loop over the lines computes the fold of the classified lines from empty state, so a refresh depends on the file contents alone |
| Visualizer.UnrelatedLineChangesNothing | gem5/visualizer.py:29-33 | a line without the experiment prefix changes nothing |
| Visualizer.StepIdempotent | gem5/visualizer.py:33-50 | a line applied twice has the effect of once |
| Visualizer.RepeatedLine | gem5/visualizer.py:33-50 | repeating a line does not change the tally |
| Visualizer.CrashIsFinal | gem5/visualizer.py:43-44 | once a line makes the script raise, the refresh raises whatever follows |
| Visualizer.StepGrows | gem5/visualizer.py:33-50 | a line only adds to the sets, never lowers a peak, and marks an experiment completed only as a non-worker `exited` line |
| Visualizer.PeakNeverDecreases | gem5/visualizer.py:43-45 | processing more lines never lowers a peak |
| Visualizer.StepMembers | gem5/visualizer.py:33-50 | what one line adds to each set, stated as membership |
| Visualizer.ExperimentsListed | gem5/visualizer.py:30-33 | both directions: an experiment is listed exactly when some line names it |
| Visualizer.ExperimentsCompleted | gem5/visualizer.py:47-50 | both directions: an experiment is completed exactly when some non-worker line of it contains `exited` |
| Visualizer.WorkersStarted | gem5/visualizer.py:35-40 | both directions: a worker is started exactly when some worker line of it contains `starting` |
| Visualizer.WorkersCompleted | gem5/visualizer.py:35-42 | both directions: a worker is completed exactly when some worker line of it contains `done` |
| Visualizer.StepPeak | gem5/visualizer.py:43-45 | a line raises its experiment's peak to the maximum with its latency when it is a `done` line, and changes no other peak |
| Visualizer.TallyPeakBound | gem5/visualizer.py:43-45 | the peak is at least every latency the experiment's `done` lines report |
| Visualizer.TallyPeakAttained | gem5/visualizer.py:23-45 | the peak starts at 0 and is otherwise the latency of one of the experiment's `done` lines |
| LogRoundTrip.NoMarkerNoMatch | gem5/visualizer.py:35 | a line without the marker does not match it |
| LogRoundTrip.NameFacts | gem5/run_script.py:255-256 | a name is a valid experiment name and lacks the letters of the worker, done, starting and exited tests |
| LogRoundTrip.ExperimentLineName | gem5/run_script.py:258-259 | every line `log` writes names its experiment back |
| LogRoundTrip.WorkerLineWorker | gem5/run_script.py:171-172 | a worker's line names its rate back |
| LogRoundTrip.StartingLine | gem5/run_script.py:175 | the starting line is a worker line of that rate, starting and not done |
| LogRoundTrip.DoneLineLatency | gem5/run_script.py:188 | the latency regex reads the done line's latency back |
| LogRoundTrip.DoneLine | gem5/run_script.py:188 | the done line is a worker line of that rate, done and not starting, with its latency |
| LogRoundTrip.ExitedLine | gem5/run_script.py:225 | the `exited` line marks its experiment completed |
| LogRoundTrip.MarkerWithoutRate | gem5/visualizer.py:35 | a marker followed by something other than a digit or point is not matched |
| LogRoundTrip.NoExit | gem5/run_script.py:258-259 | a logged line contains `exited` only through its message |
| LogRoundTrip.QuietLine | gem5/run_script.py:258-259 | an experiment message without `w` and `x` is a non-completing experiment line |
| LogRoundTrip.TerminationLine | gem5/run_script.py:233-235 | a termination line is not read as a worker line (its `worker` is followed by `number`) |
| LogRoundTrip.LimitLine | gem5/run_script.py:191 | the limit line is a worker line that is neither starting nor done |
| LogRoundTrip.StartingLineRoundTrip | gem5/run_script.py:171-175 | the line `worker_log("starting")` writes is classified as that worker starting under that experiment |
| LogRoundTrip.DoneLineRoundTrip | gem5/run_script.py:188 | the done line is classified as that worker done, and its latency reads back to the measured latency |
| LogRoundTrip.ExitedLineRoundTrip | gem5/run_script.py:225 | the `exited` line is classified as that experiment completed |
| LogRoundTrip.LimitLineRoundTrip | gem5/run_script.py:191 | the limit line is classified as a worker line of that rate, neither starting nor done |
| LogRoundTrip.TerminatingLineRoundTrip | gem5/run_script.py:233 | the terminating line is a non-completing experiment line |
| LogRoundTrip.TerminatedLineRoundTrip | gem5/run_script.py:235 | the terminated line is a non-completing experiment line |
| LogRoundTrip.StragglersLineRoundTrip | gem5/run_script.py:239 | the stragglers line is a non-completing experiment line |
| LogRoundTrip.GeneratedLineRoundTrip | gem5/run_script.py:245 | the summary line is a non-completing experiment line, even though it contains `done` |
| LogRoundTrip.StartLineUnrelated | gem5/run_script.py:137 | the `Starting experiment:` line is ignored by the visualizer |
| LogRoundTrip.WorkerLifecycleShown | gem5/run_script.py:171-191 | in any log whose lines include a worker's starting line and its done line, at any positions and among any other lines, a refresh that does not raise lists the experiment, counts the worker started and completed, and shows a peak at least the latency |
| LogRoundTrip.LifecycleTally | gem5/visualizer.py:33-45 | whenever a worker's starting class and its done class occur anywhere among the classes, the tally lists the experiment, the worker in both sets, and the latency under the peak |

## Left out

- Processes and blocking: `multiprocessing` workers, `Manager`, `Pool.map`, and the real waiting of the semaphore and lock are not modelled. A schedule of events stands for an interleaving. Its events are the stretches below, each taken as atomic.
- A turn of the dispatch loop (lines 200-221) is one event, although its lock covers only lines 208-219 and the process starts after the release. A turn that finds no free permit changes nothing. It stands for the loop not having reached line 200 yet, so a later turn reads `done` afresh.
- A worker's put (line 186) and its `done.set()` (line 190) are one event. Nothing reads the queue before the loop is left, so a dispatch between the two has the effect of one before the put. The deregistration (lines 194-197) is a separate, later event, and the cleanup can run between the two. That gap is how five stragglers arise (Sweep.FiveStragglers).
- The cleanup (lines 229-246) is one event. A put during it, before the worker is terminated, has the effect of one before it.
- The re-check of `done` at line 204: the atomic dispatch turn reads `done` once. The permit that a stopping turn acquires and returns at lines 201-205 is not modelled.
- Simulator and stats: `subprocess.call`, the `grep` through `check_output` and the split of its output are external tools. Their result enters the model as the latency of a put event.
- A failing worker: a worker that raises before line 194 never deregisters or releases its permit. The model has no event for it.
- Events naming no in-flight worker: a put for a rate that is not registered changes nothing in the model. The script cannot produce one. Nor can a worker put twice or deregister before it puts. `reported`, the rates whose worker has put and not yet deregistered, records where the workers stand. It is not a variable of the script.
- Sweep.FinishStep: the registry is not cleared after termination, as in the script. The terminate calls of the processes are a flag on each list entry.
- `log`: the shared log file, its lock and the appending (lines 14-23) are I/O. The sweep's state does not record the lines it writes. `LogRoundTrip` relates the text of each line to the visualizer.
- The log file's path: the script appends to `./log.log` while the visualizer opens `result/log.log`. The model passes the contents directly.
- `main`, the JSON dump and `Pool.map`, and the configuration tables (lines 263-338) are not modelled.
- Floating point:
  - Rates are exact hundredths, not the accumulated `+= 0.02`.
  - Latencies are whole numbers.
  - `float()` keeps the whole part of a digit string.
  - `%f` is modelled for whole latencies only.
  - `cycles=1e5` is an integer.
- Text.Upper: only ASCII letters are upper-cased. `\d` is the ASCII digits.
- The visualizer's drawing, timing, `sleep` and `seek` (lines 52-70) are not modelled. The sums of set sizes at lines 59-61 follow from the sets the model computes.
- `gem5/graph.py` (plotting) is not part of this model.
- The round-trip lemmas require a benchmark without whitespace. A benchmark containing whitespace breaks the `[^\s]+` name match. In the script every benchmark is whitespace-free.
- Line 189 compares with a strict `>`, so a latency equal to the limit does not set `done`.

## Findings

| source | as written | input that shows it | evidently intended | confidence | as-written member | corrected member |
|---|---|---|---|---|---|---|
| gem5/run_script.py:251 | `toDict` reads `self.benchmark`, which no Experiment defines, so it raises AttributeError | any Experiment, e.g. the first one `main` builds | `self.software_config.benchmark.upper()`, as `name` and `get_output_dir` use | not executed | RunScript.ExperimentToDictAsWritten | RunScript.ExperimentToDict |
