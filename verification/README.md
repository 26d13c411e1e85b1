# Bolo, verified

Bolo is a monitoring system. An aggregation kernel collects states, counters, samples, rates, events
and keys, and broadcasts what it makes of them; adapters such as bolo2pg store the broadcasts. This
project models five parts of it in Dafny and proves what they guarantee over every run.

- **The kernel** (`src/core.c`, `src/data.c`). `Windows` is the simplest account of a metric: a
  machine that keeps every item of the window being filled. `Counters`, `Samples` and `Rates` keep a
  few numbers instead and are shown to broadcast what that machine would; `SampleStats` is the online
  mean and variance; `States` is status, staleness and TRANSITIONs; `Events` and `Keys` are the event
  buffer and the key table with its file. `Kernels.Kernel` is the reactor as an object with mutable
  tables. Its contracts tie every table entry, and the part of the broadcast stream about it, to the
  run of a small per-name machine, whatever order the hash tables are walked in.
  `KernelTheorems` states the results on the inputs of a run and the stream it broadcast, and
  `KernelSteps` what one input does wherever in a run it comes.
- **The Postgres pipeline** (`src/bolo2pg/main.c`, `examples/schema/pg.sql`). `Dispatchers` is the
  rule that skips redundant OK states; `Reconcile` is the `reconcile()` procedure over its tables;
  `Timelines` says what the history then records; `Pipelines` follows a state from the kernel to its
  row in the database.
- **Qualified names** (`src/bolo_name.c`). `Names`, `NameText`, `NameOps`, `NameTheorems`,
  `NameWords`: parsing, printing, sorting, editing in place, and the two-pointer matcher, also stated
  on the texts themselves.
- **The savefile** (`src/binf.c`). `Bytes`, `Records`, `Savefile`: the binary writer and reader over
  a mapped file, and restoring the database from it.
- **The line framer** of dbolo (`src/dbolo/main.c`). `Framers`.

Where code and comments disagree the code is modelled. Some findings are stated as theorems because a
reader would not expect them. Counters and sample sets account for every run over a set of timestamps
exactly when all are in 1..2^31-1, or there is just one and it is from 2^31 on and divided, as 2^32 is,
by the window (`CounterConservedIff`, `SampleConservedIff`). A submission at 0 reads as "no data" and
moves to the next window (`ZeroTimestampIsMisfiled`); from 2^31 on the stored time is negative, so the
entry never rolls over and its label is rounded up (`StampIff`, `MergedIsMisfiled`). The database shows
the label of the kernel, in whatever order records are staged and processed, except for a state that
went stale after an update that was forwarded: the staleness mark carries the time of that update, and
of the two the first processed wins (`RowInAnyOrder`, `RowAfterPasses`). Sample statistics lose their
fraction in the savefile, since each passes through a 32-bit integer (`StatSurvivesIff`), and a state
with an empty summary or an event with an empty extra stops the reading of the file there
(`ShortDecodes`, `FileSurvivesIff`). The second of two records with one time, such as a TRANSITION and
the STATE after it, is logged as an anomaly (`AnomaliesAreRepeats`). A reading that fell is taken for a
16-bit or 32-bit counter that wrapped, and the distance comes out one short (`FallenReading`). Name
matching is transitive exactly when a `*` in the middle name is also in the last (`TransitiveIff`).
Setting a `*` value, or no value, leaves a name component whose value is missing (`SetConsistentIff`). A
line longer than dbolo's buffer blocks its command for good (`DrainsIffFits`), and a NUL in a complete
line keeps lines from being handed on (`HandsOnAllIff`).

Modelling choices: timestamps and clocks are integers; sample values are reals; a regex is an
arbitrary predicate on names, and one that does not compile is `None`; hash tables are maps walked in
an arbitrary order; lists are sequences; the clock, the file contents and the sizes of reads are
parameters. C's integer widths are explicit where they matter: counter sums wrap at 2^64, unsigned
timestamps are stored as `int32_t`, window labels and sample counts are sent modulo 2^32, record
lengths wrap at 2^16. Where C leaves its defined behaviour
(division by zero in a rate, reading past a line or a record) the model returns a distinct result.

## Model

| member | source | states |
|---|---|---|
| Windows.WinStartBounds | src/core.c:50-51 | A window is the half-open interval from a multiple of its length to the next around a non-negative time, although C's remainder takes the sign of the dividend. |
| Windows.WinStartMonotone | src/core.c:50-51 | Windows are ordered like the times in them; a time past the end of a window starts a strictly later one. |
| Windows.WinStartSigns | src/core.c:50-51 | A negative time falls in a window that starts at or before 0; a time of at least one window in one that starts after 0. |
| Windows.WinStartBelow | src/core.c:50-51 | Below 0 the start is the multiple next to the time towards 0, and the end one length later. |
| Windows.Conservation | src/core.c:886-959 | In any order of submissions and flushes, the closed groups labelled with a window plus the pending group are exactly the items of that window, in order. |
| Windows.StepConserves | src/core.c:886-959 | The step form of conservation: one operation adds its own item to its own window and nothing else. |
| Windows.PunctualRun | src/core.c:504-536 | With ordered timestamps and delays within the grace period, group labels strictly increase and no closed window can be entered again. |
| Windows.GroupsCoverItems | src/core.c:886-959 | The groups read in order are the submitted items: nothing lost, repeated or reordered. |
| Windows.GroupByOfIncreasing | src/core.c:504-536 | Groups with increasing labels are what a batch group-by of their items gives. |
| Windows.ExactlyOnce | src/core.c:504-536 | The streaming windows of a punctual run equal the batch group-by of everything submitted, each window once. |
| Windows.IdleHasEnded | src/core.c:514-516 | Where nothing is pending, the last window was closed by a flush and so ended before its cutoff. |
| Windows.FlushedOnTime | src/core.c:504-536 | Right after a flush in a punctual run, exactly the windows of the batch group-by that ended more than the grace period ago, or were followed by another, are closed. |
| SampleStats.DataMoments | src/data.c:32-50 | One update of the recurrence keeps count, sum, mean and variance equal to the moments of the values. |
| SampleStats.Moments | src/data.c:32-50 | After any values: n is the count, n times mean the sum, n times (variance + mean squared) the sum of squares. |
| SampleStats.VarianceNonNegative | src/data.c:32-50 | The running variance is never negative. |
| SampleStats.Extremes | src/data.c:32-50 | min and max are attained by a value and bound all of them. |
| SampleStats.MeanBetween | src/data.c:32-50 | The mean of any values lies between their least and greatest. |
| SampleStats.Batch | src/data.c:22-50 | All broadcast statistics are the batch values: n, sum, min, max, sum/n, sum of squares/n minus mean squared; variance >= 0; min <= mean <= max. |
| SampleStats.OrderIndependent | src/data.c:22-50 | Two orders of the same values give the same broadcast statistics. |
| Metrics.RenderedOnce | src/core.c:504-536 | Broadcasts made from punctual windows are the broadcasts of the batch group-by, with strictly increasing labels. |
| Metrics.StampIff | src/core.c:146-195 | For a timestamp from 2^31 on, stored as a negative number and printed with `%u`, the label sent is that of its window iff the window divides both the timestamp and 2^32. |
| Metrics.NotAccountable | src/core.c:886-959 | A set of timestamps that is neither all in range nor a single aligned one has a member out of range that is misfiled alone or together with another of the set. |
| Metrics.FirstMatchDecides | src/data.c:90-177 | The target found is that of the first rule that matches, and none is found only where no rule matches. |
| Metrics.FlushInPlainTerms | src/core.c:50-51 | A tick flushes data seen at t iff the multiple of the window next to t towards 0, plus the window, is before the cutoff; that multiple, modulo 2^32, is the label sent. |
| Metrics.ClosedOnTime | src/core.c:504-536 | The windows a punctual run that ends in a tick leaves closed: those over by more than the grace period, or followed by another. |
| Counters.CounterRefines | src/core.c:886-917 | A counter, which keeps one number, broadcasts what the item-keeping machine would, in any order of submissions and ticks. |
| Counters.CounterConservation | src/core.c:146-158 | For every window, broadcast values plus the pending value equal the submitted increments of that window modulo 2^64, in any arrival order. |
| Counters.OneCountedIff | src/core.c:886-917 | One submission is accounted for in its own window iff it adds 0, or its timestamp is in 1..2^31-1, or is from 2^31 on and divided, as 2^32 is, by the window. |
| Counters.CounterConservedIff | src/core.c:886-917 | Every run over a set of timestamps is accounted for in every window if and only if all of them are in 1..2^31-1, or there is only one and that is from 2^31 on and divided, as 2^32 is, by the window. |
| Counters.MergedIsMisfiled | src/core.c:896-897 | An entry with a time from 2^31 on never rolls over: the next submission, to another window, is added to it and its own window is lost. |
| Counters.AlignedConserved | src/core.c:886-917 | Every run of submissions with one aligned timestamp, and ticks, is accounted for in every window. |
| Counters.ZeroTimestampIsMisfiled | src/core.c:886-917 | Where an increment submitted at time 0 goes: into the window of the next submission, so window 0 is short by exactly it. |
| Counters.CounterExactlyOnce | src/core.c:504-520 | For punctual submissions, broadcasts followed by the pending one are the batch group-by, labels strictly increasing; the i-th carries the start of the i-th window and the sum of its increments modulo 2^64. |
| Counters.CounterOnTime | src/core.c:504-520 | Right after a tick, a punctual counter has broadcast every window that ended more than the grace period ago or was followed by another, once each and in order, with its start and sum. |
| Counters.CounterTicked | src/core.c:515-520 | A tick broadcasts and empties a counter iff it is not ignored and holds data of a window that is over; otherwise nothing changes. |
| Counters.TotalIsSum | src/core.c:908 | The value kept is the sum of the increments modulo 2^64. |
| Counters.CounterForgotten | src/core.c:740-835 | After a non-ignoring FORGET the rest of the run is that of a name never heard of. |
| Counters.CounterIgnored | src/core.c:894 | An ignored counter never changes or broadcasts until a non-ignoring FORGET. |
| Counters.CounterMarked | src/core.c:783-784 | An ignoring FORGET of a known counter sets its flag and nothing else, and the rest of the run has no news of it. |
| Samples.SampleRefines | src/core.c:920-959 | Running statistics broadcast what keeping all values and summarising them at the close would. |
| Samples.SampleConservation | src/core.c:161-180 | For every window, the counts (modulo 2^32, as printed) and sums broadcast plus those pending are the number and the sum of the values submitted for it, in any order. |
| Samples.OneSampledIff | src/core.c:920-959 | One submission of values is accounted for in its own window iff its timestamp is in 1..2^31-1, or is from 2^31 on and divided, as 2^32 is, by the window, or its count modulo 2^32 and its sum are 0. |
| Samples.SampleConservedIff | src/core.c:920-959 | Every run over a set of timestamps is accounted for in every window if and only if all of them are in 1..2^31-1, or there is only one and that is from 2^31 on and divided, as 2^32 is, by the window. |
| Samples.MergedIsMisfiled | src/core.c:930-931 | An entry with a time from 2^31 on never rolls over: the next submission, to another window, is added to it and its own window is lost. |
| Samples.AlignedConserved | src/core.c:920-959 | Every run of submissions with one aligned timestamp, and ticks, is accounted for in every window. |
| Samples.SampleValuesConserved | src/core.c:920-959 | In any order, the values submitted for a window divide into consecutive groups, one per broadcast of that window and one for what is pending, and each broadcast carries the statistics of exactly its group, the count modulo 2^32. |
| Samples.SampleExactlyOnce | src/core.c:504-528 | For punctual submissions, broadcasts followed by the pending one are the batch group-by, labels strictly increasing; the i-th carries the start and the batch statistics of the i-th window. |
| Samples.SampleOnTime | src/core.c:504-528 | Right after a tick, a punctual sample set has broadcast every window that ended more than the grace period ago or was followed by another, once each and in order, with its start and batch statistics. |
| Samples.SampleTicked | src/core.c:523-528 | A tick broadcasts and empties a sample set iff it is not ignored and holds data of a window that is over; otherwise nothing changes. |
| Samples.SampleForgotten | src/core.c:740-835 | After a non-ignoring FORGET the rest of the run is that of a name never heard of. |
| Samples.SampleIgnored | src/core.c:928 | An ignored sample set never changes or broadcasts until a non-ignoring FORGET. |
| Samples.SampleMarked | src/core.c:801-802 | An ignoring FORGET of a known sample set sets its flag and nothing else, and the rest of the run has no news of it. |
| Rates.RateRefines | src/core.c:962-998 | A rate remembers the first and last reading of its window and broadcasts what all readings would give. |
| Rates.RateExactlyOnce | src/core.c:504-536 | For punctual readings there is one rate per window, in window order; the i-th carries the start of the i-th window, the window as its span, and a value that times the time between first and last reading is the distance travelled times the window. |
| Rates.RateOnTime | src/core.c:504-536 | Right after a tick, punctual readings have been broadcast for every window that ended more than the grace period ago or was followed by another, once each and in order, with the slope of the window. |
| Rates.RateTicked | src/core.c:530-535 | A tick broadcasts and empties a rate iff it is not ignored and holds data of a window that is over; the broadcast has the window as span and the slope per window as value. |
| Rates.RateCalcSlopes | src/data.c:72-88 | For any entry with data the rate times the elapsed time is the distance travelled times the span, and it is undefined exactly when no time passed. |
| Rates.FallenReading | src/data.c:80-86 | For a reading that fell, the distance is one short of the way round a 16-bit or a 32-bit counter; from 2^32 on it is one short of the way round 2^32, wrapped at 2^64. |
| Rates.RateIsAverageSlope | src/data.c:72-88 | Where the reading did not fall and time passed, rate times elapsed time is the rise times the window: the average slope per window. |
| Rates.RateForgotten | src/core.c:740-835 | After a non-ignoring FORGET the rest of the run is that of a name never heard of. |
| Rates.RateIgnored | src/core.c:962-998 | An ignored rate never changes or broadcasts until a non-ignoring FORGET. |
| Rates.RateMarked | src/core.c:819-820 | An ignoring FORGET of a known rate sets its flag and nothing else, and the rest of the run has no news of it. |
| States.TransitionIffChange | src/core.c:845-868 | An update or freshness check broadcasts exactly one TRANSITION, carrying the new condition, if (stale, status) changes, and none otherwise. |
| States.TransitionsSuffice | src/core.c:845-883 | Replaying TRANSITIONs alone from (fresh, UNKNOWN) always gives the current staleness and label. |
| States.StepAnnouncesOk | src/core.c:845-883 | What one operation broadcasts ends with the current label and never opens with an OK STATE unless the state already was OK. |
| States.ReturnToOkIsAnnounced | src/core.c:845-883 | In every run a STATE saying OK follows a record that already said OK, so any return to OK is announced by a TRANSITION. |
| States.DatedRun | src/core.c:857-868 | Every run, with any timestamps, keeps: an updated state that is not stale expires one freshness interval after it was last seen, modulo 2^32. |
| States.FreshnessPass | src/core.c:276-299 | After a pass at `now`, whatever came before, a watched state has expiry > now, and if fresh and updated was seen less than one freshness interval ago, although expiries wrap. |
| States.SilentStateGoesStaleOnce | src/core.c:276-299 | However many passes follow, a silent state is marked in exactly one TRANSITION, if its expiry is reached at all. |
| States.StateForgotten | src/core.c:740-835 | After a non-ignoring FORGET the rest of the run is that of a name never heard of. |
| States.StateIgnored | src/core.c:284 | An ignored state never changes or broadcasts, by updates or passes, until a non-ignoring FORGET. |
| States.StateMarked | src/core.c:765-766 | An ignoring FORGET of a known state sets its flag and nothing else, and the rest of the run has no news of it. |
| States.StatusLabels | src/core.c:73-77 | Codes 0, 1, 2 and any other are labelled OK, WARNING, CRITICAL and UNKNOWN. |
| States.UpdateAnnounces | src/core.c:853-868 | An update of a watched state sets time, expiry, status and summary, and broadcasts a STATE with all of them, after a TRANSITION with the same if staleness or status changed. |
| States.CheckAnnounces | src/core.c:283-297 | A freshness check marks a state iff it is watched and has expired, gives it the status and summary of its type and one more interval, and broadcasts that. |
| States.LastRecordSays | src/core.c:845-883 | Between FORGETs, the last record of a run about a name carries the time, staleness, label and summary its state has. |
| Events.EventBuffer.constructor | src/core.c:311-318 | The buffer starts empty with a matching count. |
| Events.EventBuffer.Buffer | src/core.c:311-334 | Appending and pruning from the head keeps the count equal to the length and gives the specified buffer in both modes; with no room the event is dropped. |
| Events.NumberModeKeepsTheLast | src/core.c:311-322 | In number mode the buffer is the last min(max, received) events in arrival order. |
| Events.TimeModeKeepsTheNew | src/core.c:311-334 | In time mode with ordered timestamps the buffer is exactly the received events newer than the latest minus max. |
| Events.KeptThenPruned | src/core.c:311-334 | Pruning an already pruned buffer after one more event is pruning everything received. |
| Events.NewerDropsOld | src/core.c:311-334 | On ordered events, dropping from the head is filtering by age. |
| Events.NewerIsSuffix | src/core.c:323-332 | With timestamps in any order, pruning drops exactly the events before the first newer one. |
| Events.NoRoomKeepsNothing | src/core.c:311-318 | With no room configured the buffer stays empty. |
| Keys.BroadcastSetKeys | src/core.c:96-117 | The batches concatenate to every pair that has a value, once and in order; each has 1 to 30 pairs and all but the last exactly 30. |
| Keys.SaveKeys | src/core.c:211-233 | The text written is the header and one line per pair that has a value. |
| Keys.ReadKeys | src/core.c:235-273 | The reading loop computes the specified table, or reports where it reads past a line. |
| Keys.PairIff | src/core.c:248-264 | A line sets a key to a value iff it is white space, a word not starting with #, white space, `=`, white space and the value up to the newline, whoever wrote it. |
| Keys.OverrunIff | src/core.c:248-256 | The reader steps past the end of a line exactly when the line ends with its first word, comments excepted. |
| Keys.DecimalReads | src/core.c:221-230 | What is printed for a number reads as that number. |
| Keys.StorableParses | src/core.c:235-273 | The line of a storable pair parses to that pair. |
| Keys.ParsedIsStorable | src/core.c:235-273 | Whatever the reader takes for a pair is a storable one. |
| Keys.LineSurvivesIffStorable | src/core.c:211-273 | Of the lines that fit the buffer, exactly those of storable pairs (non-empty key without white space or leading #, value without newline or leading white space) come back. |
| Keys.ReadsLines | src/core.c:235-273 | Saved lines set their pairs in order and leave the rest of the file to be read. |
| Keys.ReadIsReadable | src/core.c:235-273 | Whatever text is read, the table gains only storable pairs that, with a space and a `=`, fit one chunk of the reader. |
| Keys.LongLine | src/core.c:235-273 | A storable line one or two characters too long for the buffer makes the reader overrun, or gives its key another value. |
| Keys.FileRead | src/core.c:211-273 | A file of storable pairs whose lines are at most two characters too long reads as nothing, or as its keys with their values exactly where the line fits. |
| Keys.KeysSurvive | src/core.c:211-273 | Reading a saved file sets exactly the saved pairs, whatever the clock and table were. |
| Keys.SetAllHolds | src/core.c:235-273 | Setting distinct keys in order gives a table that holds a pair iff it was listed. |
| Keys.LiveHolds | src/core.c:96-117 | The walk passes on a pair iff the table has the key with a value. |
| Keys.TableSurvives | src/core.c:211-273 | A key table saved and read into an empty one keeps every pair not deleted and gains none, if and only if all those pairs are storable and their lines fit the buffer. |
| Streams.WalkIsPointwise | src/core.c:504-536 | A walk over a table in any order adds to each name's stream just that name's broadcasts, and nothing to other streams. |
| Kernels.SampleAll | src/core.c:920-959 | The loop over a SAMPLE's values is the recurrence applied to each in order. |
| Kernels.FirstRule | src/data.c:90-177 | The rule loop finds the target of the first rule whose regex matches, or nothing when none does. |
| Kernels.WalkKeys | src/core.c:96-117 | A walk visits every key once, with its value. |
| Kernels.Kernel.constructor | src/core.c:490-500 | A new kernel has its configured datapoints, empty buffers, no keys and an empty stream. |
| Kernels.Kernel.OnState | src/core.c:845-883 | A STATE moves only the named state, by one update step, and broadcasts only about it. |
| Kernels.Kernel.CheckFreshness | src/core.c:276-299 | The pass moves every state by one check step, in whatever order, and broadcasts nothing else. |
| Kernels.Kernel.OnCounter | src/core.c:886-917 | A COUNTER moves only the named counter, by one submission step. |
| Kernels.Kernel.TickCounters | src/core.c:514-520 | The tick moves every counter by one flush step, in whatever order. |
| Kernels.Kernel.OnSample | src/core.c:920-959 | A SAMPLE moves only the named sample set, by one submission step. |
| Kernels.Kernel.TickSamples | src/core.c:522-528 | The tick moves every sample set by one flush step. |
| Kernels.Kernel.OnRate | src/core.c:962-998 | A RATE moves only the named rate, by one submission step. |
| Kernels.Kernel.TickRates | src/core.c:529-535 | The tick moves every rate by one flush step. |
| Kernels.Kernel.ForgetStates | src/core.c:740-835 | Of a selected kind, matching states are removed or marked and all others untouched; nothing is broadcast. |
| Kernels.Kernel.ForgetCounters | src/core.c:740-835 | The same for counters. |
| Kernels.Kernel.ForgetSamples | src/core.c:740-835 | The same for sample sets. |
| Kernels.Kernel.ForgetRates | src/core.c:740-835 | The same for rates. |
| Kernels.Kernel.OnEvent | src/core.c:1001-1014 | An EVENT is buffered by the retention rule and broadcast once. |
| Kernels.Kernel.OnSetKeys | src/core.c:1017-1032 | Pairs are set in order; other keys are untouched. |
| Kernels.Kernel.OnDelKeys | src/core.c:639-651 | Named keys keep a slot without a value; other keys are untouched. |
| Kernels.Kernel.TickMetrics | src/core.c:504-536 | If the tick is due, all three metric tables move by one flush step with cutoff now - grace; otherwise nothing moves. |
| Kernels.Kernel.SaveState | src/core.c:550-553 | A savestate pass appends to the stream batches that carry every key with a value exactly once, 30 to a batch but for the last, and nothing else. |
| Kernels.Kernel.OnTock | src/core.c:504-559 | One timing interrupt moves every table, name by name, by what is due, updates the timers, and tells the key table iff a savestate pass is due. |
| Kernels.Kernel.OnForget | src/core.c:740-835 | FORGET moves the tables of the selected kinds and no others; a pattern that does not compile changes nothing. |
| Kernels.Kernel.React | src/core.c:490-1042 | Each PDU or interrupt moves every table entry and its stream by what that input means to that name, and the event buffer, the keys and the streams about them by theirs. |
| Kernels.Kernel.Go | src/core.c:490-1042 | A whole run leaves every entry and its stream where the per-name machine ends on that name's share of the inputs; every event is broadcast once in order, and each savestate pass tells exactly the key table of its moment. |
| KernelTheorems.CountersExactlyOnce | src/core.c:504-536 | In any kernel run, a punctual counter's broadcasts and pending window are the batch group-by of its submissions, one per window with its start and the sum of its increments modulo 2^64, labels strictly increasing. |
| KernelTheorems.CountersOnTime | src/core.c:504-536 | In any punctual kernel run that ends in a due tick, a counter has broadcast exactly the windows that ended more than the grace period ago or were followed by another. |
| KernelTheorems.CountersConserved | src/core.c:886-917 | In any kernel run without FORGET of the name, each window's broadcasts and pending value sum to its submissions modulo 2^64. |
| KernelTheorems.OneCounterPduIff | src/core.c:886-917 | In the kernel too the bound is exact: a COUNTER is accounted for in its window iff it adds 0, or its timestamp is in 1..2^31-1 or aligned. |
| KernelTheorems.SamplesExactlyOnce | src/core.c:504-536 | The same exactly-once statement for sample sets, each broadcast with the batch statistics of its window. |
| KernelTheorems.SamplesOnTime | src/core.c:504-536 | The same for sample sets. |
| KernelTheorems.SamplesConserved | src/core.c:920-959 | In any kernel run without FORGET of the name, each window's counts (modulo 2^32) and sums account for the values submitted. |
| KernelTheorems.OneSamplePduIff | src/core.c:920-959 | A SAMPLE is accounted for in its window iff its timestamp is in 1..2^31-1 or aligned, or its count modulo 2^32 and its sum are 0. |
| KernelTheorems.SampleValuesConserved | src/core.c:920-959 | In any kernel run without FORGET of the name, the broadcasts of each window carry the statistics of consecutive groups that are together all values submitted for it. |
| KernelTheorems.RatesExactlyOnce | src/core.c:504-536 | The same exactly-once statement for rates, each broadcast with the window as span and a value that times the elapsed time is the distance travelled times the window. |
| KernelTheorems.RatesOnTime | src/core.c:504-536 | The same for rates. |
| KernelTheorems.TransitionsTrackStates | src/core.c:845-868 | In any run without FORGET of the name, a listener to TRANSITIONs alone knows its staleness and label. |
| KernelTheorems.OkIsAnnounced | src/core.c:845-868 | In the stream of any run, a STATE saying OK about a name follows a record about it that said OK. |
| KernelTheorems.NothingExpiredAfterPass | src/core.c:276-299 | After any run ending in a freshness pass, with any timestamps, no watched state is past its expiry, and fresh ones were seen within their freshness. |
| KernelTheorems.SilentStateIsMarkedOnce | src/core.c:276-299 | Whatever else a run contains, a state that hears nothing in it is marked in exactly one TRANSITION, iff a pass finds it expired and not yet marked. |
| KernelTheorems.ForgetRemovesExactly | src/core.c:740-835 | A FORGET without ignore removes exactly the matching names of the selected kinds and broadcasts nothing about any datapoint. |
| KernelTheorems.StateStartsOver | src/core.c:740-835 | After a FORGET that removes a state, the rest of the run and its stream are those of a name never heard of, under the first matching rule. |
| KernelTheorems.CounterStartsOver | src/core.c:740-835 | After a FORGET that removes a counter, the rest of the run and its stream are those of a name never heard of, under the first matching rule. |
| KernelTheorems.SampleStartsOver | src/core.c:740-835 | After a FORGET that removes a sample set, the rest of the run and its stream are those of a name never heard of, under the first matching rule. |
| KernelTheorems.RateStartsOver | src/core.c:740-835 | After a FORGET that removes a rate, the rest of the run and its stream are those of a name never heard of, under the first matching rule. |
| KernelTheorems.IgnoredStateIsFrozen | src/core.c:284-285 | No run changes or broadcasts an ignored state until a non-ignoring FORGET matches it. |
| KernelTheorems.IgnoredCounterIsFrozen | src/core.c:514-520 | The same for counters. |
| KernelTheorems.IgnoredSampleIsFrozen | src/core.c:522-528 | The same for sample sets. |
| KernelTheorems.IgnoredRateIsFrozen | src/core.c:529-535 | The same for rates. |
| KernelTheorems.EventsKept | src/core.c:1001-1014 | Whatever else a run contains, the buffer holds the last max events received, or in time mode with ordered timestamps those newer than the latest minus max; with no room configured it holds none. |
| KernelTheorems.EventsAreBuffered | src/core.c:1001-1014 | The buffer after a run depends on the EVENT PDUs alone. |
| KernelSteps.RanOn | src/core.c:490-1042 | A run that goes on after some inputs is, from there, a run of the others. |
| KernelSteps.CountersFlushed | src/core.c:514-520 | At any point of a run, a due tick broadcasts once and empties exactly the counters that are watched and whose window ended more than the grace period ago; all others, and all when it is not due, stay as they are. Afterwards none is left. |
| KernelSteps.SamplesFlushed | src/core.c:522-528 | The same for sample sets. |
| KernelSteps.RatesFlushed | src/core.c:529-535 | The same for rates, with the slope sent. |
| KernelSteps.ForgetMarksExactly | src/core.c:740-835 | A FORGET with ignore sets the flag of exactly the matching names of the selected kinds, keeps every other field and entry, and broadcasts nothing. |
| KernelSteps.BadPatternForgetsNothing | src/core.c:748-749 | A pattern that does not compile changes no table and broadcasts nothing. |
| KernelSteps.StateIsIgnored | src/core.c:765-766 | A state known when an ignoring FORGET matches it is flagged, and the rest of the run neither changes it nor broadcasts about it until a non-ignoring FORGET. |
| KernelSteps.CounterIsIgnored | src/core.c:783-784 | The same for counters. |
| KernelSteps.SampleIsIgnored | src/core.c:801-802 | The same for sample sets. |
| KernelSteps.RateIsIgnored | src/core.c:819-820 | The same for rates. |
| KernelSteps.StateIsTold | src/core.c:845-883 | At any point of a run, a well-formed STATE for a watched name sets its state and broadcasts what it says, with a TRANSITION first if staleness or status changed; a malformed or ignored one broadcasts nothing, and no other name changes. |
| KernelSteps.ExpiredAreMarked | src/core.c:276-299 | At any point of a run, a due freshness pass marks exactly the watched states that have expired, until one interval from now, and broadcasts that; all others stay as they are. |
| KernelSteps.LastRecordIsCurrent | src/core.c:81-94 | In any run without FORGET of the name, the last record about it carries the time, staleness, label and summary its table entry has. |
| KernelSteps.UnknownState | src/data.c:90-112 | A name that is not in the table and that no rule matches never gets there, and nothing is broadcast about it. |
| KernelSteps.UnknownCounter | src/data.c:114-134 | The same for counters. |
| KernelSteps.UnknownSample | src/data.c:136-156 | The same for sample sets. |
| KernelSteps.UnknownRate | src/data.c:158-177 | The same for rates. |
| KernelSteps.TimerIsLastRun | src/core.c:504-553 | Each of the three timers says when its pass last ran. |
| KernelSteps.PassesAreSpaced | src/core.c:504-553 | Whatever the interrupts, a pass runs at one iff more than its interval went by since it last ran. |
| KernelSteps.EventsAreBroadcast | src/core.c:1001-1007 | In any run every event received is broadcast once, as it came and in order, and no other. |
| KernelSteps.SetPairsHolds | src/core.c:1017-1032 | SET.KEYS gives a key the value of the last pair that names it and leaves other keys alone. |
| KernelSteps.DelNamesHolds | src/core.c:639-651 | DEL.KEYS takes the values of the keys it names and leaves the others alone. |
| KernelSteps.KeyIsAsLastSet | src/core.c:1017-1032 | After any run a key is as the last SET.KEYS or DEL.KEYS that names it left it. |
| Dispatchers.Dispatcher.constructor | src/bolo2pg/main.c:469-485 | Nothing has been seen, forwarded or skipped. |
| Dispatchers.Dispatcher.React | src/bolo2pg/main.c:491-508 | One PDU updates the seen set, the insert queue and the skip count as specified. |
| Dispatchers.Dispatcher.Go | src/bolo2pg/main.c:491-508 | A run of PDUs leaves the seen set and the insert queue of the specification, and every state, transition or event is either forwarded or counted as skipped. |
| Dispatchers.ForwardsExactly | src/bolo2pg/main.c:491-508 | Forwarded are, in order and with every field as received, all events, all TRANSITIONs as STATEs, and all STATEs but those that say OK of a name heard of before. |
| Dispatchers.ForwardsEveryEvent | src/bolo2pg/main.c:510-511 | Every event received is forwarded once, in order, whatever was seen before. |
| Dispatchers.ForwardsEveryChange | src/bolo2pg/main.c:491-508 | If every OK STATE of a name follows an OK record, the forwarded records show the same sequence of status changes as the received ones. |
| Dispatchers.SkipRuleLosesNoChange | src/bolo2pg/main.c:491-508 | Joined to any kernel run at any point, the dispatcher forwards the same status changes it received, and its last forwarded record has the status last received. |
| Reconcile.StretchKeepsOk | examples/schema/pg.sql:150-217 | Lengthening a row up to a time by which no other row has started keeps CHECKs, UNIQUE and non-overlap. |
| Reconcile.AddKeepsOk | examples/schema/pg.sql:150-217 | Adding a row between those that end before it and those that start after it ends keeps the constraints. |
| Reconcile.TransitionKeepsOk | examples/schema/pg.sql:150-217 | Closing the previous row and opening the next keeps the constraints after each statement. |
| Reconcile.HistoryNextOk | examples/schema/pg.sql:150-217 | Any record, in time order or not, keeps CHECKs, UNIQUE and non-overlap of observed intervals, through every statement of its branch. |
| Reconcile.PrevUnique | examples/schema/pg.sql:150-154 | The history query has one answer. |
| Reconcile.ProcessAllOk | examples/schema/pg.sql:77-239 | Any records in any order keep all constraints of both tables. |
| Reconcile.ProcessAllConcat | examples/schema/pg.sql:77-239 | Two passes one after the other are one run over both batches. |
| Reconcile.FiledOrLogged | examples/schema/pg.sql:150-230 | A record in any order is logged once as an anomaly with the history unchanged iff the latest row started by its time is closed or reaches that time; otherwise it leaves a row of its name and status that starts or, for now, ends at its time. |
| Reconcile.RowsGrow | examples/schema/pg.sql:150-217 | No row is lost: each keeps its name, status, message and start and never gets shorter. |
| Reconcile.NothingDropped | examples/schema/pg.sql:87-234 | After any records in any order each is covered by a row of its name and status or is in the log of anomalies, and nothing else is logged. |
| Reconcile.RowsWereOpened | examples/schema/pg.sql:150-217 | Every row has the name, status, message and start of a record processed. |
| Reconcile.RowsAreLatest | examples/schema/pg.sql:100-139 | In any order, the current row of a name has the time, status and message of a record of the latest time, and starts at one of its status. |
| Reconcile.Warehouse.constructor | examples/schema/pg.sql:33-75 | The tables start empty. |
| Reconcile.Warehouse.Arrive | src/bolo2pg/main.c:101-120 | An inserter adds one record to the staging table. |
| Reconcile.Warehouse.SelectPrev | examples/schema/pg.sql:150-154 | The query returns the latest row of that name started by that time, or nothing if there is none. |
| Reconcile.Warehouse.UpdateStates | examples/schema/pg.sql:100-139 | The current-state row is created, replaced, or extended as specified; last_seen >= first_seen is kept. |
| Reconcile.Warehouse.UpdateHistory | examples/schema/pg.sql:150-230 | The history and anomaly tables become those of `FiledOrLogged`, and each statement on the way leaves the constraints intact. |
| Reconcile.Warehouse.Reconcile | examples/schema/pg.sql:77-239 | A pass processes its batch in order, keeps every constraint, deletes what it processed and returns how many rows that was. |
| Timelines.HistoryTiles | examples/schema/pg.sql:87-234 | For records in time order per name: one open row per known name, the last; closed rows end where the next starts with another status; states agrees with the open row. |
| Timelines.StepStatus | examples/schema/pg.sql:150-230 | A record newer than all before it decides the recorded status from its time on and changes no earlier answer. |
| Timelines.TimelineIsFaithful | examples/schema/pg.sql:87-234 | For every name and time, the status the history records is that of the latest record up to that time. |
| Timelines.AnomaliesAreRepeats | examples/schema/pg.sql:222-229 | For records in time order per name, the anomalies are exactly the multiset of records no later than one of the same name before them. |
| Timelines.PassStaysBehind | examples/schema/pg.sql:87 | Taking the earliest staged rows keeps everything processed no later than everything still staged. |
| Timelines.ProcessedInOrder | examples/schema/pg.sql:87 | Records that arrive in time order per name are processed in that order, however arrivals and passes interleave, and every arrival is processed or still staged. |
| Timelines.AllAccountedFor | examples/schema/pg.sql:87-234 | In whatever order records come, those that arrived are exactly those processed and those still staged. |
| Timelines.PipelineIsFaithful | examples/schema/pg.sql:77-239 | Over any interleaving of ordered arrivals and passes, the history tiles time and records the right status at every time. |
| Timelines.RunPasses | examples/schema/pg.sql:77-239 | Carried out on the tables, any interleaving of arrivals and passes leaves the specified tables, in which every processed record is covered by a row or logged; with ordered arrivals they tile time, answer like the records, and log exactly the repeats. |
| Pipelines.RowIs | src/bolo2pg/main.c:491-508 | After dispatcher, staging and reconciling of any stream, the current-state row of a name is a fold over what was received about that name alone. |
| Pipelines.FollowsRun | examples/schema/pg.sql:100-139 | In every run with rising timestamps the row follows the state: its label and time are those of the last update, or of the staleness mark where that came first or followed a skipped OK. |
| Pipelines.RowHasLabelIff | examples/schema/pg.sql:100-139 | In every such run of the whole chain, the row shows the label of the kernel if and only if it is not the case that the state is stale, its last update was forwarded and the staleness type has another label. |
| Pipelines.RowOfDone | examples/schema/pg.sql:100-139 | After any records in any order, the row of a name has the latest of their times and the status of the first one processed with that time. |
| Pipelines.ToppedRun | src/bolo2pg/main.c:491-508 | In every run with rising timestamps, all forwarded records of the latest time have one status, but for a staleness mark of the same time as a forwarded update. |
| Pipelines.RowInAnyOrder | examples/schema/pg.sql:100-139 | In whatever order the records of a run are staged and processed, the row shows the label of the kernel, except where a state went stale after a forwarded update with another label; there it does iff the mark was processed before the update. |
| Pipelines.RowAfterPasses | examples/schema/pg.sql:77-239 | The same for any interleaving of arrivals, in any order, and passes that take what their cursor returns, once nothing is left staged. |
| Names.BelowTotal | src/bolo_name.c:38-43 | The key comparison is a strict total order. |
| Names.BelowTransitive | src/bolo_name.c:38-43 | The key comparison is transitive. |
| Names.BelowIsStrcmp | src/bolo_name.c:38-43 | One key is before another iff it ends within it or has the smaller character where they first differ. |
| Names.SortSorts | src/bolo_name.c:93 | Sorting gives a sorted permutation. |
| Names.SortOfSorted | src/bolo_name.c:93 | Sorting leaves a sorted list as it is, equal keys included. |
| Names.SortedNoRepeats | src/bolo_name.c:93 | Sorted with distinct keys is strictly increasing. |
| Names.StrictUnique | src/bolo_name.c:93 | A multiset of components with distinct keys has one sorted form. |
| NameText.SplitParts | src/bolo_name.c:47-96 | Splitting at commas and joining again gives the string back. |
| NameText.SplitJoin | src/bolo_name.c:115-150 | Joining comma-free components and splitting gives them back. |
| NameText.PrintThenParse | src/bolo_name.c:47-150 | A canonical name printed and parsed is the same name. |
| NameText.ParsedIsCanonical | src/bolo_name.c:47-96 | Whatever the parser accepts is sorted and well formed. |
| NameText.CanonicalFormIsStable | src/bolo_name.c:47-150 | On every accepted string, parse after print after parse is the first parse. |
| NameText.ComponentsPermuted | src/bolo_name.c:47-96 | Reordering components does not change acceptance, the set of parts or the wildcard flag. |
| NameText.OrderDoesNotMatter | src/bolo_name.c:47-150 | With distinct keys, every permutation of the components prints identically. |
| NameText.StarsCollapse | src/bolo_name.c:47-96 | A further `*`, wherever it stands among the components, changes nothing. |
| NameOps.Name.constructor | src/bolo_name.c:47-96 | A new name has no parts and no wildcard. |
| NameOps.Name.Parse | src/bolo_name.c:47-96 | The scanning parser returns null exactly for strings that are not names, and otherwise the specified name; `NameWords` says on the text which strings those are and what they mean. |
| NameOps.Name.CountParts | src/bolo_name.c:47-96 | The number of components is the number of pieces between commas. |
| NameOps.Name.String | src/bolo_name.c:115-150 | The printer fills exactly the buffer whose length it computed, with the specified text. |
| NameOps.Name.Match | src/bolo_name.c:152-190 | On strictly increasing keys the two-pointer loop returns 0 iff every key of the pattern is in the name with an accepted value and the pattern has `*` or the name has no other keys. For any names: without `*`, iff the parts agree place by place; with it, iff each part of the pattern is accepted at the first place with its key after the one before. |
| NameOps.PicksAgree | src/bolo_name.c:152-190 | The places the loop picks are determined: two picks for the same pattern agree as far as both go. |
| NameOps.Name.Set | src/bolo_name.c:192-216 | The part list becomes the specified one: value replaced in place, or a part added and the list sorted again. |
| NameOps.Name.Unset | src/bolo_name.c:218-238 | The parts after the key shift down; nothing changes without it. |
| NameOps.Name.Remove | src/bolo_name.c:218-238 | Shifting down one place at a time removes exactly the part at the index. |
| NameOps.Name.Concat | src/bolo_name.c:240-249 | Every part of the other name is set in turn. |
| NameOps.Decided | src/bolo_name.c:152-190 | When the loop can go no further, what is left of both names decides the match. |
| NameTheorems.SetRefines | src/bolo_name.c:192-216 | `set` keeps strict key order and is update of the finite map. |
| NameTheorems.UnsetRefines | src/bolo_name.c:218-238 | `unset` keeps strict key order and is removal from the map. |
| NameTheorems.ConcatRefines | src/bolo_name.c:240-249 | `concat` keeps strict key order and is right-biased union with what it stores. |
| NameTheorems.ConcreteIsStored | src/bolo_name.c:240-249 | Without `*` values, what `concat` stores is the other name's map. |
| NameTheorems.SetConsistentIff | src/bolo_name.c:192-216 | After `set`, every part has a value that agrees with its wildcard flag iff the new value is given, is not `*`, and is empty exactly where the part was a wildcard. |
| NameTheorems.MatchReflexive | src/bolo_name.c:152-190 | Every name matches itself. |
| NameTheorems.MatchTransitive | src/bolo_name.c:152-190 | Matching is transitive when a `*` in the middle name is also in the last. |
| NameTheorems.TransitiveIff | src/bolo_name.c:152-190 | For b matching c, every name that matches b matches c if and only if b having `*` implies c has it. |
| NameWords.AcceptedIff | src/bolo_name.c:47-96 | Accepted are the empty string and the strings whose every component has an `=` or is a `*`. |
| NameWords.AcceptedIsWritten | src/bolo_name.c:47-96 | Every accepted string is `key=value` pairs and `*`s with commas between. |
| NameWords.TextParses | src/bolo_name.c:47-96 | Such a text is parsed to its pairs, sorted, a pair being a wildcard iff its value is `*` or empty, and the `*` flag. |
| NameWords.MatchesAsWritten | src/bolo_name.c:84-84 | What is parsed from two texts matches iff each pair of the pattern has value `*`, an empty value or the name's own value for that key, and the name has no other keys unless the pattern has `*`; without repeated keys the parses are strictly sorted. |
| NameWords.OneKeyMatches | src/bolo_name.c:84-84 | `k=v` matches `k=*` and `k=` for every v, and any other `k=w` iff v is w. |
| NameWords.CanonicalText | src/bolo_name.c:115-150 | The canonical form of a text is its pairs in key order, and after them one `*` if it has any. |
| Bytes.FromBeOfBe | src/binf.c:83-111 | Big-endian bytes read back give the number. |
| Bytes.BeOfFromBe | src/binf.c:83-111 | Bytes read as a number and written again are the same bytes. |
| Bytes.SwapTwice | src/binf.c:211-217 | Swapping the bytes of a 32-bit value twice gives it back. |
| Bytes.NtohllOfHtonll | src/binf.c:83-111 | `ntohll` undoes `htonll`. |
| Bytes.HtonllIsBigEndian | src/binf.c:83-97 | Two swapped halves in swapped places are the eight bytes in network order. |
| Bytes.DoubleRoundTrip | src/binf.c:211-217 | Every 32-bit integer stored in an IEEE 754 double converts back to itself. |
| Records.StatSurvivesIff | src/binf.c:211-217 | A statistic comes back truncated to a whole number, so it survives iff it is whole and not negative. |
| Records.StatsSurviveIff | src/binf.c:211-217 | The seven statistics survive iff each is whole. |
| Records.BodyLayout | src/binf.c:43-79 | The packed fields of each kind lie in the order of its struct, integers in network order, and the kinds are numbered 1 to 5. |
| Records.BodySurvivesIff | src/binf.c:179-254 | The packed fields of every kind of record come back, iff the statistics are whole. |
| Records.TextsSurvive | src/binf.c:306-318 | Strings come back as written, except that an empty summary or extra is refused. |
| Records.RecordLayout | src/binf.c:169-254 | A record starts with its length modulo 2^16 and its type and ends with its NUL-terminated strings. |
| Records.ShortDecodes | src/binf.c:262-441 | A record whose length fits 16 bits is read up to its end; it is equal to what was written iff it is storable, and one with an empty text is rejected. |
| Records.LongIsLost | src/binf.c:113-177 | A record too long for the 16-bit length never comes back. |
| Records.RecordSurvivesIff | src/binf.c:113-441 | Anywhere in a file, a written record is read back iff it is storable, and the offset then stands at its end. |
| Records.DecodedMeans | src/binf.c:262-330 | Whatever bytes are read, a record delivered has the type and length of its header and the name that stands after its fields. |
| Savefile.RecordsSurvive | src/binf.c:502-528 | Storable records written one after another are read back in order, ending at the trailer. |
| Savefile.OnlyStorableSurvive | src/binf.c:590-680 | If reading gives the written records back, each of them was storable. |
| Savefile.FileSurvivesIff | src/binf.c:443-692 | A saved file, with anything after its trailer, is accepted and gives its records back iff there are fewer than 2^32 and all are storable. |
| Savefile.EmptyTextStops | src/binf.c:590-600 | A state without summary or an event without extra ends the reading there, and exactly the records before it are delivered. |
| Savefile.HeaderLayout | src/binf.c:30-36 | The header is "BOLO", version 1, no flags, the time and the number of records, in network order. |
| Savefile.CompleteMeans | src/binf.c:565-687 | A file read to the end has the magic and version, as many records as its header says and two zero bytes after them; another magic or version delivers nothing. |
| Savefile.Copy | src/binf.c:169-171 | Only the bytes at the offset change, and the offset advances past them. |
| Savefile.WriteRecord | src/binf.c:113-260 | The file becomes the old one with the record's bytes at the offset; the offset advances by their number. |
| Savefile.Save | src/binf.c:443-533 | The file becomes the old one with header, records and trailer at its start. |
| Savefile.FindNul | src/binf.c:311 | The scan stops at the first NUL. |
| Savefile.ReadTexts | src/binf.c:304-321 | The strings of a record, its refusal, or the read past its end, as specified for its kind. |
| Savefile.ReadRecord | src/binf.c:262-441 | The reader gives the record and the new offset, a rejection, or the point where it leaves the file, as specified. |
| Savefile.Store.constructor | src/binf.c:535-550 | A store starts with its configured entries and no events. |
| Savefile.Store.Restore | src/binf.c:599-679 | A record replaces the entry of its kind and name, is added if there is none but a regex rule matches, is skipped otherwise; an event is appended. |
| Savefile.Store.LoadRecords | src/binf.c:590-680 | Records are applied as they are read; a failure keeps exactly those before it. |
| Savefile.Store.Load | src/binf.c:535-692 | The database becomes the old one with the file's readable records applied; the outcome tells a bad magic, version, record or trailer. |
| Savefile.RestoredAt | src/binf.c:599-679 | After applying a walk of a database, the entries are the old ones and the walked ones a rule matches, each with the walked value if it was walked and its old value otherwise, and the events are appended in order. |
| Savefile.RestartRestores | src/binf.c:443-692 | Saving a database and loading it into a new configuration gives every entry it names or has a rule for its saved value, leaves the others alone, and restores every event in order. |
| Framers.LinesConcat | src/dbolo/main.c:330-356 | Splitting bytes in two does not change the lines: the unfinished tail of the first part carries over. |
| Framers.AllSeenIffNulFree | src/dbolo/main.c:339 | The search finds all complete lines of a text iff none of them contains a NUL. |
| Framers.ChunkingDoesNotMatter | src/dbolo/main.c:330-356 | However the pipe chunks its bytes, the lines handed on are the complete lines of what was taken and the buffer holds the unfinished tail. |
| Framers.HandsOnAllIff | src/dbolo/main.c:330-356 | The lines handed on are all complete lines of what was taken iff none of those contains a NUL. |
| Framers.FullDoesNotFit | src/dbolo/main.c:330-356 | A full buffer without a newline means the input has a line too long for it. |
| Framers.DrainsIffFits | src/dbolo/main.c:330-356 | With a read for every byte, the pipe is emptied iff every line fits the buffer with its newline and the tail fits. |
| Framers.Command.constructor | src/dbolo/main.c:93-94 | A command starts with an empty buffer and nothing sent. |
| Framers.Command.FindNewline | src/dbolo/main.c:339 | The search finds the first newline of what was read unless a NUL comes before it. |
| Framers.Command.Shift | src/dbolo/main.c:349 | The bytes from the offset on move to the front. |
| Framers.Command.TakeLine | src/dbolo/main.c:342-350 | The line is handed on and removed from the buffer, its newline with it. |
| Framers.Command.Drain | src/dbolo/main.c:338-351 | Every complete line in the buffer is handed on, in order, and the tail stays. |
| Framers.Command.Fill | src/dbolo/main.c:333-336 | The chunk is appended with a NUL after it. |
| Framers.Command.Sink | src/dbolo/main.c:330-356 | The reading loop hands on, holds and leaves what the specification says, and there is always room for another read. |

## Left out

- 0MQ sockets, threads, signals, mmap, fork and exec, logging and option parsing: plumbing over libraries; PDUs are datatypes and a run is a sequence of inputs.
- The text frames of PDUs: the model starts from parsed fields; a malformed PDU, which the kernel ignores, is not an input.
- The management queries (STATE, DUMP, GET.KEYS, SEARCH.KEYS, GET.EVENTS, SAVESTATE): they read the tables or repeat the savestate pass.
- The beacon sweep of the timing interrupt.
- Restart inside kernel runs: restoring does not count events or restore expiry, so run theorems are within one kernel lifetime; restoring is covered by the savefile alone.
- `tsdp`: packing and unpacking disagree about the format, so no round trip is decided by the code.
- The configuration lexer and the dump of a configuration, which is not its inverse.
- The other adapters (console, slack, influxdb, rrd, redis, sqlite, log, meta, opentsdb, nsca), the caching command and the subscriber's monitor thread.
- IEEE 754 rounding: sample values and rates are reals, except in the savefile, where doubles hold integers exactly.
- Overflow of `int32_t` in window ends, in `now - grace` and in the expiry a freshness pass or a new state gets from the clock: these are unbounded; the expiry of an update wraps as in C.
- Aliasing of records: a table entry is a value in a map field, so the model does not show a record updated in place behind a pointer; the tables, the event list and the stream are mutable fields.
- `qsort`, hashes, lists and PCRE: a stable sort, maps walked in any order, sequences, and arbitrary predicates.
- Overflow of a sample count at 2^64, and the wider conversion with which the time of a STATE or TRANSITION is printed: the model takes the field's value.
- Allocation failure, as in `bolo_name_set` when its array cannot grow.
- Kernels.Kernel.SaveState: models the keys PDUs of a savestate pass; the two files it writes are modelled by `Savefile.Save` and `Keys.SaveKeys`.
- Kernels.Kernel.OnTock: takes the timer intervals from its configuration; the code leaves those of the tick and the freshness pass at zero.
- Rates.RateIsAverageSlope: is for readings that did not fall; `RateCalcSlopes` covers the others with the distance the code takes, and `FallenReading` says what that distance is, whatever the comments in the source say.
- NameOps.Name.Concat: is for two different names; a name concatenated with itself frees each value before copying it, for which C defines no result.
- Reconcile.Warehouse.Reconcile: leaves the order of rows with equal timestamps in a batch open, though the query also orders them by name.
- Framers.Command.Sink: which lines `bolo_stream_pdu` turns into PDUs is not modelled.
- Pipelines.RowHasLabelIff: is for records processed in the order they were forwarded; `RowInAnyOrder` and `RowAfterPasses` are for every order. All three are for a dispatcher that listens from the start and for update times that rise.
- Savefile.WriteRecord: requires that the record fits the mapped file and that statistics are above -1 and below 2^32; the code checks neither, and outside them C defines no result.
- Savefile.Save: takes the records in the order the five loops of `binf_write` visit them; a record's `int32_t` times are their 32-bit patterns.
- Savefile.Store.Restore: keeps the four tables in one map keyed by kind and name, and only the saved fields of an entry.
