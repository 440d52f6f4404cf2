# A verified model of the dashboard's in-memory state machines

The repository is a server-monitoring dashboard with a tunnel server attached. This project models the
parts that keep state in memory over unbounded runs and proves what they keep, in Dafny 4.11:

- `AlertRules`, `AlertTrimming`, `AlertSentinel`: alert evaluation over a history that is cut after every tick.
- `ServiceDays`, `ServiceWindow`, `ServiceSamples`: the days of a monitored service, their 30-day window, the
  30-sample buffer, and the status machine that triggers tasks.
- `PortPool`, `TunnelRegistry`, `UdpFrame`: public ports, tunnel sessions under every interleaving, UDP frames.
- `BufferedWriter`, `Downsample`: the time series writer as an interleaved protocol, and one-pass downsampling.
- `Traffic`, `CycleWindow`: traffic accounting across reboots, and the cycle it is summed over.
- `BootDispatch`: the once-per-boot script dispatch.
- `NotificationIndex`, `MuteBackoff`: the notification/group index and the mute backoff.
- `ServerSearch`: the sorted server list and the mixed linear/binary search on it.
- `GoIntegers`, `Lists`, `Wrappers`: what several of these need.

Objects whose methods update fields are classes; each method is proved against a function of the old state,
and the properties are proved about those functions. Interleavings are step relations in which one step is
one critical section, one database statement or one send, and the theorems quantify over all step sequences.
Floating-point numbers are reals, unsigned 64-bit counters are natural numbers, times are integers.

`dafny verify dfyconfig.toml` checks the whole project.

## What the proofs found

Where an expected property does not hold for all inputs, the model follows the code and states exactly when
it holds.

- Cutting an alert's history never changes a verdict exactly if all its rules are cycle rules, or none is and
  no window is more than one tick longer than the first rule's. All other alerts have a run on which a failure
  is hidden; an alert that mixes a cycle rule with another kind never sees more than two rows.
- A duration of 2^63 or more turns negative when it is converted. On a store on which no rule before it passes,
  an offline rule of that kind makes the evaluation panic, and so does an ordinary one for durations up to 2^63
  plus the length of the store; otherwise the ordinary rule passes, so the alert never fails.
- A service whose buffer holds failures only reads "no data", never "down".
- The 30-day window is right in every state of a run exactly if every midnight shift finds slot 29 up to date.
  What is reported between `LoadStats` and the shift is lost: the day is closed without it.
- For a service restored after a restart the totals exceed the slots, for good, by the counts restored for
  today. From the time series store these are the counts of the last 24 hours, which are today's exactly if there
  is no status point between 24 hours ago and midnight. Its slots show each day one day late, without yesterday,
  and slot 0 is empty, as the query does not read that far back; so they are right exactly if there was nothing
  to show on any of the 29 days. (A point at the very instant where the query begins does show in slot 0; then
  they are right exactly if every day looks like it.)
- Fail and recover tasks alternate exactly if an even number of changes of status was missed, with triggering
  switched off, between each two task runs.
- The tunnel server's answer for an exhausted pool, 10000, lies in its own default range
  (internal/xtpro/server/service.go:85-86). In every run all other ports are exclusive. For port 10000 the
  books are right throughout a run exactly if no session that got this answer is removed while the port is in
  use: such a removal frees the port of the session that really holds it, and the next client can be given it
  too. For every range that contains 10000 there is a run that ends with two registered sessions sharing it.
  A session replaced under its client id never returns its port.
- `TSDB.Flush` takes no lock, so `Close` may return while its rows are not stored yet. Everything accepted is
  stored at that point exactly if no `Flush` is in flight.
- Recorded traffic, with counters that do not go back within a boot: as long as they are positive, the books
  match the real traffic exactly if nothing is recorded between a reboot's host report and the next state
  report; an hourly record or a second reboot in that gap books the old counters again. If they may be zero and
  nothing is recorded in the gap, the books match exactly if every report that finds a zero in the snapshot
  repeats the counters of the one before; otherwise traffic is lost. When both go wrong, the two errors can
  cancel each other out; in every run the books are off by exactly what its steps gained less what they lost.
- The hour unit's closed form and the calendar loop agree except exactly on a cycle boundary. In 64 bits the
  length of a cycle is that of the interval exactly below 2^63 seconds; for multiples of 2^60 hours it is zero
  and the division panics.
- After a failed dispatch the boot script can be sent again exactly if the deletion of its row, the error of
  which is ignored, succeeds; otherwise no attempt at that boot ever sends, unless a rerun is forced.
- A notification dropped from a group stays linked to it and comes back with its next update; storing a
  group can remove a notification from another group that happens to have a dropped member's id. Links
  accumulate until the notification is deleted, and updating it writes into a nil map exactly if some group
  that ever named it since then is gone.
- A repeated notification is delivered less often than the quiet period of 15 minutes suggests: about once
  in 25 minutes at most, and that bound is reached.
- The search by id is right for every request exactly if the ids behind the first server without a display
  index ascend. A list in which every server has a display index is searched by halves although it is not
  sorted by id.

## Model

| member | source | states |
|---|---|---|
| AlertRules.Check | model/alertrule.go:77-141 | panics iff a rule out of bounds is reached before one passes; otherwise the alert is quiet iff some rule is: a cycle rule whose last row is satisfied, a rule whose window is not full, an offline rule with a satisfied row in it, an ordinary one with fewer than 71 percent missed; cycle rules alone keep one row and are quiet iff one is satisfied in the last; a failing alert asks for exactly its largest window |
| AlertRules.RulePassesMeans | model/alertrule.go:83-128 | when each kind of rule passes, said of the rows of its window by their position |
| AlertRules.SomeStorePanics | model/alertrule.go:82-118 | which rule lists have a store of a given length on which Check panics: those with a rule of 2^63 or more that is out of bounds, behind none but cycle rules and full windows |
| AlertRules.CheckOffline | model/alertrule.go:100-108 | the backward scan finds a satisfied row iff the window has one, and counts the rows up to the newest |
| AlertRules.CheckOrdinary | model/alertrule.go:113-128 | an ordinary rule passes iff fewer than 71 percent of its window failed; with a negative duration it panics iff the window would start beyond the largest int, and passes otherwise |
| AlertRules.SeventyPercent | model/alertrule.go:125 | the integer comparison with 70 percent means exactly fewer than 71 failures in 100 |
| AlertTrimming.TrimInvisibleIffSafe | service/singleton/alertsentinel.go:155-191 | on every tick of every run the cut store gives the verdict of the complete history, iff the rule list is trim-safe |
| AlertTrimming.TrimSafeIsInvisible | service/singleton/alertsentinel.go:155-191 | sufficiency: all cycle rules, or none and no window more than one row longer than the first |
| AlertTrimming.MixedIsVisible | model/alertrule.go:83-94 | an alert mixing a cycle rule with another kind has a run on which a failure is hidden |
| AlertTrimming.LongLaterWindowIsVisible | model/alertrule.go:95-128 | so has an alert with a window two or more rows longer than the first rule's |
| AlertTrimming.VerdictsOfFullHistory | service/singleton/alertsentinel.go:155-191 | for a trim-safe alert every verdict ever computed is that of the full history up to its tick |
| AlertTrimming.TrimErrsOnQuietSide | service/singleton/alertsentinel.go:187-191 | for any alert the cut can only hide a failure, never invent one |
| AlertTrimming.StoreIsSuffix | service/singleton/alertsentinel.go:187-191 | the store is always a non-empty suffix of the rows sampled |
| AlertTrimming.StoreIsBounded | service/singleton/alertsentinel.go:187-191 | after a tick the store is no longer than the largest window, one row for cycle rules |
| AlertSentinel.Sentinel.OnRefreshOrAddAlert | service/singleton/alertsentinel.go:93-112 | replaces or appends the alert, empties its tables, leaves every other alert's state alone, keeps the invariant |
| AlertSentinel.Sentinel.OnDeleteAlert | service/singleton/alertsentinel.go:114-129 | removes exactly the named alerts and their tables, the rest keeps order and state |
| AlertSentinel.Sentinel.CheckPair | service/singleton/alertsentinel.go:155-191 | one alert on one server: panics iff the rules do on its store; otherwise row appended, verdict, state, event and cut as the transition says, nothing else touched |
| AlertSentinel.Sentinel.CheckStatus | service/singleton/alertsentinel.go:132-194 | a tick panics iff the check of some watched pair does; otherwise it steps exactly the pairs the alert's owner may watch, each once, in any server order |
| AlertSentinel.TickSamples | service/singleton/alertsentinel.go:138-156 | a tick samples one row of an alert on a server iff the alert is enabled and its owner owns the server or is an admin |
| AlertSentinel.EventMeans | service/singleton/alertsentinel.go:164-186 | which verdicts send an incident or a recovery, by trigger mode and the verdict before |
| AlertSentinel.Sentinel.Snapshot | model/alertrule.go:67-74 | a row has one result per rule |
| AlertSentinel.OnetimeEventsAlternate | service/singleton/alertsentinel.go:164-186 | a one-time alert's events strictly alternate, starting with Incident, and are open iff the last verdict failed |
| AlertSentinel.AlwaysEventsCount | service/singleton/alertsentinel.go:164-186 | an always-trigger alert sends one Incident per failing tick and one Resolved per recovery |
| AlertSentinel.ReachablePair | service/singleton/alertsentinel.go:132-194 | in every reachable state: row width, bounded suffix store, alternation, and verdicts of the full history for trim-safe alerts with durations below 2^63 |
| ServiceWindow.WindowAfterRun | service/singleton/servicesentinel.go:133-159 | after any run of reports, loads and midnights, loading shows in slot i the day 29-i days back, and the totals are the slot sums plus the initial drift |
| ServiceWindow.WindowIffTimely | service/singleton/servicesentinel.go:133-159 | with load and shift as separate steps: the window is right in every state of a run iff every shift finds slot 29 up to date |
| ServiceWindow.WindowShowsSeen | service/singleton/servicesentinel.go:133-159 | in every run each slot shows its day as the last load before its shift found it; the drift of the totals never changes |
| ServiceWindow.LateReportsAreLost | service/singleton/servicesentinel.go:133-159 | reports between load and shift: the day is closed without them |
| ServiceWindow.LoadedIsValid | service/singleton/servicesentinel.go:395-410 | loading brings all 30 slots up to date and does not change the drift |
| ServiceWindow.ShiftIsDayChange | service/singleton/servicesentinel.go:141-158 | the shift is the change of day iff slot 29 was up to date |
| ServiceWindow.RestoredAfterRun | service/singleton/servicesentinel.go:278-322 | a service restored with the right earlier days shows the window after any run, and its totals exceed the slot sums by the counts restored for today, for good |
| ServiceWindow.MeasuredIsDayLate | service/singleton/servicesentinel.go:235-251 | slots loaded from the time series store show each day one day late, without yesterday; they are right iff every day looks like slot 0 |
| ServiceWindow.MeasuredWindowIsEmpty | pkg/tsdb/query.go:180-184 | slot 0 is empty, as its day is not read, unless there is a point at the very midnight where the query begins; so the slots are right iff there was nothing to show on any of the 29 days |
| ServiceDays.QueryServiceDailyStats | pkg/tsdb/query.go:170-224 | entry i counts and averages the points read of the day that lies `days` minus i days back, so the last entry is yesterday |
| ServiceDays.QueriedDayMeans | pkg/tsdb/query.go:180-200 | all of every day is read but of the first, of which only the instant at the beginning of the range is |
| ServiceDays.LastDayIsToday | service/singleton/servicesentinel.go:280-302 | the counts of the last 24 hours are those of today iff there is no status point between 24 hours ago and midnight |
| ServiceDays.DayOfReports | service/singleton/servicesentinel.go:545-552 | a day's entry counts successes and failures, and its running mean is the mean delay of the successes |
| ServiceDays.RowCounts | service/singleton/servicesentinel.go:258-273 | a stored row counts, with all it holds, for the day in whose 24 hours it lies, the first 24 hours before midnight being yesterday |
| ServiceDays.UpsCounted | pkg/tsdb/query.go:195-208 | up are the points of a range from 0.5 on |
| ServiceWindow.ServiceItem.constructor | service/singleton/servicesentinel.go:343-358 | a new service starts with an empty window and no drift |
| ServiceWindow.ServiceItem.Report | service/singleton/servicesentinel.go:545-552 | one report is folded into today only |
| ServiceWindow.ServiceItem.LoadStats | service/singleton/servicesentinel.go:395-410 | slot 29 and both totals are exchanged; no unsigned subtraction underflows |
| ServiceWindow.ServiceItem.Shift | service/singleton/servicesentinel.go:141-158 | the in-place loop moves every slot one day back and takes the oldest off the totals, without underflow |
| ServiceWindow.ServiceItem.RefreshMonthlyServiceStatus | service/singleton/servicesentinel.go:133-159 | the midnight refresh with nothing between its halves is the Midnight step |
| ServiceWindow.ServiceItem.LoadMonthlyStatusFromDB | service/singleton/servicesentinel.go:253-276 | each slot holds the sums and the mean delay of the rows of its calendar day; totals stay the slot sums |
| ServiceWindow.ServiceItem.LoadMonthlyStatusFromTSDB | service/singleton/servicesentinel.go:235-251 | slot i is given what the query reads of the day 30-i days back; totals stay the slot sums |
| ServiceWindow.ServiceItem.LoadTodayStatsFromDB | service/singleton/servicesentinel.go:306-321 | today is the sum and mean delay of the rows, the totals grow by as much while slot 29 stays empty |
| ServiceWindow.ServiceItem.LoadTodayStatsFromTSDB | service/singleton/servicesentinel.go:279-304 | the same from the statistics per server, of which those without a delay do not count for the mean |
| ServiceSamples.Task.Report | service/singleton/servicesentinel.go:554-624 | a due report, successful or not, is sampled and no other is; the status counts the buffer, 30 samples make a history row unless the time series store is on, the code follows from the counts, and fail and recover tasks run when it leaves or reaches "good" |
| ServiceSamples.Summarise | service/singleton/servicesentinel.go:566-580 | the recomputed status counts the buffer and its delay is the mean of the successful ones |
| ServiceSamples.ReportConserves | service/singleton/servicesentinel.go:560-608 | every sample is in one flushed batch or in the buffer, which holds at most 29 between reports |
| ServiceSamples.ConservesMeans | service/singleton/servicesentinel.go:560-608 | every flushed row has up + down = 30 and its samples span more than 870 seconds |
| ServiceSamples.SamplesAccountedFor | service/singleton/servicesentinel.go:560-608 | flushed counts plus buffered samples are all samples taken |
| ServiceSamples.StatusThresholds | service/singleton/servicesentinel.go:763-774 | the codes as exact conditions on the counts |
| ServiceSamples.OnlyFailuresReadNoData | service/singleton/servicesentinel.go:763-774 | with up to 30 samples the code is "no data" iff none succeeded |
| ServiceSamples.TriggersAlternate | service/singleton/servicesentinel.go:741-752 | fail and recover tasks strictly alternate iff an even number of changes was missed, with triggering off, between each two runs; the last run tells whether the service is good iff an even number was missed since |
| ServiceSamples.AlwaysOnAlternates | service/singleton/servicesentinel.go:741-752 | with triggering on throughout they alternate and the last one tells whether the service is good |
| ServiceSamples.TriggersCount | service/singleton/servicesentinel.go:741-752 | one task run per change between good and not good while triggering is on |
| PortPool.GrantMeaning | internal/xtpro/server/server.go:454-479 | a free port of the range is honoured, any other grant is the lowest free port, and only an exhausted pool answers 10000 unreserved |
| PortPool.ReleaseMeaning | internal/xtpro/server/server.go:481-490 | releasing any number keeps the partition and is a no-op for a port not in use |
| PortPool.ReleaseUndoesGrant | internal/xtpro/server/server.go:454-490 | releasing a granted port restores the pool exactly |
| PortPool.PartitionAfterAnyRun | internal/xtpro/server/server.go:454-490 | after any sequence of grants and releases free and used ports partition the range, free list ascending |
| PortPool.Ports.constructor | internal/xtpro/server/server.go:153-172 | the loop fills the free list with the whole range |
| PortPool.Ports.GetNextPublicPort | internal/xtpro/server/server.go:454-479 | the method computes the grant on its fields |
| PortPool.Ports.ReleasePort | internal/xtpro/server/server.go:481-490 | the method computes the release on its fields |
| TunnelRegistry.ReachableSessions | internal/xtpro/server/server.go:423-490 | over every interleaving no session's port is released twice and registered sessions own every port but 10000; without a harmful removal the same holds for port 10000 among the sessions that have it from the pool, and used = waiting + registered + superseded |
| TunnelRegistry.RunSound | internal/xtpro/server/server.go:308-352 | over every interleaving each port but 10000 is in use iff a session holds it, and no two hold it |
| TunnelRegistry.RunValidIffHarmless | internal/xtpro/server/server.go:308-352 | in every state of a run this holds for all ports iff the run contains no harmful removal |
| TunnelRegistry.StepValidIffHarmless | internal/xtpro/server/server.go:444-490 | a step keeps it iff it is not the removal of a registered session answered by an exhausted pool while port 10000 is in use |
| TunnelRegistry.RemovalFreesPort | internal/xtpro/server/server.go:444-452 | removing a registered session gives its port back and frees its client id |
| TunnelRegistry.CleanIsHarmless | internal/xtpro/server/server.go:471-473 | a run in which the pool is never exhausted, or with a range without 10000, contains no harmful removal |
| TunnelRegistry.ExclusiveIffNotExhausted | internal/xtpro/server/server.go:454-479 | the port told to a new session is held by no other iff the pool is not exhausted or 10000 is out of its range |
| TunnelRegistry.RegisteredPorts | internal/xtpro/server/server.go:423-479 | while the invariant holds, two registered sessions share a port iff both were told 10000 and at most one has it from the pool |
| TunnelRegistry.UsedPortsAccounted | internal/xtpro/server/server.go:423-490 | while the invariant holds, each used port is accounted for once |
| TunnelRegistry.SupersededForever | internal/xtpro/server/server.go:423-427 | a session replaced under its client id keeps its port in use for ever, in every run; for port 10000 in every run without a harmful removal |
| TunnelRegistry.FallbackFreesAnother | internal/xtpro/server/server.go:444-473 | removing another session frees the port of the holder of 10000 iff that session had it from the exhausted pool |
| TunnelRegistry.HarmfulCollides | internal/xtpro/server/server.go:444-479 | after any harmful removal the next client that asks for 10000 is given it while the first session still holds it |
| TunnelRegistry.FallbackCollision | internal/xtpro/server/server.go:444-479 | for every range that contains 10000 a run after which two registered sessions share it, both from the pool |
| TunnelRegistry.Server.TakeSessionPort | internal/xtpro/server/server.go:343 | a new session takes its port |
| TunnelRegistry.Server.AddClientSession | internal/xtpro/server/server.go:423-427 | registering overwrites the entry of the client id |
| TunnelRegistry.Server.RemoveClientSession | internal/xtpro/server/server.go:444-452 | only the registered session is removed and releases its port |
| TunnelRegistry.Server.KickClient | internal/xtpro/server/server.go:429-442 | a kick reports whether the id was registered and removes its session |
| UdpFrame.BuildUDPMessage | internal/xtpro/server/server.go:1059-1082 | the filled buffer is the frame, byte by byte: type, fields behind their length, high byte first and truncated to 16 bits, payload; no id in a handshake |
| UdpFrame.DecodeUDPField | internal/xtpro/server/server.go:1047-1057 | total; fails iff the field does not fit the packet; on success stays inside it and advances by at least 2 |
| UdpFrame.FieldRoundTrip | internal/xtpro/server/server.go:1047-1082 | a built field is read back iff it is shorter than 65536 bytes |
| UdpFrame.ParseOfFrame | internal/xtpro/server/server.go:831-871 | parsing undoes building for each message type; a ping keeps the id field it does not expect |
| UdpFrame.ParseDrops | internal/xtpro/server/server.go:831-871 | which packets are dropped: too short, key cut off or empty, unknown type, or id of a data or close packet cut off or empty |
| UdpFrame.FrameInjective | internal/xtpro/server/server.go:1059-1082 | equal frames of one type have equal parts |
| BufferedWriter.RowsConserved | pkg/tsdb/writer.go:36-79 | over every interleaving accepted rows are stored, in flight or buffered exactly once, and the buffer is below its limit |
| BufferedWriter.StepConserves | pkg/tsdb/writer.go:49-73 | every step conserves rows |
| BufferedWriter.StepOrdered | pkg/tsdb/tsdb.go:76-92 | Close excludes writers, the loop's last flush leaves an empty buffer, closed implies the loop is done |
| BufferedWriter.StepsProgress | pkg/tsdb/writer.go:36-73 | an entered write is taken in whole, a full buffer leaves as one batch, a tick takes all that is buffered, and batches are stored |
| BufferedWriter.ClosedMeans | pkg/tsdb/tsdb.go:76-92 | once Close has returned everything accepted is stored iff no Flush is in flight |
| BufferedWriter.ClosedRefuses | pkg/tsdb/writer.go:141-146 | after Close nothing more is accepted, whatever runs |
| BufferedWriter.FlushBesideClose | pkg/tsdb/tsdb.go:112-117 | a run in which Close returns before a flushed row is stored |
| BufferedWriter.Tsdb.Write | pkg/tsdb/writer.go:49-60 | a closed store refuses; otherwise the rows join the contents and a full buffer is stored as one batch |
| BufferedWriter.Tsdb.Close | pkg/tsdb/tsdb.go:76-92 | closing stores everything taken in |
| Downsample.DownsampleSorted | pkg/tsdb/query.go:345-398 | the scan yields one entry per non-empty bucket, keys ascending, mean delay (0 if none), status 1 iff a strict majority is up |
| Downsample.EntryMeans | pkg/tsdb/query.go:355-369 | an entry is up iff a strict majority of the status points of its bucket is, counted by their place |
| Downsample.CalculateStats | pkg/tsdb/query.go:300-343 | totals and group-by of the points as read, in whatever order |
| Downsample.DownsampleMetrics | pkg/tsdb/query.go:400-445 | per bucket the mean, or the value of a latest point |
| Downsample.GroupByPermute | pkg/tsdb/query.go:305-340 | sorting first does not change the group-by |
| Downsample.GroupByUnique | pkg/tsdb/query.go:345-398 | a set of points has one group-by |
| Downsample.BucketsAddUp | pkg/tsdb/query.go:313-341 | the buckets' counts and sums add up to the totals |
| Downsample.KeyOfNonNegative | pkg/tsdb/query.go:375 | a non-negative timestamp's key is the start of its interval |
| Traffic.RecordTransferHourlyUsage | service/singleton/singleton.go:111-143 | one row per server whose counters moved, in order; snapshots catch up, other servers are untouched |
| Traffic.RowMeans | service/singleton/singleton.go:126-137 | a server has a row iff a counter has passed its snapshot, with its id, the hour, and what each counter has gone beyond |
| Traffic.Server.ReportSystemState | service/rpc/nezha.go:457-502 | a state report, with the first-report snapshot |
| Traffic.Server.OnReportSystemInfo | service/rpc/nezha.go:523-535 | a later boot time records the old boot and clears the snapshots |
| Traffic.BooksMatchTraffic | service/rpc/nezha.go:498-532 | for positive counters that do not go back within a boot: rows plus live difference equal the traffic of all boots iff nothing was recorded in a reboot's gap; otherwise both channels are overbooked |
| Traffic.BooksMatchIffSteady | service/rpc/nezha.go:498-532 | for counters that may be zero, with nothing recorded in a gap: they are equal iff every report that finds a zero in the snapshot repeats the counters before; never more is booked than there was |
| Traffic.PositiveIsSteady | service/rpc/nezha.go:499-502 | with positive counters and nothing recorded in a gap every report is of that kind |
| Traffic.BooksDifferBy | service/rpc/nezha.go:498-532 | in every run with counters that do not go back within a boot the books differ from the real traffic by exactly what the steps gained less what they lost, so they match iff the two are equal |
| Traffic.LossHidesGain | service/rpc/nezha.go:498-532 | they can be equal without being nothing: a run that violates both hypotheses above and whose books match |
| Traffic.RowsMatchInGap | service/rpc/nezha.go:523-532 | in the gap, with nothing recorded there, the rows alone are the traffic of all boots, under the same condition on zeros |
| Traffic.ZeroCounterLosesTraffic | service/rpc/nezha.go:499-502 | how much is lost: from a snapshot without inbound traffic on, and while the inbound counter stays zero, nothing of the outbound traffic is booked |
| Traffic.RecordKeepsCycleValue | model/rule.go:95-115 | recording leaves the cycle rule's value unchanged iff the hour lies in the cycle or nothing moved |
| Traffic.CycleValueMeans | model/rule.go:95-115 | the value is the live difference and the rows dated in the cycle, in, out or both |
| CycleWindow.CalendarCycle | model/rule.go:189-213 | for a calendar step that moves forward the loop ends, at a boundary before now (or the first) whose next boundary is not before now |
| CycleWindow.BackwardNeverEnds | model/rule.go:189-213 | for a step that moves backwards, as with an interval of 2^63 and more, it never ends |
| CycleWindow.CycleIsUnique | model/rule.go:183-262 | there is only one such cycle and now lies in it, so the two functions agree |
| CycleWindow.HourLengthMeans | model/rule.go:216 | the length of a cycle in 64 bits is that of the interval iff it fits an int, and zero iff the interval is a multiple of 2^60 |
| CycleWindow.HourCycleBounds | model/rule.go:214-217 | while the length fits, the closed form is the last boundary not after now |
| CycleWindow.HourCycleAnyLength | model/rule.go:254-258 | for any other length but zero the start is the last boundary of cycles of that many seconds, and the end lies after now iff the length is positive |
| CycleWindow.HourFormsAgree | model/rule.go:214-217 | while the length fits, closed form and loop agree iff now is not a positive whole number of cycles after the start, where they are one cycle apart |
| CycleWindow.GetTransferDurationStart | model/rule.go:184-221 | start of the current cycle for every unit, for calendar steps that move forward (which fails from 2^63 on) and hours whose length fits; the closed form for all other lengths; panics iff the length is zero |
| CycleWindow.GetTransferDurationEnd | model/rule.go:224-262 | end of the current cycle, under the same conditions |
| BootDispatch.OncePerBoot | service/rpc/nezha.go:333-362 | over every interleaving at most one successful send per server and boot, plus one per forced rerun |
| BootDispatch.OnlyOneSender | service/rpc/nezha.go:343-362 | at a boot without a forced rerun: while one attempt holds the row or was sent, no other can send |
| BootDispatch.AttemptSteps | service/rpc/nezha.go:343-362 | each step of an attempt: insert if absent, failed token or Send leads to the deletion of the row, which frees the boot |
| BootDispatch.FailureAllowsRetry | service/rpc/nezha.go:374-435 | from an attempt that holds the row, after a failed token or Send the row is deleted next; the next attempt sends if that succeeds and, without a forced rerun, only then |
| BootDispatch.DeletionAllowsRetry | service/rpc/nezha.go:417-435 | the same whatever else has happened between the failure and the deletion |
| BootDispatch.StuckBlocks | service/rpc/nezha.go:380-425 | a row whose deletion failed blocks the boot: in every later run without a forced rerun no other attempt sends |
| BootDispatch.BootRuns.DispatchOnce | service/rpc/nezha.go:337-435 | one dispatch, with each way it can fail: outcome, row and send log, the same as the steps of an attempt lead to |
| NotificationIndex.RunCoherent | service/singleton/notification.go:83-173 | in every reachable state each group entry is the listed object and linked back to its group |
| NotificationIndex.UpdateCoherent | service/singleton/notification.go:83-99 | after an update every group holding the id shows the new object |
| NotificationIndex.UpdatedMeans | service/singleton/notification.go:83-99 | the notification is listed; if it was before, every linked group gets it, and otherwise no group changes |
| NotificationIndex.UpdateGroupCoherent | service/singleton/notification.go:101-143 | storing a group keeps coherence iff it names known notifications only |
| NotificationIndex.UpdatedGroupMeans | service/singleton/notification.go:101-143 | a stored group consists of exactly what it names and is linked to each of them |
| NotificationIndex.DeleteCoherent | service/singleton/notification.go:145-161 | after Delete no group holds the ids |
| NotificationIndex.DeletedMeans | service/singleton/notification.go:145-161 | what deleting removes from the list, the linked groups and the links, and that all else stays |
| NotificationIndex.LoadedCoherent | service/singleton/notification.go:56-69 | the constructor's index is coherent |
| NotificationIndex.LoadedMeans | service/singleton/notification.go:56-69 | groups and links after loading are those of the stored links to known notifications |
| NotificationIndex.DroppedMemberReturns | service/singleton/notification.go:134-141 | a dropped member is put back by its next update |
| NotificationIndex.OtherGroupChanges | service/singleton/notification.go:136 | when exactly storing a group changes another one |
| NotificationIndex.UpdateAfterDeleteGroup | service/singleton/notification.go:163-173 | after deleting groups, updating a known notification is safe iff none of them is linked to it, as a member or a former one |
| NotificationIndex.LinksAccumulate | service/singleton/notification.go:83-173 | over every run a notification is linked to exactly the groups that named it since its last deletion |
| NotificationIndex.UpdateSafeAfterRun | service/singleton/notification.go:83-173 | after any run, updating a known notification is safe iff all of these groups still exist |
| NotificationIndex.NotificationClass.UpdateNotification | service/singleton/notification.go:83-99 | the notification is listed; the method computes the update on its maps, or panics, iff a linked group is gone; a new notification changes no group |
| NotificationIndex.NotificationClass.UpdateNotificationGroup | service/singleton/notification.go:101-143 | the method computes the group update on its maps |
| NotificationIndex.NotificationClass.DeleteNotifications | service/singleton/notification.go:145-161 | the method computes the deletion on its maps |
| NotificationIndex.NotificationClass.DeleteNotificationGroups | service/singleton/notification.go:163-173 | the method removes the groups and leaves their links |
| MuteBackoff.Cache.SendNotification | service/singleton/notification.go:203-236 | the check-and-set on the cache entry |
| MuteBackoff.RunOk | service/singleton/notification.go:208-228 | consecutive deliveries are more than the quiet period apart; the next period doubles up to a day, or restarts when the entry has expired |
| MuteBackoff.SuppressedOnlyWhileQuiet | service/singleton/notification.go:208-236 | a notification is suppressed iff it falls into the quiet period of the last delivery |
| MuteBackoff.PeriodsDouble | service/singleton/notification.go:213-217 | the k-th period of an unbroken series is min(15 minutes * 2^k, one day) |
| MuteBackoff.DeliveriesPerWindow | service/singleton/notification.go:203-236 | any window of length w sees at most (w + 10 minutes) / (25 minutes and a nanosecond) + 1 deliveries |
| MuteBackoff.BoundIsReached | service/singleton/notification.go:203-236 | for every number of deliveries from two on a run reaches that bound |
| MuteBackoff.DeliveriesPerQuarter | service/singleton/notification.go:203-236 | in particular at most w / 15 minutes + 1 |
| ServerSearch.FastSearchIsLinearIff | model/common.go:116-157 | split, scan and binary search answer every request like a linear search iff the ids behind the first zero display index ascend |
| ServerSearch.SearchFindsRequested | model/common.go:116-157 | when the ids of the part searched by halves ascend and some listed server is requested, the answer is exactly the requested ones, priority part first, each part in request order |
| ServerSearch.WholeListIfNothingMatches | model/common.go:134-138 | on any list, a request that names no listed server is answered with the whole list |
| ServerSearch.SortedListIsSearchable | model/server.go:92-103 | on a sorted list with non-negative display indices and a zero, the split separates them and the search is right |
| ServerSearch.BinaryFindsAllIffAscending | model/common.go:140-147 | binary search finds every element iff the ids ascend |
| ServerSearch.NoZeroMisses | model/server.go:97-100 | a sorted list without a zero display index on which the search is wrong |
| ServerSearch.SortedListUnique | service/singleton/server.go:117-124 | the sorted list does not depend on the order the map is read in |
| ServerSearch.SearchByIDPri | model/common.go:116-138 | the method computes the fast search, unparsable ids skipped: the whole list if nothing matches, otherwise, on a searchable list, exactly the requested servers in order |
| ServerSearch.BinarySearchFunc | model/common.go:140-147 | the library search: stopping position and whether the id is there; on ascending ids it stops at the first that is not smaller, and finds the id iff it is there |
| ServerSearch.ServerClass.SortList | service/singleton/server.go:111-132 | the sorted lists show exactly the table, by display index descending and then id, and the part of it guests may see |
| ServerSearch.ServerClass.Update | service/singleton/server.go:44-61 | table, uuid index and sorted lists after an update |
| ServerSearch.ServerClass.Delete | service/singleton/server.go:63-75 | table, uuid index and sorted lists after a deletion; it panics at the first id that is unknown or named before, and what it leaves behind then |

## Left out

- HTTP handlers, login, access control, DDNS, GeoIP, translations, the web UI, generated protobuf code: plumbing around the state machines.
- Sockets, TLS, gRPC streams and scheduling below lock granularity; closing a session's listeners.
- SQL: inserts, deletes and sums are set and sequence operations; CleanMonitorHistory and the assignment queries before the boot-run insert are not modelled.
- Floating-point rounding, NaN, overflow of 64-bit counters and sums.
- What a rule's snapshot measures: its results are a parameter, including the cached results of cycle rules; the cycle statistics shown in the UI.
- AlertTrimming.TrimInvisibleIffSafe: rule lists with a duration of 2^63 or more, whose evaluation panics or passes; the tick itself covers them (AlertSentinel.Sentinel.CheckStatus).
- The maps of the service sentinel keyed by service id, and their creation and removal by Update and Delete: ServiceWindow and ServiceSamples follow one service at a time; delay alarms, notifications, TLS certificate alarms and ping averaging of the worker.
- ServiceDays: days have 24 hours, and a row or point exactly at midnight counts for the day that ends there, as the division of its age does it.
- ServiceWindow.ServiceItem.LoadTodayStatsFromTSDB: the statistics per server are parameters; what their range makes of today's counts is ServiceDays.LastDayIsToday.
- NotificationIndex: a loop over a Go map whose iterations do not affect each other is one map comprehension; which groups an update has served when it panics depends on the order the map is read in and is left open; the sorted notification list; sending.
- MuteBackoff: unmuting, which empties the cache entry; two goroutines that check the cache at the same time may both deliver; check and update are one step here.
- CycleWindow: the calendar step is an arbitrary function that moves forward, so month lengths, daylight saving and dates beyond the range of Go's calendar are not modelled; now is one fixed time per call, not before the cycle's start, as the rule's validation demands.
- ServerSearch: the order in which Go reads a map is a parameter of the methods that rebuild the sorted list; the search of lists without priorities is binary search alone and is covered by ServerSearch.BinaryFindsAllIffAscending.
- TunnelRegistry.Server.KickClient: the client id is taken as already trimmed, and the lookup and the removal follow each other directly; the interleaved case is the RemoveClient step of the runs.
- UdpFrame: encryption, and what the server does with a parsed packet.
