# MuonPi event building: a verified model

This project models the part of the MuonPi cluster software that turns single detector
hits into coincidence events, and proves properties of it in Dafny. To verify the whole
project: `dafny verify dfyconfig.toml`.

The modelled chain, and the modules that hold it:

* **Coincidence filter.** Hits arrive one after the other and join open constructors that
  coincide with them in time; a periodic tick sends expired constructors off. `Events`,
  `Criterion` and `ClusterState` hold events, the criterion and the published counters.
  `FilterModel` is the filter as a state machine on values, `CoincidenceFilter` the filter
  as the source has it: an object with a list of constructor objects that are changed in
  place. `Replay` shows that the object runs exactly as the state machine does, so that
  what is proved about all runs (`MergeLaw`, `Conservation`, `Frames`, `Separation`,
  `Duplicates`, `Timeouts`) holds of the object. `FilterLaws` states what each operation
  does in times, ends and hits alone.
* **Rates and the adaptive timeout.** `Statistics` holds the arithmetic of windows of
  samples, `DataSeries` the ring buffer with its caches, `RateMeasurement` the meters,
  `TwinMeters` the two meters of a station that start at different instants,
  `DetectorStation` the reliability of a station and its slow-down factor, `StationLaws` what
  each operation does to a station in its data alone, `StationSupervisor` the set of stations, `TimebaseSupervisor` the spread of event times,
  and `Pipeline` the way from there to the timeout of the filter.
* **Pair statistics.** `UpperMatrix` is the packed triangular matrix, `Histogram` the
  binned time differences, and `StationCoincidence` the object that accounts for each event
  in the histograms of all its pairs of stations. `PairAccounting` says what an event does to
  the cells, and `PairLaws` what that means for each pair of stations.
* **Messages.** `MessageFields` takes messages apart and builds them, `Collectors` gathers
  the lines of each station, `LocationCollector` and `LogCollector` are the two kinds of
  items gathered, and `Geohash` encodes locations.

Each public call (an event, a log message, a tick) is one atomic step with the time as an
input. Times are integers in nanoseconds. Measured quantities are reals. The square root is
a function of which only its defining property is used.

## Where the code does something else than one would expect

The model follows the code in all of these, and states exactly when the expectation holds.

* A merge of more than two constructors erases by indices that are not adjusted for what
  has been erased before (`src/analysis/coincidencefilter.cpp:121-125`). `MergeRestLaw` and
  `Survivors` say what it erases, `MergeExactlyMatched` that it does what it is meant to
  exactly for at most two matches, and `ThreeInARowBreaksTheMerge` that two detectors and
  four hits reach past the end.
* An event may list a detector twice after a two-way merge: exactly if the two merged
  constructors share a detector (`MergeDistinct`, `CleanRunCanDuplicate`).
* An event that arrives with exactly one listed hit gets that hit listed twice by the next
  join (`ArrivalConserves`, `OneListedDoubles`); events otherwise list none or at least two.
* `current()` is documented as the most recent value (`include/analysis/dataseries.h:58-61`)
  but reads the slot that is overwritten next: the oldest value of a full window. It is the
  most recent one, for all histories, exactly for a window of one value (`NextIsLatestIff`).
* `remove_index` leaves the cells in order, whatever they hold, exactly for the last two
  indices, and in order but for one cell exactly for the last three (`RemovalInOrderIff`,
  `RemovalButOneIff`). Its result is stated cell by cell for every index (`RemoveIndex`).
* The recorded end of a sample of event times is the greatest time that was no new minimum,
  and the start of time if there is none (`RecordedEnd`). It is the maximum exactly if some
  later event is not earlier than the first (`RecordedLaw`); `BaseIsSpreadIff` and
  `FallingSaturates` say when the clamped base is nevertheless right.
* The two rate meters of a station read the clock separately when they start. Their
  histories agree exactly if no tick falls between the ends of their first intervals
  (`SameHistoryIff`). The slow-down factor stays within its bounds in all runs exactly if the
  meter of the long window has not started later; otherwise some run divides by zero
  (`FactorAlwaysBoundedIff`). A missed step is forgotten once that meter has fired more than
  ten times (`Heals`, `StationHeals`). The results about the largest factor and the timeout
  are stated for stations that have missed no step or have forgotten it.
* The key of a station is the hash of its name and site run together
  (`include/messages/userinfo.h`), so that different stations can share one (`SameKeyIff`,
  `DifferentUsersOneKey`). What is proved about collected items holds for each key.
* Recording a pair of two equal stations addresses a cell of the next column, or throws for
  the last station (`Record`); `GetEvent` says exactly which events throw. An event that does
  not throw leaves exactly one entry per pair of hits of two stations if and only if the
  difference of any two hits of one station is rejected by the cell it goes to
  (`AllRightIff`); `SandwichedHit` and `StrayEntry` are an event for which it is not.
* The parser compares the character at the end of the content before it tests for the end
  (`src/utility/utility.cpp:51`); the model tests first.

## Model

| member | source | states |
|---|---|---|
| Events.EventRecord.EmplaceData | src/messages/event.cpp:29-38 | A further hit is listed last and widens the recorded interval as far as the `else if` lets it; nothing else of the event changes. |
| Events.EventRecord.Emplace | src/messages/event.cpp:17-27 | Taking in an event, single or combined, adds all its hits in order. |
| Events.ExtendAllTight | src/messages/event.cpp:17-38 | However many hits are added to an interval that both ends of attain, it stays the exact range of the listed starts: the `else if` loses nothing. |
| Events.ExtendAllAppends | src/messages/event.cpp:17-38 | Hits already listed are never touched or reordered; of the event's own data only the interval can change. |
| Events.FramedHull | src/messages/event.cpp:12-38 | The recorded ends are the least and the greatest start of the hits. |
| Events.JoinLaw | src/analysis/coincidencefilter.cpp:91-98 | Joining two events of any levels gives a well-framed event with the hits of both, whose interval is the hull of the two intervals. |
| Criterion.CoincidentMeansTouching | src/analysis/simplecoincidence.cpp:12-26 | The score passes exactly if some end of one event lies within the window of some end of the other, so the relation is symmetric. |
| Criterion.SkippedMeansShared | src/analysis/coincidencefilter.cpp:64-82 | In all three branches, a constructor is skipped exactly if it shares a detector with the arriving event. |
| ClusterState.CountReliable | src/supervision/state.cpp:31-36 | The count is the number of mirrored detectors that are reliable. |
| ClusterState.State.OnDetectorStatus | src/supervision/state.cpp:22-40 | The mirror takes over the status, forgets deleted detectors, and the published totals count the mirror. |
| ClusterState.State.IncreaseEventCount | src/supervision/state.cpp:101-116 | One more incoming event, or one more outgoing event of its level with the maximum level kept up. |
| MergeLaw.MergeRestLaw | src/analysis/coincidencefilter.cpp:119-125 | The merge loop stays in range exactly if every queued index plus its rank does; then the first constructor absorbs those at the drifted indices, in order, and every position of the result is accounted for. |
| MergeLaw.Survivors | src/analysis/coincidencefilter.cpp:119-125 | The positions that remain after the loop hold exactly the constructors whose index is no drifted one. |
| MergeLaw.MergeExactlyMatched | src/analysis/coincidencefilter.cpp:111-125 | The loop turns every list of n constructors into the one in which the first match has taken in the others, and only they are gone, if and only if there are at most two matches. |
| Conservation.ArrivalConserves | src/analysis/coincidencefilter.cpp:57-129 | An arrival conserves every hit exactly if it does not join a constructor that lists exactly one. |
| Conservation.OneListedDoubles | src/analysis/coincidencefilter.cpp:90-100 | An event that lists one hit and a second hit in time: two come in, three are open. |
| Conservation.MergeRestConserves | src/analysis/coincidencefilter.cpp:119-125 | Even a drifted merge neither loses nor multiplies a hit as long as it stays in range. |
| Conservation.TickCount | src/analysis/coincidencefilter.cpp:38-55 | A tick moves hits from the buffer to the sink, and neither loses nor multiplies one. |
| Conservation.RunConserves | src/analysis/coincidencefilter.cpp:38-129 | In every run whose erases stay in range, and for every weighting of hits, what was ingested is what is buffered plus what was emitted. |
| Conservation.RunKeepsBag | src/analysis/coincidencefilter.cpp:38-129 | The same as bags: each ingested hit is, unchanged, either still open or emitted, with its multiplicity. |
| Conservation.RunCounters | src/supervision/state.cpp:101-121 | After every run the supervisor's counters agree with it: one incoming per arrival, and the levels of the outgoing events add up to the emitted hits. |
| Conservation.LevelsAddUp | src/supervision/state.cpp:101-116 | With single-hit input, incoming events are the outgoing counts times their levels plus the hits still open. |
| Frames.RunFramed | src/messages/event.cpp:17-38 | In every run that stays defined, multi-hit arrivals and drifted merges included, each buffered and each emitted event is well framed. |
| Frames.RunShowsHulls | src/messages/event.cpp:17-38 | So its recorded ends are the least and the greatest start of its hits. |
| Separation.AtMostTwoMatches | src/analysis/coincidencefilter.cpp:62-86 | A single hit matches at most two of pairwise non-coincident constructors. |
| Separation.NoThreeNear | src/analysis/simplecoincidence.cpp:12-26 | Of three events with ends within the window of one time, two coincide. |
| Separation.JoinProper | src/analysis/coincidencefilter.cpp:90-100 | A matching hit widens an event by at most one window, and the interval stays the exact range of its hits. |
| Separation.MergeProper | src/analysis/coincidencefilter.cpp:111-125 | A merge of two constructors that matched one hit spans at most one window for each further hit. |
| Separation.ArrivalSeparated | src/analysis/coincidencefilter.cpp:57-129 | A hit that coincides with no constructor it is kept from leaves the constructors pairwise non-coincident, through opening, joining and merging. |
| Separation.NewConstructorSeparated | src/analysis/coincidencefilter.cpp:103-110 | Without a match, separation survives if and only if the hit coincides with no skipped constructor. |
| Separation.TickSplits | src/analysis/coincidencefilter.cpp:42-51 | The backward loop keeps exactly the unexpired constructors in order and sends exactly the expired ones, latest first. |
| FilterLaws.TickLaw | src/analysis/coincidencefilter.cpp:38-55 | A tick keeps a constructor, with its timeout raised to the filter's, exactly if it is younger than the larger of the two timeouts, and sends its event exactly otherwise; the kept ones stay in order, the latest leaves first, and the queue length published is what remains. |
| FilterLaws.ArrivalOpens | src/analysis/coincidencefilter.cpp:59-110 | An event that shares a detector with every constructor it is within 100 us of opens a new one, last in the list, with the filter's timeout and the present time. |
| FilterLaws.ArrivalJoins | src/analysis/coincidencefilter.cpp:59-100 | An event that fits exactly one constructor adds its hits there and widens the interval to the hull of both; timeout, birth and all other constructors stay. |
| FilterLaws.RunPublished | src/supervision/state.cpp:101-116 | After every run, the count for each level is the number of events of that level sent out, and the maximum published is the highest level sent out. |
| Separation.SparseRunProper | src/analysis/coincidencefilter.cpp:90-125 | In every single-hit run with at most two matches at a time, each buffered and each emitted event shows the true range of its starts, and n hits span at most n - 1 windows. |
| Separation.CleanRunSeparated | src/analysis/coincidencefilter.cpp:57-129 | In every single-hit run where no skipped constructor would pass the criterion, open constructors never coincide, no arrival matches more than two, and no erase leaves the list. |
| Duplicates.JoinDistinct | src/analysis/coincidencefilter.cpp:64-100 | A plain join lists a detector twice only if one of the two events did. |
| Duplicates.MergeDistinct | src/analysis/coincidencefilter.cpp:64-125 | A two-way merge lists a detector twice if and only if the two constructors share one. |
| Duplicates.ThreeInARowBreaksTheMerge | src/analysis/coincidencefilter.cpp:119-125 | Three hits of one detector and one of another make the merge reach past the end of the list. |
| Duplicates.CleanRunCanDuplicate | src/analysis/coincidencefilter.cpp:64-125 | Two hits of one detector end in one event although nothing coincided with a skipped constructor. |
| Duplicates.SandwichedHit | src/analysis/coincidencefilter.cpp:64-125 | Hits of one detector at 0 and 10 ns and of another at 5 ns end in one event, in the order first, other, first. |
| Timeouts.TimeoutForSane | src/analysis/coincidencefilter.cpp:26-31 | Bases of 0.8 s to 120 s and factors of 1 to 8 give timeouts of 800 ms to 960 s, through all truncations. |
| Timeouts.TimeoutLaw | src/analysis/coincidencefilter.cpp:26-31 | The timeout is the greatest whole number of milliseconds not above the base, in whole milliseconds, times the factor. |
| Timeouts.RunSane | src/analysis/coincidencefilter.cpp:26-55 | In every run with such inputs the filter's timeout and that of each constructor stay in that range. |
| Timeouts.TickDeadlines | src/analysis/coincidencefilter.cpp:38-55 | After every such run, a tick never shortens a timeout, keeps every constructor younger than 800 ms and sends every one that is 960 s old. |
| CoincidenceFilter.EventConstructor.SetTimeout | src/analysis/eventconstructor.cpp:7-13 | The timeout of a constructor can only grow. |
| CoincidenceFilter.Filter.GetTimebase | src/analysis/coincidencefilter.cpp:26-31 | The filter takes the scaled base as its timeout, changes nothing else, and reports both in milliseconds. |
| CoincidenceFilter.Filter.FindMatches | src/analysis/coincidencefilter.cpp:61-86 | The loop finds the ascending list of matching constructors. |
| CoincidenceFilter.Filter.MergeContested | src/analysis/coincidencefilter.cpp:119-125 | The loop that absorbs and erases constructor objects in place has the effect given by the model, and is undefined exactly where that is. |
| CoincidenceFilter.Filter.ProcessEvent | src/analysis/coincidencefilter.cpp:57-129 | The arrival of an event, in place on the list of constructors, is the arrival step of the state machine, counters included. |
| CoincidenceFilter.Filter.ProcessTick | src/analysis/coincidencefilter.cpp:38-55 | The backward loop with its erasures, in place, is the tick of the state machine: order of the kept and of the sent events, raised timeouts and counters. |
| CoincidenceFilter.Replay | src/analysis/coincidencefilter.cpp:19-129 | A filter object that performs any sequence of calls is in the state of the model's run, and defined exactly as long as that is; so every law about runs is one about the object. |
| Statistics.RotationLaw | include/analysis/dataseries.h:64-88 | Mean and variance do not depend on where in the ring buffer the window begins. |
| Statistics.PartMeanBound | src/analysis/detectorstation.cpp:122-130 | For m values of mean mu and variance v, a part of k values with mean c has k (mu - c)^2 <= (m - k) v. |
| Statistics.DropIsBounded | src/analysis/detectorstation.cpp:122-130 | If the short mean lies more than the spread below the long mean, the spread is positive and the drop is at most three times the spread. |
| DataSeries.Rotates | include/analysis/dataseries.h:115-125 | Overwriting a slot of the ring advances the window by one value, across the wrap. |
| DataSeries.Series.Add | include/analysis/dataseries.h:115-125 | The history grows by the value; no cache remains valid that could be stale. |
| DataSeries.Series.Current | include/analysis/dataseries.h:152-155 | The value given is the oldest of a full window, and zero before. |
| DataSeries.NextIsLatestIff | include/analysis/dataseries.h:58-61 | It is the most recent value, for all histories, if and only if the window holds one value. |
| DataSeries.Series.Entries | include/analysis/dataseries.h:128-131 | The number of entries is the length of the window of the history. |
| DataSeries.Series.GetMean | include/analysis/dataseries.h:64-71 | The cached mean is the mean of the last values of the history. |
| DataSeries.Series.GetVariance | include/analysis/dataseries.h:78-88 | So is the cached variance, which reads the cached mean. |
| DataSeries.Series.GetStddev | include/analysis/dataseries.h:73-76 | So is the standard deviation, which reads the cached variance: whatever was called before, it is the root of the variance of the last values. |
| RateMeasurement.Meter.Step | include/analysis/ratemeasurement.h:64-74 | When the interval is over the counted rate is added to the series and counting starts again; a clock that has stepped back also ends it. |
| RateMeasurement.FiringLaw | include/analysis/ratemeasurement.h:64-74 | On a clock that does not step back, a meter fires exactly when its interval has passed; the rate added is the number of events counted per second. |
| RateMeasurement.BackFires | include/analysis/ratemeasurement.h:64-66 | A clock that has stepped back by a millisecond fires the meter as well. |
| TwinMeters.AgreeIff | src/analysis/detectorstation.cpp:122-123 | Meters that agree go on to agree through any event or tick, except exactly through a tick in which the first fires and the second does not. |
| TwinMeters.SameHistoryIff | src/analysis/detectorstation.cpp:122-123 | After any run of events and ticks on a clock that does not step back, the histories of two meters started at a and b are equal if and only if no tick fell between the ends of their first intervals. |
| TwinMeters.MissingMisses | include/analysis/ratemeasurement.h:42-45 | If the second meter started later, one event and two ticks make it miss a step. |
| TwinMeters.RunMissed | src/analysis/detectorstation.cpp:122-123 | After any run with a missed step, either the second meter has not fired yet, or the two are in step and their histories differ in the missed rate and the one after it only. |
| TwinMeters.Heals | src/analysis/detectorstation.cpp:122-123 | After any run in which the second meter has fired more than n times, the last n rates of the two are the same. |
| TwinMeters.HealthyStays | src/analysis/detectorstation.cpp:122-123 | Meters with the same last n rates that are in step keep them the same through every event and every tick that is not missed. |
| DetectorStation.MissedStepIsInfinite | src/analysis/detectorstation.cpp:124-126 | After that run the drop is divided by a spread of zero. |
| DetectorStation.FactorBounds | src/analysis/detectorstation.cpp:122-130 | For any two histories with the same last 10 rates, the factor is finite and either 1 or above 4 and at most 8. |
| DetectorStation.FactorWithoutMiss | src/analysis/detectorstation.cpp:122-130 | So it is after every run of the two meters in which none has missed a step. |
| DetectorStation.FactorAlwaysBoundedIff | src/analysis/detectorstation.cpp:122-130 | The factor keeps these bounds in all runs if and only if the meter of the long window has not started later than the other. |
| DetectorStation.FactorHeals | src/analysis/detectorstation.cpp:122-130 | It has them in every run, missed steps or not, in which that meter has fired more than ten times. |
| StationLaws.FactorLaw | src/analysis/detectorstation.cpp:122-130 | When the factor is renewed it is one if the mean of the last 10 rates has not dropped by more than the spread of the last 100; else its excess over two, times the spread, is twice the drop; without a spread it is infinite. |
| StationLaws.NoFactorLaw | src/analysis/detectorstation.cpp:122-130 | Before 30 s have passed, meters and factor stay. |
| DetectorStation.NoEventsNoSpread | src/analysis/detectorstation.cpp:95 | A rate ratio with a zero mean is zero over zero, never a positive number over zero. |
| DetectorStation.Hysteresis | src/analysis/detectorstation.cpp:88-106 | Between a check that makes a station unreliable and one that makes it reliable again, some ratio has fallen by more than twice the hysteresis. |
| StationLaws.CheckLaw | src/analysis/detectorstation.cpp:88-106 | A check makes a station unreliable exactly if location, time accuracy or rate is off by more than 15 percent of what is allowed, reliable exactly if all three are known to be more than 15 percent better, and else leaves the status; nothing else changes. |
| StationLaws.CheckReports | src/analysis/detectorstation.cpp:70-106 | Only a change is reported, with the first reason in the order location, time, rate. |
| StationLaws.LogLaw | src/analysis/detectorstation.cpp:63-68 | A log renews place and time, and the station is checked with the new place. |
| StationLaws.EventLaw | src/analysis/detectorstation.cpp:30-61 | An event is counted by both meters, its accuracy is kept, and an accuracy beyond 100 us makes the station unreliable for that reason. |
| StationLaws.StepLaw | src/analysis/detectorstation.cpp:108-131 | A station that has had a log within 90 s is checked, without one it is unreliable, and after 270 s deleted; unless it is deleted its meters are stepped. |
| DetectorStation.StationReports | src/analysis/detectorstation.cpp:70-76 | Whatever happens to a station, a change of status, and only that, is reported. |
| DetectorStation.StationHistoryIff | src/analysis/detectorstation.cpp:30-131 | In every run of a new station, through events, logs and steps, the histories of its two meters are equal if and only if no tick they got fell between the ends of their first intervals. |
| DetectorStation.StationRunGood | src/analysis/detectorstation.cpp:30-131 | In every such run without a missed step the factor is 1 or above 4 and at most 8. |
| DetectorStation.FactorIsPresent | src/analysis/detectorstation.cpp:122-130 | In every run the factor held is the one that the present histories give. |
| DetectorStation.StationHeals | src/analysis/detectorstation.cpp:30-131 | In every run, also with a missed step, the factor is bounded again, and stays so through steps that are not missed, once the meter of the long window has fired more than ten times. |
| DetectorStation.SteppedLaw | src/analysis/detectorstation.cpp:108-131 | A step that the meters do not miss keeps the bounds of the factor, whatever else it does. |
| DetectorStation.Detector.constructor | src/analysis/detectorstation.cpp:22-28 | A new station is unreliable, with factor 1 and two meters that each start at their own instant. |
| DetectorStation.Detector.Enable | src/analysis/detectorstation.cpp:17-20 | Enabling a station reports that it has been created. |
| DetectorStation.SilenceLaw | src/analysis/detectorstation.cpp:108-120 | A station is deleted exactly after 270 s without a log message, and never reliable after 90 s without one. |
| DetectorStation.Detector.ProcessEvent | src/analysis/detectorstation.cpp:30-61 | Both meters count the event, its accuracy enters the history, an extreme one makes the station unreliable, and accuracy and fix decide whether it passes. |
| DetectorStation.Detector.CheckReliability | src/analysis/detectorstation.cpp:88-106 | The verdict, read through the caches, is that of the true statistics of the histories. |
| DetectorStation.Detector.ProcessLog | src/analysis/detectorstation.cpp:63-68 | The object does to its station value what a log message does. |
| DetectorStation.Detector.Measure | src/analysis/detectorstation.cpp:122-130 | The second meter is stepped when the first has fired, and the factor is renewed from the last 10 rates of the one and the last 100 of the other. |
| DetectorStation.Detector.Step | src/analysis/detectorstation.cpp:108-131 | The periodic step of the object, caches and meters included, is that of the station value. |
| TimebaseSupervisor.RecordedLaw | src/supervision/timebase.cpp:17-25 | The recorded minimum of a sample is its least event time; the recorded maximum is its greatest if and only if some later event is not earlier than the first. |
| TimebaseSupervisor.RecordedEnd | src/supervision/timebase.cpp:17-25 | The recorded end is the greatest event time that was no new minimum, or the start of time if there was none. |
| TimebaseSupervisor.BaseIsSpreadIff | src/supervision/timebase.cpp:37 | In a sample with such an event, the base is the clamped spread if and only if some later event is not earlier than the first, or the clamp makes up for the difference. |
| TimebaseSupervisor.BaseLaw | src/supervision/timebase.cpp:37 | If some later event is not earlier than the first, the base is the spread of the event times, but at least 0.8 s and at most 120 s. |
| TimebaseSupervisor.FallingSaturates | src/supervision/timebase.cpp:37 | In a sample without one, a single event among them, the subtraction wraps to the largest base, which is right if and only if the events span that much. |
| TimebaseSupervisor.NoEventsSmallest | src/supervision/timebase.cpp:37 | No event at all gives the smallest base. |
| TimebaseSupervisor.Timebase.GetEvent | src/supervision/timebase.cpp:17-25 | The event joins the sample and is handed on, and the fields stay what the sample records. |
| TimebaseSupervisor.Timebase.GetTimebase | src/supervision/timebase.cpp:27-45 | The base is always between 0.8 s and 120 s; it is renewed from the whole sample, and a new sample begun, exactly after 2 s. |
| StationSupervisor.MirrorChange | src/supervision/station.cpp:103-114 | A change of status keeps mirror, stations and delete queue in agreement: each deleted station queued once and still present. |
| StationSupervisor.Supervisor.OnDetectorStatus | src/supervision/station.cpp:103-114 | Mirror, queue and triggers follow the change; the station is looked up while it still has its entry. |
| StationSupervisor.Supervisor.ProcessLog | src/supervision/station.cpp:52-62 | A log creates and announces an unknown station, or makes a known one check itself, and leaves all others alone. |
| StationSupervisor.Supervisor.GetEvent | src/supervision/station.cpp:27-45 | An event is passed on exactly if its station is known, its accuracy is at most 1 us with a fix, and the station is reliable. |
| StationSupervisor.Supervisor.DeleteQueued | src/supervision/station.cpp:83-86 | Draining the queue removes exactly the deleted stations, after which the mirror shows exactly the stations and their statuses. |
| StationSupervisor.Supervisor.ProcessTick | src/supervision/station.cpp:64-86 | Every station is stepped once, the silent ones disappear, and the factor sent on is the largest of the reliable stations; it is bounded as long as no station has missed a step of its meters. |
| StationSupervisor.LargestBounded | src/supervision/station.cpp:67-81 | While no station has missed a step, the factor sent on is 1 or above 4 and at most 8. |
| StationSupervisor.LargestRemains | src/supervision/station.cpp:67-86 | Removing deleted stations does not change which factor is the largest. |
| Pipeline.Beat | src/supervision/station.cpp:64-86 | From the stations' tick through the timebase to the filter: while no station has missed a step, the filter's timeout ends between 800 ms and 960 s, and no station has missed a step afterwards. |
| Pipeline.Forward | src/supervision/timebase.cpp:27-45 | A bounded factor gives the filter a timeout in that range, whatever events were seen before; an infinite one leaves it undefined. |
| UpperMatrix.ComputePosition | include/analysis/uppermatrix.h:79-89 | The source's formula is the offset of the packed layout. |
| UpperMatrix.PairAt | include/analysis/uppermatrix.h:79-89 | Every offset below n(n-1)/2 is the position of a pair below n. |
| UpperMatrix.PositionBijective | include/analysis/uppermatrix.h:79-89 | Positions do not depend on the order of a pair or on n, and each pair below n has its own offset below n(n-1)/2. |
| UpperMatrix.PositionInjective | include/analysis/uppermatrix.h:79-89 | Two pairs never share an offset. |
| UpperMatrix.Matrix.Emplace | include/analysis/uppermatrix.h:120-126 | One cell is set, every other keeps its content. |
| UpperMatrix.Matrix.Increase | include/analysis/uppermatrix.h:153-158 | Growing moves no cell and adds a column of defaults. |
| UpperMatrix.SwappedColumn | include/analysis/uppermatrix.h:161-178 | After an exchange, column f read without its diagonal is the old last column. |
| UpperMatrix.LastColumnAfterSwap | include/analysis/uppermatrix.h:161-178 | The last column is then the old column f, except that one cell, that of the last two indices, stands in for that of f and the last. |
| UpperMatrix.Matrix.SwapLast | include/analysis/uppermatrix.h:161-178 | The in-place loops have the effect described cell by cell, and only permute the cells; on an empty matrix, where the last index wraps, it is said when they throw. |
| UpperMatrix.Matrix.RemoveIndex | include/analysis/uppermatrix.h:129-150 | Every cell of the result is given by one of the old ones, for every index. The bag of cells is that of the pairs avoiding the index; unless that is one of the last two, the pair of the last index and the removed one is in it in place of the pair of the last two. |
| UpperMatrix.RemovedByExchanges | include/analysis/uppermatrix.h:141-149 | Two exchanges with the last column around a cut have exactly that effect. |
| UpperMatrix.RemovalInOrderIff | include/analysis/uppermatrix.h:129-150 | Whatever the matrix holds, the remaining cells are left in order, if and only if the index is one of the last two. |
| UpperMatrix.RemovalButOneIff | include/analysis/uppermatrix.h:129-150 | They are left in order but for the cell of the last two, if and only if the index is one of the last three. |
| UpperMatrix.SmallestRemoval | include/analysis/uppermatrix.h:129-150 | Removing the first of three indices keeps the pair (2, 0) in place of (2, 1). |
| UpperMatrix.CutRightIff | include/analysis/uppermatrix.h:129-150 | The bag of cells left by a removal is the right one if and only if the cell of the last index and the removed one holds the same as that of the last two. |
| UpperMatrix.WithoutBag | include/analysis/uppermatrix.h:129-150 | All cells are those of one index together with those avoiding it. |
| UpperMatrix.Matrix.Iterate | include/analysis/uppermatrix.h:194-203 | The function is applied once to each cell of the index and to no other. |
| Histogram.IndexInRangeIff | include/analysis/histogram.h:111-128 | Every accepted value has a bin if and only if the number of bins divides the length of the interval. |
| Histogram.Histogram.Add | include/analysis/histogram.h:119-128 | After any sequence of calls, bin i counts exactly the accepted values of its interval since the last clear. |
| Histogram.Histogram.Integral | include/analysis/histogram.h:159-166 | The sum of the bins is the number of accepted values. |
| Histogram.Histogram.QualifiedBins | include/analysis/histogram.h:137-150 | The bins tile the interval from the lower to the upper bound without gaps, each with the number of accepted values between its bounds. |
| Histogram.Histogram.Clear | include/analysis/histogram.h:169-174 | Counting starts over. |
| StationCoincidence.StationCoincidence.AddStation | src/analysis/stationcoincidence.cpp:224-241 | The new station's cells carry its hash and that of their other station, with empty histograms; no other cell changes. |
| StationCoincidence.StationCoincidence.Lookup | src/analysis/stationcoincidence.cpp:50-58 | The index is that of the station with the hash, which is added if it was unknown. |
| StationCoincidence.StationCoincidence.Record | src/analysis/stationcoincidence.cpp:72-77 | The difference enters the histogram of the two stations; with one station twice the source throws exactly for the last one. |
| StationCoincidence.StationCoincidence.GetEvent | src/analysis/stationcoincidence.cpp:43-80 | The event adds exactly the stations of its hits and makes one entry for each pair of hits in the cell the pair is sent to; station list and cells stay aligned. It throws exactly if some pair is of one detector that is the last station known at that time, and then the pairs before have been entered. |
| PairAccounting.KnownThrowIff | src/analysis/stationcoincidence.cpp:72 | If all its stations are known, an event throws exactly if two of its hits are of the last one. |
| PairAccounting.TrailOnly | src/analysis/stationcoincidence.cpp:50-69 | An event brings no other stations than those of its hits. |
| PairLaws.GeneralLaw | src/analysis/stationcoincidence.cpp:43-80 | After any event, repeated detectors included, each histogram has its earlier entries, one for each pair of hits of its two stations, and in the first cell of a column one for each pair of hits of the station before. |
| PairLaws.AllRightIff | src/analysis/stationcoincidence.cpp:72-77 | An event that does not throw leaves exactly the entries of each cell's two stations if and only if the difference of any two hits of one station is rejected by the cell it goes to. |
| PairLaws.DistinctLaw | src/analysis/stationcoincidence.cpp:43-80 | An event that lists no detector twice makes exactly one entry for each pair of its stations, and no other. |
| PairLaws.DifferenceLaw | src/analysis/stationcoincidence.cpp:71-77 | With hits of two stations, whichever is listed first, exactly the bin that holds the time of the station with the smaller hash minus that of the other is raised by one. |
| PairLaws.NoDifferenceLaw | src/analysis/stationcoincidence.cpp:43-80 | The histogram of two stations that do not both have a hit stays. |
| PairAccounting.PairHist | src/analysis/stationcoincidence.cpp:234-237 | A new histogram is empty and covers a thousand bins to either side of zero. |
| PairAccounting.Wrap32 | src/analysis/stationcoincidence.cpp:74-76 | The cast keeps differences of 32 bits and wraps all others. |
| PairLaws.OrderIrrelevant | src/analysis/stationcoincidence.cpp:43-80 | Accounted for in any two orders of its hits, such an event leaves the same stations, and any two of them with the same histogram, if bin widths do not depend on the order of the stations. |
| PairLaws.StrayEntry | src/analysis/stationcoincidence.cpp:72-77 | With the stations 1 and 2, hits of station 1 at 0 and 10 ns around one of station 2 do not throw and leave a stray entry in the histogram of both. |
| StationCoincidence.StationCoincidence.Reset | src/analysis/stationcoincidence.cpp:214-222 | After a reset the cells belong to the given stations and are empty. |
| Geohash.FromCoordinates | include/utility/geohash.h:12-67 | The bisection loop spells the five-bit groups of the choices made for the point, up to twelve characters, and nothing outside the world. |
| Geohash.BoxSides | include/utility/geohash.h:35-57 | k choices halve the longitudes ceil(k/2) times and the latitudes floor(k/2) times. |
| Geohash.AlphabetIs | include/utility/geohash.h:10 | The 32 characters are the digits and the lower-case letters other than a, i, l and o. |
| Geohash.AlphabetAscends | include/utility/geohash.h:10 | They ascend, so that there is but one such alphabet. |
| Geohash.PathUnique | include/utility/geohash.h:35-57 | The choices made for a point are the only ones whose cell contains it. |
| Geohash.EncodedIffInCell | include/utility/geohash.h:12-67 | A geohash encodes exactly the points of its cell: encoding any point of the cell of a valid string gives that string back. |
| Geohash.EncodedLaw | include/utility/geohash.h:12-67 | The geohash of a point is valid, its cell contains the point and has the sides the halvings give, and shorter ones are prefixes of longer ones. |
| MessageFields.MessageConstructor.AddField | src/utility/utility.cpp:26-32 | The message stays the one built from all fields added so far. |
| MessageFields.MessageParser.constructor | src/utility/utility.cpp:39-73 | The fields are the maximal delimiter-free runs of the content, in order: each field is one, and each one is a field. |
| MessageFields.TokensSplit | src/utility/utility.cpp:39-73 | A delimiter splits a message into two that can be taken apart separately. |
| MessageFields.ParseBuilt | src/utility/utility.cpp:26-73 | Whatever the fields are, parsing the built message gives the parsed fields of each one in turn. |
| MessageFields.RoundTrip | src/utility/utility.cpp:26-89 | Parsing a built message returns its fields if and only if none is empty or holds a delimiter. |
| MessageFields.Reparse | src/utility/utility.cpp:26-89 | Rebuilding a parsed message and parsing it again changes nothing. |
| Collectors.Source.Process | include/source/mqtt.h:364-410 | The message, if it passes the topic filter, is handled in place on the buffer of collectors: added, put, dropped or started anew as the flags say. |
| Collectors.ReceivedLaw | include/source/mqtt.h:364-375 | A message is taken exactly if its topic has four parts and its content two fields and it is not from the cluster; name and site of its user are the third part and the others, and its key is the hash of both. |
| Collectors.Source.FindUser | include/source/mqtt.h:394-400 | The loop over the topic gives the user whose hash is the key. |
| Collectors.SameUser | include/source/mqtt.h:343-355 | Two topics name the same user exactly if they agree from the third part on. |
| Collectors.SameKeyIff | include/messages/userinfo.h:16-22 | Without a collision of the hash, two users share a key if and only if they differ at most in where the name ends and the site begins. |
| Collectors.DifferentUsersOneKey | include/messages/userinfo.h:16-22 | The stations a/bc and ab/c are different and share a key. |
| Collectors.Independent | include/source/mqtt.h:364-410 | However the messages of different keys are mixed, each key gets the puts and the open collector it would get from its own messages alone. |
| LocationCollector.OpenLaw | include/source/mqtt.h:119-160 | A new collector keeps its first line unless its value cannot be read, and is never complete with it. |
| LocationCollector.AddLaw | include/source/mqtt.h:119-160 | A collector in time keeps the latest value of each field, and finishes exactly with the line that makes all six fields present. |
| LocationCollector.RecordLaw | include/source/mqtt.h:119-160 | The record of a complete group has the user of its first line, under each quantity the last value that can be read under its name, and the last length of geohashes given or else the configured one. |
| LocationCollector.TraceSound | include/source/mqtt.h:119-160 | Each group of lines lies within 5 s, is complete with its last line at the earliest, and ends for one of three reasons only: complete, unreadable first line, or a next line that came too late. |
| LocationCollector.TraceCovers | include/source/mqtt.h:364-410 | Each line of a key is in exactly one group, in order. |
| LocationCollector.LocationLaw | include/source/mqtt.h:364-410 | In any run, whatever is sent under other keys, a record is put exactly for each complete group of lines of a key, with the latest values of that group. |
| LocationCollector.CompleteGroupIsPut | include/source/mqtt.h:364-410 | A key without open collector under which come all six fields in time gets its record put by the first line that completes them. |
| LocationCollector.Collector.Take | include/source/mqtt.h:119-160 | The object filled in place, with its status bits, does what the laws are about. |
| LogCollector.StationLaw | include/source/mqtt.h:364-410 | The reports put for a key and its open report are those of its groups of accepted lines, each within 5 s, with the user and the log id of its first line. |
| LogCollector.ItemLaw | include/source/mqtt.h:255-327 | What is kept of a line is its name and a value of the kind its name calls for, truncated to its width; only numbers keep the unit, and an unknown line is kept whole. |
| LogCollector.LogLaw | include/source/mqtt.h:364-410 | In any run, whatever is sent under other keys, the reports put for a key and the open one hold exactly the items of its accepted lines, none lost or repeated, in order. |
| LogCollector.ReportsApart | include/source/mqtt.h:243-253 | With a clock that does not run backwards, the reports of a key begin more than 5 s apart. |
| LogCollector.Collector.Take | include/source/mqtt.h:243-328 | The object filled in place does what the laws are about. |

## Left out

- ClusterState.State.IncreaseEventCount: the rates of incoming and outgoing events for the cluster log are not modelled.
- DetectorStation.Detector.ProcessEvent: the series of pulse lengths, the time accuracies for summaries and the module's own counter with its wrap-around are not modelled; they only feed reports.
- StationSupervisor.Supervisor.OnDetectorStatus: the summary put for a station that is not deleted is not modelled.
- StationSupervisor.Supervisor.GetEvent: the source writes the station's user and location into an event that it passes on; the model passes the event as it is.
- StationSupervisor: stations are kept as values in the supervisor's map. That the objects behave like these values is shown in `DetectorStation`; what is not shown is that distinct entries of the map never share an object.
- Collectors: collectors are kept as values in the buffer, as the source's map holds them. That the objects behave like these values is shown by the two `Take` methods.
- Collectors.Source.Process: a content of two fields whose value is read reaches past the end of the fields in the source; the model reads an empty field. Numbers that are out of range, for which the conversion throws and the message is abandoned, count as not readable.
- LocationCollector: values not yet seen are absent rather than zero; they are never put.
- StationCoincidence.StationCoincidence.GetEvent: the station found for a hash is taken to have that hash. The source adds an empty station if the supervisor no longer knows it.
- StationCoincidence.StationCoincidence.AddStation: the bin width of a pair is any function of the two stations with values from 1 to 100; the distance on the ellipsoid is not modelled.
- CoincidenceFilter.Filter.MergeContested: an access past the end of the list has no defined effect; the model only says when it happens.
- DataSeries: cached values are fields of the series with their markers instead of objects of their own; the sample variance, which nothing uses, is not modelled.
- Events: user, location and quality fields of a hit are one opaque text.
- Rounding of floating-point numbers: quantities are reals.
- Overflow of 64-bit times, except in the timebase where it is reached, and of counters.
- Detector and cluster summaries, and the periodic reset of counters: they only feed reports.
- Uptime of pairs and their `online` counter, which starts at 2 whatever the status is; writing histograms to files.
- Events of level one assembled from several messages.
- The other coincidence criterion and the coordinate transformations.
- Threads, locks and wake-ups; database, broker, directory and web interfaces; configuration; logging.
