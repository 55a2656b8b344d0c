# PTP daemon: a verified model of its protocol state machines

The daemon keeps time over wired gPTP (IEEE 802.1AS-2020), standard PTP (IEEE 1588-2019)
and Wi-Fi. Its protocol logic sits in small header files that several tasks drive under
one lock. This project models that logic in Dafny and proves what it guarantees over
every input, every interleaving and every run.

Code that changes a structure in place is a class whose methods are proved equal to a
function on the structure's value (`Value()`); code that only computes is a function. The
guarantees are lemmas about those functions. A critical section is one atomic step.

| module | models |
|---|---|
| `PeerExchange`, `PeerRate`, `PeerPort` | the peer-delay exchange, rate ratio and delay, the wired port |
| `PeerRuns` | every interleaving of timer, daemon and link events on the wired port, with a log |
| `PeerLosses`, `PeerCapable`, `PeerRateRuns`, `PeerOrder`, `PeerLink` | what follows for requests and their losses, asCapable, the rate estimate, the order of publication, and the link that is measured |
| `WifiPorts`, `WifiPeer`, `WifiPeers`, `WifiRuns` | the association registry: logical ports, one entry, join, leave and radio reports, and runs of all of it |
| `CapableSchedule`, `CapableReceive`, `AnnounceSchedule` | the transmit schedules and the receipt timer, alone and together |
| `Clock`, `ClockPace`, `WiredPi` | the affine software clock and its disciplining step, when it keeps its pace, the PI controller of the wired clock |
| `ScaledNs`, `TimeBase` | the phase change codec and the publication of time base changes |
| `BestClock`, `PathTrace`, `Relay` | the best-clock comparison and selection, path traces along relay chains, and the two together |
| `Signaling`, `Wire`, `Tlvs` | Signaling readers and writers, wire normalization and length bound, item chains |
| `Arith`, `Bytes` | C arithmetic and byte strings |

Main results:

- Over every interleaving, a generation yields at most one measurement, made of its own
  request's T1, response and Follow_Up in time (`PeerRuns.MeasurementsAreGenuine`), and
  always the same one in whatever order they interleave, among any steps that do not
  concern them (`PeerOrder.AnyOrderMeasures`, `PeerOrder.OrderIsIrrelevant`).
- asCapable holds if and only if the last commit qualified the port less than three
  intervals ago with nothing to spoil it since (`PeerCapable.AsCapableExactly`), at a rate
  measured with that responder (`PeerRateRuns.AsCapableIsMeasured`); over a link of constant
  delay the port knows the true rate and delay from the second exchange on
  (`PeerLink.LinkIsMeasured`).
- Every request sent is completed, counted as lost, dropped by a clock step or link change,
  or replaced before its deadline (`PeerLosses.EveryRequestIsAccounted`); the lost-response
  fallback fires exactly after nine uninterrupted losses
  (`PeerRuns.FallbackNeedsNineLosses`).
- Every capability indication is followed by eight more before its receipt timeout,
  whatever rate requests arrive (`CapableReceive.EightMoreBeforeTimeout`).
- A newer radio report leaves exactly the reported stations
  (`WifiPeers.NewerReportIsExact`); stale work can never act on a later lifetime
  (`WifiRuns.StaleWorkIsDead`).
- Software time never runs backward (`Clock.SpeedIsBounded`) and keeps within a tenth of
  local time over exactly the spans `ClockPace.PaceIsExact` names; disciplining settles
  without overshoot, linearly beyond the clamp and geometrically inside it
  (`Clock.SettlesInTwoPhases`).
- A published time base change tells stations exactly the jumps since the last steady
  relay or change, and every jump is accounted for once (`TimeBase.ChangeReportsJumps`,
  `TimeBase.EveryJumpOnce`).
- The clock comparison is one total order, the selection its minimum
  (`BestClock.BetterIsLexicographic`, `BestClock.SelectionIsBest`), and what is retained is
  the last word of its port (`BestClock.RetainedIsLastHeard`). An Announce passes a chain of
  relays exactly when no clock repeats and at most sixteen are on it
  (`PathTrace.ChainIsLoopFree`), and a clock that selects it extends that chain
  (`Relay.SelectionExtendsChain`).

Properties that turned out false of the code, with the exact condition:

- A clock that becomes the best one takes an indicator "other than the one relayed last"
  (comment at ptp.c:2359-2363). The code adds one to the indicator last *heard*, which may
  never have been relayed, so stations can see no change
  (`TimeBase.OwnMayGoUnnoticed`); they see it if and only if the indicator heard last is
  not one below the one published last (`TimeBase.StationsNoticeOwn`).
- Between two instants inside one affine segment the clock can advance less than nine
  tenths of the span or more than eleven tenths, because each reading is truncated
  (`ClockPace.SingleNanosecond` gives an input for either side). For every start in the
  segment, and every run that follows, the bounds hold if and only if ten times the
  rounded-up correction of the first span is no more than that span
  (`ClockPace.PaceIsExact`); at the rates a discipline leaves, exactly from 10 ns on
  (`ClockPace.PacedWhenDisciplined`).
- A better source that is retained but not valid, because the daemon has not checked it
  yet or it timed out, is displaced by any candidate. The better of the two stays if and
  only if the selection is valid or the candidate is the better one
  (`BestClock.KeepsBestExactly`); over a run in which nothing validates the selection,
  exactly the last candidate is left (`BestClock.UncheckedKeepsLast`), so it is the best
  if and only if that one is (`BestClock.UncheckedIsBestExactly`).

Modelling decisions:

- The 32-bit generation, association, revision and serial counters are modelled with
  their wrap past zero; theorems about runs bound the number of steps so that they do not
  wrap within the run. Radio report numbers keep their serial-number comparison.
- `real` stands for the floating-point ratio, correction and delay. Integer division
  truncates toward zero, as in C (`Arith.TruncDiv`).
- Clock readings, radio reports, received messages, success of `settime` and of
  transmissions, and build options are parameters.

## Model

| member | source | states |
|---|---|---|
| `PeerExchange.PeerExchanger.InvalidateLink` | ptp_peer_exchange.h:40-47 | a link change starts a new lifecycle and generation and forgets everything else |
| `PeerExchange.PeerExchanger.ExpireRequest` | ptp_peer_exchange.h:50-59 | counts a published request without a measurement once, after its deadline, response or not, up to the cap |
| `PeerExchange.PeerExchanger.AbandonRequest` | ptp_peer_exchange.h:61-76 | a clock step drops the request, its replies and the latched conflict; lifecycle and losses stay |
| `PeerExchange.PeerExchanger.BeginRequest` | ptp_peer_exchange.h:78-88 | forgets the last request like a clock step does, opens a new generation with its sequence, requester and deadline, and returns it |
| `PeerExchange.PeerExchanger.PublishTransmit` | ptp_peer_exchange.h:90-101 | stores T1 exactly for the generation still sending, in time and with a valid time |
| `PeerExchange.PeerExchanger.CancelRequest` | ptp_peer_exchange.h:103-108 | closes only the generation named |
| `PeerExchange.PeerExchanger.AdmitResponse` | ptp_peer_exchange.h:129-169 | the admission verdict and the new state: own, second and duplicate replies latch the conflict |
| `PeerExchange.PeerExchanger.FinishExchange` | ptp_peer_exchange.h:171-219 | measures, retains an early Follow_Up, latches a conflict or rejects, with the new state of each |
| `PeerExchange.PeerExchanger.TakeFollowUp` | ptp_peer_exchange.h:221-232 | hands out the retained Follow_Up once, only when it can complete in time |
| `PeerExchange.TakesWhatCompletes` | ptp_peer_exchange.h:221-232 | a retained Follow_Up is taken exactly when replaying it now completes the exchange |
| `PeerExchange.StampsExactly` | ptp_peer_exchange.h:90-115 | time stamps count with any number of nanoseconds below a second |
| `PeerExchange.PublicationOrderIsIrrelevant` | ptp_peer_exchange.h:78-232 | T1 published before the response, between, or after both via the retained Follow_Up: same measurement, same end state |
| `PeerOrder.RequestBegins` | ptp.c:2693-2743 | every request begun on an idle port, with a sensible reply to come, is a start of such a run |
| `PeerOrder.AnyOrderMeasures` | ptp.c:4627-4634 | a run with the transmission, and the response before its Follow_Up, among any harmless steps, measures exactly T1, response and Follow_Up, at once or when the retained Follow_Up is replayed |
| `PeerOrder.OrderIsIrrelevant` | ptp.c:3879-3900 | two such runs that have measured agree on the measurement and the exchange left |
| `PeerOrder.StageIsContent` | ptp_peer_exchange.h:78-232 | how far the exchange is depends only on which of its steps the run contains |
| `PeerRate.RateEstimator.Restart` | ptp_peer_rate.h:50-54 | a new lifecycle or responder starts the estimate over |
| `PeerRate.RateEstimator.AddSample` | ptp_peer_rate.h:45-87 | the estimate after a sample and whether its ratio may be used |
| `PeerRate.UpdatedExactly` | ptp_peer_rate.h:45-87 | what a sample does to any estimate, by the times and ratios themselves |
| `PeerRate.SoundExactly` | ptp_peer_rate.h:35-43 | an interval is sound from 10 ms to 10 s |
| `PeerRate.NanosecondsOrder` | ptp_peer_rate.h:35-43 | times compare by seconds, then nanoseconds, and add up |
| `PeerRate.TwoExchangesAreExact` | ptp_peer_rate.h:35-100 | two sound exchanges with any affine remote clock over a constant symmetric delay give the true ratio and the true delay |
| `PeerRate.RatioIsRho` | ptp_peer_rate.h:45-87 | the measured ratio is the remote clock's rate |
| `PeerRate.DelayIsExact` | ptp_peer_rate.h:89-100 | the delay formula recovers the delay at the true ratio |
| `PeerRate.RunRemembers` | ptp_peer_rate.h:45-87 | in every run a valid estimate is justified by a measured interval of the same neighbor and its outlier count |
| `PeerRate.UsableRateWasMeasured` | ptp_peer_rate.h:45-87 | a usable ratio is in range, was measured with the same responder and lifecycle, and outlived at most three failed intervals, re-anchors included |
| `PeerPort.WiredPort.ProcessResponse` | ptp.c:3779-3784 | the exchange admits the reply, and a latched conflict withdraws the qualification in the same section |
| `PeerPort.WiredPort.FinishFollowUp` | ptp.c:3879-3900 | the exchange finishes only for the expected generation, a conflict withdraws the qualification, and the rate copied is the one of that section |
| `PeerPort.WiredPort.Evaluate` | ptp.c:3918-3940 | the copied estimate takes the sample; the delay counts only at a usable rate and in range, rounded to nanoseconds |
| `PeerPort.WiredPort.CommitMeasurement` | ptp.c:3902-3969 | the port after the commit: nothing for an implausible, superseded or conflicting measurement, else rate, average and qualification |
| `PeerPort.PlausibleExactly` | ptp.c:3902-3917 | plausible exactly when round trip and turnaround take from nothing to a second |
| `PeerPort.ConformingExactly` | ptp.c:3959-3967 | conforming exactly for gPTP Pdelay_Resp and Follow_Up with reserved field zero from another clock |
| `PeerLink.LinkIsMeasured` | ptp.c:3902-3969 | over a constant symmetric link, from the second exchange with a new neighbor on: the true rate, the rounded true delay, and a qualification exactly for at most 800 ns |
| `PeerLink.RunCommitsPasses` | ptp.c:3940-3969 | every commit of a run is such a pass |
| `PeerLink.AverageMoves` | ptp.c:3952-3958 | the average moves toward the measured delay by one part in as many as averaged |
| `PeerPort.WiredPort.CleanAfterStep` | ptp.c:3444-3448 | the exchange abandons its request and the rate asks for a re-anchor, nothing else changes |
| `PeerRuns.RunKeeps` | ptp.c:2693-2743 | the invariant tying exchange, tasks, capability and losses to the log holds over every interleaving |
| `PeerRuns.MeasurementsAreGenuine` | ptp.c:3879-3900 | at most one request, one measurement and one loss per generation, never both of the last; a measurement's parts belong to one generation, one responder and its deadline, with valid time stamps |
| `PeerRuns.AsCapableIsEarned` | ptp.c:4311-4326 | asCapable implies a qualifying commit in this lifecycle less than three intervals ago, with exactly one reply admitted by then and no fault or link change since |
| `PeerCapable.AsCapableExactly` | ptp_peer_capability.h:12-21 | asCapable if and only if the last commit qualified the port less than three intervals ago, with neither conflict nor link change since |
| `PeerCapable.OtherwiseNotCapable` | ptp_peer_capability.h:12-21 | not when disabled, without link or gPTP, or in another domain without a capable neighbor |
| `PeerRateRuns.RunRates` | ptp.c:3902-3969 | in every run the port's estimate is that of the samples committed, in order, with the clock steps between them |
| `PeerRateRuns.AsCapableIsMeasured` | ptp.c:4311-4326 | besides, the rate behind the qualifying delay was measured between two consecutive commits with that responder in that lifecycle, with at most three failed intervals since |
| `PeerRuns.LinkChangeWithdraws` | ptp.c:872-890 | after a link change asCapable is false, whatever is in flight |
| `PeerRuns.CommitExtendsLiveRate` | ptp.c:3940-3969 | a commit never overwrites a re-anchor requested between its two critical sections |
| `PeerRuns.FallbackNeedsNineLosses` | ptp.c:2829-2861 | the fallback fires if and only if nine distinct published requests each passed their deadline with no completion, link change or re-arm since |
| `PeerLosses.EveryRequestIsAccounted` | ptp.c:2693-2743 | over every interleaving each request sent is the current one, completed, lost, dropped by a clock step or link change, or replaced before its deadline |
| `PeerLosses.OverdueIsLost` | ptp_peer_exchange.h:50-59 | a request past its deadline without a measurement is counted whenever the daemon looks, and before a new request replaces it |
| `PeerPort.FallbackExactly` | ptp.c:2793-2877 | when each reason to leave gPTP applies |
| `PeerRuns.ClockStepKeepsLosses` | ptp_peer_exchange.h:61-76 | a clock step neither adds nor forgets losses |
| `CapableSchedule.CapableTransmit.RequestRate` | ptp_capable_schedule.h:14-25 | a supported request replaces the interval and retires the outstanding token |
| `CapableSchedule.CapableTransmit.Poll` | ptp_capable_schedule.h:28-56 | issues a token exactly when due and advances the grid, or re-anchors it |
| `CapableSchedule.CapableTransmit.Complete` | ptp_capable_schedule.h:59-72 | honours the outstanding token in time, counts the slow-down and re-anchors when the period changes |
| `CapableSchedule.PollExactly` | ptp_capable_schedule.h:28-56 | a poll issues if and only if nothing younger than a second is outstanding and the deadline has come or there is none |
| `CapableSchedule.IssuedExactly` | ptp_capable_schedule.h:28-56 | the next serial and sequence number, and a next deadline ahead, on the grid unless a period was missed |
| `CapableSchedule.CompletedExactly` | ptp_capable_schedule.h:59-72 | only the outstanding token within its second counts, and only the last of a slow-down re-anchors |
| `CapableSchedule.RequestRestarts` | ptp_capable_schedule.h:14-25 | a changed interval withdraws the token and the next poll issues at once |
| `CapableSchedule.OtherRequestsActAtOnce` | ptp_capable_interval.h:29-42 | faster, restart and stop act at once; 126 is one second, too fast is eight a second |
| `CapableSchedule.SupportedExactly` | ptp_capable_interval.h:29-42 | 2^-24 to 2^24 seconds and the three special requests are served |
| `CapableSchedule.NumbersCountTokens` | ptp_capable_schedule.h:28-56 | serial and sequence numbers count the tokens |
| `CapableSchedule.DeadlinesFit` | ptp_capable_schedule.h:28-72 | no deadline leaves the 64-bit clock |
| `CapableSchedule.StepKeepsValid` | ptp_capable_interval.h:19-50 | the period in force never exceeds the advertised one; only a restart lengthens it at once |
| `CapableSchedule.SlowdownIsCounted` | ptp_capable_interval.h:29-50 | the longer period takes effect exactly at the ninth accepted, timely completion |
| `CapableSchedule.SlowdownFromRequest` | ptp_capable_interval.h:29-50 | after a slow-down request the old period holds for exactly eight accepted completions |
| `CapableSchedule.HonouredOnce` | ptp_capable_schedule.h:28-72 | tokens are honoured in increasing order, each at most once |
| `CapableSchedule.NeverEarly` | ptp_capable_schedule.h:28-72 | the k-th token is at least k starting periods after the first, across the re-anchor too |
| `CapableSchedule.StaysOnGrid` | ptp_capable_schedule.h:28-72 | with prompt polls and a constant period deadlines stay on the original grid |
| `CapableSchedule.WakesAtDeadline` | ptp_capable_schedule.h:75-85 | waiting as told ends at or after the deadline and less than a millisecond past it, unless the maximum comes first |
| `CapableSchedule.WaitExactly` | ptp_capable_schedule.h:75-85 | the wait in every case: to the deadline, none, 10 ms while a token is outstanding, or the maximum |
| `CapableReceive.CapableReceipt.Receive` | ptp_capable_receive.h:12-29 | accepts exactly messages of the neighbor with a sound interval and room in time; otherwise changes nothing |
| `CapableReceive.AdmittedExactly` | ptp_capable_receive.h:12-29 | the neighbor's own messages, a sound interval, and an expiry within 64 bits |
| `CapableReceive.HoldsForNinePeriods` | ptp_capable_receive.h:31-37 | the neighbor is capable for exactly nine periods from the receipt, in that lifecycle, and nobody else is |
| `CapableReceive.HoldsForNineIntervals` | ptp_capable_receive.h:12-37 | the same for every interval a message can advertise |
| `CapableReceive.WindowIsNinePeriods` | ptp_capable_receive.h:12-29 | the receipt window is nine periods of the sender's schedule |
| `CapableReceive.EightMoreBeforeTimeout` | ptp_capable_receive.h:12-37 | sender and receiver together: eight more transmissions strictly before the receipt timeout, for every punctual run of polls, completions and requests |
| `AnnounceSchedule.AnnounceTransmit.Retire` | ptp_announce_schedule.h:16-24 | resets the schedule but keeps revision and serial moving |
| `AnnounceSchedule.AnnounceTransmit.RequestRate` | ptp_announce_schedule.h:51-70 | an accepted request revises the schedule; others change nothing but the initialization |
| `AnnounceSchedule.AnnounceTransmit.Poll` | ptp_announce_schedule.h:72-100 | issues a token exactly when due under the expected revision |
| `AnnounceSchedule.AnnounceTransmit.Complete` | ptp_announce_schedule.h:103-116 | honours the outstanding token in time and counts the slow-down |
| `AnnounceSchedule.PeriodExactly` | ptp_announce_schedule.h:26-32 | 2^log seconds rounded up to microseconds |
| `AnnounceSchedule.PollExactly` | ptp_announce_schedule.h:72-100 | a poll under the current revision issues if and only if there is new information, or it is due with nothing recent outstanding |
| `AnnounceSchedule.IssuedExactly` | ptp_announce_schedule.h:72-100 | the next serial and sequence number, and a next deadline ahead, on the grid unless a period was missed or the information is new |
| `AnnounceSchedule.CompletedExactly` | ptp_announce_schedule.h:103-116 | only the outstanding token within its second counts, and only the last of a slow-down re-anchors |
| `AnnounceSchedule.RequestRestarts` | ptp_announce_schedule.h:51-70 | a changed interval withdraws the token under a new revision and the next poll issues at once |
| `AnnounceSchedule.OtherRequestsActAtOnce` | ptp_announce_schedule.h:51-70 | faster, restart and stop act at once, never faster than configured |
| `AnnounceSchedule.SupportedExactly` | ptp_announce_schedule.h:51-58 | 2^-24 to 2^24 seconds and the three special requests are served |
| `AnnounceSchedule.RetiredExactly` | ptp_announce_schedule.h:16-24 | everything is forgotten but the numbers |
| `AnnounceSchedule.NumbersCountTokens` | ptp_announce_schedule.h:72-100 | serial and sequence numbers count the tokens, across revisions |
| `AnnounceSchedule.DeadlinesFit` | ptp_announce_schedule.h:72-116 | no deadline leaves the 64-bit clock |
| `AnnounceSchedule.StepKeepsValid` | ptp_announce_schedule.h:43-70 | every step keeps the schedule well formed |
| `AnnounceSchedule.RunSucceeds` | ptp_announce_schedule.h:16-116 | revisions and serials only grow, an equal revision means an equal interval, an old token is outstanding only under its own revision |
| `AnnounceSchedule.SlowdownIsCounted` | ptp_announce_schedule.h:51-116 | the longer period takes effect exactly at the third accepted, timely completion |
| `AnnounceSchedule.SlowdownFromRequest` | ptp_announce_schedule.h:51-116 | after a slow-down request the old period holds for exactly two accepted completions |
| `AnnounceSchedule.HonouredOnce` | ptp_announce_schedule.h:72-116 | each token is honoured at most once, across revisions |
| `AnnounceSchedule.NeverEarly` | ptp_announce_schedule.h:72-116 | the k-th further Announce is at least k+1 starting periods after the first |
| `AnnounceSchedule.StaysOnGrid` | ptp_announce_schedule.h:72-116 | with prompt polls and a constant period deadlines stay on the grid |
| `WifiPorts.PortNumbersAreDistinct` | ptp_wifi_association.h:22-31 | port numbers are non-zero exactly for slots there are, fit 16 bits and differ for every slot of every physical port |
| `WifiPeer.ApplyKeepsLifetime` | ptp_wifi_peers.h:90-151 | no message or completion changes whose entry it is |
| `WifiPeer.OnlyNeighborIsHeeded` | ptp_wifi_peers.h:113-142 | requests from anyone but the bound neighbor change nothing; the neighbor's change the one schedule they are for |
| `WifiPeer.CapabilityBinds` | ptp_wifi_peers.h:90-110 | what a capability message leaves: the sender bound for nine intervals, another neighbor's schedules retired, the same one's untouched |
| `WifiPeer.NeighborIsLastSender` | ptp_wifi_peers.h:90-110 | over every run the neighbor is the sender of the last admissible capability message |
| `WifiPeer.SyncServed` | ptp_sync_interval.h:12-28 | the Sync requests that are served |
| `WifiPeer.StationExactly` | ptp_wifi_peers.h:62-67 | a station address has its group bit clear and a byte that is not zero |
| `WifiPeers.AssociationRegistry.FindSlot` | ptp_wifi_peers.h:45-53 | the slot holding the address, or none |
| `WifiPeers.AssociationRegistry.ClearAll` | ptp_wifi_peers.h:55-59 | every slot vacant, in a new generation |
| `WifiPeers.AssociationRegistry.JoinStation` | ptp_wifi_peers.h:62-78 | a station takes its old slot or the first free one with a fresh association; refused exactly for a bad address or a full registry |
| `WifiPeers.AssociationRegistry.LeaveStation` | ptp_wifi_peers.h:80-87 | the station's slot is vacated in a new generation |
| `WifiPeers.AssociationRegistry.Dispatch` | ptp_wifi_peers.h:90-151 | an operation reaches only the entry of that address and association |
| `WifiPeers.AssociationRegistry.CopySnapshot` | ptp_wifi_peers.h:154-179 | the snapshot of the associated slots, with the radio report only while it is current |
| `WifiPeers.AssociationRegistry.CheckReport` | ptp_wifi_peers.h:182-192 | a report is sound exactly when it names distinct stations |
| `WifiPeers.AssociationRegistry.ReconcileReport` | ptp_wifi_peers.h:182-226 | the registry after a report and whether the report stands |
| `WifiPeers.JoinIsValid` | ptp_wifi_peers.h:62-78 | a join keeps addresses and associations distinct |
| `WifiPeers.JoinsExactly` | ptp_wifi_peers.h:62-78 | who can join, which slot it gets, and that nothing else changes |
| `WifiPeers.LeavesExactly` | ptp_wifi_peers.h:55-87 | a leave frees the station's slot only, a clear all of them |
| `WifiPeers.WellFormedExactly` | ptp_wifi_peers.h:185-192 | a report names at most sixteen distinct unicast addresses |
| `WifiPeers.ReportOrder` | ptp_wifi_peers.h:193-210 | for half the range ahead a report of the same boot is accepted, for half behind it is refused and changes nothing, another boot is always accepted |
| `WifiPeers.SnapshotExactly` | ptp_wifi_peers.h:154-179 | when there is a snapshot, and when it carries the radio's report |
| `WifiPeers.RoomForReported` | ptp_wifi_peers.h:182-226 | a reported station not yet registered always finds a slot |
| `WifiPeers.NewerReportIsExact` | ptp_wifi_peers.h:182-226 | a newer report leaves exactly its stations, keeps survivors in their slots and makes every association fresh |
| `WifiPeers.RepeatedReport` | ptp_wifi_peers.h:182-226 | a repetition changes nothing and stands if and only if it names the same stations |
| `WifiPeers.ConfirmsSameStations` | ptp_wifi_peers.h:196-209 | the inclusion and count test is set equality |
| `WifiPeers.RefusedReport` | ptp_wifi_peers.h:185-210 | a refused report changes nothing; a repetition after a host event is refused, as is any number ReportOrder places behind |
| `WifiRuns.RunDescends` | ptp_wifi_peers.h:39-226 | every reachable registry is valid and each slot descends from its earlier occupant |
| `WifiRuns.StaleWorkIsDead` | ptp.c:780-816 | work from an old snapshot neither starts nor completes an Announce once its association or revision has changed, after any further events |
| `WifiRuns.SnapshotIsFaithful` | ptp_wifi_peers.h:154-179 | a snapshot names exactly the associated slots, with distinct ports, addresses and associations |
| `WifiRuns.EntryReachesSlot` | ptp_wifi_peers.h:154-179 | work for a snapshot entry reaches the station's own slot and finds what the entry says |
| `WifiRuns.SnapshotWorkStarts` | ptp.c:780-798 | a poll from a snapshot is admitted while nothing changed, exactly when the registry may publish |
| `WifiRuns.HostWaitsForReport` | ptp_wifi_peers.h:28-37 | under a host a report that stands makes the registry publishable, and a join, leave or clear takes that back |
| `WifiRuns.NothingUnpublished` | ptp.c:780-816 | an Announce neither begins nor completes while the registry may not publish |
| `WifiRuns.SlotPollsExactly` | ptp.c:2897-2936 | a capability poll issues only for a station that is there on a publishable registry, and stops the slot otherwise |
| `WifiRuns.EveryRegistryIsSound` | ptp_wifi_peers.h:28-226 | from the empty registry, after any events: stations distinct, unicast and non-zero, associations and port numbers distinct and non-zero |
| `Arith.SplitQuotient` | ptp_clock_affine.h:17-22 | splitting a scaled quotient into whole and remainder is exact |
| `Clock.SoftClock.Reanchor` | ptp_clock_affine.h:31-36 | moves the anchor onto the present time |
| `Clock.ReanchorShifts` | ptp_clock_affine.h:31-36 | the clock is shifted by the offset, exactly then and within a nanosecond ever after |
| `Clock.SoftClock.AdjustRate` | ptp_clock_affine.h:38-47 | compounds and clamps the rate from a new anchor |
| `Clock.AdjustmentCompounds` | ptp_clock_affine.h:38-47 | the new speed is the old one times one plus the adjustment, within a part per billion, up to the limit; positive speeds up, negative slows down |
| `Clock.SoftClock.Discipline` | ptp_clock_affine.h:49-66 | steps, or slews with the clamped phase error added to the rate, and reports the error |
| `Clock.CorrectionIsExact` | ptp_clock_affine.h:17-22 | the split product is the truncated delta times rate over 10^9 |
| `Clock.CorrectionFits` | ptp_clock_affine.h:17-22 | no intermediate leaves 64 bits |
| `Clock.SpeedIsBounded` | ptp_clock_affine.h:17-66 | over every run time never goes backward and advances 9/10 to 11/10 of local time, exactly from an anchor and within 1 ns from any instant |
| `ClockPace.PaceIsExact` | ptp_clock_affine.h:17-66 | for every start in a segment and every run from it, the bounds hold without allowance if and only if ten times the rounded-up correction of the first span is at most the span |
| `ClockPace.PacedWhenDisciplined` | ptp_clock_affine.h:49-66 | at every non-zero rate a discipline leaves, exactly the spans of 10 ns or more qualify, and the empty one |
| `ClockPace.DisciplinedKeepsPace` | ptp_clock_affine.h:49-66 | after any slew every run that begins with 10 ns undisturbed keeps the bounds |
| `ClockPace.SingleNanosecond` | ptp_clock_affine.h:17-29 | inputs that break either bound: a slow clock stands still over a nanosecond, a fast one leaps two |
| `Clock.SameAnchorIsOnLine` | ptp_clock_affine.h:49-66 | targets from one reference anchor lie on a line of its rate |
| `Clock.OneStep` | ptp_clock_affine.h:49-66 | a step removes the clamped error times the elapsed fraction of a second, within 2 ns |
| `Clock.NoOvershoot` | ptp_clock_affine.h:49-66 | the next error lies between zero and the last, less than 2 ns outside |
| `Clock.Shrinks` | ptp_clock_affine.h:49-66 | the magnitude of the error shrinks by the clamped slew, within 2 ns |
| `Clock.Settles` | ptp_clock_sw.c:124-141 | repeated steps stay below the envelope in which each takes the clamped slew of the elapsed time off the error |
| `Clock.SettlesInTwoPhases` | ptp_clock_affine.h:49-66 | in closed form: linear by the clamped slew beyond the clamp, a geometric decay toward the resting error inside |
| `Clock.EnvelopeIsLinear` | ptp_clock_affine.h:49-66 | beyond the clamp the envelope falls by the same slew each step and never returns |
| `Clock.EnvelopeIsGeometric` | ptp_clock_affine.h:49-66 | inside the clamp the envelope is exactly a geometric decay |
| `WiredPi.WiredServo.Gains` | ptp_wired_pi.h:15-26 | the split increment is the exact truncated quotient |
| `WiredPi.WiredServo.PiStep` | ptp_wired_pi.h:8-38 | the integral and the output of one step |
| `WiredPi.StepExactly` | ptp_wired_pi.h:15-37 | gain 4 up to a quarter second and offset over interval beyond, the increment, the freezing condition on the target it would make, and the output, by their arithmetic |
| `WiredPi.OutOfRange` | ptp_wired_pi.h:11-14 | beyond the ranges a step does what it does at their ends |
| `WiredPi.OutputFollowsOffset` | ptp_wired_pi.h:8-38 | the output pushes to the side of the offset |
| `WiredPi.WiredServo.LockFrequency` | ptp.c:3346-3383 | a failed adjustment restores the integral |
| `WiredPi.ObservationsCount` | ptp.c:3372-3383 | a refused adjustment leaves the servo as it was, an accepted one puts the output in force |
| `WiredPi.StepResumesTrim` | ptp.c:3444-3456 | after a clock step the next output without an offset is the trim in force |
| `WiredPi.StaysBounded` | ptp_wired_pi.h:8-38 | over every run the integral stays within 512000 * 2^16 and the trim within 512000 |
| `WiredPi.FrozenOrExact` | ptp_wired_pi.h:8-38 | the integral stays exactly when the candidate target saturates on the side of the offset or the candidate equals it, else moves by the exact truncated quotient up to its limit |
| `WiredPi.NoOverflow` | ptp_wired_pi.h:8-38 | no intermediate leaves 64 bits for any 64-bit offset and interval |
| `WiredPi.RelativeDeltaReaches` | ptp_wired_pi.h:40-44 | the relative change lands on the target with an error under 1.001 ppb |
| `ScaledNs.WriteScaled` | ptp.c:2348-2357 | writes the two's complement in 96 bits |
| `ScaledNs.ReadScaled` | ptp_wifi.c:850-862 | reads the whole nanoseconds, or refuses what does not fit |
| `ScaledNs.ScaledRoundTrip` | ptp.c:2348-2357 | the station's decoder recovers every 64-bit phase change |
| `ScaledNs.DecodedIsEncoded` | ptp_wifi.c:850-862 | whatever is decoded is, but for the fraction, the encoding of it |
| `TimeBase.Publisher.FillGmFields` | ptp.c:2373-2426 | the published fields and the publisher afterwards |
| `TimeBase.Publisher.UpdateLocalClock` | ptp.c:3483-3516 | jumps exactly past the threshold, to the remote time carried on; a jump is accounted for by exactly what it moves the reading by; the update is counted |
| `TimeBase.JumpExactly` | ptp.c:3475-3495 | a jump exactly beyond the threshold and when the clock can be set, by the change of the reading |
| `TimeBase.HistoryMatches` | ptp.c:2373-2426 | the publisher's counters are what the history of events says |
| `TimeBase.ChangeReportsJumps` | ptp.c:2404-2425 | a change while relaying decodes to the jumps since the last steady relay or change, and follows a clock update since the last publication |
| `TimeBase.HeldRepeats` | ptp.c:2407-2412 | held back, stations see the earlier fields byte for byte, there was no update, and the jumps stay pending |
| `TimeBase.SteadyKeepsPhase` | ptp.c:2399-2403 | an unchanged time base repeats indicator and phase change |
| `TimeBase.OwnReportsZero` | ptp.c:2383-2406 | becoming the best clock reports phase zero and an indicator one above the one heard last |
| `TimeBase.StationsNoticeOwn` | ptp.c:2384-2391 | stations see a new indicator if and only if the one heard last is not one below the one published last |
| `TimeBase.OwnMayGoUnnoticed` | ptp.c:2384-2391 | a history in which they see none |
| `TimeBase.EveryJumpOnce` | ptp.c:3483-3516 | every jump is told once, falls into a steady stretch, or is pending |
| `BestClock.BetterIsLexicographic` | ptp.c:1405-1445 | the four-way comparison is lexicographic order on the 26-byte key, which is numeric order |
| `BestClock.BetterIsStrictTotalOrder` | ptp.c:1405-1445 | irreflexive, transitive and total |
| `BestClock.Selector.ProcessAnnounce` | ptp.c:3222-3322 | the selection after an Announce and whether the source was switched |
| `BestClock.TakenUpExactly` | ptp.c:3222-3265 | which messages are taken up with nothing selected, and which change nothing whatever |
| `BestClock.SelectedPortIsHeeded` | ptp.c:3252-3265 | the selected port's newer message replaces the one retained; one no longer better than the local clock ends the selection |
| `BestClock.RetainedIsLastHeard` | ptp.c:3222-3322 | over every run the retained source is the last admitted message of its port, and the path beside it the one it came by |
| `BestClock.RetainedIsWorthy` | ptp.c:3228-3263 | a retained source always beats the local clock and, under gPTP, is another clock fewer than 255 steps away |
| `BestClock.SwitchImproves` | ptp.c:3266-3268 | a valid selection changes port only for a strictly better message |
| `BestClock.SelectionIsBest` | ptp.c:3222-3322 | while valid and with constant announcers the selection is the minimum of those heard |
| `BestClock.OrderIsIrrelevant` | ptp.c:3222-3322 | the same candidates in any order and number select the same source |
| `BestClock.BestFromTheStart` | ptp.c:3222-3322 | from nothing, once the first candidate is checked, the selection is the best of all heard |
| `BestClock.KeepsBestExactly` | ptp.c:3266-3268 | a candidate of another port leaves the better of the two if and only if the selection is valid or the candidate is better |
| `BestClock.UncheckedKeepsLast` | ptp.c:3266-3293 | over a run in which nothing validates the selection, exactly the last candidate is left |
| `BestClock.UncheckedIsBestExactly` | ptp.c:3266-3293 | so it is the best of those heard if and only if the last candidate is |
| `BestClock.RelayDescends` | ptp.c:3128-3139 | a relayed Announce keeps the root, is one step further and strictly worse than its source, carries this clock's port, and still beats a local clock of another root |
| `Tlvs.SplitJoin` | ptp_path_trace.h:30-51 | every chain of items is read back from its bytes |
| `Tlvs.JoinSplit` | ptp_path_trace.h:30-51 | whatever splits into items is their bytes |
| `Wire.NormalizeInPlace` | ptp_gptp_wire.h:10-28 | the buffer afterwards, byte for byte |
| `Wire.NormalizeSettles` | ptp_gptp_wire.h:10-28 | normalizing twice is normalizing once |
| `Wire.BoundUndoesPadding` | ptp_message_bounds.h:6-21 | a sound message passes whole through normalization, any padding and the bound |
| `Wire.BoundedExactly` | ptp_message_bounds.h:6-21 | a message is kept exactly for version 2 and a length that was received and holds the body of its type |
| `PathTrace.ParseTrace` | ptp_path_trace.h:19-54 | the path of a well-formed message with at most one sound trace the reader is not on, for every byte string |
| `PathTrace.WriteTrace` | ptp_path_trace.h:56-77 | writes the path with this clock appended once, or nothing, exactly when it is full, too long for the buffer, or already holds the clock |
| `PathTrace.TraceRoundTrip` | ptp_path_trace.h:19-77 | a written trace is read back by every clock not on it and refused by every clock on it |
| `PathTrace.UnknownStaysUnknown` | ptp.c:3158-3187 | an unknown upstream path stays unknown through a relay |
| `PathTrace.ChainIsLoopFree` | ptp.c:3128-3192 | along any chain an Announce passes if and only if the clocks are distinct and at most sixteen, and the path read is the clocks visited in order |
| `Relay.FieldsArrive` | ptp.h:92-104 | the fields the comparison reads arrive as sent, through normalization and padding |
| `Relay.SelectionExtendsChain` | ptp.c:3128-3192 | a clock that selects from a chain retains the clocks visited as its path and forwards the chain one clock longer; a clock on it changes nothing |
| `Signaling.FindTlv` | ptp_signaling.h:24-69 | malformed, ignored, or the item of the subtype, for every byte string: the whole chain is validated first |
| `Signaling.ReadersAgree` | ptp_signaling.h:71-114 | the three readers agree on which byte strings are malformed, and otherwise yield exactly the known items held |
| `Signaling.IntervalsAreRead` | ptp_signaling.h:85-100 | the values of a message interval request, each from its own byte |
| `Signaling.Decode` | ptp.c:4091-4103 | a malformed message yields nothing to act on |
| `Signaling.WriteCapable` | ptp_signaling.h:119-138 | the capability message, or nothing; no byte beyond it changes |
| `Signaling.WriteCapableInterval` | ptp_signaling.h:143-158 | the interval request, or nothing; no byte beyond it changes |
| `Signaling.RequestsAreServed` | ptp_signaling.h:143-149 | what can be asked for is what a schedule serves |
| `Signaling.WrittenIsRead` | ptp_signaling.h:24-158 | through normalization, padding and bound, every other clock of the domain reads source and interval back, and the other readers ignore it |

## Left out

- Sockets, raw Ethernet, radio calls, queues, tasks and logging: I/O. Beacon elements and the radio's RPC layer appear only as the reports and messages they deliver.
- Byte layout of peer-delay messages: stamps and corrections are fields; only validity of a stamp is modelled. The counters for diagnosis (replies and Follow_Ups seen, rejection masks, arrival times) are not.
- Floating-point rounding of ratio, correction and delay: reals stand for them.
- Counter wrap-around inside one run: theorems about runs bound the number of steps.
- TimeBase.EveryJumpOnce: like the other results about histories it assumes that the jumps of a history sum, in magnitude, to a 64-bit value.
- Clock.SpeedIsBounded: allows one nanosecond when it starts inside a segment, because truncation makes the exact bound false there; ClockPace.PaceIsExact says for which spans it is not needed.
- The software-clock servo fed by beacons, the envelope filter before it, and `settime` and `adjtime` themselves.
- `ptpd_inject_sync`, which installs a source without an Announce; the next daemon check drops it because it is not an Announce.
- Neighbor binding of a station, the wired capability sender, the wireless ranging sessions: they repeat the arguments of the registry and the schedules. The binding's verdict is an input of the selection.
- The vendor link-speed item of an Announce and delay asymmetry.
- Probes that only special builds contain.
