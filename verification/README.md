# Braid in Dafny

A model of the parts of braid that must not be wrong, and proofs about them. Braid
carries a terminal session over encrypted datagrams: it echoes typing before the
session does, survives loss, reordering and a replaced transport, and repaints
only the cells that changed.

`dafny verify dfyconfig.toml` checks everything.

| part | files | what is proved |
|---|---|---|
| one datagram endpoint | `Bits`, `ReplayWindow`, `Keys`, `Loss`, `LossDetector`, `LossReports`, `Congestion`, `Absorb`, `Growth`, `Side`, `SideRuns`, `SealRuns`, `Endpoint` | the 256-bit replay map is an unbounded set; nonces never repeat; every frame sealed is in exactly one place, and its fate is the one its number and age give it; the window in closed form over runs; the controller counts exactly what is in flight |
| two endpoints | `Network`, `Exchange` | over a network that drops, repeats, reorders and injects, an end lets through only what its peer sealed, at most once, and is told arrived only what its peer let through; what does arrive in reach is let through, and an honest acknowledgement is always believed |
| local echo | `Kmp`, `Predict`, `PredictRuns`, `PredictDraws`, `Predictor` | nothing is drawn without evidence that the session echoes it, everything typed is drawn once there is, and each echo is suppressed exactly once |
| row diff | `Rows`, `RowDiff`, `AsciiDiff`, `Paint` | the fast diff is the slow one, and painting it turns the old row into the new one, with the exact conditions under which the code does not |
| commands | `Commands`, `CommandRuns`, `Progress`, `Writer` | nothing typed is lost, doubled or reordered; the timer, a repeated acknowledgement and a replacement transport each recover it |
| output reordering | `Reorder`, `GapRuns`, `OutputLoop` | the terminal is given exactly the stream, and all of it once everything has arrived; a gap that does not close is given up on, and no more than a bounded amount is ever held |

How the code's shape is kept. A struct whose methods update it is a class, usually
with one field holding a record, and each method is proved to move that record as a
function says; loops are methods with invariants. What holds over whole runs is
proved about those functions. `Endpoint` takes a ghost `Side` and is shown, call by
call, to do what the value model of a side does, so the theorems about sides and
networks of sides are about it. Time is in nanoseconds and never goes back. The
cipher is ideal: a datagram opens only if it was sealed with that key, header and
body, and ratcheting a secret is injective.

Findings.

- `follow` stops half-way when the epoch runs out inside its steps. `KeySchedule.Follow`
  states exactly when the schedule is left unsound, and `Keys.FollowRunsOut` reaches
  such a state by calls alone; `Endpoint.Authenticate` shows that receiving never
  gets there.
- A patch that erases after its text filled the last column erases that column too,
  because the cursor stands on it with a wrap pending. `Painting.PaintRow` states
  exactly when, over the rows and the flag it is called with: `clear_tail` is set,
  the new row's paint reaches the last column with a cell that is not blank, and
  some column differs (`Painting.LastCellErased` is such a call). The server sets the
  flag for every range that reaches a row's last run.
- On a row that leads with an empty style run the cell-by-cell walk reads the first
  column under that run, so a change of that column alone can be taken for none.
  `Painting.PaintRow` has the exact condition for this too, and
  `Painting.FirstCellMisread` an instance; without an empty run it cannot happen.
- The journal is replayed as it was numbered, so typing numbered over a stream, up to
  64 KiB a command, meets a datagram link sized for 1143 bytes of it.
  `CommandProgress.ReplaySurvivesIff` states exactly when a replacement outlasts the
  replay, and `CommandProgress.StreamChunkStopsDatagrams` is an instance; compressing a
  frame before it is sealed is not modelled.
- A loss is taken for an echo of one already answered only if its packet was sealed
  before the answer, where appendix B.5 of RFC 9002 counts the same instant too:
  `WindowGrowth.LossHalvesIff` is the exact condition, and
  `WindowGrowth.SameInstantHalvesTwice` a report that halves the window twice.
- The instant the controller's `ready` names is one at which the datagram may go
  exactly for sizes within the burst (`CongestionControl.ReadyIffWritable`, and
  `CongestionControl.ReadyOverBurst` for a size above it).

## Model

| member | source | states |
|---|---|---|
| `Bits.MaskReads` | crates/dgram/src/window.rs:119-126 | masking a word with a single bit meets it exactly when that bit is set |
| `ReplayWindows.ReplayWindow.constructor` | crates/dgram/src/window.rs:34-42 | a new window has admitted nothing |
| `ReplayWindows.ReplayWindow.Admit` | crates/dgram/src/window.rs:46-65 | the answer is the one the unbounded set of admitted numbers gives, and the set gains the number exactly when the answer is fresh; the four words keep representing it |
| `ReplayWindows.ReplayWindow.Acknowledgement` | crates/dgram/src/window.rs:76-83 | nothing before anything is admitted; otherwise the top and a word whose bit i says whether the number i + 1 behind the top was admitted |
| `ReplayWindows.ReplayWindow.Slide` | crates/dgram/src/window.rs:85-112 | every bit of the 256 moves by exactly the distance, zeros follow, and what passes the end is gone, for every distance |
| `ReplayWindows.ReplayWindow.SlideWords` | crates/dgram/src/window.rs:95-103 | the whole-word stage moves every bit by 64 times the words |
| `ReplayWindows.ReplayWindow.SlideBits` | crates/dgram/src/window.rs:104-111 | the carry loop moves every bit across word boundaries by less than a word |
| `ReplayWindows.ReplayWindow.Set` | crates/dgram/src/window.rs:114-117 | exactly one bit of the map changes |
| `ReplayWindows.ReplayWindow.Get` | crates/dgram/src/window.rs:119-122 | reads the bit that position of the map has |
| `ReplayWindows.MovedTwice` | crates/dgram/src/window.rs:85-112 | the two stages of a slide compose to one move by the sum |
| `ReplayWindows.FreshOnce` | crates/dgram/src/window.rs:46-65 | over any sequence of arrivals no number is fresh twice, and every fresh number is remembered ever after |
| `Keys.KeysDistinct` | crates/dgram/src/keys.rs:112-133 | two epochs and directions share a key only if they are the same epoch and direction |
| `Keys.KeySchedule.constructor` | crates/dgram/src/keys.rs:167-179 | both ends start in epoch zero with the keys of epoch zero |
| `Keys.KeySchedule.Rotate` | crates/dgram/src/keys.rs:196-200 | moves to the next epoch's key or, at the last epoch, changes nothing and says so |
| `Keys.KeySchedule.Reaches` | crates/dgram/src/keys.rs:203-216 | an epoch is out of reach exactly when it is not the one read, not the one kept and not up to four ahead; one ahead names its steps |
| `Keys.KeySchedule.PeekAhead` | crates/dgram/src/keys.rs:229-238 | a look-ahead key exists exactly within four steps and the last epoch, and is the key the root ratchets to |
| `Keys.KeySchedule.DeriveAhead` | crates/dgram/src/keys.rs:241-251 | the cache is filled for exactly the epochs that exist, each slot with its own epoch's key |
| `Keys.KeySchedule.Follow` | crates/dgram/src/keys.rs:254-271 | succeeds exactly when the steps are in range and the epoch exists, keeping the old key as previous; and the schedule is left half-moved if and only if the epochs run out inside the steps |
| `Keys.FollowRunsOut` | crates/dgram/src/keys.rs:254-271 | two steps asked for one epoch before the last leave the ratchet at the last epoch and the schedule unsound |
| `Loss.Rtt.Sampled` | crates/dgram/src/loss.rs:65-84 | no estimate is ever zero, and the smoothed one stays between what it was and the latest sample |
| `Loss.Rtt.LossDelay` | crates/dgram/src/loss.rs:124-129 | never below a millisecond |
| `Loss.ProbeTimeoutAfter` | crates/dgram/src/loss.rs:316-320 | doubling with silence keeps the timeout above the peer's acknowledgement delay |
| `Loss.CoversMasks` | crates/dgram/src/loss.rs:530-538 | an acknowledgement names exactly its largest number and the numbers up to 64 behind it whose bits are set |
| `Loss.DoomedIsPrefix` | crates/dgram/src/loss.rs:440-479 | past the first packet that survives judgement nothing is doomed |
| `Loss.DoomedIs` | crates/dgram/src/loss.rs:440-479 | what is given up on and what is kept split the flight by whether a packet has a fate, and each report carries its packet's fate |
| `LossDetection.Scan` | crates/dgram/src/loss.rs:373-419 | the bounded backwards walk removes and reports, oldest first, exactly what filtering the whole flight would, and samples exactly the packet of the largest number |
| `LossDetection.PartitionPoint` | crates/dgram/src/loss.rs:388-392 | finds where the flight's numbers stop being below a bound |
| `LossDetection.Sweep` | crates/dgram/src/loss.rs:440-498 | stopping at the first survivor retires exactly every doomed packet, with the register and the totals each retirement in turn would leave |
| `LossDetection.Totals.AfterIs` | crates/dgram/src/loss.rs:481-498 | losses counted are the packets declared lost; the silent run began with the first silent packet; congestion is persistent exactly when some silent packet was sent a full period after that |
| `LossDetection.CountLate` | crates/dgram/src/loss.rs:500-520 | every registered write-off an acknowledgement names is counted once and struck off, and a mistake is proved exactly when one of them was not an overflow |
| `LossDetection.DueIff` | crates/dgram/src/loss.rs:428-438 | something is doomed at an instant exactly when the deadline is at or before it |
| `LossDetection.AckKeeps` | crates/dgram/src/loss.rs:373-419 | what an acknowledgement leaves of the register and of the flight is still in order, one before the other |
| `LossDetection.LossDetector.constructor` | crates/dgram/src/loss.rs:256-274 | a new detector tracks nothing |
| `LossDetection.LossDetector.Sealed` | crates/dgram/src/loss.rs:361-369 | a packet joins the end of the flight; only at the bound does the oldest leave it, reported as overflowed, and nothing of an earlier report stays |
| `LossDetection.LossDetector.Acknowledged` | crates/dgram/src/loss.rs:373-419 | what is named arrives, the rest is judged, and the round trip is the largest packet's: the transition the report theorems are about |
| `LossDetection.LossDetector.Expire` | crates/dgram/src/loss.rs:422-425 | gives up on something if and only if the deadline has come: the transition the report theorems are about |
| `LossDetection.LossDetector.Migrated` | crates/dgram/src/loss.rs:329-336 | the flight is kept; nothing in it is overtaken until this path has an acknowledgement, and no old write-off can prove mistaken |
| `LossReports.SampledIs` | crates/dgram/src/loss.rs:65-84 | a sample moves the round trip an eighth and the variation a quarter of the way, to the microsecond, and the first one sets both |
| `LossReports.LossDelayIs` | crates/dgram/src/loss.rs:124-129 | an eighth above the largest of the estimates, to the microsecond, or a millisecond |
| `LossReports.ProbeTimeoutIs` | crates/dgram/src/loss.rs:133-139 | a round trip, four variations and the peer's delay, within a millisecond; each silence doubles it, six times at most |
| `LossReports.MinimumIsLeast` | crates/dgram/src/loss.rs:65-84 | over any sequence of round trips the minimum was measured by one of them, is the least since, and is under ten seconds old |
| `LossReports.SampleIs` | crates/dgram/src/loss.rs:396-412 | a round trip is read exactly when the largest number acknowledged is in flight, off that packet |
| `LossReports.GivenUpIff` | crates/dgram/src/loss.rs:440-479 | a packet is lost exactly when three numbers overtake it, or one does and the loss delay has passed; silent exactly when not that and its probe timeout has; otherwise in flight still |
| `LossReports.CauseIs` | crates/dgram/src/loss.rs:440-498 | every report is of a packet that was in flight and carries the cause that was its own |
| `LossReports.BacksOffIff` | crates/dgram/src/loss.rs:440-479 | the timeout backs off by one exactly when some packet went silent |
| `LossReports.AcknowledgedIs` | crates/dgram/src/loss.rs:373-479 | of every packet in flight: arrived if named, else lost, silent or in flight by the highest number acknowledged, the new estimates and no backoff |
| `LossReports.PersistentIff` | crates/dgram/src/loss.rs:440-479 | congestion is persistent exactly when, with a round trip known and the run not answered, a silent packet was sent three timeouts after the run began |
| `LossReports.SilenceBegins` | crates/dgram/src/loss.rs:440-479 | a run of silence begins with its oldest silent packet and is not moved by later ones |
| `LossReports.ExpiryReports` | crates/dgram/src/loss.rs:422-498 | a timer call reports nothing of the call before: no arrivals, no mistake, persistence of its own packets, and exactly their losses counted |
| `LossReports.AcknowledgementReports` | crates/dgram/src/loss.rs:373-520 | an acknowledgement counts its losses and each registered write-off it names once, and judges persistence from a fresh run of silence |
| `LossReports.AnsweredOnce` | crates/dgram/src/loss.rs:440-479 | over any number of timer calls a run of silence already answered is not reported again |
| `LossReports.MistakeRecognised` | crates/dgram/src/loss.rs:481-520 | a packet given up on with fewer than 64 after it is recognised when an acknowledgement names it |
| `LossReports.RevivedIff` | crates/dgram/src/loss.rs:500-520 | a mistake is reported exactly for a registered write-off that is named and was no overflow |
| `CongestionControl.Pacer.Available` | crates/dgram/src/congestion.rs:61-82 | the bucket never holds more than the burst |
| `CongestionControl.PacedRelease` | crates/dgram/src/congestion.rs:61-96 | over any run of admitted sends the bytes released are at most the burst and five quarters of a window per round trip of the time that passed |
| `CongestionControl.ReadyIsEnough` | crates/dgram/src/congestion.rs:99-118 | at the instant named the bucket holds enough, if and only if the size is within the burst |
| `CongestionControl.ReadyIffWritable` | crates/dgram/src/congestion.rs:212-230 | no instant is named exactly when the window refuses; at a named instant the datagram may go exactly when it is within ten datagrams |
| `CongestionControl.ReadyOverBurst` | crates/dgram/src/congestion.rs:212-230 | a size within the window and above the burst for which an instant is named at which it may not go |
| `CongestionControl.OneDatagramPerWindow` | crates/dgram/src/congestion.rs:274-280 | the credit loop ends, grows the window by at most a datagram per whole window of credit, and never past the ceiling |
| `CongestionControl.Controller.Lost` | crates/dgram/src/congestion.rs:283-294 | a loss never raises the window |
| `CongestionControl.Controller.Collapsed` | crates/dgram/src/congestion.rs:330-337 | a collapse never raises the window |
| `CongestionControl.WindowAlwaysBounded` | crates/dgram/src/congestion.rs:183-200 | after any sequence of calls the window is between twice the smallest and 512 times the largest datagram size set |
| `CongestionControl.OneHalvingPerFlight` | crates/dgram/src/congestion.rs:283-294 | losses of packets sealed before recovery began change nothing but the count in flight, however many |
| `CongestionControl.FlightLostTogether` | crates/dgram/src/congestion.rs:283-318 | a flight lost together halves the window once, down to the minimum, and what a mistake would restore is the window before it |
| `CongestionControl.MistakeUndone` | crates/dgram/src/congestion.rs:283-318 | undoing a halving gives back the controller it was taken from, within the ceiling, but for the credit, the delay count and the freed bytes |
| `CongestionControl.Congestion.constructor` | crates/dgram/src/congestion.rs:151-164 | a new controller opens ten datagrams |
| `CongestionControl.Congestion.Sealed` | crates/dgram/src/congestion.rs:236-246 | the bytes move from the bucket into the flight, and the send is window-limited exactly when another datagram would not fit |
| `CongestionControl.Congestion.Acknowledged` | crates/dgram/src/congestion.rs:249-280 | the credit loop ends in what the growth theorems are about, for slow start, recovery and avoidance |
| `CongestionControl.Congestion.Lost` | crates/dgram/src/congestion.rs:283-294 | frees exactly the bytes and never raises the window, leaves it alone during recovery, and otherwise keeps what a mistake would restore |
| `CongestionControl.Congestion.Spurious` | crates/dgram/src/congestion.rs:309-318 | a mistaken halving is undone at most once |
| `CongestionControl.Congestion.Collapse` | crates/dgram/src/congestion.rs:330-337 | frees nothing and never raises the window, packets sealed before it cannot halve it again, and a mistake would restore it |
| `CongestionControl.Congestion.Migrated` | crates/dgram/src/congestion.rs:340-349 | ten datagrams, the flight kept, the bucket full at once, and no loss on the old path can be taken back |
| `WindowGrowth.SlowStartGrows` | crates/dgram/src/congestion.rs:249-273 | over every run of arrivals in slow start without three samples in a row of a filling queue, the window grows by exactly the bytes that had filled it, up to 512 datagrams, and the threshold stays |
| `WindowGrowth.FlightDoubles` | crates/dgram/src/congestion.rs:270-273 | a whole window acknowledged in slow start doubles it |
| `WindowGrowth.ThirdEndsSlowStart` | crates/dgram/src/congestion.rs:356-374 | the third such sample sets the threshold to the window, or to ten datagrams |
| `WindowGrowth.AvoidanceGrows` | crates/dgram/src/congestion.rs:274-280 | over every run of arrivals in avoidance the window grows by exactly one datagram for each window of bytes that had filled it, at the size it then has |
| `WindowGrowth.LossHalvesIff` | crates/dgram/src/congestion.rs:283-294 | a loss halves the window, down to two datagrams, if and only if its packet was not sealed before recovery began |
| `WindowGrowth.RecoveryEnds` | crates/dgram/src/congestion.rs:249-255 | an arrival sealed after recovery began ends it, no other does, and the next loss then halves again |
| `WindowGrowth.CollapseRestarts` | crates/dgram/src/congestion.rs:330-337 | two datagrams, and slow start back to half of what there was or ten datagrams |
| `WindowGrowth.MoveRestarts` | crates/dgram/src/congestion.rs:340-349 | ten datagrams, slow start, and the flight as it was |
| `WindowGrowth.PacedRate` | crates/dgram/src/congestion.rs:61-82 | the bucket gains five windows every four round trips, or one every 100 ms before a round trip is known |
| `WindowGrowth.ReadyNotLate` | crates/dgram/src/congestion.rs:99-118 | a microsecond before the instant named the bucket holds no more than the bytes |
| `WindowGrowth.WritableFits` | crates/dgram/src/congestion.rs:212-246 | what may be written keeps the flight within the window, and is window-limited exactly when another datagram would not fit after it |
| `Absorbing.FreedExactly` | crates/dgram/src/endpoint.rs:432-471 | while the controller counts at least what a run of calls frees, no subtraction in it saturates |
| `Absorbing.Absorb` | crates/dgram/src/endpoint.rs:432-471 | every packet a detector reports reaches the controller once, in order, as what it was reported for; afterwards the controller counts exactly what is still in flight |
| `WindowGrowth.ReportHalvesOnce` | crates/dgram/src/endpoint.rs:432-471 | however many packets a report gives up on, the window halves once if one was lost and is news, and otherwise does not move: silence alone never moves it; for reports in which no later loss was sealed at the report's own instant |
| `WindowGrowth.SameInstantHalvesTwice` | crates/dgram/src/congestion.rs:283-294 | two packets sealed and lost at the instant of one report halve the window twice |
| `WindowGrowth.ReportAnswered` | crates/dgram/src/endpoint.rs:432-471 | in one report a mistake is taken back and arrivals are counted before its losses are answered, once, at the window they leave |
| `WindowGrowth.PersistentCollapses` | crates/dgram/src/endpoint.rs:432-471 | persistent congestion leaves two datagrams at most whatever arrived with it |
| `WindowGrowth.MistakeCostsNothing` | crates/dgram/src/endpoint.rs:432-471 | a packet the timer gave up on and an acknowledgement then names: the window halved, the mistake is recognised, and the first thing the controller is told restores the window within 512 datagrams |
| `SideRuns.StepValid` | crates/dgram/src/endpoint.rs:546-703 | every step of a side keeps what every reachable side has: sealed datagrams numbered in order under their epochs, the flight table ordered and within what was sealed |
| `SideRuns.LegalStepsSuffice` | crates/dgram/src/endpoint.rs:546-703 | a run of a side asks only that each step be legal where it is taken |
| `SideRuns.NoncesNeverRepeat` | crates/dgram/src/endpoint.rs:546-604 | over every run, with refused seals and extra rotations, numbers left on the wire strictly increase, epochs never decrease, no epoch carries more than 2^40 and no number reaches 2^48 |
| `SideRuns.ExactlyOnePlace` | crates/dgram/src/loss.rs:361-498 | over every run each tracked packet is in flight, reported arrived or reported gone, exactly once in all |
| `SealRuns.SealedInOnePlace` | crates/dgram/src/endpoint.rs:546-604 | over every run every frame and probe left on the wire is in flight, reported arrived or reported gone, once in all, with its number and size |
| `SealRuns.EpochOfNumber` | crates/dgram/src/endpoint.rs:555-569 | over every run without an extra rotation a datagram's epoch is its number divided by 2^40, and a side is out of epochs exactly when all 2^48 numbers are used |
| `SealRuns.OpeningSeals` | crates/dgram/src/endpoint.rs:221-246 | a new connection refuses nothing, and its first datagram is number 0 under the key of epoch 0 |
| `SealRuns.RefusalKeepsRotation` | crates/dgram/src/endpoint.rs:555-600 | a path that refuses a sealed datagram puts nothing on the wire, uses no number, and keeps the epoch that was begun |
| `Network.OpensOnlyThePeers` | crates/dgram/src/endpoint.rs:609-646 | a datagram that opens is exactly the one the peer sealed under its number, never one of this end's own |
| `Network.AheadIsFresh` | crates/dgram/src/endpoint.rs:619-646 | an authentic datagram naming an epoch ahead is always fresh, so following before admitting is harmless |
| `Network.HonestIsExact` | crates/dgram/src/window.rs:76-83 | an acknowledgement names exactly what was admitted of the top and the 64 numbers behind it when it is sealed |
| `Network.MoveKeeps` | crates/dgram/src/endpoint.rs:546-703 | whatever either end or the network does next, what holds between the two ends still holds |
| `Network.AlwaysTogether` | crates/dgram/src/endpoint.rs:221-246 | the two ends of a fresh connection stand together after any run of both and of the network |
| `Network.OpeningPlays` | crates/dgram/src/endpoint.rs:221-246 | from the opening of a connection a run asks only that each turn be allowed where it is taken |
| `Network.DeliveredAtMostOnce` | crates/dgram/src/endpoint.rs:609-703 | over every run, in both directions, what is let through was sealed by the peer, none of it twice, and what is reported arrived the peer let through |
| `Network.FrameHandedUpOnce` | crates/dgram/src/endpoint.rs:609-703 | a frame handed up is one the peer sealed as a frame, was never let through before, and is refused after whatever either end and the network do next |
| `Network.ReplayChangesNothing` | crates/dgram/src/endpoint.rs:606-646 | a refused datagram has changed nothing about the endpoint |
| `Exchanges.PeersHeardIff` | crates/dgram/src/endpoint.rs:609-703 | a datagram the peer sealed is let through if and only if its epoch is the one read, the one before or up to four ahead, and its number is new and less than 256 behind the highest; a frame's bytes are then handed up |
| `Exchanges.OldEpochStillHeard` | crates/dgram/src/keys.rs:203-216 | following the peer to a new epoch does not lose what it sealed under the old one |
| `Exchanges.AckBelieved` | crates/dgram/src/endpoint.rs:680-692 | an authentic acknowledgement is never disregarded: what it names of the flight has arrived and left the flight |
| `Exchanges.RoundTrip` | crates/dgram/src/endpoint.rs:324-703 | a frame sealed, let through, acknowledged and the acknowledgement let through: handed up as sent, and arrived; only the epochs must be in reach |
| `Exchanges.CloseIsFinal` | crates/dgram/src/endpoint.rs:546-560 | after a close from the peer nothing more is sealed, whatever happens |
| `Exchanges.MoveChangesEpoch` | crates/dgram/src/endpoint.rs:655-679 | a completed move keeps the flight, forgets what was measured, and seals under an epoch nothing was sealed in before |
| `Exchanges.MigratedIff` | crates/dgram/src/endpoint.rs:646-703 | a move is reported exactly for an answer let through with the token of the challenge, and a refusal exactly for what is not let through |
| `Exchanges.TimerGivesUp` | crates/dgram/src/endpoint.rs:425-428 | the timer takes out of flight and reports exactly what is overdue or a probe timeout old, each with its cause |
| `Endpoints.Endpoint.constructor` | crates/dgram/src/endpoint.rs:221-246 | a new endpoint is an opening side, with nothing in flight counted |
| `Endpoints.Endpoint.Rotate` | crates/dgram/src/endpoint.rs:359-361 | rotates unless the epochs are used up |
| `Endpoints.Endpoint.SealWith` | crates/dgram/src/endpoint.rs:546-604 | which error is given, and that the buffer grows by exactly the datagram the side seals, even when the path refuses what was already sealed |
| `Endpoints.Endpoint.Track` | crates/dgram/src/endpoint.rs:589-601 | a tracked datagram joins the flight and the count in flight by the same bytes |
| `Endpoints.Endpoint.Expire` | crates/dgram/src/endpoint.rs:425-428 | what times out reaches the controller, and the two counts still agree |
| `Endpoints.Endpoint.Authenticate` | crates/dgram/src/endpoint.rs:609-646 | a datagram is opened under its epoch's key, followed only once it opened, and following never fails part-way |
| `Endpoints.Endpoint.Open` | crates/dgram/src/endpoint.rs:609-646 | authenticated, followed, then admitted, with the error the first failing check gives |
| `Endpoints.Endpoint.Recv` | crates/dgram/src/endpoint.rs:609-703 | the endpoint ends in the state the side model gives, with its outcome; the acknowledgement debt grows exactly for a datagram let through that asks for one, and never for an acknowledgement; the controller still counts exactly what is in flight |
| `Endpoints.Endpoint.Send` | crates/dgram/src/endpoint.rs:324-346 | which error is given and when, each way; on any refusal nothing of the endpoint, the controller or the buffer has changed |
| `Endpoints.Endpoint.Acknowledge` | crates/dgram/src/endpoint.rs:473-492 | a due debt is sealed with an acknowledgement that names exactly what the replay window holds and how long it was held back, and is paid only if it was sealed |
| `Endpoints.Owes` | crates/dgram/src/endpoint.rs:705-722 | a first datagram is acknowledged after 25 ms, a second or a probe at once, and nothing owed is put off |
| `Kmp.NaiveIsLongest` | crates/client/src/predict.rs:1798-1803 | the naive search finds the longest prefix of what is owed that ends the rewrite |
| `Kmp.FailureOf` | crates/client/src/predict.rs:436-458 | the failure table holds the longest proper border of each prefix |
| `Kmp.RestatedTail` | crates/client/src/predict.rs:436-474 | the automaton returns what the naive search returns, for every input |
| `PredictionRuns.RunKeeps` | crates/client/src/predict.rs:166-533 | over every run drawn bytes are a prefix of what is owed, no byte is of a later run, and a confirmed run holds only its own bytes |
| `PredictionRuns.PredictsKeeps` | crates/client/src/predict.rs:166-284 | a keystroke draws exactly what it newly marks drawn, and ending a run keeps what is drawn owed |
| `PredictionRuns.NothingDrawnWithoutEvidence` | crates/client/src/predict.rs:166-428 | over every run a byte is drawn only in the run it was typed in, after output matched everything that run then owed, its last byte typed in the run and already acknowledged; and the record this is said of is byte for byte what the terminal was given to draw |
| `PredictionRuns.EchoIsEvidence` | crates/client/src/predict.rs:290-312 | a run confirmed by an echo is one whose every owed byte the output begins with |
| `PredictionRuns.RewriteIsEvidence` | crates/client/src/predict.rs:321-339 | a run confirmed by a rewrite is one whose every owed byte the rewrite ends with |
| `PredictionRuns.EchoTakenOff` | crates/client/src/predict.rs:290-312 | what is skipped of a chunk is exactly the drawn bytes it repeats, and the rest stays owed |
| `PredictionRuns.TerminalShowsSessionAndOwed` | crates/client/src/terminal.rs:107-171 | over every run in which no output is written past a drawn byte still owed, none is judged wrong and no screen is painted, the terminal was given the session's bytes, each once, then what is drawn and owed; rewrites over nothing drawn included |
| `PredictionRuns.LocalRepairClears` | crates/client/src/predict.rs:517-533 | the bytes a local repair writes blank exactly the cells the run's glyphs stand in, wide or not, leave everything to either side alone and put the cursor back |
| `PredictionRuns.RepairIffDrawn` | crates/client/src/predict.rs:499-533 | ending a run asks for a repair exactly when something is drawn |
| `PredictionDraws.TextIsOwed` | crates/client/src/predict.rs:174-188 | text that fits is owed after everything else, in the run and command it was typed in, and its cells may be erased |
| `PredictionDraws.TextIsDrawn` | crates/client/src/predict.rs:174-188 | on a confirmed run everything owed and not on the terminal is drawn, the new text last; on any other nothing |
| `PredictionDraws.EraseIsDrawn` | crates/client/src/predict.rs:189-202 | backspaces over this run draw the echo of each cell taken back, newest first |
| `PredictionDraws.EraseClears` | crates/client/src/predict.rs:660-667 | on the row those echoes blank exactly the cells taken back and leave the cursor where they began |
| `PredictionDraws.OtherwiseStalls` | crates/client/src/predict.rs:166-205 | any other keystroke, and any after typing was missed, draws nothing, ends the run and forgets what was only queued |
| `PredictionDraws.WholeEchoConfirms` | crates/client/src/predict.rs:290-312 | output leading with everything owed settles it, and confirms the run if and only if its last byte was typed in it and delivered |
| `PredictionDraws.EchoUnlocks` | crates/client/src/predict.rs:166-312 | once what is owed is delivered and echoed, text typed next is drawn at once and alone |
| `PredictionDraws.FreshDraws` | crates/client/src/predict.rs:137-154 | a new predictor owes and has confirmed nothing, and draws in every mode but the one that never does |
| `PredictionDraws.ContradictionJudged` | crates/client/src/predict.rs:361-374 | output that contradicts what is owed is put off while the application may not have seen it; otherwise the run is over, and a repair is asked for exactly when something drawn was not echoed |
| `PredictionDraws.PostponedFallsDue` | crates/client/src/predict.rs:391-399 | a judgement put off falls due with the first heartbeat covering its command, and not before |
| `PredictionDraws.RewriteSettles` | crates/client/src/predict.rs:321-360 | a rewrite settles what it ends with, confirms a run it ends with all of, and leaves the rest of a confirmed run owed and undrawn |
| `PredictionDraws.RewriteJudged` | crates/client/src/predict.rs:321-360 | a rewrite that restates none of what is owed and does not account for it ends the run, with a screen exactly when something is drawn; any other settles it and places the cursor |
| `PredictionDraws.AccountsIff` | crates/client/src/predict.rs:557-578 | a rewrite leaves the run accounted for exactly when it wipes the tail, covers every cell of the run, or stops where the run begins |
| `PredictionDraws.RepairKind` | crates/client/src/predict.rs:517-533 | a guess is taken back in place exactly when output goes on with a printable character and every glyph drawn has a width; otherwise a whole screen is asked for |
| `PredictionDraws.ColumnFollowsDrawing` | crates/client/src/predict.rs:254-270 | a known column moves by what is drawn |
| `PredictionDraws.ColumnFollowsEcho` | crates/client/src/predict.rs:313-320 | and by the part of an echo the terminal did not hold yet |
| `Predictors.CountEchoed` | crates/client/src/predict.rs:292-297 | the length of the common lead of what is owed and the output |
| `Predictors.Draw` | crates/client/src/predict.rs:254-270 | everything is marked drawn, and what was not is gathered oldest first |
| `Predictors.Retain` | crates/client/src/predict.rs:275-284 | exactly the drawn predictions are kept, in order |
| `Predictors.EraseCells` | crates/client/src/predict.rs:189-202 | each cell taken back queues the echo its own width has, newest first |
| `Predictors.Predictor.constructor` | crates/client/src/predict.rs:137-154 | a first run that is not confirmed |
| `Predictors.Predictor.Predict` | crates/client/src/predict.rs:166-205 | the state and the bytes to draw are those of the transition the run theorems are about |
| `Predictors.Predictor.Release` | crates/client/src/predict.rs:254-270 | draws everything held back, or nothing while drawing is off |
| `Predictors.Predictor.Stall` | crates/client/src/predict.rs:275-284 | ends the run, keeping what is drawn owed |
| `Predictors.Predictor.Absorb` | crates/client/src/predict.rs:290-374 | the state, the bytes to skip and the repair are those of the transition the run theorems are about |
| `Predictors.Predictor.Restate` | crates/client/src/predict.rs:321-360 | a rewrite settles what it restates, strands the run, or leaves it to be drawn afresh |
| `Predictors.Predictor.EndRun` | crates/client/src/predict.rs:499-533 | nothing stays owed, and the repair is planned from what was drawn |
| `Predictors.Predictor.Acknowledged` | crates/client/src/predict.rs:381-383 | the newest acknowledged command is the largest seen |
| `Predictors.Predictor.EchoAck` | crates/client/src/predict.rs:391-399 | a whole screen is asked for exactly when a postponed judgement falls due with something drawn |
| `Predictors.Predictor.Invalidate` | crates/client/src/predict.rs:481-486 | a whole screen is needed exactly when something is drawn |
| `Predictors.Predictor.Resized` | crates/client/src/predict.rs:492-495 | what is drawn stays, and no keystroke draws anything until output brings a cue |
| `Predictors.Predictor.ObservedRtt` | crates/client/src/predict.rs:209-220 | over 30 ms drawing is on, at 20 ms or less it goes off once nothing is drawn, and in between nothing changes |
| `Rows.CellIs` | crates/client/src/render.rs:1622-1652 | everything styled is painted, so past the paint every column is a default blank |
| `Rows.SeenIs` | crates/client/src/render.rs:1656-1705 | without an empty run the walk sees every column as the row shows it, and with one every column but the first |
| `Rows.SeekIs` | crates/client/src/render.rs:1449-1491 | a walk of the runs that has reached a byte covers it as one from the start does |
| `RowDiff.SeekTo` | crates/client/src/render.rs:1481-1490 | moves on to exactly the run covering a byte |
| `RowDiff.Step` | crates/client/src/render.rs:1707-1723 | one cell on, with the run that covers it |
| `RowDiff.MeasuredPatch` | crates/client/src/render.rs:1323-1360 | the cell-by-cell walk finds the first and last columns it sees differ, or stops at the first when the tail is erased, for every pair of rows of ASCII text, empty runs included |
| `AsciiDiff.CommonPrefix` | crates/client/src/render.rs:1431-1436 | the bytes agree up to the result and differ there |
| `AsciiDiff.CommonSuffix` | crates/client/src/render.rs:1439-1445 | the bytes agree from the end up to the result and differ there |
| `AsciiDiff.CompareBytes` | crates/client/src/render.rs:1373-1398 | the first and last bytes that differ, the shorter row read as blank past its paint |
| `AsciiDiff.CompareStyles` | crates/client/src/render.rs:1400-1414 | folding in the intervals between run boundaries gives the first and last column where bytes or styles differ |
| `AsciiDiff.AsciiPatch` | crates/client/src/render.rs:1365-1428 | for every pair of ASCII rows and either flag, exactly the patch of the cell-by-cell walk, however the runs are split |
| `AsciiDiff.PaintedCells` | crates/client/src/render.rs:1622-1652 | a count is given exactly for rows of ASCII text whose runs count their bytes and whose paint the row has room for, and it is the painted bytes; the fast walk is allowed exactly when no run is empty |
| `AsciiDiff.RowPatch` | crates/client/src/render.rs:1305-1318 | nothing for equal rows, everything for a row that cannot be placed, otherwise the patch of either walk with the tail erased when it must be |
| `Painting.WriteRowText` | crates/client/src/render.rs:1538-1572 | exactly the columns asked for take the row's text and style, nothing else changes, and no text leaves the row |
| `Painting.WriteRow` | crates/client/src/render.rs:1523-1534 | whatever the terminal row held, it then shows the row |
| `Painting.WritePatch` | crates/client/src/render.rs:1493-1519 | what each kind of patch leaves of every column |
| `Painting.PatchedShows` | crates/client/src/render.rs:1305-1519 | a terminal row showing the old row shows the new one after its patch, if and only if an erase did not reach a last cell that is not blank and the first column was not misread |
| `Painting.PaintRow` | crates/client/src/render.rs:814-815 | diffing and painting compose to that for every pair of rows of ASCII text and either flag, and the exceptions are conditions on what it is called with |
| `Painting.LastCellErased` | crates/client/src/render.rs:1493-1519 | a two-column row for which the exception holds |
| `Painting.FirstCellMisread` | crates/client/src/render.rs:1656-1705 | a restyled column the walk takes for unchanged |
| `Painting.MisreadLeadsEmpty` | crates/client/src/render.rs:1635-1637 | no pair of rows without an empty run is misread |
| `CommandRuns.NothingLostOrDoubled` | crates/client/src/outbound.rs:335-580 | over every run of typing, losing and replacing the transport, resending and acknowledging, journal numbers are consecutive up to the last given out, and accepted bytes are those applied, then those journalled and not applied, then those pending |
| `CommandRuns.AppliedKeeps` | crates/server/src/attachment.rs:84-121 | the gate applies commands in order, none twice and none past a gap |
| `CommandRuns.GateAnswers` | crates/server/src/attachment.rs:84-121 | of what arrives the gate calls fresh exactly the next command, duplicate exactly what it applied, and the rest a gap |
| `CommandRuns.PreparedLedger` | crates/client/src/journal.rs:43-55 | an acknowledgement of what is applied retires only what is applied |
| `CommandRuns.RepeatedIs` | crates/client/src/outbound.rs:383-401 | what is resent is the oldest of the journal, in order, up to the first refusal |
| `CommandRuns.ReplayIsWhole` | crates/client/src/outbound.rs:524-544 | a replacement that takes what it is offered is given the whole journal, then what is newly numbered, and nothing waits unless the journal is full |
| `CommandRuns.ReplacementRecovers` | crates/client/src/outbound.rs:524-544 | from every reachable state such a replacement, delivering in order, leaves the server with every accepted byte but what waits behind a full journal |
| `CommandRuns.OnlyTimedOnce` | crates/client/src/outbound.rs:227-301 | over every run a round trip is measured only from a command put on the wire exactly once |
| `CommandRuns.DrainedNumbersAll` | crates/client/src/outbound.rs:405-436 | with a transport there, no input, size or repaint waits unless the journal is full |
| `CommandProgress.ResentWhenDue` | crates/client/src/outbound.rs:278-301 | the four oldest commands go out again exactly when they have waited the interval |
| `CommandProgress.UnheardIsResent` | crates/client/src/outbound.rs:238-288 | a command sent and not heard of goes out again with the first timer an interval after the wait began, and a later send does not put that off |
| `CommandProgress.IntervalDoubles` | crates/client/src/outbound.rs:229-235 | two round trips, or 250 ms; doubled with each resend nothing answered, up to two seconds |
| `CommandProgress.BackoffMoves` | crates/client/src/outbound.rs:247-288 | an unanswered wait starts over and counts; an acknowledgement that says something new resets it, and one that does not leaves it running |
| `CommandProgress.AcknowledgedIs` | crates/client/src/outbound.rs:738-755 | exactly the commands up to the number are freed; the first repeat of an acknowledgement resends the front of what is left and no other does; then everything that waited is numbered and sent |
| `CommandProgress.DrainedCarriable` | crates/client/src/outbound.rs:38-44 | no numbered input is empty or larger than its transport carries |
| `CommandProgress.RoundTripMeasured` | crates/client/src/outbound.rs:238-276 | typing sent while nothing is timed is timed, and its acknowledgement moves the estimate an eighth of the way, or sets it |
| `CommandProgress.TimerRecovers` | crates/client/src/outbound.rs:567-580 | from every reachable state, when the timer fires and what it resends arrives, the server has the four oldest unacknowledged commands, whatever was lost |
| `CommandProgress.ReplaySurvivesIff` | crates/client/src/outbound.rs:524-544 | a replacement that carries commands up to a size outlasts the replay if and only if nothing retained is larger; otherwise it is dropped at the first that is, with the journal as it was |
| `CommandProgress.StreamChunkStopsDatagrams` | crates/client/src/outbound.rs:38-44 | two thousand bytes typed over a stream are one command, and a datagram link's replay of it drops the link |
| `Writers.Retire` | crates/client/src/journal.rs:43-55 | exactly the leading commands up to the number acknowledged |
| `Writers.Repeat` | crates/client/src/outbound.rs:383-401 | the commands offered, and how many were taken before a refusal |
| `Writers.Flush` | crates/client/src/outbound.rs:419-436 | pending input is numbered chunk by chunk while the journal has room, and the number reported is the last it took |
| `Writers.Drain` | crates/client/src/outbound.rs:405-436 | control first, then input, all of it only while a transport is there |
| `Writers.ClientWriter.constructor` | crates/client/src/outbound.rs:450-470 | nothing journalled, nothing pending |
| `Writers.ClientWriter.Input` | crates/client/src/outbound.rs:493-507 | as much is taken as there is room for; a number covers the typing exactly when nothing is left pending |
| `Writers.ClientWriter.Disconnect` | crates/client/src/outbound.rs:510-520 | nothing accepted is lost by it, and nothing is numbered until a transport is there |
| `Writers.ClientWriter.Reconnect` | crates/client/src/outbound.rs:524-544 | the journal is replayed, then what waited is numbered |
| `Writers.ClientWriter.Retransmit` | crates/client/src/outbound.rs:567-580 | a stale or stream link is done, an empty journal idle with no wait running, the front goes out exactly when it is due, and the wait is what is left of the interval |
| `Writers.ClientWriter.Acknowledge` | crates/client/src/outbound.rs:738-755 | what is acknowledged is retired, a first repeated acknowledgement resends the front, and the report of dropped typing is withdrawn once nothing waits |
| `Writers.ClientWriter.Resize` | crates/client/src/outbound.rs:661-670 | the size is the newest command or is held, and waiting input stays as it was |
| `Writers.ClientWriter.RequestRepaint` | crates/client/src/outbound.rs:612-625 | the first request is numbered or held, and while it is outstanding another changes nothing |
| `Reordering.Deadline` | crates/client/src/inbound.rs:161-165 | between 50 ms and a second |
| `Reordering.HoldingKeeps` | crates/client/src/inbound.rs:169-186 | holding keeps distinct ascending offsets, an exact byte total, and a stamp exactly while something is held |
| `Reordering.InsertedIs` | crates/client/src/inbound.rs:169-186 | sorting a chunk in loses none and adds only it |
| `Reordering.TakingKeeps` | crates/client/src/inbound.rs:202-220 | taking keeps that shape, and leaves nothing that starts at the position |
| `Reordering.TakingIs` | crates/client/src/inbound.rs:202-220 | every held chunk is still held because it ends past the position, taken because it starts at it, or dropped because it ends by it |
| `Reordering.ShownIsStream` | crates/client/src/lib.rs:878-917 | however a stream is cut and whichever chunks come, in any order and number, between probes and screens, the terminal was given exactly the stream from the last screen, or the start, to the position |
| `Reordering.EverythingShown` | crates/client/src/lib.rs:878-917 | if every piece came at least once, no gap was given up on and no screen came between, the terminal was given the whole stream |
| `GapRuns.ProbeGivesUpIff` | crates/client/src/inbound.rs:190-198 | a gap is given up, for one screen, exactly when 32 chunks or 256 KiB are held or the wait is over |
| `GapRuns.StuckGapGivenUp` | crates/client/src/lib.rs:979-984 | whatever else comes, a gap that does not close has cost a screen by the first probe a second after it opened |
| `GapRuns.AlwaysWithin` | crates/client/src/lib.rs:878-922 | over every run fewer than 32 chunks and 256 KiB are held, and the position is short of the window by at most a stride |
| `OutputLoops.Reorder.Hold` | crates/client/src/inbound.rs:169-186 | a second copy of an offset changes nothing; otherwise the chunk is held in order |
| `OutputLoops.Reorder.Take` | crates/client/src/inbound.rs:202-220 | the chunk at the position and the buffer that is left |
| `OutputLoops.Reorder.Clear` | crates/client/src/inbound.rs:222-226 | nothing is held, and no gap is judged lost however late it is |
| `OutputLoops.DrainAll` | crates/client/src/lib.rs:907-916 | the loop shows held chunks for as long as one follows |
| `OutputLoops.Session.Output` | crates/client/src/lib.rs:878-922 | one chunk moves the reader as the stream theorems say |
| `OutputLoops.Session.Wait` | crates/client/src/lib.rs:888-899 | a chunk out of place is held if it is ahead, and a gap too wide or too old asks for one screen |
| `OutputLoops.Session.Ping` | crates/client/src/lib.rs:979-984 | a probe moves the reader as the stream theorems say: it only judges the gap |
| `OutputLoops.Session.Screen` | crates/client/src/lib.rs:946-955 | a screen moves the reader as the stream theorems say: it restates the position and drops what was held |

## Left out

- Path validation, the datagram-size search and the packet codec: whether a datagram may go, the size in force and whether a response completes a move are arguments.
- The cipher and the hash: sealing and ratcheting are ideal.
- `poll_transmit`, `close`, keep-alives, challenges and probes: their order and timing; the datagrams they seal go through `SealWith` like any other. Setting `rekey_every` is left out.
- Durations of 2^64 microseconds and more, and the saturation of the pacer's and the controller's arithmetic at machine width.
- Sequence numbers and stream offsets past 2^64 in `Commands`, where the code saturates; `Reordering` does model the checked addition.
- `Sides` records the datagrams it sealed and admitted, which the code does not keep: the history the theorems are about.
- Cell widths of text: `Widths` is an argument, so the width table, UTF-8 decoding, `rewrite_extent` and `cursor_advance` are not modelled.
- TerminalShowsSessionAndOwed: says nothing of what output written past drawn bytes, a repair or a painted screen leaves on the terminal; those need an emulator.
- MeasuredPatch: for rows of ASCII text, where a column is a byte; wide glyphs and clusters need the width table. `PaintedCells`, `RowPatch` and `PaintRow` likewise.
- SGR emission, modes, titles, scrolling, piece assembly and the status line.
- Closing, detaching and reopening a session: the journal properties hold until one of them.
- Compressing a frame before it is sealed, which may let a datagram carry more input than its chunk.
- Encoding a command: every chunk-sized command encodes, since `drain` would pass over one that did not.
- The journal is a sequence in the writer's record rather than an object of its own, and the spare input buffers are left out: reuse of allocations is not modelled.
- Locks, condition variables and atomics: each call of the writer and each turn of the output loop is one step.
- The display's answer that its predictions need a repaint is not counted among the output loop's repaints.
- Forwarded connections, except that opening one is a numbered command.
