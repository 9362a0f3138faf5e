/** The flight table: acknowledgement, detection and the probe timer, each proved against whole-flight filters. */
module LossDetection {
  import opened Bits
  import opened Prelude
  import opened Loss

  predicate Before(v: WrittenOff, w: WrittenOff) {
    v.number < w.number
  }

  ghost predicate OffAscending(off: seq<WrittenOff>) {
    forall i, j {:trigger Before(off[i], off[j])} :: 0 <= i < j < |off| ==> Before(off[i], off[j])
  }

  /** The most recent write-offs the register keeps. */
  function Recent(off: seq<WrittenOff>): seq<WrittenOff> {
    if |off| > MAX_WRITTEN_OFF then off[|off| - MAX_WRITTEN_OFF..] else off
  }

  lemma RecentKeeps(off: seq<WrittenOff>, w: WrittenOff)
    requires OffAscending(off) && |off| <= MAX_WRITTEN_OFF
    requires off != [] ==> Before(off[|off| - 1], w)
    ensures OffAscending(Recent(off + [w])) && 0 < |Recent(off + [w])| <= MAX_WRITTEN_OFF
    ensures Recent(off + [w])[|Recent(off + [w])| - 1] == w
  {
    forall i | 0 <= i < |off|
      ensures Before(off[i], w)
    {
      assert i < |off| - 1 ==> Before(off[i], off[|off| - 1]);
    }
  }

  /** How many of the first `n` reports are losses. */
  function CountLost(gone: seq<Gone>, n: nat): nat
    requires n <= |gone|
  {
    if n == 0 then 0 else CountLost(gone, n - 1) + (if gone[n - 1].cause == Lost then 1 else 0)
  }

  predicate AnySilent(gone: seq<Gone>, n: nat)
    requires n <= |gone|
  {
    n > 0 && (gone[n - 1].cause == Silent || AnySilent(gone, n - 1))
  }

  /** When the run of silence the first `n` reports are part of began: before them, or at the first silent one. */
  function RunStart(since: Option<Instant>, gone: seq<Gone>, n: nat): Option<Instant>
    requires n <= |gone|
  {
    if n == 0 then since
    else
      var before := RunStart(since, gone, n - 1);
      if before.None? && gone[n - 1].cause == Silent then Some(gone[n - 1].sent) else before
  }

  /** Report `k` is a silent packet sent a whole persistent-congestion period after its run began. */
  predicate PersistsAt(since: Option<Instant>, gone: seq<Gone>, period: Duration, k: nat)
    requires k < |gone|
  {
    var start := RunStart(since, gone, k + 1);
    gone[k].cause == Silent && start.Some? && Since(gone[k].sent, start.value) >= period
  }

  /** The register once the first `n` reports have been written off. */
  function OffAfter(off: seq<WrittenOff>, gone: seq<Gone>, n: nat): seq<WrittenOff>
    requires n <= |gone|
  {
    if n == 0 then off
    else Recent(OffAfter(off, gone, n - 1) + [WrittenOff(gone[n - 1].number, gone[n - 1].cause)])
  }

  /** Losses counted, and the current run of silence: when it began, whether it was answered, whether just now. */
  datatype Totals = Totals(losses: nat, since: Option<Instant>, answered: bool, persistent: bool) {
    /** `period` is how long a silence makes the path gone rather than slow, once a round trip is known. */
    function Noted(g: Gone, period: Option<Duration>): Totals {
      var start := if since.None? && g.cause == Silent then Some(g.sent) else since;
      var collapse := !answered && g.cause == Silent && period.Some? && Since(g.sent, start.value) >= period.value;
      Totals(losses + (if g.cause == Lost then 1 else 0), start, answered || collapse, persistent || collapse)
    }

    /** Once the first `n` reports are noted. */
    function After(gone: seq<Gone>, n: nat, period: Option<Duration>): Totals
      requires n <= |gone|
    {
      if n == 0 then this else After(gone, n - 1, period).Noted(gone[n - 1], period)
    }

    /** What the totals are, counted from the reports: losses, the start of the silent run, and whether some silent packet outlasted the period. */
    lemma {:induction false} AfterIs(gone: seq<Gone>, n: nat, period: Option<Duration>)
      requires n <= |gone|
      ensures After(gone, n, period).losses == losses + CountLost(gone, n)
      ensures After(gone, n, period).since == RunStart(since, gone, n)
      ensures var collapse := !answered && period.Some?
                && exists k :: 0 <= k < n && PersistsAt(since, gone, period.value, k);
              && After(gone, n, period).answered == (answered || collapse)
              && After(gone, n, period).persistent == (persistent || collapse)
    {
      if n > 0 {
        AfterIs(gone, n - 1, period);
        assert period.Some? ==> PersistsAt(since, gone, period.value, n - 1) || !PersistsAt(since, gone, period.value, n - 1);
      }
    }
  }

  /** The registered write-offs an acknowledgement names (`named`), or those it leaves standing. */
  function Late(off: seq<WrittenOff>, ack: Ack, named: bool): (r: seq<WrittenOff>)
    ensures |r| <= |off|
  {
    if off == [] then []
    else (if Covers(ack, off[0].number) == named then [off[0]] else []) + Late(off[1..], ack, named)
  }

  lemma {:induction false} LateIs(off: seq<WrittenOff>, ack: Ack, named: bool)
    ensures forall w :: w in Late(off, ack, named) <==> w in off && Covers(ack, w.number) == named
  {
    if off != [] {
      LateIs(off[1..], ack, named);
      assert off == [off[0]] + off[1..];
    }
  }

  lemma {:induction false} LateConcat(a: seq<WrittenOff>, b: seq<WrittenOff>, ack: Ack, named: bool)
    ensures Late(a + b, ack, named) == Late(a, ack, named) + Late(b, ack, named)
  {
    if a == [] {
      assert a + b == b;
    } else {
      assert (a + b)[1..] == a[1..] + b;
      LateConcat(a[1..], b, ack, named);
    }
  }

  lemma {:induction false} LateAscending(off: seq<WrittenOff>, ack: Ack, named: bool)
    requires OffAscending(off)
    ensures OffAscending(Late(off, ack, named))
  {
    if off != [] {
      LateAscending(off[1..], ack, named);
      LateIs(off[1..], ack, named);
      var rest := Late(off[1..], ack, named);
      forall w | w in rest
        ensures Before(off[0], w)
      {
        var j :| 0 <= j < |off[1..]| && off[1..][j] == w;
        assert Before(off[0], off[j + 1]);
      }
      assert forall i :: 0 <= i < |rest| ==> rest[i] in rest;
    }
  }

  /** The register once everything too old for this acknowledgement to name is dropped from its front. */
  function Reachable(off: seq<WrittenOff>, ack: Ack): (r: seq<WrittenOff>)
    ensures |r| <= |off|
  {
    if off != [] && off[0].number + 64 < ack.largest then Reachable(off[1..], ack) else off
  }

  lemma {:induction false} ReachableIs(off: seq<WrittenOff>, ack: Ack)
    requires OffAscending(off)
    ensures OffAscending(Reachable(off, ack)) && forall w :: w in Reachable(off, ack) ==> w in off
    ensures Late(Reachable(off, ack), ack, true) == Late(off, ack, true)
  {
    if off != [] && off[0].number + 64 < ack.largest {
      ReachableIs(off[1..], ack);
    }
  }

  /** Everything written off precedes everything in flight. */
  ghost predicate Precedes(off: seq<WrittenOff>, flight: seq<InFlight>) {
    off != [] && flight != [] ==> off[|off| - 1].number < flight[0].number
  }

  lemma PrecedesStill(off: seq<WrittenOff>, flight: seq<InFlight>, fewer: seq<WrittenOff>, rest: seq<InFlight>)
    requires OffAscending(off) && Ascending(flight) && Precedes(off, flight)
    requires forall w :: w in fewer ==> w in off
    requires forall p :: p in rest ==> p in flight
    ensures Precedes(fewer, rest)
  {
    if fewer != [] && rest != [] {
      assert fewer[|fewer| - 1] in off && rest[0] in flight;
      var i :| 0 <= i < |off| && off[i] == fewer[|fewer| - 1];
      var j :| 0 <= j < |flight| && flight[j] == rest[0];
      if i < |off| - 1 {
        assert Before(off[i], off[|off| - 1]);
      }
      if j > 0 {
        assert Earlier(flight[0], flight[j]);
      }
    }
  }

  /** The register and the flight are each in order, and the one precedes the other. */
  ghost predicate Ordered(off: seq<WrittenOff>, flight: seq<InFlight>) {
    OffAscending(off) && |off| <= MAX_WRITTEN_OFF && Ascending(flight) && Precedes(off, flight)
  }

  /** Retiring the front keeps the order. */
  lemma OrderedRetired(off: seq<WrittenOff>, flight: seq<InFlight>, cause: Cause)
    requires Ordered(off, flight) && flight != []
    ensures Ordered(Recent(off + [WrittenOff(flight[0].number, cause)]), flight[1..])
  {
    AscendingFirst(flight);
    assert |flight| > 1 ==> flight[1] in flight[1..];
    RecentKeeps(off, WrittenOff(flight[0].number, cause));
  }

  /** Retiring every doomed packet, front first, keeps the order and leaves a front with no fate. */
  lemma {:induction false} DetectedOrdered(off: seq<WrittenOff>, flight: seq<InFlight>, judge: Judge)
    requires Ordered(off, flight)
    ensures var doomed := Doomed(flight, judge);
            Ordered(OffAfter(off, doomed, |doomed|), Kept(flight, judge))
    ensures Kept(flight, judge) != [] ==> judge.Fate(Kept(flight, judge)[0]).None?
    decreases |flight|
  {
    if flight == [] || judge.Fate(flight[0]).None? {
      DoomedIsPrefix(flight, judge);
    } else {
      var cause := judge.Fate(flight[0]).value;
      var w := WrittenOff(flight[0].number, cause);
      OrderedRetired(off, flight, cause);
      DetectedOrdered(Recent(off + [w]), flight[1..], judge);
      OffAfterFirst(off, Doomed(flight, judge), |Doomed(flight, judge)|);
      assert Doomed(flight, judge)[1..] == Doomed(flight[1..], judge);
    }
  }

  lemma {:induction false} OffAfterFirst(off: seq<WrittenOff>, gone: seq<Gone>, n: nat)
    requires 0 < n <= |gone|
    ensures OffAfter(off, gone, n)
         == OffAfter(Recent(off + [WrittenOff(gone[0].number, gone[0].cause)]), gone[1..], n - 1)
  {
    if n > 1 {
      OffAfterFirst(off, gone, n - 1);
    }
  }

  /** The packet at the front of what is left is the next one doomed. */
  lemma Retires(doomed: seq<Gone>, gone: seq<Gone>, rest: seq<InFlight>, judge: Judge)
    requires rest != [] && judge.Fate(rest[0]).Some? && doomed == gone + Doomed(rest, judge)
    ensures
      var next := GoneOf(rest[0], judge.Fate(rest[0]).value);
      doomed == gone + [next] + Doomed(rest[1..], judge) && doomed[|gone|] == next && Kept(rest[1..], judge) == Kept(rest, judge)
  {
  }

  /** Stopping at the first survivor retires exactly every doomed packet of the flight. */
  method Sweep(flight: seq<InFlight>, register: seq<WrittenOff>, start: Totals, judge: Judge, period: Option<Duration>)
    returns (rest: seq<InFlight>, gone: seq<Gone>, off: seq<WrittenOff>, totals: Totals, abandoned: bool)
    requires Ordered(register, flight)
    ensures rest == Kept(flight, judge) && gone == Doomed(flight, judge)
    ensures off == OffAfter(register, gone, |gone|) && totals == start.After(gone, |gone|, period)
    ensures abandoned == AnySilent(gone, |gone|)
    ensures Ordered(off, rest)
    ensures rest != [] ==> judge.Fate(rest[0]).None?
  {
    ghost var doomed := Doomed(flight, judge);
    rest, gone, off, totals, abandoned := flight, [], register, start, false;
    while rest != [] && judge.Fate(rest[0]).Some?
      invariant Ordered(off, rest)
      invariant doomed == gone + Doomed(rest, judge)
      invariant Kept(rest, judge) == Kept(flight, judge)
      invariant off == OffAfter(register, doomed, |gone|) && totals == start.After(doomed, |gone|, period)
      invariant abandoned == AnySilent(doomed, |gone|)
      decreases |rest|
    {
      var cause := judge.Fate(rest[0]).value;
      var next := GoneOf(rest[0], cause);
      Retires(doomed, gone, rest, judge);
      OrderedRetired(off, rest, cause);
      off := Recent(off + [WrittenOff(next.number, cause)]);
      abandoned := abandoned || cause == Silent;
      totals := totals.Noted(next, period);
      rest, gone := rest[1..], gone + [next];
    }
    DoomedIsPrefix(rest, judge);
    assert gone == doomed;
  }

  /** The detector's fields. `arrived` to `revived` are what the last call reported. */
  datatype Detector = Detector(
    sent: seq<InFlight>, rtt: Rtt, largestAcked: Option<nat>,
    arrived: seq<InFlight>, gone: seq<Gone>, persistent: bool, revived: bool,
    writtenOff: seq<WrittenOff>, silence: nat, silentSince: Option<Instant>, answered: bool,
    losses: nat, spurious: nat)
  {
    /** Nothing in flight has been overtaken: detection ran whenever the mark rose. */
    ghost predicate Valid() {
      && Ordered(writtenOff, sent) && |sent| <= MAX_TRACKED && rtt.Valid()
      && (sent != [] && largestAcked.Some? ==> largestAcked.value < sent[0].number + PACKET_THRESHOLD)
    }

    /** The packet comes after everything tracked, written off or acknowledged. */
    ghost predicate Newer(packet: InFlight) {
      && (sent != [] ==> Earlier(sent[|sent| - 1], packet))
      && (writtenOff != [] ==> writtenOff[|writtenOff| - 1].number < packet.number)
      && (largestAcked.Some? ==> largestAcked.value < packet.number)
    }

    function Tally(): Totals {
      Totals(losses, silentSince, answered, persistent)
    }

    function JudgeAt(now: Instant): Judge {
      JudgeBy(now, largestAcked, rtt, silence)
    }

    function Deadline(): Option<Instant> {
      if sent == [] then None else
      var oldest := sent[0];
      var deadline := oldest.sent + ProbeTimeoutAfter(rtt, silence);
      Some(if largestAcked.Some? && oldest.number < largestAcked.value
           then Min(deadline, oldest.sent + rtt.LossDelay()) else deadline)
    }

    predicate Admits() {
      |sent| < MAX_TRACKED
    }

    /** Nothing is left over from the call before. */
    function Cleared(): Detector {
      this.(arrived := [], gone := [], persistent := false, revived := false)
    }

    /** What judging the flight at `now` makes of it. */
    ghost function Detected(now: Instant): Detector {
      var doomed := Doomed(sent, JudgeAt(now));
      var totals := Tally().After(doomed, |doomed|, rtt.Persistence());
      this.(sent := Kept(sent, JudgeAt(now)), gone := doomed,
            writtenOff := OffAfter(writtenOff, doomed, |doomed|),
            losses := totals.losses, silentSince := totals.since,
            answered := totals.answered, persistent := totals.persistent,
            silence := silence + if AnySilent(doomed, |doomed|) then 1 else 0)
    }

    /** What an acknowledgement makes of it before judging: everything it names has arrived. */
    ghost function Settled(ack: Ack, now: Instant): Detector
      requires rtt.Valid()
    {
      var sample := SampleOf(sent, ack, now);
      this.(sent := Named(sent, ack, false), arrived := Named(sent, ack, true),
            gone := [], persistent := false, revived := Revives(writtenOff, ack),
            writtenOff := Late(Reachable(writtenOff, ack), ack, false),
            silence := 0, silentSince := None, answered := false,
            largestAcked := Some(Highest(largestAcked, ack.largest)),
            rtt := if sample.Some? then rtt.Sampled(sample.value, ack.delay, now) else rtt,
            spurious := spurious + |Late(writtenOff, ack, true)|)
    }
  }

  const Idle: Detector := Detector([], Unmeasured, None, [], [], false, false, [], 0, None, false, 0, 0)

  class LossDetector {
    var state: Detector

    constructor ()
      ensures state == Idle && state.Valid()
    {
      state := Idle;
    }

    /** The flight is kept, none of it overtaken until this path has an acknowledgement, and no old write-off can prove mistaken. */
    method Migrated()
      requires state.Valid()
      modifies this
      ensures state.Valid()
      ensures state == old(state).(rtt := Unmeasured, silence := 0, silentSince := None, answered := false,
                                   largestAcked := None, writtenOff := [])
      ensures state.sent == old(state).sent
      ensures forall now: Instant, p: InFlight :: !state.JudgeAt(now).Overtaken(p)
      ensures forall ack: Ack :: !Revives(state.writtenOff, ack)
    {
      state := state.(rtt := Unmeasured, silence := 0, silentSince := None, answered := false,
                      largestAcked := None, writtenOff := []);
    }

    /** The table takes the packet; only a table that was already full gives up its oldest for it. */
    method Sealed(packet: InFlight)
      requires state.Valid() && state.Newer(packet)
      modifies this
      ensures state.Valid()
      ensures old(state).Admits() ==> state == old(state).Cleared().(sent := old(state).sent + [packet]) && state.gone == []
      ensures state.arrived == [] && !state.persistent && !state.revived
      ensures !old(state).Admits() ==>
        state == old(state).Cleared().(
                   sent := old(state).sent[1..] + [packet], gone := [GoneOf(old(state).sent[0], Overflowed)],
                   writtenOff := Recent(old(state).writtenOff + [WrittenOff(old(state).sent[0].number, Overflowed)]))
    {
      var flight, off, dropped := Push(state.sent, state.writtenOff, packet);
      state := state.Cleared().(sent := flight, writtenOff := off, gone := dropped);
    }

    /** The timer fires for something exactly when its deadline has come. */
    method Expire(now: Instant)
      requires state.Valid()
      modifies this
      ensures state.Valid() && state == old(state).Cleared().Detected(now)
      ensures state.gone != [] <==> old(state).Deadline().Some? && old(state).Deadline().value <= now
    {
      DueIff(state, now);
      var next := Detect(state.Cleared(), now);
      state := next;
    }

    /** An acknowledgement takes out of the flight, oldest first, exactly what it names; the rest is then judged. */
    method Acknowledged(ack: Ack, now: Instant) returns (sample: Option<Duration>)
      requires state.Valid()
      modifies this
      ensures state.Valid() && state == old(state).Settled(ack, now).Detected(now)
      ensures sample == SampleOf(old(state).sent, ack, now)
    {
      var settled, next;
      SettledKeeps(state, ack, now);
      settled, sample := Settle(state, ack, now);
      next := Detect(settled, now);
      state := next;
    }
  }

  method Push(sent: seq<InFlight>, writtenOff: seq<WrittenOff>, packet: InFlight)
    returns (flight: seq<InFlight>, off: seq<WrittenOff>, dropped: seq<Gone>)
    requires Ordered(writtenOff, sent) && |sent| <= MAX_TRACKED
    requires sent != [] ==> Earlier(sent[|sent| - 1], packet)
    requires writtenOff != [] ==> writtenOff[|writtenOff| - 1].number < packet.number
    ensures Ordered(off, flight) && |flight| <= MAX_TRACKED
    ensures |sent| < MAX_TRACKED ==> flight == sent + [packet] && off == writtenOff && dropped == []
    ensures |sent| == MAX_TRACKED ==>
      && flight == sent[1..] + [packet] && dropped == [GoneOf(sent[0], Overflowed)]
      && off == Recent(writtenOff + [WrittenOff(sent[0].number, Overflowed)])
  {
    Pushed(sent, packet);
    flight, off, dropped := sent + [packet], writtenOff, [];
    while |flight| > MAX_TRACKED
      invariant Ordered(off, flight)
      invariant || (flight == sent + [packet] && dropped == [] && off == writtenOff)
                || (|sent| == MAX_TRACKED && flight == sent[1..] + [packet] && dropped == [GoneOf(sent[0], Overflowed)]
                    && off == Recent(writtenOff + [WrittenOff(sent[0].number, Overflowed)]))
      decreases |flight|
    {
      var oldest := flight[0];
      OrderedRetired(off, flight, Overflowed);
      flight := flight[1..];
      off := Recent(off + [WrittenOff(oldest.number, Overflowed)]);
      dropped := dropped + [GoneOf(oldest, Overflowed)];
    }
  }

  method Detect(d: Detector, now: Instant) returns (r: Detector)
    requires Ordered(d.writtenOff, d.sent) && |d.sent| <= MAX_TRACKED && d.rtt.Valid()
    ensures r == d.Detected(now) && r.Valid()
  {
    var rest, doomed, off, totals, abandoned := Sweep(d.sent, d.writtenOff, d.Tally(), d.JudgeAt(now), d.rtt.Persistence());
    r := d.(sent := rest, writtenOff := off, gone := doomed, losses := totals.losses,
            silentSince := totals.since, answered := totals.answered, persistent := totals.persistent,
            silence := d.silence + if abandoned then 1 else 0);
  }

  method Settle(d: Detector, ack: Ack, now: Instant) returns (r: Detector, sample: Option<Duration>)
    requires d.Valid()
    ensures r == d.Settled(ack, now) && sample == SampleOf(d.sent, ack, now)
  {
    var kept, took, off, count, proof;
    kept, took, sample := Scan(d.sent, ack, now);
    off, count, proof := CountLate(d.writtenOff, ack);
    r := d.(sent := kept, arrived := took, gone := [], persistent := false, revived := proof,
            writtenOff := off, silence := 0, silentSince := None, answered := false,
            largestAcked := Some(Highest(d.largestAcked, ack.largest)),
            rtt := if sample.Some? then d.rtt.Sampled(sample.value, ack.delay, now) else d.rtt,
            spurious := d.spurious + count);
  }

  lemma SettledKeeps(d: Detector, ack: Ack, now: Instant)
    requires d.Valid()
    ensures
      var r := d.Settled(ack, now);
      Ordered(r.writtenOff, r.sent) && |r.sent| <= MAX_TRACKED && r.rtt.Valid()
  {
    AckKeeps(d.writtenOff, d.sent, ack);
  }

  /** Something is doomed at an instant exactly when the deadline is at or before it. */
  lemma DueIff(d: Detector, now: Instant)
    requires d.Valid()
    ensures Doomed(d.sent, d.JudgeAt(now)) != [] <==> d.Deadline().Some? && d.Deadline().value <= now
  {
    DoomedFirst(d.sent, d.JudgeAt(now));
  }

  function Highest(seen: Option<nat>, number: nat): nat {
    if seen.Some? then Max(seen.value, number) else number
  }

  /** The answer to a write-off was a mistake, unless it was only the table overflowing. */
  predicate Revives(off: seq<WrittenOff>, ack: Ack) {
    exists w :: w in Late(off, ack, true) && w.cause != Overflowed
  }

  /** What an acknowledgement leaves of the register and the flight is still in order. */
  lemma AckKeeps(off: seq<WrittenOff>, flight: seq<InFlight>, ack: Ack)
    requires Ordered(off, flight)
    ensures Ordered(Late(Reachable(off, ack), ack, false), Named(flight, ack, false))
  {
    NamedAscending(flight, ack, false);
    NamedIs(flight, ack, false);
    ReachableIs(off, ack);
    LateAscending(Reachable(off, ack), ack, false);
    LateIs(Reachable(off, ack), ack, false);
    PrecedesStill(off, flight, Late(Reachable(off, ack), ack, false), Named(flight, ack, false));
  }

  /** The bounded backwards walk finds, oldest first, exactly what filtering the whole flight would. */
  method Scan(flight: seq<InFlight>, ack: Ack, now: Instant)
    returns (sent: seq<InFlight>, arrived: seq<InFlight>, sample: Option<Duration>)
    requires Ascending(flight)
    ensures arrived == Named(flight, ack, true) && sent == Named(flight, ack, false)
    ensures sample == SampleOf(flight, ack, now)
  {
    var end := PartitionPoint(flight, ack.largest + 1);
    var start := PartitionPoint(flight, Max(ack.largest - 64, 0));
    sent, arrived, sample := flight, [], None;
    var index := end;
    NamedNone(flight[index..], ack);
    SampleFrom(flight[index..], |flight| - index, ack, now);
    while index > start
      invariant index <= |flight|
      invariant sent == flight[..index] + Named(flight[index..], ack, false)
      invariant arrived == Reverse(Named(flight[index..], ack, true))
      invariant sample == SampleOf(flight[index..], ack, now)
    {
      index := index - 1;
      NamedStep(flight, index, ack);
      Splice(flight, index, Named(flight[index + 1..], ack, false));
      var packet := sent[index];
      if Covers(ack, packet.number) {
        ReverseCons(packet, Named(flight[index + 1..], ack, true));
        sent := sent[..index] + sent[index + 1..];
        if packet.number == ack.largest {
          sample := Some(Since(now, packet.sent));
        }
        arrived := arrived + [packet];
      }
    }
    NamedFrom(flight, index, ack);
    SampleFrom(flight, index, ack, now);
    ReverseTwice(Named(flight, ack, true));
    arrived := Reverse(arrived);
  }

  lemma Splice<T>(s: seq<T>, index: nat, rest: seq<T>)
    requires index < |s|
    ensures var all := s[..index + 1] + rest;
            && all[index] == s[index]
            && all[..index] + all[index + 1..] == s[..index] + rest
            && all == s[..index] + ([s[index]] + rest)
  {
  }

  lemma {:induction false} SampleFrom(flight: seq<InFlight>, index: nat, ack: Ack, now: Instant)
    requires index <= |flight|
    requires forall i :: 0 <= i < index ==> flight[i].number != ack.largest
    ensures SampleOf(flight, ack, now) == SampleOf(flight[index..], ack, now)
  {
    if index > 0 {
      SampleFrom(flight[1..], index - 1, ack, now);
      assert flight[1..][index - 1..] == flight[index..];
    } else {
      assert flight[index..] == flight;
    }
  }

  lemma NamedStep(flight: seq<InFlight>, index: nat, ack: Ack)
    requires index < |flight|
    ensures Named(flight[index..], ack, true)
         == if Covers(ack, flight[index].number) then [flight[index]] + Named(flight[index + 1..], ack, true)
            else Named(flight[index + 1..], ack, true)
    ensures Named(flight[index..], ack, false)
         == if Covers(ack, flight[index].number) then Named(flight[index + 1..], ack, false)
            else [flight[index]] + Named(flight[index + 1..], ack, false)
  {
    assert flight[index..][1..] == flight[index + 1..];
  }

  lemma NamedFrom(flight: seq<InFlight>, index: nat, ack: Ack)
    requires index <= |flight|
    requires forall i :: 0 <= i < index ==> !Covers(ack, flight[i].number)
    ensures Named(flight, ack, true) == Named(flight[index..], ack, true)
    ensures Named(flight, ack, false) == flight[..index] + Named(flight[index..], ack, false)
  {
    assert flight == flight[..index] + flight[index..];
    NamedConcat(flight[..index], flight[index..], ack, true);
    NamedConcat(flight[..index], flight[index..], ack, false);
    NamedNone(flight[..index], ack);
  }

  lemma Removed(off: seq<WrittenOff>, index: nat)
    requires index < |off|
    ensures (off[..index] + off[index + 1..])[..index] == off[..index]
    ensures (off[..index] + off[index + 1..])[index..] == off[index..][1..]
  {
  }

  lemma LateStep(off: seq<WrittenOff>, k: nat, ack: Ack)
    requires k < |off|
    ensures off[k + 1..] == off[k..][1..]
    ensures Late(off[..k + 1], ack, true) == Late(off[..k], ack, true) + if Covers(ack, off[k].number) then [off[k]] else []
    ensures Late(off[..k + 1], ack, false) == Late(off[..k], ack, false) + if Covers(ack, off[k].number) then [] else [off[k]]
  {
    assert off[..k + 1] == off[..k] + [off[k]];
    LateConcat(off[..k], [off[k]], ack, true);
    LateConcat(off[..k], [off[k]], ack, false);
  }

  /** Both loops over the register: what is named is counted and struck off, and the rest is kept in order. */
  method CountLate(before: seq<WrittenOff>, ack: Ack) returns (off: seq<WrittenOff>, count: nat, proof: bool)
    requires OffAscending(before)
    ensures off == Late(Reachable(before, ack), ack, false)
    ensures count == |Late(before, ack, true)|
    ensures proof <==> Revives(before, ack)
  {
    ReachableIs(before, ack);
    off, count, proof := before, 0, false;
    while off != [] && off[0].number + 64 < ack.largest
      invariant Reachable(off, ack) == Reachable(before, ack)
      decreases |off|
    {
      off := off[1..];
    }
    ghost var near, k := off, 0;
    var index := 0;
    while index < |off|
      invariant 0 <= k <= |near| && 0 <= index <= |off|
      invariant off[index..] == near[k..]
      invariant off[..index] == Late(near[..k], ack, false)
      invariant count == |Late(near[..k], ack, true)|
      invariant proof <==> exists w :: w in Late(near[..k], ack, true) && w.cause != Overflowed
      decreases |off| - index
    {
      var w := off[index];
      assert w == near[k];
      LateStep(near, k, ack);
      if Covers(ack, w.number) {
        proof := proof || w.cause != Overflowed;
        count := count + 1;
        Removed(off, index);
        off := off[..index] + off[index + 1..];
      } else {
        index := index + 1;
      }
      k := k + 1;
    }
    assert near[..k] == near;
  }

  /** Something is doomed exactly when the oldest is. */
  lemma DoomedFirst(flight: seq<InFlight>, judge: Judge)
    requires Ascending(flight)
    ensures Doomed(flight, judge) != [] <==> flight != [] && judge.Fate(flight[0]).Some?
  {
    if flight == [] || judge.Fate(flight[0]).None? {
      DoomedIsPrefix(flight, judge);
    }
  }

  lemma ReverseCons<T>(x: T, s: seq<T>)
    ensures Reverse([x] + s) == Reverse(s) + [x]
  {
    assert ([x] + s)[1..] == s;
  }

  lemma {:induction false} ReverseTwice<T>(s: seq<T>)
    ensures Reverse(Reverse(s)) == s
  {
    if s != [] {
      ReverseAppend(Reverse(s[1..]), s[0]);
      ReverseTwice(s[1..]);
    }
  }

  method PartitionPoint(flight: seq<InFlight>, bound: nat) returns (point: nat)
    requires Ascending(flight)
    ensures point <= |flight|
    ensures forall i :: 0 <= i < point ==> flight[i].number < bound
    ensures forall i :: point <= i < |flight| ==> bound <= flight[i].number
  {
    var lo, hi := 0, |flight|;
    while lo < hi
      invariant 0 <= lo <= hi <= |flight|
      invariant forall i :: 0 <= i < lo ==> flight[i].number < bound
      invariant forall i :: hi <= i < |flight| ==> bound <= flight[i].number
    {
      var mid := (lo + hi) / 2;
      forall i | 0 <= i < |flight| && i != mid
        ensures if i < mid then Earlier(flight[i], flight[mid]) else Earlier(flight[mid], flight[i])
      {
      }
      if flight[mid].number < bound {
        lo := mid + 1;
      } else {
        hi := mid;
      }
    }
    point := lo;
  }
}
