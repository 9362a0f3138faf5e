/** How the window moves, in closed form over whole runs of arrivals and losses. */
module WindowGrowth {
  import opened Prelude
  import opened Loss
  import opened LossDetection
  import opened LossReports
  import opened CongestionControl
  import opened Absorbing

  // ---- slow start ----

  /** The latest round trip is over the minimum by more than an eighth of it, taken between 4 and 16 ms. */
  predicate Queueing(rtt: Rtt) {
    rtt.minimum.Some? && rtt.latest > rtt.minimum.value.0 + Max(4_000, Min(rtt.minimum.value.0 / 8, 16_000))
  }

  /** How many samples in a row, with this one, were of a filling queue; before a minimum is known none counts. */
  function Streak(before: nat, rtt: Rtt): nat {
    if rtt.minimum.None? then before else if Queueing(rtt) then before + 1 else 0
  }

  /** Arrivals none of which is a third sample in a row of a filling queue. */
  predicate Calm(streak: nat, calls: seq<Call>)
    decreases |calls|
  {
    calls == [] || (calls[0].Arrive? && Streak(streak, calls[0].rtt) < 3 && Calm(Streak(streak, calls[0].rtt), calls[1..]))
  }

  function StreakOver(streak: nat, calls: seq<Call>): nat
    decreases |calls|
  {
    if calls == [] then streak
    else StreakOver(if calls[0].Arrive? then Streak(streak, calls[0].rtt) else streak, calls[1..])
  }

  /** The bytes of those arrivals that were sent into a full window. */
  function LimitedBytes(calls: seq<Call>): nat {
    if calls == [] then 0
    else (if calls[0].Arrive? && calls[0].limited == Window then calls[0].bytes else 0) + LimitedBytes(calls[1..])
  }

  /** Still below every threshold a ceiling allows. */
  ghost predicate Starting(c: Controller) {
    0 < c.window <= 512 * c.datagram < c.ssthresh && c.overshoot < 3
  }

  /** Slow start has gone on, and the window grown by so many bytes, up to 512 datagrams. */
  ghost predicate Grew(c: Controller, bytes: nat, streak: nat, r: Controller) {
    && Starting(r) && r.ssthresh == c.ssthresh && r.datagram == c.datagram && r.overshoot == streak
    && r.window == Min(c.window + bytes, 512 * c.datagram)
  }

  /** One arrival of a calm run in slow start. */
  lemma ArrivalGrows(c: Controller, a: Call, r: Controller)
    requires Starting(c) && a.Arrive? && Streak(c.overshoot, a.rtt) < 3 && r == Apply(c, a)
    ensures Grew(c, if a.limited == Window then a.bytes else 0, Streak(c.overshoot, a.rtt), r)
  {
  }

  /**
   Over every calm run of arrivals in slow start the window grows by exactly the bytes
   that had filled it, up to 512 datagrams, and slow start goes on.
   */
  lemma {:induction false} SlowStartGrows(c: Controller, calls: seq<Call>, r: Controller)
    requires Starting(c) && Calm(c.overshoot, calls) && r == ApplyAll(c, calls)
    ensures Grew(c, LimitedBytes(calls), StreakOver(c.overshoot, calls), r)
    decreases |calls|
  {
    if calls != [] {
      var next := Apply(c, calls[0]);
      ArrivalGrows(c, calls[0], next);
      SlowStartGrows(next, calls[1..], r);
    }
  }

  /** A whole window acknowledged in slow start doubles it. */
  lemma FlightDoubles(c: Controller, calls: seq<Call>)
    requires Starting(c) && Calm(c.overshoot, calls) && LimitedBytes(calls) == c.window
    ensures ApplyAll(c, calls).window == Min(2 * c.window, 512 * c.datagram)
  {
    SlowStartGrows(c, calls, ApplyAll(c, calls));
  }

  /** After two samples in a row of a filling queue, a third ends slow start where the window stands, or at ten datagrams. */
  lemma ThirdEndsSlowStart(c: Controller, third: Call)
    requires Starting(c) && c.overshoot == 2 && third.Arrive? && Queueing(third.rtt)
    ensures Apply(c, third).ssthresh == Max(c.window, 10 * c.datagram)
  {
  }

  /** Whatever else an arrival does it frees its bytes and sets the round trip that paces; one the window did not hold back leaves the window. */
  lemma ArrivalFrees(c: Controller, a: Call)
    requires c.window > 0 && a.Arrive?
    ensures Apply(c, a).inFlight == Max(c.inFlight - a.bytes, 0) && Apply(c, a).srtt == a.rtt.smoothed
    ensures a.limited == Application ==> Apply(c, a).window == c.window && Apply(c, a).credit == c.credit
  {
  }

  // ---- avoidance ----

  /** What `k` datagrams of growth cost: the window each is bought at. */
  function Cost(window: nat, datagram: nat, ceiling: nat, k: nat): nat
    decreases k
  {
    if k == 0 then 0 else window + Cost(Min(window + datagram, ceiling), datagram, ceiling, k - 1)
  }

  function Grown(window: nat, datagram: nat, ceiling: nat, k: nat): nat
    decreases k
  {
    if k == 0 then window else Grown(Min(window + datagram, ceiling), datagram, ceiling, k - 1)
  }

  /** In closed form: a datagram each, and never past the ceiling. */
  lemma {:induction false} GrownIs(window: nat, datagram: nat, ceiling: nat, k: nat)
    requires window <= ceiling
    ensures Grown(window, datagram, ceiling, k) == Min(window + k * datagram, ceiling)
    decreases k
  {
    if k > 0 {
      var next := Min(window + datagram, ceiling);
      GrownIs(next, datagram, ceiling, k - 1);
      assert k * datagram == datagram + (k - 1) * datagram;
    }
  }

  /** Credit buys `k` datagrams exactly when it covers their cost and not one more's. */
  lemma {:induction false} CreditBuys(window: nat, credit: nat, datagram: nat, ceiling: nat, k: nat)
    requires 0 < window <= ceiling
    requires Cost(window, datagram, ceiling, k) <= credit < Cost(window, datagram, ceiling, k + 1)
    ensures Credited(window, credit, datagram, ceiling)
         == (Min(window + k * datagram, ceiling), credit - Cost(window, datagram, ceiling, k))
    decreases k
  {
    GrownIs(window, datagram, ceiling, k);
    var next := Min(window + datagram, ceiling);
    if k > 0 {
      CreditBuys(next, credit - window, datagram, ceiling, k - 1);
      GrownIs(next, datagram, ceiling, k - 1);
    } else {
      assert Cost(window, datagram, ceiling, 1) == window + Cost(next, datagram, ceiling, 0);
    }
  }

  /** Credit spent in two goes buys what it buys at once. */
  lemma {:induction false} CreditedTwice(window: nat, credit: nat, more: nat, datagram: nat, ceiling: nat)
    requires 0 < window <= ceiling
    ensures
      var r := Credited(window, credit, datagram, ceiling);
      Credited(r.0, r.1 + more, datagram, ceiling) == Credited(window, credit + more, datagram, ceiling)
    decreases credit
  {
    if credit >= window {
      CreditedTwice(Min(window + datagram, ceiling), credit - window, more, datagram, ceiling);
    }
  }

  /** Past the threshold and within the ceiling. */
  ghost predicate Avoiding(c: Controller) {
    0 < c.window <= 512 * c.datagram && c.window >= c.ssthresh
  }

  predicate Arrivals(calls: seq<Call>) {
    forall i :: 0 <= i < |calls| ==> calls[i].Arrive?
  }

  /** Where so much credit leaves the window and what is left of it. */
  ghost predicate Spends(c: Controller, credit: nat, r: Controller) {
    (r.window, r.credit) == Credited(c.window, credit, c.datagram, 512 * c.datagram)
  }

  lemma ArrivalCredits(c: Controller, a: Call, r: Controller)
    requires Avoiding(c) && a.Arrive? && c.credit < c.window && r == Apply(c, a)
    ensures Avoiding(r) && r.ssthresh == c.ssthresh && r.datagram == c.datagram && r.credit < r.window
    ensures Spends(c, c.credit + if a.limited == Window then a.bytes else 0, r)
  {
    OneDatagramPerWindow(c.window, c.credit + a.bytes, c.datagram, 512 * c.datagram);
  }

  lemma SpendsThrough(c: Controller, credit: nat, next: Controller, more: nat, r: Controller)
    requires 0 < c.window <= 512 * c.datagram && next.datagram == c.datagram
    requires Spends(c, credit, next) && Spends(next, next.credit + more, r)
    ensures Spends(c, credit + more, r)
  {
    CreditedTwice(c.window, credit, more, c.datagram, 512 * c.datagram);
  }

  lemma {:induction false} AvoidanceCredits(c: Controller, calls: seq<Call>, r: Controller)
    requires Avoiding(c) && c.credit < c.window && Arrivals(calls) && r == ApplyAll(c, calls)
    ensures Avoiding(r) && r.ssthresh == c.ssthresh && Spends(c, c.credit + LimitedBytes(calls), r)
    decreases |calls|
  {
    if calls != [] {
      var a, next := calls[0], Apply(c, calls[0]);
      ArrivalCredits(c, a, next);
      AvoidanceCredits(next, calls[1..], r);
      SpendsThrough(c, c.credit + (if a.limited == Window then a.bytes else 0), next, LimitedBytes(calls[1..]), r);
    }
  }

  /**
   Over every run of arrivals in avoidance the window grows by exactly one datagram
   for each window of bytes that had filled it, at the size the window then has.
   */
  lemma AvoidanceGrows(c: Controller, calls: seq<Call>, k: nat)
    requires Avoiding(c) && c.credit < c.window && Arrivals(calls)
    requires
      var credit := c.credit + LimitedBytes(calls);
      Cost(c.window, c.datagram, 512 * c.datagram, k) <= credit < Cost(c.window, c.datagram, 512 * c.datagram, k + 1)
    ensures ApplyAll(c, calls).window == Min(c.window + k * c.datagram, 512 * c.datagram)
    ensures ApplyAll(c, calls).ssthresh == c.ssthresh
  {
    AvoidanceCredits(c, calls, ApplyAll(c, calls));
    CreditBuys(c.window, c.credit + LimitedBytes(calls), c.datagram, 512 * c.datagram, k);
  }

  // ---- losses ----

  /** A loss is news unless its packet was sealed before recovery began: then, and only then, the window halves. */
  lemma LossHalvesIff(c: Controller, bytes: nat, sent: Instant, now: Instant)
    ensures
      var r := c.Lost(bytes, sent, now);
      var news := c.recoveryStart.None? || sent >= c.recoveryStart.value;
      && r.window == (if news then Max(c.window / 2, Min(2 * c.datagram, c.window)) else c.window)
      && r.ssthresh == (if news then r.window else c.ssthresh)
      && r.recoveryStart == (if news then Some(now) else c.recoveryStart)
      && (news ==> r.credit == 0 && r.overshoot == 0)
  {
  }

  /** Recovery ends with the first arrival sealed after it began, and every loss after that is news. */
  lemma RecoveryEnds(c: Controller, a: Call, bytes: nat, sent: Instant, now: Instant)
    requires c.window > 0 && c.recoveryStart.Some? && a.Arrive?
    ensures Apply(c, a).recoveryStart == if a.sent > c.recoveryStart.value then None else c.recoveryStart
    ensures
      var n := Apply(c, a);
      a.sent > c.recoveryStart.value ==> n.Lost(bytes, sent, now).window == Max(n.window / 2, Min(2 * c.datagram, n.window))
  {
  }

  /** A collapse leaves two datagrams, and slow start back to half of what there was, or to ten datagrams. */
  lemma CollapseRestarts(c: Controller, now: Instant)
    requires c.datagram > 0
    ensures
      var r := c.Collapsed(now);
      && r.window == Min(2 * c.datagram, c.window) && r.ssthresh == Max(c.window / 2, 10 * c.datagram)
      && r.window < r.ssthresh && r.inFlight == c.inFlight && r.credit == 0 && r.overshoot == 0
  {
  }

  /** After a move the controller is a new one that counts the old flight. */
  lemma MoveRestarts(c: Controller)
    ensures c.Migrated() == Opened(c.datagram).(inFlight := c.inFlight)
    ensures 0 < 512 * c.datagram < USIZE_MAX ==> Starting(c.Migrated())
  {
  }

  predicate News(c: Controller, g: Gone) {
    g.cause == Lost && (c.recoveryStart.None? || g.sent >= c.recoveryStart.value)
  }

  /** After the first loss that is news, no packet lost was sealed at the very instant of the report. */
  predicate Apart(c: Controller, gone: seq<Gone>, now: Instant) {
    forall i, j :: 0 <= i < j < |gone| && News(c, gone[i]) && gone[j].cause == Lost ==> gone[j].sent < now
  }

  lemma {:induction false} OldLossesMoveNothing(c: Controller, gone: seq<Gone>, now: Instant)
    requires c.window > 0 && forall i :: 0 <= i < |gone| ==> !News(c, gone[i])
    ensures ApplyAll(c, GoneCalls(gone, now)) == c.(inFlight := ApplyAll(c, GoneCalls(gone, now)).inFlight)
    decreases |gone|
  {
    if gone != [] {
      var calls := GoneCalls(gone, now);
      assert calls[0] == GoneCall(gone[0], now) && calls[1..] == GoneCalls(gone[1..], now);
      OldLossesMoveNothing(Apply(c, calls[0]), gone[1..], now);
    }
  }

  /** The window, the threshold, and what a mistake would restore. */
  ghost predicate Halved(c: Controller, r: Controller, now: Instant) {
    && r.window == r.ssthresh == Max(c.window / 2, Min(2 * c.datagram, c.window))
    && r.undo == Some(Undo(c.window, c.ssthresh)) && r.recoveryStart == Some(now) && r.datagram == c.datagram
  }

  /**
   However many packets one report gives up on, the window halves once if any of them
   was lost and is news, and otherwise stays: silence alone never moves it.
   */
  lemma {:induction false} ReportHalvesOnce(c: Controller, gone: seq<Gone>, now: Instant, r: Controller)
    requires c.window > 0 && c.datagram > 0 && Apart(c, gone, now)
    requires r == ApplyAll(c, GoneCalls(gone, now))
    ensures (exists i :: 0 <= i < |gone| && News(c, gone[i])) ==> Halved(c, r, now)
    ensures !(exists i :: 0 <= i < |gone| && News(c, gone[i])) ==> r == c.(inFlight := r.inFlight)
    decreases |gone|
  {
    if gone != [] && News(c, gone[0]) {
      var calls := GoneCalls(gone, now);
      assert calls[0] == GoneCall(gone[0], now) && calls[1..] == GoneCalls(gone[1..], now);
      OldLossesMoveNothing(Apply(c, calls[0]), gone[1..], now);
    } else if gone != [] {
      FirstIsOld(c, gone, now, r);
    }
  }

  lemma {:induction false} FirstIsOld(c: Controller, gone: seq<Gone>, now: Instant, r: Controller)
    requires c.window > 0 && c.datagram > 0 && Apart(c, gone, now) && gone != [] && !News(c, gone[0])
    requires r == ApplyAll(c, GoneCalls(gone, now))
    ensures (exists i :: 0 <= i < |gone| && News(c, gone[i])) ==> Halved(c, r, now)
    ensures !(exists i :: 0 <= i < |gone| && News(c, gone[i])) ==> r == c.(inFlight := r.inFlight)
    decreases |gone|, 0
  {
    var calls := GoneCalls(gone, now);
    assert calls[0] == GoneCall(gone[0], now) && calls[1..] == GoneCalls(gone[1..], now);
    var next := Apply(c, calls[0]);
    ReportHalvesOnce(next, gone[1..], now, r);
    if i :| 0 <= i < |gone| && News(c, gone[i]) {
      assert News(next, gone[1..][i - 1]);
    } else {
      assert forall i :: 0 <= i < |gone| - 1 ==> gone[1..][i] == gone[i + 1];
    }
  }

  /** Two packets sealed and lost at the instant of one report: the second is not taken for the first's flight, and the window halves twice. */
  lemma SameInstantHalvesTwice(now: Instant)
    ensures
      var c := Opened(1200);
      var gone := [Gone(0, 1200, now, Lost), Gone(1, 1200, now, Lost)];
      !Apart(c, gone, now) && ApplyAll(c, GoneCalls(gone, now)).window == 3000
  {
    var c := Opened(1200);
    var gone := [Gone(0, 1200, now, Lost), Gone(1, 1200, now, Lost)];
    assert News(c, gone[0]) && gone[1].cause == Lost;
    var calls := GoneCalls(gone, now);
    var once := Apply(c, calls[0]);
    assert calls[1..] == [calls[1]];
    ApplyOne(once, calls[1]);
  }

  // ---- the pacer ----

  /** Five windows every four round trips; a window every 100 ms before one is measured. */
  lemma PacedRate(k: nat, window: nat, s: nat)
    requires s >= 1
    ensures Gained(4 * s * k, window, Some(s)) == 5 * window * k
    ensures Gained(100_000 * k, window, None) == window * k
  {
    Cancels(5 * window * k, 4 * s);
    assert 4 * s * k * 5 * window == 5 * window * k * (4 * s);
    Cancels(window * k, 100_000);
    assert 100_000 * k * window == window * k * 100_000;
  }

  lemma Cancels(a: nat, q: nat)
    requires q > 0
    ensures a * q / q == a
  {
    DivAtLeast(a, a * q, q);
    if a * q / q > a {
      MulMonotone(q, a + 1, a * q / q);
      assert false;
    }
  }

  lemma DivAddAtMost(x: nat, y: nat, q: nat)
    requires q > 0
    ensures (x + y) / q <= x / q + y / q + 1
  {
    var sum := x / q + y / q;
    assert x + y < q * (sum + 2);
    if (x + y) / q >= sum + 2 {
      MulMonotone(q, sum + 2, (x + y) / q);
      assert false;
    }
  }

  /** Two intervals gain at most a byte more together than apart. */
  lemma GainedAtMost(a: nat, b: nat, window: nat, srtt: Option<nat>)
    ensures Gained(a + b, window, srtt) <= Gained(a, window, srtt) + Gained(b, window, srtt) + 1
  {
    match srtt
    case Some(s) =>
      assert (a + b) * 5 * window == a * 5 * window + b * 5 * window;
      DivAddAtMost(a * 5 * window, b * 5 * window, 4 * Max(s, 1));
    case None =>
      assert (a + b) * window == a * window + b * window;
      DivAddAtMost(a * window, b * window, 100_000);
  }

  lemma DivBelow(x: nat, k: nat, q: nat)
    requires q > 0 && x < q * k
    ensures x / q < k
  {
    if x / q >= k {
      MulMonotone(q, k, x / q);
      assert false;
    }
  }

  lemma CeilDivLeast(a: nat, b: nat, k: nat)
    requires b > 0 && k < CeilDiv(a, b)
    ensures k * b < a
  {
    var q := CeilDiv(a, b);
    assert q * b <= a + b - 1;
    MulMonotone(b, k + 1, q);
    assert b * (k + 1) == k * b + b;
  }

  /** A shorter wait than the pacer names gains less than is short. */
  lemma ShorterGainsLess(k: nat, short: nat, window: nat, srtt: Option<nat>)
    requires window > 0 && (srtt.Some? ==> srtt.value >= 1)
    requires k < match srtt case Some(s) => CeilDiv(s * 4 * short, 5 * window) case None => CeilDiv(100_000 * short, window)
    ensures Gained(k, window, srtt) < short
  {
    match srtt
    case Some(s) =>
      CeilDivLeast(s * 4 * short, 5 * window, k);
      assert k * 5 * window == k * (5 * window);
      assert s * 4 * short == 4 * s * short;
      DivBelow(k * 5 * window, short, 4 * s);
    case None =>
      CeilDivLeast(100_000 * short, window, k);
      DivBelow(k * window, short, 100_000);
  }

  /** The pacer names no instant later than it must: a microsecond earlier the bucket held no more than the bytes. */
  lemma ReadyNotLate(p: Pacer, now: Instant, bytes: nat, window: nat, burst: nat, srtt: Option<nat>, t: Instant)
    requires window > 0 && bytes <= burst && (srtt.Some? ==> srtt.value >= 1)
    requires p.refilled.Some? ==> p.refilled.value <= now
    requires now <= t && t + 1000 <= p.Ready(now, bytes, window, burst, srtt)
    ensures p.Available(t, window, burst, srtt) <= bytes
  {
    var have := p.Available(now, window, burst, srtt);
    var wait := (p.Ready(now, bytes, window, burst, srtt) - now) / 1000;
    var before, then_ := Micros(now - p.refilled.value), Micros(t - p.refilled.value);
    assert before <= then_ < before + wait;
    ShorterGainsLess(then_ - before, bytes - have, window, srtt);
    GainedAtMost(before, then_ - before, window, srtt);
  }

  /** What may be written keeps the flight within the window. */
  lemma WritableFits(c: Controller, bytes: nat, now: Instant)
    requires c.Writable(now, bytes)
    ensures c.Sealed(bytes, now).inFlight == c.inFlight + bytes <= c.window
    ensures c.Sealed(bytes, now).Holds(now) + bytes == c.Holds(now)
    ensures c.LimitedAt(bytes) == Window <==> c.Sealed(bytes, now).inFlight + c.datagram > c.window
  {
  }

  // ---- a loss that was none ----

  lemma ExpiryCalls(e: Detector, now: Instant, width: nat)
    requires e.arrived == [] && !e.revived && !e.persistent
    ensures Calls(e, now, width) == GoneCalls(e.gone, now) + [Resize(width)]
  {
  }

  /** What an expiry makes of the controller, when it is not a collapse. */
  lemma ExpiryApplied(c: Controller, e: Detector, now: Instant, width: nat, answered: Controller, r: Controller)
    requires e.arrived == [] && !e.revived && !e.persistent && answered.window > 0
    requires answered == ApplyAll(c, GoneCalls(e.gone, now)) && r == ApplyAll(c, Calls(e, now, width))
    ensures r == answered.(datagram := width)
  {
    ExpiryCalls(e, now, width);
    ApplyAllConcat(c, GoneCalls(e.gone, now), [Resize(width)]);
    ResizeOnly(answered, width);
  }

  lemma HalvedRestored(c: Controller, answered: Controller, r: Controller, now: Instant, width: nat)
    requires c.window > 0 && c.datagram > 0 && Halved(c, answered, now) && r == answered.(datagram := width)
    ensures r.window == Max(c.window / 2, Min(2 * c.datagram, c.window)) > 0
    ensures Apply(r, Unwind).window == Min(c.window, 512 * width) && Apply(r, Unwind).ssthresh >= c.ssthresh
  {
  }

  /** A whole report: a mistake is taken back and arrivals counted before its losses are answered, once. */
  lemma ReportAnswered(c: Controller, d: Detector, now: Instant, width: nat, grown: Controller, r: Controller)
    requires grown == ApplyAll(ApplyAll(c, if d.revived then [Unwind] else []), ArriveCalls(d.arrived, d.rtt))
    requires grown.window > 0 && grown.datagram > 0 && !d.persistent && r == ApplyAll(c, Calls(d, now, width))
    requires Apart(grown, d.gone, now)
    ensures r.window == if exists i :: 0 <= i < |d.gone| && News(grown, d.gone[i])
                        then Max(grown.window / 2, Min(2 * grown.datagram, grown.window)) else grown.window
    ensures r.datagram == width
  {
    CallsApplied(c, d, now, width);
    var answered := ApplyAll(grown, GoneCalls(d.gone, now));
    ReportHalvesOnce(grown, d.gone, now, answered);
    ResizeOnly(answered, width);
  }

  lemma ResizeOnly(c: Controller, width: nat)
    requires c.window > 0
    ensures ApplyAll(c, [Resize(width)]) == c.(datagram := width) && ApplyAll(c.(datagram := width), []) == c.(datagram := width)
  {
    ApplyOne(c, Resize(width));
  }

  /** A report of persistent congestion leaves two datagrams at most, whatever arrived with it, and slow start back to ten. */
  lemma PersistentCollapses(c: Controller, d: Detector, now: Instant, width: nat, r: Controller)
    requires d.persistent && width > 0 && r == ApplyAll(c, Calls(d, now, width)) && c.window > 0 && c.datagram > 0
    requires c.inFlight >= FlightBytes(d.arrived) + GoneBytes(d.gone)
    ensures 0 < r.window <= 2 * width && r.ssthresh >= 10 * width && r.recoveryStart == Some(now)
  {
    var calm := d.(persistent := false);
    var before := ApplyAll(c, Calls(calm, now, width));
    CollapseLast(c, d, calm, now, width, before, r);
    ReportSound(c, calm, now, width, before);
    CollapsedAt(before, now, r);
  }

  lemma CollapseLast(c: Controller, d: Detector, calm: Detector, now: Instant, width: nat, before: Controller, r: Controller)
    requires d.persistent && calm == d.(persistent := false)
    requires before == ApplyAll(c, Calls(calm, now, width)) && r == ApplyAll(c, Calls(d, now, width))
    ensures r == ApplyAll(before, [Call.Collapse(now)])
  {
    assert Calls(d, now, width) == Calls(calm, now, width) + [Call.Collapse(now)];
    ApplyAllConcat(c, Calls(calm, now, width), [Call.Collapse(now)]);
  }

  lemma CollapsedAt(before: Controller, now: Instant, r: Controller)
    requires before.window > 0 && before.datagram > 0 && r == ApplyAll(before, [Call.Collapse(now)])
    ensures 0 < r.window <= 2 * before.datagram && r.ssthresh >= 10 * before.datagram && r.recoveryStart == Some(now)
  {
    ApplyOne(before, Call.Collapse(now));
  }

  lemma ReportSound(c: Controller, d: Detector, now: Instant, width: nat, r: Controller)
    requires !d.persistent && width > 0 && r == ApplyAll(c, Calls(d, now, width)) && c.window > 0 && c.datagram > 0
    requires c.inFlight >= FlightBytes(d.arrived) + GoneBytes(d.gone)
    ensures r.window > 0 && r.datagram == width
  {
    var calls := Calls(d, now, width);
    CallsFree(d, now, width);
    PlainReport(d, now, width, calls);
    KeepsWindow(c, calls, r);
    LastWidth(c, d, now, width, calls, r);
  }

  lemma PlainReport(d: Detector, now: Instant, width: nat, calls: seq<Call>)
    requires width > 0 && calls == Calls(d, now, width)
    ensures Plain(calls)
  {
  }

  lemma KeepsWindow(c: Controller, calls: seq<Call>, r: Controller)
    requires c.datagram > 0 && c.window > 0 && FreedAll(calls) <= c.inFlight && Plain(calls) && r == ApplyAll(c, calls)
    ensures r.window > 0
  {
    FreedExactly(c, calls);
  }

  lemma LastWidth(c: Controller, d: Detector, now: Instant, width: nat, calls: seq<Call>, r: Controller)
    requires !d.persistent && calls == Calls(d, now, width) && r == ApplyAll(c, calls) && r.window > 0
    ensures r.datagram == width
  {
    var front := (if d.revived then [Unwind] else []) + ArriveCalls(d.arrived, d.rtt) + GoneCalls(d.gone, now);
    assert calls == front + [Resize(width)];
    ApplyAllConcat(c, front, [Resize(width)]);
    WidthSet(ApplyAll(c, front), width, r);
  }

  lemma WidthSet(c: Controller, width: nat, r: Controller)
    requires r == ApplyAll(c, [Resize(width)]) && r.window > 0
    ensures r.datagram == width
  {
    assert [Resize(width)][1..] == [];
  }

  /**
   A loss that was none costs nothing: the timer gives up on a packet and the window
   halves; the acknowledgement that names it after all is recognised, and the first
   thing the controller is then told puts the window back, within 512 datagrams.
   */
  lemma MistakeCostsNothing(d: Detector, c: Controller, now: Instant, width: nat, k: nat, ack: Ack, later: Instant,
                            e: Detector, halved: Controller)
    requires d.Valid() && e == d.Cleared().Detected(now) && !e.persistent
    requires c.window > 0 && c.datagram > 0 && width > 0 && Apart(c, e.gone, now)
    requires k < |e.gone| <= k + 64 && News(c, e.gone[k]) && e.rtt.Valid() && Covers(ack, e.gone[k].number)
    requires halved == ApplyAll(c, Calls(e, now, width))
    ensures halved.window == Max(c.window / 2, Min(2 * c.datagram, c.window)) > 0
    ensures Calls(e.Settled(ack, later).Detected(later), later, width)[0] == Unwind
    ensures Apply(halved, Unwind).window == Min(c.window, 512 * width) && Apply(halved, Unwind).ssthresh >= c.ssthresh
  {
    ExpiryHalves(c, e, now, width, k, halved);
    MistakeTold(d, now, width, k, ack, later, e);
  }

  /** A timer call that reports a loss that is news halves the window, and taking it back restores it. */
  lemma ExpiryHalves(c: Controller, e: Detector, now: Instant, width: nat, k: nat, halved: Controller)
    requires c.window > 0 && c.datagram > 0 && Apart(c, e.gone, now) && k < |e.gone| && News(c, e.gone[k])
    requires e.arrived == [] && !e.revived && !e.persistent && halved == ApplyAll(c, Calls(e, now, width))
    ensures halved.window == Max(c.window / 2, Min(2 * c.datagram, c.window)) > 0
    ensures Apply(halved, Unwind).window == Min(c.window, 512 * width) && Apply(halved, Unwind).ssthresh >= c.ssthresh
  {
    var answered := ApplyAll(c, GoneCalls(e.gone, now));
    ReportHalvesOnce(c, e.gone, now, answered);
    ExpiryApplied(c, e, now, width, answered, halved);
    HalvedRestored(c, answered, halved, now, width);
  }

  /** A mistake that is recognised is the first thing the controller is told. */
  lemma MistakeTold(d: Detector, now: Instant, width: nat, k: nat, ack: Ack, later: Instant, e: Detector)
    requires d.Valid() && e == d.Cleared().Detected(now) && e.rtt.Valid()
    requires k < |e.gone| <= k + 64 && Covers(ack, e.gone[k].number)
    ensures Calls(e.Settled(ack, later).Detected(later), later, width)[0] == Unwind
  {
    MistakeRecognised(d.Cleared(), now, k, ack, later);
    RevivedFirst(e.Settled(ack, later).Detected(later), later, width);
  }

  lemma RevivedFirst(d: Detector, now: Instant, width: nat)
    requires d.revived
    ensures Calls(d, now, width)[0] == Unwind
  {
  }
}
