/** What the detector measures and reports, said of packets and instants alone. */
module LossReports {
  import opened Prelude
  import opened Bits
  import opened Loss
  import opened LossDetection

  // ---- the estimates ----

  /** Each estimate moves a fixed fraction of the way to the sample: an eighth for the round trip, a quarter for its variation. */
  lemma SampledIs(rtt: Rtt, taken: Duration, delay: Duration, now: Instant)
    requires rtt.Valid()
    ensures
      var r := rtt.Sampled(taken, delay, now);
      && r.latest == Max(taken / 1000 - delay / 1000, 1)
      && (rtt.smoothed.None? ==> r.smoothed == Some(r.latest) && 2 * r.variation <= r.latest <= 2 * r.variation + 1)
      && (rtt.smoothed.Some? ==>
            var was, got := rtt.smoothed.value, r.smoothed.value;
            && 8 * got <= 7 * was + r.latest <= 8 * got + 7
            && 4 * r.variation <= 3 * rtt.variation + Max(was - r.latest, r.latest - was) <= 4 * r.variation + 3)
  {
  }

  /** An eighth more than the largest estimate, to the microsecond, and never below a millisecond. */
  lemma LossDelayIs(rtt: Rtt)
    ensures
      var most := if rtt.smoothed.None? then 333_000 else Max(Max(rtt.smoothed.value, rtt.latest), rtt.variation);
      1125 * most - 1000 < rtt.LossDelay() <= Max(1125 * most, 1_000_000)
  {
  }

  /** A round trip and four variations above the peer's own delay, within a millisecond; doubled six times at most. */
  lemma ProbeTimeoutIs(rtt: Rtt, silence: nat)
    ensures
      var base := 1000 * ((if rtt.smoothed.Some? then rtt.smoothed.value else 333_000) + 4 * rtt.variation) + 25_000_000;
      && base <= ProbeTimeoutAfter(rtt, 0) <= base + 1_000_000
      && ProbeTimeoutAfter(rtt, silence + 1) == (if silence < 6 then 2 else 1) * ProbeTimeoutAfter(rtt, silence)
  {
  }

  datatype Trip = Trip(taken: Duration, delay: Duration, now: Instant) {
    function Micros(): nat { Max(taken / 1000 - delay / 1000, 1) }
  }

  function Measured(trips: seq<Trip>): (r: Rtt)
    ensures r.Valid()
  {
    if trips == [] then Unmeasured
    else
      var last := trips[|trips| - 1];
      Measured(trips[..|trips| - 1]).Sampled(last.taken, last.delay, last.now)
  }

  ghost predicate InTime(trips: seq<Trip>) {
    forall i, j :: 0 <= i < j < |trips| ==> trips[i].now <= trips[j].now
  }

  /** The minimum was measured by trip `k`, is beaten by none since, and is not yet ten seconds old. */
  ghost predicate LeastSince(trips: seq<Trip>, k: nat, least: (nat, Instant)) {
    && k < |trips| && least == (trips[k].Micros(), trips[k].now)
    && (forall i :: k <= i < |trips| ==> trips[i].Micros() >= least.0)
    && trips[|trips| - 1].now < least.1 + 10_000_000_000
  }

  /** Over every sequence of round trips: the minimum is the least of those since it was measured, under ten seconds before. */
  lemma {:induction false} MinimumIsLeast(trips: seq<Trip>) returns (k: nat)
    requires trips != [] && InTime(trips)
    ensures Measured(trips).minimum.Some? && LeastSince(trips, k, Measured(trips).minimum.value)
  {
    var n := |trips| - 1;
    var before := Measured(trips[..n]);
    k := n;
    if n > 0 {
      var j := MinimumIsLeast(trips[..n]);
      var least := before.minimum.value;
      if least.0 <= trips[n].Micros() && trips[n].now < least.1 + 10_000_000_000 {
        k := j;
        assert forall i :: k <= i < n ==> trips[i] == trips[..n][i];
      }
    }
  }

  /** A round trip is read off exactly when the largest number acknowledged is in flight, and off that packet. */
  lemma {:induction false} SampleIs(flight: seq<InFlight>, ack: Ack, now: Instant)
    requires Ascending(flight)
    ensures forall p :: p in flight && p.number == ack.largest ==> SampleOf(flight, ack, now) == Some(Max(now - p.sent, 0))
    ensures SampleOf(flight, ack, now).Some? ==> exists p :: p in flight && p.number == ack.largest
  {
    if flight != [] {
      AscendingFirst(flight);
      SampleIs(flight[1..], ack, now);
      assert flight == [flight[0]] + flight[1..];
      assert flight[0] in flight;
    }
  }

  // ---- giving up ----

  /** Three numbers overtaken, or overtaken at all and older than the loss delay. */
  predicate Overdue(number: nat, sent: Instant, now: Instant, largest: Option<nat>, lossDelay: Duration) {
    largest.Some? && (number + 3 <= largest.value || (number < largest.value && now >= sent + lossDelay))
  }

  lemma {:induction false} SameNumber(flight: seq<InFlight>, p: InFlight, q: InFlight)
    requires Ascending(flight) && p in flight && q in flight && p.number == q.number
    ensures p == q
  {
    var i :| 0 <= i < |flight| && flight[i] == p;
    var j :| 0 <= j < |flight| && flight[j] == q;
    assert i < j ==> Earlier(flight[i], flight[j]);
    assert j < i ==> Earlier(flight[j], flight[i]);
  }

  /**
   What a judgement makes of a packet: lost if it is overdue, silent if it is not and
   its probe timeout has passed, and otherwise still in flight.
   */
  lemma GivenUpIff(d: Detector, now: Instant, p: InFlight)
    requires Ascending(d.sent) && p in d.sent
    ensures
      var overdue := Overdue(p.number, p.sent, now, d.largestAcked, d.rtt.LossDelay());
      var silent := now >= p.sent + ProbeTimeoutAfter(d.rtt, d.silence);
      && (GoneOf(p, Lost) in d.Detected(now).gone <==> overdue)
      && (GoneOf(p, Silent) in d.Detected(now).gone <==> !overdue && silent)
      && (p in d.Detected(now).sent <==> !overdue && !silent)
  {
    var judge := d.JudgeAt(now);
    DoomedIs(d.sent, judge);
    forall cause | GoneOf(p, cause) in Doomed(d.sent, judge)
      ensures judge.Fate(p) == Some(cause)
    {
      var q :| q in d.sent && judge.Fate(q) == Some(cause) && GoneOf(p, cause) == GoneOf(q, cause);
      SameNumber(d.sent, p, q);
    }
  }

  /** Every report is of a packet that was in flight, for the cause that was its own. */
  lemma CauseIs(d: Detector, now: Instant, g: Gone)
    requires g in d.Detected(now).gone
    ensures exists p :: p in d.sent && g == GoneOf(p, g.cause)
    ensures
      var overdue := Overdue(g.number, g.sent, now, d.largestAcked, d.rtt.LossDelay());
      && (g.cause == Lost <==> overdue)
      && (!overdue ==> g.cause == Silent && now >= g.sent + ProbeTimeoutAfter(d.rtt, d.silence))
  {
    DoomedIs(d.sent, d.JudgeAt(now));
  }

  /** The timeout backs off exactly when something in flight went silent. */
  lemma {:induction false} AnySilentIs(gone: seq<Gone>, n: nat)
    requires n <= |gone|
    ensures AnySilent(gone, n) <==> exists i :: 0 <= i < n && gone[i].cause == Silent
  {
    if n > 0 {
      AnySilentIs(gone, n - 1);
    }
  }

  lemma BacksOffIff(d: Detector, now: Instant)
    requires Ascending(d.sent)
    ensures
      d.Detected(now).silence == d.silence +
        if exists p :: p in d.sent && !Overdue(p.number, p.sent, now, d.largestAcked, d.rtt.LossDelay())
                       && now >= p.sent + ProbeTimeoutAfter(d.rtt, d.silence) then 1 else 0
  {
    var gone := d.Detected(now).gone;
    AnySilentIs(gone, |gone|);
    if AnySilent(gone, |gone|) {
      var i :| 0 <= i < |gone| && gone[i].cause == Silent;
      assert gone[i] in gone;
      CauseIs(d, now, gone[i]);
      var p :| p in d.sent && gone[i] == GoneOf(p, gone[i].cause);
    } else {
      forall p | p in d.sent
        ensures Overdue(p.number, p.sent, now, d.largestAcked, d.rtt.LossDelay()) || now < p.sent + ProbeTimeoutAfter(d.rtt, d.silence)
      {
        GivenUpIff(d, now, p);
      }
    }
  }

  /**
   An acknowledgement: what it names of the flight has arrived; the rest is judged by
   the highest number acknowledged so far, the new estimates, and a timeout without backoff.
   */
  lemma AcknowledgedIs(d: Detector, ack: Ack, now: Instant, p: InFlight)
    requires d.Valid() && p in d.sent
    ensures
      var r := d.Settled(ack, now).Detected(now);
      && r.largestAcked == Some(if d.largestAcked.Some? then Max(d.largestAcked.value, ack.largest) else ack.largest)
      && r.rtt == (if SampleOf(d.sent, ack, now).Some? then d.rtt.Sampled(SampleOf(d.sent, ack, now).value, ack.delay, now) else d.rtt)
      && (p in r.arrived <==> Covers(ack, p.number))
      && (!Covers(ack, p.number) ==>
            var overdue := Overdue(p.number, p.sent, now, r.largestAcked, r.rtt.LossDelay());
            var silent := now >= p.sent + r.rtt.ProbeTimeout();
            && (GoneOf(p, Lost) in r.gone <==> overdue)
            && (GoneOf(p, Silent) in r.gone <==> !overdue && silent)
            && (p in r.sent <==> !overdue && !silent))
  {
    NamedIs(d.sent, ack, true);
    NamedIs(d.sent, ack, false);
    if !Covers(ack, p.number) {
      NamedAscending(d.sent, ack, false);
      GivenUpIff(d.Settled(ack, now), now, p);
    }
  }

  // ---- silence and mistakes ----

  /**
   Congestion is persistent once a round trip is known and a silent packet was sent
   three probe timeouts after its run of silence began, and no sooner: once a run.
   */
  lemma PersistentIff(d: Detector, now: Instant)
    requires Ascending(d.sent) && !d.persistent
    ensures
      var gone := d.Detected(now).gone;
      d.Detected(now).persistent <==>
        && !d.answered && d.rtt.smoothed.Some?
        && exists k :: 0 <= k < |gone| && Outlasts(d.silentSince, gone, 3 * d.rtt.ProbeTimeout(), k)
  {
    var gone := d.Detected(now).gone;
    d.Tally().AfterIs(gone, |gone|, d.rtt.Persistence());
    DoomedInOrder(d.sent, d.JudgeAt(now));
    forall k | 0 <= k < |gone|
      ensures PersistsAt(d.silentSince, gone, 3 * d.rtt.ProbeTimeout(), k) <==> Outlasts(d.silentSince, gone, 3 * d.rtt.ProbeTimeout(), k)
    {
      PersistsAtIff(d.silentSince, gone, 3 * d.rtt.ProbeTimeout(), k);
    }
  }

  /** Report `k` is of a silent packet sent a whole period after its run began: before these reports, or with an earlier one of them. */
  predicate Outlasts(since: Option<Instant>, gone: seq<Gone>, period: Duration, k: nat)
    requires k < |gone|
  {
    && gone[k].cause == Silent
    && if since.Some? then gone[k].sent >= since.value + period
       else exists i :: 0 <= i <= k && gone[i].cause == Silent && gone[k].sent >= gone[i].sent + period
  }

  lemma PersistsAtIff(since: Option<Instant>, gone: seq<Gone>, period: Duration, k: nat)
    requires k < |gone| && period > 0
    requires forall i, j {:trigger NoLater(gone[i], gone[j])} :: 0 <= i < j < |gone| ==> NoLater(gone[i], gone[j])
    ensures PersistsAt(since, gone, period, k) <==> Outlasts(since, gone, period, k)
  {
    if since.Some? {
      RunGoesOn(since, gone, k + 1);
    } else if gone[k].cause == Silent {
      var f := RunStartIs(gone, k + 1, k);
      forall i | 0 <= i <= k && gone[i].cause == Silent
        ensures gone[f].sent <= gone[i].sent
      {
        assert f < i ==> NoLater(gone[f], gone[i]);
      }
    }
  }

  lemma {:induction false} RunGoesOn(since: Option<Instant>, gone: seq<Gone>, n: nat)
    requires since.Some? && n <= |gone|
    ensures RunStart(since, gone, n) == since
  {
    if n > 0 {
      RunGoesOn(since, gone, n - 1);
    }
  }

  /** A run of silence begins with the first silent report. */
  lemma {:induction false} RunStartIs(gone: seq<Gone>, n: nat, k: nat) returns (f: nat)
    requires k < n <= |gone| && gone[k].cause == Silent
    ensures f <= k && gone[f].cause == Silent && RunStart(None, gone, n) == Some(gone[f].sent)
    ensures forall i :: 0 <= i < f ==> gone[i].cause != Silent
    decreases n
  {
    if j :| 0 <= j < n - 1 && gone[j].cause == Silent {
      f := RunStartIs(gone, n - 1, j);
    } else {
      f := n - 1;
      NoRun(gone, n - 1);
    }
  }

  lemma {:induction false} NoRun(gone: seq<Gone>, n: nat)
    requires n <= |gone| && forall i :: 0 <= i < n ==> gone[i].cause != Silent
    ensures RunStart(None, gone, n) == None
  {
    if n > 0 {
      NoRun(gone, n - 1);
    }
  }

  predicate NoLater(g: Gone, h: Gone) { g.number < h.number && g.sent <= h.sent }

  lemma {:induction false} DoomedInOrder(flight: seq<InFlight>, judge: Judge)
    requires Ascending(flight)
    ensures forall i, j {:trigger NoLater(Doomed(flight, judge)[i], Doomed(flight, judge)[j])} ::
      0 <= i < j < |Doomed(flight, judge)| ==> NoLater(Doomed(flight, judge)[i], Doomed(flight, judge)[j])
  {
    if flight != [] {
      AscendingFirst(flight);
      DoomedInOrder(flight[1..], judge);
      DoomedIs(flight[1..], judge);
      var rest := Doomed(flight[1..], judge);
      forall j | 0 <= j < |rest|
        ensures flight[0].number < rest[j].number && flight[0].sent <= rest[j].sent
      {
        assert rest[j] in rest;
        var p :| p in flight[1..] && judge.Fate(p) == Some(rest[j].cause) && rest[j] == GoneOf(p, rest[j].cause);
        assert Earlier(flight[0], p);
      }
      var all := Doomed(flight, judge);
      var lead := |all| - |rest|;
      forall i, j | 0 <= i < j < |all|
        ensures NoLater(all[i], all[j])
      {
        if i >= lead {
          assert NoLater(rest[i - lead], rest[j - lead]);
        }
      }
    }
  }

  /** The register ends with the newest write-offs, up to its 64. */
  lemma {:induction false} OffAfterHas(off: seq<WrittenOff>, gone: seq<Gone>, n: nat, k: nat)
    requires k < n <= |gone| && n - k <= 64
    ensures WrittenOff(gone[k].number, gone[k].cause) in OffAfter(off, gone, n)
  {
    LastOf(off, gone, n, k, OffAfter(off, gone, n));
  }

  /** The register's `back`th entry from the end. */
  ghost predicate FromEnd(off: seq<WrittenOff>, back: nat, w: WrittenOff) {
    0 < back <= |off| && off[|off| - back] == w
  }

  lemma RecentFromEnd(off: seq<WrittenOff>, w: WrittenOff, back: nat, v: WrittenOff)
    requires back < 64 && (back > 0 ==> FromEnd(off, back, v))
    ensures FromEnd(Recent(off + [w]), 1, w) && (back > 0 ==> FromEnd(Recent(off + [w]), back + 1, v))
  {
  }

  lemma {:induction false} LastOf(off: seq<WrittenOff>, gone: seq<Gone>, n: nat, k: nat, r: seq<WrittenOff>)
    requires k < n <= |gone| && n - k <= 64 && r == OffAfter(off, gone, n)
    ensures FromEnd(r, n - k, WrittenOff(gone[k].number, gone[k].cause))
    decreases n
  {
    var before := OffAfter(off, gone, n - 1);
    if k < n - 1 {
      LastOf(off, gone, n - 1, k, before);
    }
    RecentFromEnd(before, WrittenOff(gone[n - 1].number, gone[n - 1].cause), n - 1 - k, WrittenOff(gone[k].number, gone[k].cause));
  }

  /**
   A mistake is recognised: a packet given up on, with fewer than 64 after it, is
   registered, and an acknowledgement that then names it says so.
   */
  lemma MistakeRecognised(d: Detector, now: Instant, k: nat, ack: Ack, later: Instant)
    requires d.Valid() && k < |d.Detected(now).gone| <= k + 64 && Covers(ack, d.Detected(now).gone[k].number)
    ensures d.Detected(now).rtt.Valid() && d.Detected(now).Settled(ack, later).revived
  {
    var r := d.Detected(now);
    OffAfterHas(d.writtenOff, r.gone, |r.gone|, k);
    var w := WrittenOff(r.gone[k].number, r.gone[k].cause);
    LateIs(r.writtenOff, ack, true);
    assert r.gone[k] in r.gone;
    CauseIs(d, now, r.gone[k]);
    assert w in Late(r.writtenOff, ack, true) && w.cause != Overflowed;
  }

  /** And only then: nothing but a registered write-off that was not an overflow is a mistake. */
  lemma RevivedIff(d: Detector, ack: Ack, now: Instant)
    requires d.rtt.Valid()
    ensures d.Settled(ack, now).revived <==>
      exists w :: w in d.writtenOff && Covers(ack, w.number) && (w.cause == Lost || w.cause == Silent)
  {
    LateIs(d.writtenOff, ack, true);
  }

  // ---- one call after another ----

  /** A run of silence began before, or with the first packet of this judgement that went silent. */
  lemma SilenceBegins(d: Detector, now: Instant)
    requires Ascending(d.sent)
    ensures
      var r := d.Detected(now);
      && (d.silentSince.Some? ==> r.silentSince == d.silentSince)
      && (d.silentSince.None? && r.silentSince.None? ==> forall i :: 0 <= i < |r.gone| ==> r.gone[i].cause != Silent)
      && (d.silentSince.None? && r.silentSince.Some? ==>
            && (exists i :: 0 <= i < |r.gone| && r.gone[i].cause == Silent && r.gone[i].sent == r.silentSince.value)
            && (forall i :: 0 <= i < |r.gone| && r.gone[i].cause == Silent ==> r.silentSince.value <= r.gone[i].sent))
  {
    var r := d.Detected(now);
    d.Tally().AfterIs(r.gone, |r.gone|, d.rtt.Persistence());
    DoomedInOrder(d.sent, d.JudgeAt(now));
    if d.silentSince.Some? {
      RunGoesOn(d.silentSince, r.gone, |r.gone|);
    } else if k :| 0 <= k < |r.gone| && r.gone[k].cause == Silent {
      var f := RunStartIs(r.gone, |r.gone|, k);
      forall i | 0 <= i < |r.gone| && r.gone[i].cause == Silent
        ensures r.gone[f].sent <= r.gone[i].sent
      {
        assert f < i ==> NoLater(r.gone[f], r.gone[i]);
      }
    } else {
      NoRun(r.gone, |r.gone|);
    }
  }

  /** What a timer call reports is its own: nothing arrived, nothing is revived, and the losses of its packets are counted. */
  lemma ExpiryReports(d: Detector, now: Instant)
    requires Ascending(d.sent)
    ensures
      var r := d.Cleared().Detected(now);
      && r.arrived == [] && !r.revived && r.losses == d.losses + CountLost(r.gone, |r.gone|)
      && (r.persistent <==>
            && !d.answered && d.rtt.smoothed.Some?
            && exists k :: 0 <= k < |r.gone| && Outlasts(d.silentSince, r.gone, 3 * d.rtt.ProbeTimeout(), k))
      && r.answered == (d.answered || r.persistent)
  {
    var c := d.Cleared();
    var r := c.Detected(now);
    PersistentIff(c, now);
    c.Tally().AfterIs(r.gone, |r.gone|, d.rtt.Persistence());
  }

  /** What an acknowledgement reports is its own too, and silence is counted afresh from it. */
  lemma AcknowledgementReports(d: Detector, ack: Ack, now: Instant)
    requires d.Valid()
    ensures
      var r := d.Settled(ack, now).Detected(now);
      && r.losses == d.losses + CountLost(r.gone, |r.gone|)
      && r.spurious == d.spurious + |set w | w in d.writtenOff && Covers(ack, w.number)|
      && (r.persistent <==>
            r.rtt.smoothed.Some? && exists k :: 0 <= k < |r.gone| && Outlasts(None, r.gone, 3 * r.rtt.ProbeTimeout(), k))
  {
    var s := d.Settled(ack, now);
    var r := s.Detected(now);
    NamedAscending(d.sent, ack, false);
    PersistentIff(s, now);
    s.Tally().AfterIs(r.gone, |r.gone|, s.rtt.Persistence());
    LateCount(d.writtenOff, ack);
  }

  lemma {:induction false} LateCount(off: seq<WrittenOff>, ack: Ack)
    requires OffAscending(off)
    ensures |Late(off, ack, true)| == |set w | w in off && Covers(ack, w.number)|
  {
    if off != [] {
      var rest := off[1..];
      LateCount(rest, ack);
      var tail := set w | w in rest && Covers(ack, w.number);
      forall w | w in rest
        ensures w != off[0]
      {
        var j :| 0 <= j < |rest| && rest[j] == w;
        assert Before(off[0], off[j + 1]);
      }
      assert off == [off[0]] + rest;
      assert (set w | w in off && Covers(ack, w.number)) == tail + if Covers(ack, off[0].number) then {off[0]} else {};
    }
  }

  ghost function Expiries(d: Detector, times: seq<Instant>): Detector {
    if times == [] then d else Expiries(d, times[..|times| - 1]).Cleared().Detected(times[|times| - 1])
  }

  /** A run of silence is answered once: however often the timer fires after that, nothing more is persistent until the peer speaks. */
  lemma {:induction false} AnsweredOnce(d: Detector, times: seq<Instant>)
    requires Ordered(d.writtenOff, d.sent) && d.answered
    ensures Ordered(Expiries(d, times).writtenOff, Expiries(d, times).sent) && Expiries(d, times).answered
    ensures times != [] ==> !Expiries(d, times).persistent
  {
    if times != [] {
      var front, now := times[..|times| - 1], times[|times| - 1];
      AnsweredOnce(d, front);
      var e := Expiries(d, front);
      DetectedOrdered(e.writtenOff, e.sent, e.Cleared().JudgeAt(now));
      ExpiryReports(e, now);
    }
  }
}
