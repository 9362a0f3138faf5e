/**
 Round-trip estimates, acknowledgements and the fate of a packet, as values; RFC
 9002 has the rules in sections 6.1, 6.2.1 and 7.6. Instants and durations are
 nanoseconds.
 */
module Loss {
  import opened Bits
  import opened Prelude

  type Instant = nat
  type Duration = nat

  const PACKET_THRESHOLD: nat := 3
  const INITIAL_RTT: nat := 333_000          // microseconds
  const MIN_LOSS_DELAY: Duration := 1_000_000
  const TIMER_GRANULARITY: nat := 1_000      // microseconds
  const MAX_ACK_DELAY: Duration := 25_000_000
  const MAX_TRACKED: nat := 4096
  const MAX_WRITTEN_OFF: nat := 64
  const RTT_MIN_WINDOW: Duration := 10_000_000_000
  const MAX_PTO_BACKOFF: nat := 6

  function Micros(d: Duration): nat { d / 1000 }

  function Since(now: Instant, then_: Instant): Duration { Max(now - then_, 0) }

  /** Smoothed round trip, variation, and the windowed minimum, in microseconds. */
  datatype Rtt = Rtt(smoothed: Option<nat>, variation: nat, latest: nat, minimum: Option<(nat, Instant)>) {
    /** No estimate is ever zero, whatever delay the peer claims. */
    ghost predicate Valid() {
      && (smoothed.Some? ==> smoothed.value >= 1 && latest >= 1 && minimum.Some?)
      && (minimum.Some? ==> minimum.value.0 >= 1)
    }

    function Sampled(taken: Duration, delay: Duration, now: Instant): (r: Rtt)
      requires Valid()
      ensures r.Valid() && r.smoothed.Some?
      ensures smoothed.Some? ==>
        Min(smoothed.value, r.latest) <= r.smoothed.value <= Max(smoothed.value, r.latest)
    {
      var adjusted := Max(Micros(taken) - Micros(delay), 1);
      var least := if minimum.None? || adjusted < minimum.value.0 || Since(now, minimum.value.1) >= RTT_MIN_WINDOW
                   then Some((adjusted, now)) else minimum;
      match smoothed
      case None => Rtt(Some(adjusted), adjusted / 2, adjusted, least)
      case Some(was) =>
        var difference := if was > adjusted then was - adjusted else adjusted - was;
        Rtt(Some((was * 7 + adjusted) / 8), (variation * 3 + difference) / 4, adjusted, least)
    }

    function LossDelay(): (d: Duration)
      ensures d >= MIN_LOSS_DELAY
    {
      var base := match smoothed case None => INITIAL_RTT case Some(s) => Max(Max(s, latest), variation);
      Max(base * 9 / 8 * 1000, MIN_LOSS_DELAY)
    }

    function ProbeTimeout(): (d: Duration)
      ensures d > MAX_ACK_DELAY
    {
      var s := match smoothed case None => INITIAL_RTT case Some(s) => s;
      (s + Max(4 * variation, TIMER_GRANULARITY)) * 1000 + MAX_ACK_DELAY
    }

    /** How long a silence makes the path gone: on the timer without backoff, and only once measured. */
    function Persistence(): Option<Duration> {
      if smoothed.Some? then Some(3 * ProbeTimeout()) else None
    }
  }

  const Unmeasured: Rtt := Rtt(None, 0, 0, None)

  datatype Limited = Application | Window

  datatype InFlight = InFlight(number: nat, bytes: nat, sent: Instant, limited: Limited)

  datatype Cause = Lost | Silent | Overflowed

  datatype Gone = Gone(number: nat, bytes: nat, sent: Instant, cause: Cause)

  datatype WrittenOff = WrittenOff(number: nat, cause: Cause)

  datatype Ack = Ack(largest: nat, delay: Duration, behind: Word)

  /** Whether an acknowledgement names a packet: only `largest - 64 ..= largest` can be. */
  predicate Covers(ack: Ack, number: nat) {
    number == ack.largest || (ack.largest - 64 <= number < ack.largest && ack.behind[ack.largest - number - 1])
  }

  /** The bit is what masking the map reads. */
  lemma CoversMasks(ack: Ack, number: nat)
    ensures Covers(ack, number) <==>
            || number == ack.largest
            || (number < ack.largest && ack.largest - number <= 64
                && Meets(ack.behind, Mask(ack.largest - number - 1)))
  {
    if number < ack.largest && ack.largest - number <= 64 {
      MaskReads(ack.behind, ack.largest - number - 1);
    }
  }

  predicate Earlier(p: InFlight, q: InFlight) {
    p.number < q.number && p.sent <= q.sent
  }

  /** Numbers rise along a flight, and send times do not fall. */
  ghost predicate Ascending(flight: seq<InFlight>) {
    forall i, j {:trigger Earlier(flight[i], flight[j])} :: 0 <= i < j < |flight| ==> Earlier(flight[i], flight[j])
  }

  /** The first packet comes before every other. */
  lemma AscendingFirst(flight: seq<InFlight>)
    requires Ascending(flight) && flight != []
    ensures Ascending(flight[1..])
    ensures forall q :: q in flight[1..] ==> Earlier(flight[0], q)
  {
    forall q | q in flight[1..]
      ensures Earlier(flight[0], q)
    {
      var j :| 0 <= j < |flight[1..]| && flight[1..][j] == q;
      assert Earlier(flight[0], flight[j + 1]);
    }
  }

  lemma Pushed(flight: seq<InFlight>, p: InFlight)
    requires Ascending(flight)
    requires flight != [] ==> Earlier(flight[|flight| - 1], p)
    ensures Ascending(flight + [p])
  {
    forall i | 0 <= i < |flight|
      ensures Earlier(flight[i], p)
    {
      assert i < |flight| - 1 ==> Earlier(flight[i], flight[|flight| - 1]);
    }
  }

  // ---- acknowledging ----

  /** The packets of a flight an acknowledgement names (`named`), or those it does not, in order. */
  function Named(flight: seq<InFlight>, ack: Ack, named: bool): (r: seq<InFlight>)
    ensures |r| <= |flight|
  {
    if flight == [] then []
    else (if Covers(ack, flight[0].number) == named then [flight[0]] else []) + Named(flight[1..], ack, named)
  }

  /** The round trip the newest packet an acknowledgement names took, if it is in flight. */
  function SampleOf(flight: seq<InFlight>, ack: Ack, now: Instant): Option<Duration> {
    if flight == [] then None
    else if flight[0].number == ack.largest then Some(Since(now, flight[0].sent))
    else SampleOf(flight[1..], ack, now)
  }

  lemma {:induction false} NamedIs(flight: seq<InFlight>, ack: Ack, named: bool)
    ensures forall p :: p in Named(flight, ack, named) <==> p in flight && Covers(ack, p.number) == named
  {
    if flight != [] {
      NamedIs(flight[1..], ack, named);
      assert flight == [flight[0]] + flight[1..];
    }
  }

  lemma {:induction false} NamedConcat(a: seq<InFlight>, b: seq<InFlight>, ack: Ack, named: bool)
    ensures Named(a + b, ack, named) == Named(a, ack, named) + Named(b, ack, named)
  {
    if a == [] {
      assert a + b == b;
    } else {
      assert (a + b)[1..] == a[1..] + b;
      NamedConcat(a[1..], b, ack, named);
    }
  }

  lemma {:induction false} NamedNone(flight: seq<InFlight>, ack: Ack)
    requires forall i :: 0 <= i < |flight| ==> !Covers(ack, flight[i].number)
    ensures Named(flight, ack, true) == [] && Named(flight, ack, false) == flight
  {
    if flight != [] {
      NamedNone(flight[1..], ack);
    }
  }

  lemma {:induction false} NamedAscending(flight: seq<InFlight>, ack: Ack, named: bool)
    requires Ascending(flight)
    ensures Ascending(Named(flight, ack, named))
  {
    if flight != [] {
      AscendingFirst(flight);
      NamedIs(flight[1..], ack, named);
      NamedAscending(flight[1..], ack, named);
      Prepended(flight[0], Named(flight[1..], ack, named));
    }
  }

  lemma Prepended(p: InFlight, flight: seq<InFlight>)
    requires Ascending(flight)
    requires forall q :: q in flight ==> Earlier(p, q)
    ensures Ascending([p] + flight) && Ascending([] + flight)
  {
    assert [] + flight == flight;
    assert forall i :: 0 <= i < |flight| ==> flight[i] in flight;
  }

  function Reverse<T>(s: seq<T>): (r: seq<T>)
    ensures |r| == |s|
  {
    if s == [] then [] else Reverse(s[1..]) + [s[0]]
  }

  lemma {:induction false} ReverseAppend<T>(s: seq<T>, x: T)
    ensures Reverse(s + [x]) == [x] + Reverse(s)
  {
    if s == [] {
      assert s + [x] == [x];
      assert [x][1..] == [];
    } else {
      assert (s + [x])[1..] == s[1..] + [x];
      ReverseAppend(s[1..], x);
    }
  }

  // ---- giving up ----

  /** `d << times`. */
  function Doubled(d: Duration, times: nat): (r: Duration)
    ensures r >= d
  {
    if times == 0 then d else 2 * Doubled(d, times - 1)
  }

  /** Doubled per consecutive timeout, and bounded. */
  function ProbeTimeoutAfter(rtt: Rtt, silence: nat): (d: Duration)
    ensures d > MAX_ACK_DELAY
  {
    Doubled(rtt.ProbeTimeout(), Min(silence, MAX_PTO_BACKOFF))
  }

  /** What a detection pass at one instant judges by. */
  datatype Judge = Judge(now: Instant, largest: Option<nat>, lossDelay: Duration, probeTimeout: Duration) {
    function Fate(p: InFlight): Option<Cause> {
      if Overtaken(p) || (largest.Some? && p.number < largest.value && Since(now, p.sent) >= lossDelay) then Some(Lost)
      else if Since(now, p.sent) >= probeTimeout then Some(Silent)
      else None
    }

    predicate Overtaken(p: InFlight) {
      largest.Some? && p.number + PACKET_THRESHOLD <= largest.value
    }
  }

  function JudgeBy(now: Instant, largest: Option<nat>, rtt: Rtt, silence: nat): Judge {
    Judge(now, largest, rtt.LossDelay(), ProbeTimeoutAfter(rtt, silence))
  }

  /** Everything in a flight with a fate, in order. */
  function Doomed(flight: seq<InFlight>, judge: Judge): seq<Gone>
  {
    if flight == [] then []
    else
      var fate := judge.Fate(flight[0]);
      (if fate.Some? then [GoneOf(flight[0], fate.value)] else []) + Doomed(flight[1..], judge)
  }

  /** Everything in a flight without one, in order. */
  function Kept(flight: seq<InFlight>, judge: Judge): (r: seq<InFlight>)
    ensures |r| <= |flight|
  {
    if flight == [] then []
    else (if judge.Fate(flight[0]).None? then [flight[0]] else []) + Kept(flight[1..], judge)
  }

  function GoneOf(p: InFlight, cause: Cause): Gone {
    Gone(p.number, p.bytes, p.sent, cause)
  }

  /** If the oldest packet of a flight has no fate, none of them has. */
  lemma {:induction false} DoomedIsPrefix(flight: seq<InFlight>, judge: Judge)
    requires Ascending(flight)
    requires flight == [] || judge.Fate(flight[0]).None?
    ensures Doomed(flight, judge) == [] && Kept(flight, judge) == flight
  {
    if flight != [] {
      AscendingFirst(flight);
      if |flight| > 1 {
        assert flight[1] in flight[1..];
        assert judge.Fate(flight[1]).None?;
      }
      DoomedIsPrefix(flight[1..], judge);
    }
  }

  /** A packet is retired with a cause exactly when that cause is its fate, and kept when it has none. */
  lemma {:induction false} DoomedIs(flight: seq<InFlight>, judge: Judge)
    ensures forall p :: p in Kept(flight, judge) <==> p in flight && judge.Fate(p).None?
    ensures forall p :: p in flight && judge.Fate(p).Some? ==> GoneOf(p, judge.Fate(p).value) in Doomed(flight, judge)
    ensures forall g :: g in Doomed(flight, judge) ==>
      exists p :: p in flight && judge.Fate(p) == Some(g.cause) && g == GoneOf(p, g.cause)
  {
    if flight != [] {
      DoomedIs(flight[1..], judge);
      assert flight == [flight[0]] + flight[1..];
      assert judge.Fate(flight[0]).Some? ==> Doomed(flight, judge)[0] == GoneOf(flight[0], judge.Fate(flight[0]).value);
      assert flight[0] in flight;
    }
  }

  lemma {:induction false} KeptAscending(flight: seq<InFlight>, judge: Judge)
    requires Ascending(flight)
    ensures Ascending(Kept(flight, judge))
  {
    if flight != [] {
      AscendingFirst(flight);
      DoomedIs(flight[1..], judge);
      KeptAscending(flight[1..], judge);
      Prepended(flight[0], Kept(flight[1..], judge));
    }
  }
}
