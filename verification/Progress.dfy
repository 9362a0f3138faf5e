/** What the client does get done: what it resends and when, what an acknowledgement frees, and what the server is left with. */
module CommandProgress {
  import opened Prelude
  import opened Commands
  import opened CommandRuns

  // ---- resending ----

  /** The four oldest retained commands, or all of them. */
  function Front(journal: seq<Command>): seq<Command> {
    journal[..Min(4, |journal|)]
  }

  lemma FrontResent(o: Outbound, verdict: Verdicts, p: Outbound)
    requires o.output.Some? && Willing(verdict, o.offered) && p == o.ResentFront(verdict)
    ensures p.wire == o.wire + Front(o.journal) && p.journal == o.journal && p.output == o.output && p.offered >= o.offered
    ensures p.resend.srtt == o.resend.srtt
  {
    var count := Min(4, |o.journal|);
    AllCarried(o, count, verdict);
    RepeatedIs(o, 0, count, verdict);
    RepeatedKeeps(o, 0, count, verdict);
    RepeatedWilling(o, 0, count, verdict);
    assert o.journal[0..count] == Front(o.journal);
  }

  /** On a datagram link with something unacknowledged, the front goes out again exactly when it has waited the interval. */
  lemma ResentWhenDue(o: Outbound, verdict: Verdicts, now: nat)
    requires o.OnDatagrams() && o.journal != [] && Willing(verdict, o.offered)
    ensures
      var due := o.resend.waiting.Some? && now >= o.resend.waiting.value + o.resend.Interval();
      o.Retransmitted(verdict, now).wire == o.wire + if due then Front(o.journal) else []
  {
    IntervalWithin(o.resend);
    var p := o.(resend := o.resend.Waited(now));
    if o.resend.Due(now) {
      FrontResent(p, verdict, p.ResentFront(verdict));
    } else {
      assert o.wire + [] == o.wire;
    }
  }

  /**
   A command sent and not heard of is sent again by the first timer an interval after
   the wait began: with it, or with an older one still unacknowledged.
   */
  lemma UnheardIsResent(o: Outbound, body: Body, sent: nat, verdict: Verdicts, now: nat, p: Outbound)
    requires o.OnDatagrams() && Willing(verdict, o.offered) && p == o.Queued(body, verdict, sent)
    requires now >= (if o.resend.waiting.Some? then o.resend.waiting.value else sent) + p.resend.Interval()
    ensures p.Retransmitted(verdict, now).wire == p.wire + Front(p.journal) && p.wire == o.wire + [Command(o.next, body)]
  {
    ResentWhenDue(p, verdict, now);
  }

  lemma IntervalWithin(r: Resend)
    ensures 50_000_000 <= r.Interval() <= 2_000_000_000
  {
  }

  /** A wait is two round trips, or 250 ms while none is measured; it doubles with each resend nothing answered, up to two seconds. */
  lemma IntervalDoubles(r: Resend)
    requires r.srtt.Some? ==> r.srtt.value >= 25_000_000
    ensures r.attempts == 0 ==> r.Interval() == Min(if r.srtt.Some? then 2 * r.srtt.value else 250_000_000, 2_000_000_000)
    ensures r.attempts < 5 ==> r.(attempts := r.attempts + 1).Interval() == Min(2 * r.Interval(), 2_000_000_000)
    ensures r.attempts >= 5 ==> r.(attempts := r.attempts + 1).Interval() == r.Interval()
  {
    var base := if r.srtt.Some? then 2 * r.srtt.value else 250_000_000;
    PowerScales(base, Min(r.attempts, 5));
  }

  lemma PowerScales(base: nat, n: nat)
    ensures base * Power(n) >= base && base * Power(n + 1) == 2 * (base * Power(n))
  {
    PowerPositive(n);
    assert base * Power(n) >= base * 1;
    assert base * (2 * Power(n)) == 2 * (base * Power(n));
  }

  lemma {:induction false} PowerPositive(n: nat)
    ensures Power(n) >= 1
  {
    if n > 0 {
      PowerPositive(n - 1);
    }
  }

  /** Nothing answered: the wait starts over and the next is longer. Something answered: it is short again. */
  lemma BackoffMoves(r: Resend, now: nat, highest: nat)
    ensures r.Due(now) ==> r.Waited(now).attempts == r.attempts + 1 && r.Waited(now).waiting == Some(now)
    ensures !r.Due(now) ==> r.Waited(now).attempts == r.attempts
    ensures
      var a := r.Acknowledged(highest, now);
      && a.sample == (if r.sample.Some? && r.sample.value.0 <= highest then None else r.sample)
      && if r.acked.None? || r.acked.value < highest then a.attempts == 0 && a.waiting == None && !a.retried && a.acked == Some(highest)
      else a.attempts == r.attempts && a.waiting == r.waiting && a.retried && a.acked == r.acked
  {
  }

  // ---- acknowledgements ----

  /** What is left of the journal once everything up to a number is acknowledged. */
  lemma RetiredIs(o: Outbound, highest: nat)
    requires Given(o)
    ensures
      var base := o.next - |o.journal|;
      o.journal[o.Retired(highest)..] == o.journal[Min(Max(highest + 1 - base, 0), |o.journal|)..]
  {
    var n := o.Retired(highest);
    assert n > 0 ==> o.journal[n - 1].number <= highest;
    assert n < |o.journal| ==> o.journal[n].number > highest;
  }

  /** Says nothing new, for the first time. */
  predicate FirstRepeat(r: Resend, highest: nat) {
    r.acked.Some? && highest <= r.acked.value && !r.retried
  }

  /**
   An acknowledgement frees exactly the commands up to its number. On a willing
   datagram link its first repeat puts the front of what is left on the wire again,
   no other does, and whatever waited is numbered and sent.
   */
  lemma AcknowledgedIs(o: Outbound, highest: nat, verdict: Verdicts, now: nat, r: Outbound)
    requires Given(o) && o.OnDatagrams() && Willing(verdict, o.offered) && r == o.Acknowledged(highest, verdict, now)
    ensures
      var left := o.journal[Min(Max(highest + 1 - (o.next - |o.journal|), 0), |o.journal|)..];
      && left <= r.journal && NothingWaits(r)
      && r.wire == o.wire + (if FirstRepeat(o.resend, highest) then Front(left) else []) + r.journal[|left|..]
  {
    RetiredIs(o, highest);
    var a := o.(journal := o.journal[o.Retired(highest)..], resend := o.resend.Acknowledged(highest, now));
    var again := FirstRepeat(o.resend, highest);
    var b := if again then a.ResentFront(verdict) else a;
    if again {
      FrontResent(a, verdict, b);
    }
    assert b.wire == o.wire + if again then Front(a.journal) else [];
    assert r == b.Drained(verdict, now);
    DrainedMirrors(b, verdict, now);
    DrainedNumbersAll(b, verdict, now);
  }

  // ---- what is numbered ----

  /** Input is numbered in pieces a transport carries: none empty, none larger than its chunk. */
  ghost predicate Carriable(commands: seq<Command>, chunk: nat) {
    forall i :: 0 <= i < |commands| && commands[i].body.Input? ==> 0 < |commands[i].body.bytes| <= chunk
  }

  lemma CarriableThrough(o: Outbound, p: Outbound, q: Outbound, chunk: nat)
    requires o.journal <= p.journal <= q.journal && Carriable(News(o, p), chunk) && Carriable(News(p, q), chunk)
    ensures o.journal <= q.journal && Carriable(News(o, q), chunk)
  {
    assert News(o, q) == News(o, p) + News(p, q);
  }

  lemma {:induction false} FlushedCarriable(o: Outbound, chunk: nat, verdict: Verdicts, now: nat, f: Outbound)
    requires chunk > 0 && f == o.Flushed(chunk, verdict, now)
    ensures o.journal <= f.journal && Carriable(News(o, f), chunk)
    decreases |o.pending|
  {
    if o.pending != [] && !o.Full() {
      var end := Min(chunk, |o.pending|);
      var p := o.Queued(Input(o.pending[..end]), verdict, now).(pending := o.pending[end..]);
      FlushedCarriable(p, chunk, verdict, now, f);
      assert News(o, p) == [Command(o.next, Input(o.pending[..end]))];
      CarriableThrough(o, p, f, chunk);
    }
  }

  lemma ControlCarriable(o: Outbound, verdict: Verdicts, now: nat, chunk: nat)
    ensures o.journal <= o.ResizeSent(verdict, now).journal && Carriable(News(o, o.ResizeSent(verdict, now)), chunk)
    ensures o.journal <= o.RepaintSent(verdict, now).journal && Carriable(News(o, o.RepaintSent(verdict, now)), chunk)
  {
  }

  /** Over a stream at most 64 KiB a command, over datagrams what one seals. */
  lemma DrainedCarriable(o: Outbound, verdict: Verdicts, now: nat, f: Outbound)
    requires o.output.Some? && f == o.Drained(verdict, now)
    ensures o.journal <= f.journal && Carriable(News(o, f), if o.output == Some(Stream) then 65_536 else 1_143)
  {
    var chunk := o.output.value.InputChunk();
    var a := o.ResizeSent(verdict, now);
    var b := a.RepaintSent(verdict, now);
    ControlCarriable(o, verdict, now, chunk);
    ControlCarriable(a, verdict, now, chunk);
    FlushedCarriable(b, chunk, verdict, now, f);
    CarriableThrough(o, a, b, chunk);
    CarriableThrough(o, b, f, chunk);
  }

  // ---- measuring ----

  lemma {:induction false} FlushedKeepsSrtt(o: Outbound, chunk: nat, verdict: Verdicts, now: nat, f: Outbound)
    requires chunk > 0 && f == o.Flushed(chunk, verdict, now)
    ensures f.resend.srtt == o.resend.srtt
    decreases |o.pending|
  {
    if o.pending != [] && !o.Full() {
      var end := Min(chunk, |o.pending|);
      FlushedKeepsSrtt(o.Queued(Input(o.pending[..end]), verdict, now).(pending := o.pending[end..]), chunk, verdict, now, f);
    }
  }

  lemma DrainedKeepsSrtt(o: Outbound, verdict: Verdicts, now: nat)
    ensures o.Drained(verdict, now).resend.srtt == o.resend.srtt
  {
    if o.output.Some? {
      var b := o.ResizeSent(verdict, now).RepaintSent(verdict, now);
      FlushedKeepsSrtt(b, o.output.value.InputChunk(), verdict, now, o.Drained(verdict, now));
    }
  }

  lemma AcknowledgedSrtt(o: Outbound, highest: nat, verdict: Verdicts, now: nat)
    requires o.OnDatagrams()
    ensures o.Acknowledged(highest, verdict, now).resend.srtt == o.resend.Sampled(highest, now).srtt
  {
    var a := o.(journal := o.journal[o.Retired(highest)..], resend := o.resend.Acknowledged(highest, now));
    RepeatedKeeps(a, 0, Min(RESEND_BATCH, |a.journal|), verdict);
    DrainedKeepsSrtt(a, verdict, now);
    DrainedKeepsSrtt(a.ResentFront(verdict), verdict, now);
  }

  /** Typing sent on an idle datagram link is timed, and its acknowledgement is the round trip: an eighth of the way to it, or all of it the first time. */
  lemma RoundTripMeasured(o: Outbound, bytes: Bytes, sent: nat, highest: nat, verdict: Verdicts, now: nat, p: Outbound)
    requires o.OnDatagrams() && verdict(o.offered) && o.resend.sample == None && o.next <= highest && sent <= now
    requires p == o.Queued(Input(bytes), verdict, sent)
    ensures
      var r := p.Acknowledged(highest, verdict, now).resend.srtt;
      && r.Some? && (o.resend.srtt.None? ==> r.value == now - sent)
      && (o.resend.srtt.Some? ==> 8 * r.value <= 7 * o.resend.srtt.value + (now - sent) < 8 * r.value + 8)
  {
    AcknowledgedSrtt(p, highest, verdict, now);
  }

  // ---- the server gets it ----

  /**
   From every reachable state, when the timer fires on a willing datagram link and
   what it resends arrives in order, the server has the four oldest retained
   commands, whatever the link lost before.
   */
  lemma TimerRecovers(s: System, verdict: Verdicts, now: nat) returns (states: seq<System>, events: seq<Event>, t: System)
    requires CommandRuns.Valid(s) && Willing(verdict, s.out.offered)
    requires s.out.OnDatagrams() && s.out.journal != []
    requires s.out.resend.waiting.Some? && now >= s.out.resend.waiting.value + s.out.resend.Interval()
    ensures Trace(states, events, verdict) && states[0] == After(s, Resending(now), verdict) && states[|events|] == t
    ensures forall i :: 0 <= i < |events| ==> events[i].Arriving?
    ensures s.applied <= t.applied <= s.history
    ensures forall i :: 0 <= i < Min(4, |s.out.journal|) ==> s.out.journal[i] in t.applied
  {
    var u := After(s, Resending(now), verdict);
    var n := Min(4, |s.out.journal|);
    FrontOut(s, verdict, now, u);
    states, events, t := InOrderApplied(u, |s.out.wire|, n, 0, verdict);
    FrontApplied(s, t.applied, n);
  }

  /** The timer's own step: the front is on the wire, and nothing else has moved. */
  lemma FrontOut(s: System, verdict: Verdicts, now: nat, u: System)
    requires CommandRuns.Valid(s) && Willing(verdict, s.out.offered) && s.out.OnDatagrams() && s.out.journal != []
    requires s.out.resend.waiting.Some? && now >= s.out.resend.waiting.value + s.out.resend.Interval()
    requires u == After(s, Resending(now), verdict)
    ensures CommandRuns.Valid(u) && FrontAt(u, |s.out.wire|, Min(4, |s.out.journal|))
    ensures u.history == s.history && u.applied == s.applied && u.out.journal == s.out.journal
  {
    AfterKeeps(s, Resending(now), verdict);
    ResentWhenDue(s.out, verdict, now);
    RetransmittedKeeps(s.out, verdict, now);
    assert News(s.out, u.out) == [] && s.history + [] == s.history;
  }

  lemma FrontApplied(s: System, applied: seq<Command>, n: nat)
    requires CommandRuns.Valid(s) && applied <= s.history && n <= |s.out.journal|
    requires |s.history| - |s.out.journal| + n <= |applied|
    ensures forall i :: 0 <= i < n ==> s.out.journal[i] in applied
  {
    forall i | 0 <= i < n
      ensures s.out.journal[i] in applied
    {
      var at := |s.history| - |s.out.journal| + i;
      assert s.out.journal[i] == s.history[at] && applied[at] == s.history[at];
    }
  }

  lemma RetransmittedKeeps(o: Outbound, verdict: Verdicts, now: nat)
    ensures o.Retransmitted(verdict, now).journal == o.journal
  {
    var p := o.(resend := o.resend.Waited(now));
    RepeatedKeeps(p, 0, Min(RESEND_BATCH, |p.journal|), verdict);
  }

  // ---- a journal kept over one kind of transport and replayed over another ----

  function Size(c: Command): nat {
    if c.body.Input? then |c.body.bytes| else 0
  }

  /** A transport that takes a retained command exactly when it is no larger than it can carry. */
  ghost predicate CarriesUpTo(verdict: Verdicts, from: nat, journal: seq<Command>, most: nat) {
    forall i {:trigger journal[i]} :: 0 <= i < |journal| ==> (verdict(from + i) <==> Size(journal[i]) <= most)
  }

  lemma {:induction false} RepeatStops(o: Outbound, from: nat, count: nat, verdict: Verdicts, k: nat)
    requires from + count <= |o.journal| && o.output.Some? && k < count
    requires (forall n :: o.offered <= n < o.offered + k ==> verdict(n)) && !verdict(o.offered + k)
    ensures o.Carried(count, verdict) == k && o.Repeated(from, count, verdict).output == None
    decreases count
  {
    if k > 0 {
      var p := o.Offered(o.journal[from], verdict);
      RepeatStops(p, from + 1, count - 1, verdict, k - 1);
      CarriedOn(p, o.(offered := o.offered + 1), count - 1, verdict);
    }
  }

  lemma {:induction false} RepeatGoesOn(o: Outbound, from: nat, count: nat, verdict: Verdicts)
    requires from + count <= |o.journal| && o.output.Some? && forall n :: o.offered <= n < o.offered + count ==> verdict(n)
    ensures o.Repeated(from, count, verdict).output == o.output
    decreases count
  {
    if count > 0 {
      RepeatGoesOn(o.Offered(o.journal[from], verdict), from + 1, count - 1, verdict);
    }
  }

  /**
   A replay outlasts a transport that carries up to a size if and only if nothing
   retained is larger. The first command that is larger ends it: the transport is
   dropped, the rest is not offered, and the journal stands as it was.
   */
  lemma ReplaySurvivesIff(o: Outbound, carriage: Carriage, verdict: Verdicts, now: nat, most: nat, a: Outbound)
    requires CarriesUpTo(verdict, o.offered, o.journal, most) && a == o.(output := Some(carriage), resend := Unmeasured())
    ensures a.Repeated(0, |o.journal|, verdict).output.Some? <==> forall i :: 0 <= i < |o.journal| ==> Size(o.journal[i]) <= most
    ensures a.Repeated(0, |o.journal|, verdict).output.None? ==>
      o.Reconnected(carriage, verdict, now).output == None && o.Reconnected(carriage, verdict, now).journal == o.journal
  {
    RepeatedKeeps(a, 0, |o.journal|, verdict);
    if i :| 0 <= i < |o.journal| && Size(o.journal[i]) > most {
      var k := FirstLarger(o.journal, most, i);
      forall n | o.offered <= n < o.offered + k
        ensures verdict(n)
      {
        assert Size(o.journal[n - o.offered]) <= most;
      }
      RepeatStops(a, 0, |o.journal|, verdict, k);
    } else {
      forall n | o.offered <= n < o.offered + |o.journal|
        ensures verdict(n)
      {
        assert Size(o.journal[n - o.offered]) <= most;
      }
      RepeatGoesOn(a, 0, |o.journal|, verdict);
    }
  }

  lemma {:induction false} FirstLarger(journal: seq<Command>, most: nat, i: nat) returns (k: nat)
    requires i < |journal| && Size(journal[i]) > most
    ensures k <= i && Size(journal[k]) > most && forall j :: 0 <= j < k ==> Size(journal[j]) <= most
    decreases i
  {
    k := i;
    if j :| 0 <= j < i && Size(journal[j]) > most {
      k := FirstLarger(journal, most, j);
    }
  }

  /** Two thousand bytes typed over a stream are one command; a datagram link that seals 1143 bytes is dropped by its replay. */
  lemma StreamChunkStopsDatagrams(typed: Bytes, now: nat)
    requires |typed| == 2000
    ensures
      var o := Opened(Stream, 1).Typed(typed, n => true, now);
      && o.journal == [Command(1, Input(typed))] && o.pending == []
      && o.Reconnected(Datagram, n => false, now).output == None && o.Reconnected(Datagram, n => false, now).journal == o.journal
      && CarriesUpTo(n => false, o.offered, o.journal, 1143)
  {
    var all: Verdicts, none: Verdicts := n => true, n => false;
    var start := Opened(Stream, 1).(pending := [] + typed[..2000]);
    var o := Opened(Stream, 1).Typed(typed, all, now);
    assert [] + typed[..2000] == typed && typed[..2000] == typed && typed[2000..] == [];
    assert o == start.Flushed(65_536, all, now);
    assert start.Flushed(65_536, all, now) == start.Queued(Input(typed), all, now).(pending := []);
    ReplaySurvivesIff(o, Datagram, none, now, 1143, o.(output := Some(Datagram), resend := Unmeasured()));
  }
}
