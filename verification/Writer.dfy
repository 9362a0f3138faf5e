/** The writer every thread of the client sends through; each call is one atomic step of it. */
module Writers {
  import opened Prelude
  import opened Commands
  import opened CommandRuns

  /** How much typing was queued, and the number that covers all of it when one does. */
  datatype Accepted = All(covered: Option<nat>) | Partial(queued: nat, covered: Option<nat>)

  datatype Pace = Idle | Due(wait: nat) | Done

  /** How many commands an acknowledgement retires, oldest first. */
  method Retire(journal: seq<Command>, highest: nat) returns (n: nat)
    ensures n == RetiredFrom(journal, highest, 0)
  {
    n := 0;
    while n < |journal| && journal[n].number <= highest
      invariant n <= |journal| && RetiredFrom(journal, highest, n) == RetiredFrom(journal, highest, 0)
    {
      n := n + 1;
    }
  }

  /** Offer retained commands until one is refused. */
  method Repeat(o: Outbound, count: nat, verdict: Verdicts) returns (p: Outbound, carried: nat)
    requires count <= |o.journal|
    ensures p == o.Repeated(0, count, verdict) && carried == o.Carried(count, verdict)
  {
    p, carried := o, 0;
    var i := 0;
    while i < count && p.output.Some?
      invariant i <= count && p.journal == o.journal
      invariant p.Repeated(i, count - i, verdict) == o.Repeated(0, count, verdict)
      invariant carried + p.Carried(count - i, verdict) == o.Carried(count, verdict)
    {
      var c := p.journal[i];
      var taken := verdict(p.offered);
      if taken {
        CarriedOn(p.Offered(c, verdict), p.(offered := p.offered + 1), count - i - 1, verdict);
        carried := carried + 1;
      }
      p := p.Offered(c, verdict);
      i := i + 1;
    }
  }

  method ResendFront(o: Outbound, verdict: Verdicts) returns (p: Outbound)
    ensures p == o.ResentFront(verdict)
  {
    var count := Min(RESEND_BATCH, |o.journal|);
    var carried;
    p, carried := Repeat(o, count, verdict);
    RepeatedKeeps(o, 0, count, verdict);
    if carried > 0 {
      p := p.(resend := p.resend.Resent(o.journal[carried - 1].number));
    }
  }

  lemma FlushedOnce(o: Outbound, chunk: nat, verdict: Verdicts, now: nat, next: Outbound, f: Outbound)
    requires chunk > 0 && o.pending != [] && !o.Full() && f == o.Flushed(chunk, verdict, now)
    requires var end := Min(chunk, |o.pending|);
      next == o.Queued(Input(o.pending[..end]), verdict, now).(pending := o.pending[end..])
    ensures f == next.Flushed(chunk, verdict, now)
  {
  }

  lemma FlushedDone(o: Outbound, chunk: nat, verdict: Verdicts, now: nat, f: Outbound)
    requires chunk > 0 && (o.pending == [] || o.Full()) && f == o.Flushed(chunk, verdict, now)
    ensures f == o
  {
  }

  /** One chunk of the waiting input, numbered. */
  method FlushChunk(o: Outbound, chunk: nat, verdict: Verdicts, now: nat, ghost f: Outbound) returns (next: Outbound)
    requires chunk > 0 && o.pending != [] && !o.Full() && f == o.Flushed(chunk, verdict, now)
    ensures f == next.Flushed(chunk, verdict, now) && |next.pending| < |o.pending| && next.next == o.next + 1
  {
    var end := Min(chunk, |o.pending|);
    next := o.Queued(Input(o.pending[..end]), verdict, now).(pending := o.pending[end..]);
    FlushedOnce(o, chunk, verdict, now, next, f);
  }

  /** Number the waiting input a chunk at a time, reporting the number the last of it took. */
  method Flush(o: Outbound, chunk: nat, verdict: Verdicts, now: nat) returns (p: Outbound, last: Option<nat>)
    requires chunk > 0
    ensures p == o.Flushed(chunk, verdict, now)
    ensures last == if |p.pending| < |o.pending| then Some(p.next - 1) else None
  {
    p, last := o, None;
    ghost var f := o.Flushed(chunk, verdict, now);
    while p.pending != [] && !p.Full()
      invariant f == p.Flushed(chunk, verdict, now)
      invariant |p.pending| <= |o.pending|
      invariant last == if |p.pending| < |o.pending| then Some(p.next - 1) else None
      decreases |p.pending|
    {
      last := Some(p.next);
      p := FlushChunk(p, chunk, verdict, now, f);
    }
    FlushedDone(p, chunk, verdict, now, f);
  }

  method Drain(o: Outbound, verdict: Verdicts, now: nat) returns (p: Outbound, last: Option<nat>)
    ensures p == o.Drained(verdict, now)
    ensures last == if |p.pending| < |o.pending| then Some(p.next - 1) else None
  {
    if o.output.None? {
      return o, None;
    }
    var chunk := o.output.value.InputChunk();
    p := o;
    if p.resize.Some? && !p.Full() {
      p := p.Queued(Resize(p.resize.value), verdict, now).(resize := None);
    }
    if p.repaint && !p.Full() {
      p := p.Queued(RequestRepaint, verdict, now).(repaint := false);
    }
    p, last := Flush(p, chunk, verdict, now);
  }

  class ClientWriter {
    var state: Outbound
    var droppedInput: bool
    var repaintOutstanding: bool
    var epoch: nat

    constructor (carriage: Carriage, first: nat)
      ensures state == Opened(carriage, first) && !droppedInput && !repaintOutstanding && epoch == 0
    {
      state := Opened(carriage, first);
      droppedInput, repaintOutstanding, epoch := false, false, 0;
    }

    /** Drained, and the report of dropped typing is withdrawn once nothing waits. */
    method Settle(o: Outbound, verdict: Verdicts, now: nat) returns (last: Option<nat>)
      modifies this
      ensures state == o.Drained(verdict, now) && unchanged(`repaintOutstanding) && unchanged(`epoch)
      ensures last == if |state.pending| < |o.pending| then Some(state.next - 1) else None
      ensures droppedInput == (old(droppedInput) && state.pending != [])
    {
      var p;
      p, last := Drain(o, verdict, now);
      state := p;
      if p.pending == [] {
        droppedInput := false;
      }
    }

    /** The number reported is the last one given out, and only when nothing is left waiting. */
    method Input(typed: Bytes, verdict: Verdicts, now: nat) returns (accepted: Accepted)
      modifies this
      ensures state == old(state).Typed(typed, verdict, now) && unchanged(`repaintOutstanding) && unchanged(`epoch)
      ensures accepted.All? <==> old(state).Room(typed) == |typed|
      ensures accepted.Partial? ==> accepted.queued == old(state).Room(typed) && droppedInput
      ensures accepted.covered ==
        if state.pending == [] && old(state).pending + typed[..old(state).Room(typed)] != [] then Some(state.next - 1) else None
    {
      var queued := state.Room(typed);
      var last := Settle(state.(pending := state.pending + typed[..queued]), verdict, now);
      var covered := if state.pending == [] then last else None;
      if queued == |typed| {
        accepted := All(covered);
      } else {
        droppedInput := true;
        accepted := Partial(queued, covered);
      }
    }

    /** The transport is gone: everything is held until a replacement arrives. */
    method Disconnect()
      modifies this
      ensures state == old(state).(output := None) && epoch == old(epoch) + 1
      ensures forall s: System :: s.out == old(state) && Conserved(s) ==> Conserved(s.(out := state))
      ensures forall verdict, now :: state.Drained(verdict, now) == state
      ensures unchanged(`droppedInput) && unchanged(`repaintOutstanding)
    {
      state := state.(output := None);
      epoch := epoch + 1;
    }

    /** A replacement is given what is unacknowledged, then what waited. */
    method Reconnect(carriage: Carriage, verdict: Verdicts, now: nat)
      modifies this
      ensures state == old(state).Reconnected(carriage, verdict, now) && epoch == old(epoch) + 1
      ensures unchanged(`repaintOutstanding) && droppedInput == (old(droppedInput) && state.pending != [])
    {
      var o := state.(output := Some(carriage), resend := Unmeasured());
      var p, _ := Repeat(o, |o.journal|, verdict);
      var _ := Settle(p, verdict, now);
      epoch := epoch + 1;
    }

    /** The oldest commands again when they are overdue, and how long until they are next. */
    method Retransmit(current: nat, verdict: Verdicts, now: nat) returns (pace: Pace)
      modifies this
      ensures state == if epoch == current then old(state).Retransmitted(verdict, now) else old(state)
      ensures unchanged(`epoch) && unchanged(`droppedInput) && unchanged(`repaintOutstanding)
      ensures pace.Done? <==> epoch != current || !old(state).OnDatagrams()
      ensures pace.Idle? <==> epoch == current && old(state).OnDatagrams() && old(state).journal == []
      ensures pace.Idle? ==> state.resend.waiting == None
      ensures pace.Due? ==> pace.wait == Max(state.resend.Interval() - Max(now - state.resend.Waiting(now), 0), 0)
      ensures pace.Due? && old(state).resend.Due(now) ==> pace.wait == state.resend.Interval()
    {
      if epoch != current || !state.OnDatagrams() {
        return Done;
      }
      if state.journal == [] {
        state := state.(resend := state.resend.(waiting := None));
        return Idle;
      }
      var due := state.resend.Due(now);
      var o := state.(resend := state.resend.Waited(now));
      if due {
        RepeatedKeeps(o, 0, Min(RESEND_BATCH, |o.journal|), verdict);
        o := ResendFront(o, verdict);
      }
      state := o;
      pace := Due(Max(o.resend.Interval() - Max(now - o.resend.Waiting(now), 0), 0));
    }

    /** What is acknowledged is retired; a first repeat over a journal that is not empty says its front was lost. */
    method Acknowledge(highest: nat, verdict: Verdicts, now: nat)
      modifies this
      ensures state == old(state).Acknowledged(highest, verdict, now)
      ensures droppedInput == (old(droppedInput) && state.pending != [])
      ensures unchanged(`repaintOutstanding) && unchanged(`epoch)
    {
      var n := Retire(state.journal, highest);
      var o := state.(journal := state.journal[n..]);
      if state.OnDatagrams() {
        var stalled := !state.resend.Advances(highest) && !state.resend.retried;
        o := o.(resend := state.resend.Acknowledged(highest, now));
        if stalled {
          o := ResendFront(o, verdict);
        }
      }
      var _ := Settle(o, verdict, now);
    }

    /** A new size is sent, or held while the journal has no room for it. */
    method Resize(size: nat, verdict: Verdicts, now: nat)
      modifies this
      ensures state == old(state).Resized(size, verdict, now)
      ensures state.resize == Some(size) || (state.journal != [] && state.journal[|state.journal| - 1] == Command(old(state).next, Body.Resize(size)))
      ensures state.pending == old(state).pending && old(state).journal <= state.journal
      ensures unchanged(`droppedInput) && unchanged(`repaintOutstanding) && unchanged(`epoch)
    {
      state := if state.Full() then state.(resize := Some(size)) else state.Queued(Body.Resize(size), verdict, now);
    }

    /** One repaint is asked for at a time. */
    method RequestRepaint(verdict: Verdicts, now: nat)
      modifies this
      ensures repaintOutstanding && unchanged(`droppedInput) && unchanged(`epoch)
      ensures state == if old(repaintOutstanding) then old(state) else old(state).RepaintAsked(verdict, now)
      ensures !old(repaintOutstanding) ==>
        state.repaint || (state.journal != [] && state.journal[|state.journal| - 1] == Command(old(state).next, Body.RequestRepaint))
    {
      if !repaintOutstanding {
        repaintOutstanding := true;
        state := if state.Full() then state.(repaint := true) else state.Queued(Body.RequestRepaint, verdict, now);
      }
    }
  }
}
