/**
 The sending half of the client: numbered commands kept for replay, input waiting
 for a transport, and the server's gate at the far end.
 */
module Commands {
  import opened Prelude

  type Bytes = seq<nat>

  const JOURNAL_CAPACITY: nat := 1024
  const MAX_PENDING_INPUT: nat := 262_144
  const RESEND_BATCH: nat := 4

  // Nanoseconds.
  const INITIAL_RESEND: nat := 250_000_000
  const MIN_RESEND: nat := 50_000_000
  const MAX_RESEND: nat := 2_000_000_000

  datatype Carriage = Stream | Datagram {
    /** The most input one command may carry: a frame, or what one datagram seals. */
    function InputChunk(): nat {
      if Stream? then 65_536 else 1160 - 17
    }
  }

  datatype Body = Input(bytes: Bytes) | Resize(size: nat) | RequestRepaint | ForwardOpen(target: nat)

  /** A numbered command. */
  datatype Command = Command(number: nat, body: Body)

  /** When a lost datagram is noticed; a stream uses none of it. */
  datatype Resend = Resend(
    srtt: Option<nat>, sample: Option<(nat, nat)>, waiting: Option<nat>, attempts: nat, acked: Option<nat>, retried: bool)
  {
    function Interval(): nat {
      var base := if srtt.Some? then srtt.value * 2 else INITIAL_RESEND;
      Min(Max(base * Power(Min(attempts, 5)), MIN_RESEND), MAX_RESEND)
    }

    function Transmitted(timed: Option<nat>, now: nat): Resend {
      this.(waiting := if waiting.Some? then waiting else Some(now),
            sample := if timed.Some? && sample.None? then Some((timed.value, now)) else sample)
    }

    function Sampled(highest: nat, now: nat): Resend {
      if sample.Some? && sample.value.0 <= highest
      then this.(srtt := Some(Smoothed(srtt, Max(now - sample.value.1, 0))), sample := None)
      else this
    }

    predicate Advances(highest: nat) {
      acked.None? || acked.value < highest
    }

    function Acknowledged(highest: nat, now: nat): Resend {
      var s := Sampled(highest, now);
      if Advances(highest) then s.(acked := Some(highest), attempts := 0, waiting := None, retried := false)
      else s.(retried := true)
    }

    function Waiting(now: nat): nat {
      if waiting.Some? then waiting.value else now
    }

    predicate Due(now: nat) {
      Max(now - Waiting(now), 0) >= Interval()
    }

    function Waited(now: nat): Resend {
      if Due(now) then this.(attempts := attempts + 1, waiting := Some(now)) else this.(waiting := Some(Waiting(now)))
    }

    function Resent(highest: nat): Resend {
      if sample.Some? && sample.value.0 <= highest then this.(sample := None) else this
    }
  }

  function Power(n: nat): (p: nat) { if n == 0 then 1 else 2 * Power(n - 1) }

  function Smoothed(srtt: Option<nat>, sample: nat): nat {
    if srtt.None? then sample else (srtt.value * 7 + sample) / 8
  }

  function Unmeasured(): Resend {
    Resend(None, None, None, 0, None, false)
  }

  /** Whether the transport takes the frame offered to it n-th; one that refuses is dropped. */
  type Verdicts = nat -> bool

  /**
   The outbound state. `wire` is every command a transport has taken, oldest first,
   and `offered` how many frames transports have been offered.
   */
  datatype Outbound = Outbound(
    output: Option<Carriage>, next: nat, journal: seq<Command>, pending: Bytes,
    resize: Option<nat>, repaint: bool, resend: Resend, wire: seq<Command>, offered: nat)
  {
    predicate Full() {
      |journal| == JOURNAL_CAPACITY
    }

    predicate OnDatagrams() {
      output == Some(Datagram)
    }

    /** Offer the transport a command; a refusal drops the transport. */
    function Offered(c: Command, verdict: Verdicts): Outbound {
      if output.None? then this
      else if verdict(offered) then this.(wire := wire + [c], offered := offered + 1)
      else this.(output := None, offered := offered + 1)
    }

    /** Number a command, retain it, and offer it. */
    function Queued(body: Body, verdict: Verdicts, now: nat): Outbound {
      var c := Command(next, body);
      var o := this.(journal := journal + [c], next := next + 1).Offered(c, verdict);
      if o.OnDatagrams() then o.(resend := resend.Transmitted(if body.Input? then Some(next) else None, now)) else o
    }

    /** Queued, unless the journal is full. */
    function Sent(body: Body, verdict: Verdicts, now: nat): Outbound {
      if Full() then this else Queued(body, verdict, now)
    }

    function ResizeSent(verdict: Verdicts, now: nat): Outbound {
      if resize.Some? && !Full() then Queued(Resize(resize.value), verdict, now).(resize := None) else this
    }

    function RepaintSent(verdict: Verdicts, now: nat): Outbound {
      if repaint && !Full() then Queued(RequestRepaint, verdict, now).(repaint := false) else this
    }

    /** Input is numbered a chunk at a time, while the journal has room. */
    function Flushed(chunk: nat, verdict: Verdicts, now: nat): Outbound
      requires chunk > 0
      decreases |pending|
    {
      if pending == [] || Full() then this
      else
        var end := Min(chunk, |pending|);
        Queued(Input(pending[..end]), verdict, now).(pending := pending[end..]).Flushed(chunk, verdict, now)
    }

    /** Everything that can be numbered is: a waiting resize, a waiting repaint, then input. */
    function Drained(verdict: Verdicts, now: nat): Outbound {
      if output.None? then this else ResizeSent(verdict, now).RepaintSent(verdict, now).Flushed(output.value.InputChunk(), verdict, now)
    }

    /** Put `count` commands of the journal from `from` on the wire, until one is refused. */
    function Repeated(from: nat, count: nat, verdict: Verdicts): Outbound
      requires from + count <= |journal|
      decreases count
    {
      if count == 0 || output.None? then this else Offered(journal[from], verdict).Repeated(from + 1, count - 1, verdict)
    }

    /** How many of them a transport took before one was refused. */
    function Carried(count: nat, verdict: Verdicts): (n: nat)
      ensures n <= count
      decreases count
    {
      if count == 0 || output.None? then 0
      else if !verdict(offered) then 0
      else 1 + this.(offered := offered + 1).Carried(count - 1, verdict)
    }

    /** The oldest commands again: a cumulative acknowledgement cannot pass the first one missing. */
    function ResentFront(verdict: Verdicts): Outbound {
      var count := Min(RESEND_BATCH, |journal|);
      var n := Carried(count, verdict);
      var o := Repeated(0, count, verdict);
      if n > 0 then o.(resend := resend.Resent(journal[n - 1].number)) else o
    }

    /** How much of what is typed there is room for. */
    function Room(typed: Bytes): nat {
      Min(Max(MAX_PENDING_INPUT - |pending|, 0), |typed|)
    }

    function Typed(typed: Bytes, verdict: Verdicts, now: nat): Outbound {
      this.(pending := pending + typed[..Room(typed)]).Drained(verdict, now)
    }

    function Reconnected(carriage: Carriage, verdict: Verdicts, now: nat): Outbound {
      var o := this.(output := Some(carriage), resend := Unmeasured());
      o.Repeated(0, |journal|, verdict).Drained(verdict, now)
    }

    /** How many commands an acknowledgement retires. */
    function Retired(highest: nat): nat {
      RetiredFrom(journal, highest, 0)
    }

    function Acknowledged(highest: nat, verdict: Verdicts, now: nat): Outbound {
      var o := this.(journal := journal[Retired(highest)..]);
      var a :=
        if !OnDatagrams() then o
        else
          var p := o.(resend := resend.Acknowledged(highest, now));
          if !resend.Advances(highest) && !resend.retried then p.ResentFront(verdict) else p;
      a.Drained(verdict, now)
    }

    function Retransmitted(verdict: Verdicts, now: nat): Outbound {
      if !OnDatagrams() then this
      else if journal == [] then this.(resend := resend.(waiting := None))
      else
        var o := this.(resend := resend.Waited(now));
        if resend.Due(now) then o.ResentFront(verdict) else o
    }

    /** A command that may not be lost: deferred when it cannot be numbered yet. */
    function Resized(size: nat, verdict: Verdicts, now: nat): Outbound {
      if Full() then this.(resize := Some(size)) else Queued(Resize(size), verdict, now)
    }

    function RepaintAsked(verdict: Verdicts, now: nat): Outbound {
      if Full() then this.(repaint := true) else Queued(RequestRepaint, verdict, now)
    }
  }

  function RetiredFrom(journal: seq<Command>, highest: nat, from: nat): (n: nat)
    requires from <= |journal|
    ensures from <= n <= |journal|
    ensures forall i :: from <= i < n ==> journal[i].number <= highest
    ensures n < |journal| ==> journal[n].number > highest
    decreases |journal| - from
  {
    if from < |journal| && journal[from].number <= highest then RetiredFrom(journal, highest, from + 1) else from
  }

  function Opened(carriage: Carriage, first: nat): Outbound {
    Outbound(Some(carriage), first, [], [], None, false, Unmeasured(), [], 0)
  }

  /** What the server's gate makes of a number: applied, already applied, or out of order. */
  datatype Admission = Fresh | Duplicate | Gap

  function Check(next: nat, number: nat): Admission {
    if number == next then Fresh else if number < next then Duplicate else Gap
  }

  /** The typing a run of commands carries. */
  function BytesIn(commands: seq<Command>): Bytes {
    if commands == [] then []
    else
      var last := commands[|commands| - 1].body;
      BytesIn(commands[..|commands| - 1]) + if last.Input? then last.bytes else []
  }
}
