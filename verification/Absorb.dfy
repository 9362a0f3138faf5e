/** How what the loss detector reports reaches the congestion controller. */
module Absorbing {
  import opened Prelude
  import opened Loss
  import opened LossDetection
  import opened CongestionControl

  function FlightBytes(flight: seq<InFlight>): nat {
    if flight == [] then 0 else flight[0].bytes + FlightBytes(flight[1..])
  }

  function GoneBytes(gone: seq<Gone>): nat {
    if gone == [] then 0 else gone[0].bytes + GoneBytes(gone[1..])
  }

  lemma {:induction false} BytesPush(flight: seq<InFlight>, p: InFlight)
    ensures FlightBytes(flight + [p]) == FlightBytes(flight) + p.bytes
  {
    if flight != [] {
      assert (flight + [p])[1..] == flight[1..] + [p];
      BytesPush(flight[1..], p);
    }
  }

  lemma {:induction false} NamedBytes(flight: seq<InFlight>, ack: Ack)
    ensures FlightBytes(Named(flight, ack, true)) + FlightBytes(Named(flight, ack, false)) == FlightBytes(flight)
  {
    if flight != [] {
      NamedBytes(flight[1..], ack);
      BytesCons(flight[0], Named(flight[1..], ack, true));
      BytesCons(flight[0], Named(flight[1..], ack, false));
    }
  }

  lemma BytesCons(p: InFlight, rest: seq<InFlight>)
    ensures FlightBytes([p] + rest) == p.bytes + FlightBytes(rest) && FlightBytes([] + rest) == FlightBytes(rest)
  {
    assert ([p] + rest)[1..] == rest && [] + rest == rest;
  }

  lemma GoneBytesCons(g: Gone, rest: seq<Gone>)
    ensures GoneBytes([g] + rest) == g.bytes + GoneBytes(rest) && GoneBytes([] + rest) == GoneBytes(rest)
  {
    assert ([g] + rest)[1..] == rest && [] + rest == rest;
  }

  lemma {:induction false} DoomedBytes(flight: seq<InFlight>, judge: Judge)
    ensures GoneBytes(Doomed(flight, judge)) + FlightBytes(Kept(flight, judge)) == FlightBytes(flight)
  {
    if flight != [] {
      var fate := judge.Fate(flight[0]);
      DoomedBytes(flight[1..], judge);
      BytesCons(flight[0], Kept(flight[1..], judge));
      GoneBytesCons(GoneOf(flight[0], if fate.Some? then fate.value else Lost), Doomed(flight[1..], judge));
    }
  }

  lemma {:induction false} DoomedNeverOverflowed(flight: seq<InFlight>, judge: Judge)
    ensures forall g :: g in Doomed(flight, judge) ==> g.cause != Overflowed
  {
    DoomedIs(flight, judge);
  }

  // ---- the calls a report makes ----

  function ArriveCall(p: InFlight, rtt: Rtt): Call {
    Arrive(p.bytes, p.sent, rtt, p.limited)
  }

  function ArriveCalls(arrived: seq<InFlight>, rtt: Rtt): (r: seq<Call>)
    ensures |r| == |arrived| && forall i :: 0 <= i < |r| ==> r[i] == ArriveCall(arrived[i], rtt)
  {
    seq(|arrived|, i requires 0 <= i < |arrived| => ArriveCall(arrived[i], rtt))
  }

  /** A packet given up on reaches the controller as a loss if it was declared lost, and otherwise only leaves the flight. */
  function GoneCall(g: Gone, now: Instant): Call {
    if g.cause == Lost then Lose(g.bytes, g.sent, now) else Abandon(g.bytes)
  }

  function GoneCalls(gone: seq<Gone>, now: Instant): (r: seq<Call>)
    ensures |r| == |gone| && forall i :: 0 <= i < |r| ==> r[i] == GoneCall(gone[i], now)
  {
    seq(|gone|, i requires 0 <= i < |gone| => GoneCall(gone[i], now))
  }

  /** What the controller is told of one report, in order: a mistake is taken back before new losses are answered. */
  function Calls(d: Detector, now: Instant, width: nat): seq<Call> {
    (if d.revived then [Unwind] else []) + ArriveCalls(d.arrived, d.rtt) + GoneCalls(d.gone, now)
    + [Resize(width)] + (if d.persistent then [Call.Collapse(now)] else [])
  }

  ghost function ApplyAll(c: Controller, calls: seq<Call>): Controller
    decreases |calls|
  {
    if calls == [] || c.window == 0 then c else ApplyAll(Apply(c, calls[0]), calls[1..])
  }

  /** The bytes a call takes out of flight. */
  function Freed(call: Call): nat {
    match call
    case Arrive(bytes, _, _, _) => bytes
    case Lose(bytes, _, _) => bytes
    case Abandon(bytes) => bytes
    case _ => 0
  }

  function FreedAll(calls: seq<Call>): nat {
    if calls == [] then 0 else Freed(calls[0]) + FreedAll(calls[1..])
  }

  lemma {:induction false} FreedConcat(a: seq<Call>, b: seq<Call>)
    ensures FreedAll(a + b) == FreedAll(a) + FreedAll(b)
  {
    if a == [] {
      assert a + b == b;
    } else {
      assert (a + b)[1..] == a[1..] + b;
      FreedConcat(a[1..], b);
    }
  }

  lemma {:induction false} ArriveFrees(arrived: seq<InFlight>, rtt: Rtt)
    ensures FreedAll(ArriveCalls(arrived, rtt)) == FlightBytes(arrived)
  {
    if arrived != [] {
      ArriveFrees(arrived[1..], rtt);
      assert ArriveCalls(arrived, rtt)[1..] == ArriveCalls(arrived[1..], rtt);
    }
  }

  lemma {:induction false} GoneFrees(gone: seq<Gone>, now: Instant)
    ensures FreedAll(GoneCalls(gone, now)) == GoneBytes(gone)
  {
    if gone != [] {
      GoneFrees(gone[1..], now);
      assert GoneCalls(gone, now)[1..] == GoneCalls(gone[1..], now);
    }
  }

  /** A report frees exactly the bytes of the packets it names. */
  lemma CallsFree(d: Detector, now: Instant, width: nat)
    ensures FreedAll(Calls(d, now, width)) == FlightBytes(d.arrived) + GoneBytes(d.gone)
  {
    ArriveFrees(d.arrived, d.rtt);
    GoneFrees(d.gone, now);
    var a, b := if d.revived then [Unwind] else [], if d.persistent then [Call.Collapse(now)] else [];
    var arrive, gone := ArriveCalls(d.arrived, d.rtt), GoneCalls(d.gone, now);
    FreedConcat(a, arrive);
    FreedConcat(a + arrive, gone);
    FreedConcat(a + arrive + gone, [Resize(width)]);
    FreedConcat(a + arrive + gone + [Resize(width)], b);
  }

  /** Calls in which nothing is sealed and every width is a width. */
  ghost predicate Plain(calls: seq<Call>) {
    forall i :: 0 <= i < |calls| ==> !calls[i].Seal? && (calls[i].Resize? ==> calls[i].datagram > 0)
  }

  /** While the controller counts at least what a run of calls frees, no subtraction in it saturates. */
  lemma {:induction false} FreedExactly(c: Controller, calls: seq<Call>)
    requires c.datagram > 0 && c.window > 0 && FreedAll(calls) <= c.inFlight
    requires Plain(calls)
    ensures ApplyAll(c, calls).inFlight == c.inFlight - FreedAll(calls)
    ensures ApplyAll(c, calls).window > 0 && ApplyAll(c, calls).datagram > 0
    decreases |calls|
  {
    if calls != [] {
      ApplyFrees(c, calls[0]);
      FreedExactly(Apply(c, calls[0]), calls[1..]);
    }
  }

  lemma ApplyFrees(c: Controller, call: Call)
    requires c.datagram > 0 && c.window > 0 && Freed(call) <= c.inFlight
    requires !call.Seal? && (call.Resize? ==> call.datagram > 0)
    ensures Apply(c, call).inFlight == c.inFlight - Freed(call)
    ensures Apply(c, call).window > 0 && Apply(c, call).datagram > 0
  {
    if call.Arrive? {
      var n := c.Noted(call.bytes, call.sent, call.rtt);
      CreditedWithin(n.window, n.credit + call.bytes, c.datagram, c.Ceiling(), 1, n.window + c.Ceiling());
    }
  }

  lemma {:induction false} ApplyAllConcat(c: Controller, a: seq<Call>, b: seq<Call>)
    ensures ApplyAll(c, a + b) == ApplyAll(ApplyAll(c, a), b)
    decreases |a|
  {
    if a == [] {
      assert a + b == b;
    } else if c.window > 0 {
      assert (a + b)[1..] == a[1..] + b;
      ApplyAllConcat(Apply(c, a[0]), a[1..], b);
    }
  }

  /** Each arrival reaches the controller, oldest first. */
  method AbsorbArrived(congestion: Congestion, arrived: seq<InFlight>, rtt: Rtt)
    requires congestion.Valid()
    modifies congestion
    ensures congestion.Valid() && congestion.state == ApplyAll(old(congestion.state), ArriveCalls(arrived, rtt))
  {
    ghost var calls, start := ArriveCalls(arrived, rtt), congestion.state;
    assert calls[0..] == calls;
    for i := 0 to |arrived|
      invariant congestion.Valid()
      invariant ApplyAll(congestion.state, calls[i..]) == ApplyAll(start, calls)
    {
      assert calls[i..][0] == ArriveCall(arrived[i], rtt) && calls[i..][1..] == calls[i + 1..];
      congestion.Acknowledged(arrived[i].bytes, arrived[i].sent, rtt, arrived[i].limited);
    }
  }

  /** Each packet given up on reaches the controller, oldest first, as what it was given up for. */
  method AbsorbGone(congestion: Congestion, gone: seq<Gone>, now: Instant)
    requires congestion.Valid()
    modifies congestion
    ensures congestion.Valid() && congestion.state == ApplyAll(old(congestion.state), GoneCalls(gone, now))
  {
    ghost var calls, start := GoneCalls(gone, now), congestion.state;
    assert calls[0..] == calls;
    for i := 0 to |gone|
      invariant congestion.Valid()
      invariant ApplyAll(congestion.state, calls[i..]) == ApplyAll(start, calls)
    {
      assert calls[i..][0] == GoneCall(gone[i], now) && calls[i..][1..] == calls[i + 1..];
      match gone[i].cause {
        case Lost => congestion.Lost(gone[i].bytes, gone[i].sent, now);
        case Silent => congestion.Abandoned(gone[i].bytes);
        case Overflowed => congestion.Abandoned(gone[i].bytes);
      }
    }
  }

  /** A report's calls, each made once and in order. */
  lemma CallsApplied(c: Controller, d: Detector, now: Instant, width: nat)
    ensures ApplyAll(c, Calls(d, now, width))
         == ApplyAll(ApplyAll(ApplyAll(ApplyAll(ApplyAll(c, if d.revived then [Unwind] else []),
                                                ArriveCalls(d.arrived, d.rtt)), GoneCalls(d.gone, now)),
                              [Resize(width)]), if d.persistent then [Call.Collapse(now)] else [])
  {
    var a, b := if d.revived then [Unwind] else [], if d.persistent then [Call.Collapse(now)] else [];
    var arrive, gone := ArriveCalls(d.arrived, d.rtt), GoneCalls(d.gone, now);
    ApplyAllConcat(c, a, arrive);
    ApplyAllConcat(c, a + arrive, gone);
    ApplyAllConcat(c, a + arrive + gone, [Resize(width)]);
    ApplyAllConcat(c, a + arrive + gone + [Resize(width)], b);
  }

  lemma ApplyOne(c: Controller, call: Call)
    requires c.window > 0
    ensures ApplyAll(c, [call]) == Apply(c, call)
  {
    assert [call][1..] == [];
  }

  /** A write-off that proved mistaken is taken back first. */
  method AbsorbRevived(congestion: Congestion, revived: bool)
    requires congestion.Valid()
    modifies congestion
    ensures congestion.Valid() && congestion.state == ApplyAll(old(congestion.state), if revived then [Unwind] else [])
  {
    if revived {
      ApplyOne(congestion.state, Unwind);
      congestion.Spurious();
    }
  }

  /** Silence through a whole period collapses the window last. */
  method AbsorbPersistent(congestion: Congestion, persistent: bool, now: Instant)
    requires congestion.Valid()
    modifies congestion
    ensures congestion.Valid()
    ensures congestion.state == ApplyAll(old(congestion.state), if persistent then [Call.Collapse(now)] else [])
  {
    if persistent {
      ApplyOne(congestion.state, Call.Collapse(now));
      congestion.Collapse(now);
    }
  }

  method AbsorbWidth(congestion: Congestion, width: nat)
    requires congestion.Valid() && width > 0
    modifies congestion
    ensures congestion.Valid() && congestion.state == ApplyAll(old(congestion.state), [Resize(width)])
  {
    ApplyOne(congestion.state, Resize(width));
    congestion.Datagram(width);
  }

  lemma CallsFreeExactly(c: Controller, d: Detector, now: Instant, width: nat)
    requires c.datagram > 0 && c.window > 0 && width > 0
    requires c.inFlight == FlightBytes(d.sent) + FlightBytes(d.arrived) + GoneBytes(d.gone)
    ensures ApplyAll(c, Calls(d, now, width)).inFlight == FlightBytes(d.sent)
  {
    CallsFree(d, now, width);
    FreedExactly(c, Calls(d, now, width));
  }

  /** Every report reaches the controller once and in order, and no subtraction in it saturates. */
  method Absorb(congestion: Congestion, d: Detector, now: Instant, width: nat)
    requires congestion.Valid() && width > 0
    requires congestion.state.inFlight == FlightBytes(d.sent) + FlightBytes(d.arrived) + GoneBytes(d.gone)
    modifies congestion
    ensures congestion.Valid()
    ensures congestion.state == ApplyAll(old(congestion.state), Calls(d, now, width))
    ensures congestion.state.inFlight == FlightBytes(d.sent)
  {
    CallsFreeExactly(congestion.state, d, now, width);
    CallsApplied(congestion.state, d, now, width);
    AbsorbRevived(congestion, d.revived);
    AbsorbArrived(congestion, d.arrived, d.rtt);
    AbsorbGone(congestion, d.gone, now);
    AbsorbWidth(congestion, width);
    AbsorbPersistent(congestion, d.persistent, now);
  }
}
