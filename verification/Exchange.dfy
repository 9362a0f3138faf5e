/**
 What two ends achieve between them when datagrams do arrive: an authentic
 datagram is let through, an honest acknowledgement is believed, and a frame's
 round trip takes it out of flight.
 */
module Exchanges {
  import opened Prelude
  import opened Keys
  import opened ReplayWindows
  import opened Loss
  import opened LossDetection
  import opened LossReports
  import opened Sides
  import opened SideRuns
  import opened Network

  /** The epochs a receiver holds or can derive a key for: the one it reads, the one before it, and four more. */
  predicate InReach(inc: Incoming, epoch: nat) {
    epoch == inc.epoch || inc.previous == Some(epoch) || (inc.epoch < epoch && epoch - inc.epoch <= 4)
  }

  /** Behind none of what was let through by 256 or more. */
  ghost predicate InWindow(admitted: seq<Wire>, number: nat) {
    forall n :: n in NumbersOf(admitted) ==> n < number + 256
  }

  /**
   A datagram the peer sealed is let through exactly when its epoch is in reach and
   its number is new and in the window; a frame's bytes are then handed up.
   */
  lemma PeersHeardIff(me: Side, peer: Side, i: nat, moves: bool, now: Instant)
    requires Together(me, peer) && i < |peer.out.sealed|
    ensures
      var w := peer.out.sealed[i];
      && (me.Accepts(w) <==>
            InReach(me.inc, w.header.epoch) && i !in NumbersOf(me.inc.admitted) && InWindow(me.inc.admitted, i))
      && (me.Accepts(w) && w.header.kind == Frame ==> me.Outcome(w, moves) == FrameUp(w.sealed.body))
      && (me.Accepts(w) ==> me.Receives(w, now, moves).inc.admitted == me.inc.admitted + [w])
  {
    var w := peer.out.sealed[i];
    assert SealedAs(w, i, peer.id);
    assert InReach(me.inc, w.header.epoch) <==> !me.inc.ReachOf(w.header.epoch).Unreachable?;
    assert me.inc.Rejects(me.id, w).None? <==> InReach(me.inc, w.header.epoch);
    assert i + 256 <= me.inc.seen.top ==> me.inc.seen.top in NumbersOf(me.inc.admitted);
  }

  /** What following leaves of the receiving half. */
  lemma FollowedTo(me: Side, w: Wire, now: Instant, moves: bool, t: Side)
    requires me.flight.loss.Valid() && me.Accepts(w) && w.header.epoch > me.inc.epoch && t == me.Receives(w, now, moves)
    requires me.inc.previous.Some? ==> me.inc.previous.value < me.inc.epoch
    ensures t.inc.epoch == w.header.epoch && t.inc.previous == Some(me.inc.epoch) && t.inc.admitted == me.inc.admitted + [w]
  {
    ReceivesLeaves(me, w, now, moves);
  }

  /** One more heard is one more number. */
  lemma OneMoreNumber(admitted: seq<Wire>, w: Wire)
    ensures NumbersOf(admitted + [w]) == NumbersOf(admitted) + {w.header.number}
  {
    assert (admitted + [w])[..|admitted|] == admitted;
  }

  /** Following the peer to a new epoch does not lose what it sealed under the old one. */
  lemma OldEpochStillHeard(me: Side, peer: Side, w: Wire, now: Instant, moves: bool, j: nat, t: Side)
    requires Together(me, peer) && Allowed(me, peer, RecvStep(w, now, moves))
    requires me.Accepts(w) && w.header.epoch > me.inc.epoch && t == me.Receives(w, now, moves)
    requires j < |peer.out.sealed| && peer.out.sealed[j].header.epoch == me.inc.epoch
    requires j !in NumbersOf(me.inc.admitted) && InWindow(me.inc.admitted + [w], j)
    ensures t.inc.epoch == w.header.epoch && t.Accepts(peer.out.sealed[j])
  {
    RecvKeeps(me, peer, w, now, moves);
    OpensOnlyThePeers(me, peer, w);
    FollowedTo(me, w, now, moves, t);
    OneMoreNumber(me.inc.admitted, w);
    PeersHeardIff(t, peer, j, moves, now);
  }

  /** An authentic acknowledgement is always believed: what it names of the flight has arrived, and is no longer in flight. */
  lemma AckBelieved(me: Side, peer: Side, w: Wire, now: Instant, moves: bool, p: InFlight)
    requires Together(me, peer) && Possible(w, me, peer) && me.Accepts(w)
    requires w.header.kind == Acking && w.sealed.body.AckBody?
    requires p in me.flight.loss.sent && Covers(w.sealed.body.ack, p.number)
    ensures p in me.Receives(w, now, moves).flight.arrived && p !in me.Receives(w, now, moves).flight.loss.sent
  {
    AckInforms(me, peer, w);
    ToldTakes(me.flight, w.sealed.body.ack, now, p);
  }

  /** An honest acknowledgement names nothing its reader has not sealed, so none is disregarded. */
  lemma AckInforms(me: Side, peer: Side, w: Wire)
    requires Together(me, peer) && Possible(w, me, peer) && me.Accepts(w)
    requires w.header.kind == Acking && w.sealed.body.AckBody?
    ensures w.sealed.body.ack.largest < |me.out.sealed| == me.out.next
  {
    var ack := w.sealed.body.ack;
    OpensOnlyThePeers(me, peer, w);
    assert Truthful(peer.out.sealed[w.header.number], peer.inc.seen.admitted);
    assert Covers(ack, ack.largest);
    AdmittedEpoch(peer, me, ack.largest);
  }

  lemma ToldTakes(f: Flight, ack: Ack, now: Instant, p: InFlight)
    requires f.loss.Valid() && p in f.loss.sent && Covers(ack, p.number)
    ensures p in f.Told(ack, now).arrived && p !in f.Told(ack, now).loss.sent
  {
    var settled := f.loss.Settled(ack, now);
    NamedIs(f.loss.sent, ack, true);
    NamedIs(f.loss.sent, ack, false);
    DoomedIs(settled.sent, settled.JudgeAt(now));
  }

  // ---- a frame and its acknowledgement ----

  /** The newest datagram a side has sealed. */
  function Newest(s: Side): Wire
    requires s.out.sealed != []
  {
    s.out.sealed[|s.out.sealed| - 1]
  }

  /** Whatever a side seals next is new to its peer, and goes through if its epoch is in reach. */
  lemma NewestHeard(me: Side, peer: Side, now: Instant, moves: bool)
    requires Together(me, peer) && peer.out.sealed != []
    requires Newest(peer).header.number !in NumbersOf(me.inc.admitted) && InReach(me.inc, Newest(peer).header.epoch)
    ensures me.Accepts(Newest(peer)) && Possible(Newest(peer), me, peer)
    ensures me.Receives(Newest(peer), now, moves).inc.seen.top == |peer.out.sealed| - 1
  {
    var i := |peer.out.sealed| - 1;
    var w := peer.out.sealed[i];
    assert SealedAs(w, i, peer.id);
    forall n | n in NumbersOf(me.inc.admitted)
      ensures n < i
    {
      AdmittedEpoch(me, peer, n);
    }
    PeersHeardIff(me, peer, i, moves, now);
    assert WasSealed(w.sealed, peer.out.sealed);
    assert me.inc.seen.top > 0 ==> me.inc.seen.top in NumbersOf(me.inc.admitted);
  }

  /** A number not yet sealed has not been let through. */
  lemma UnsealedUnheard(me: Side, peer: Side)
    requires Together(me, peer)
    ensures peer.out.next !in NumbersOf(me.inc.admitted)
  {
    if peer.out.next in NumbersOf(me.inc.admitted) {
      AdmittedEpoch(me, peer, peer.out.next);
      assert false;
    }
  }

  /** A frame is sealed. */
  ghost predicate SendsFrame(me: Side, frame: seq<nat>, now: Instant, limited: Limited, sent: Side) {
    && me.Refuses(Frame).None? && me.clock <= now && sent.out.sealed != []
    && sent == me.Seals(Frame, Bytes(frame), now, true, limited)
  }

  /** The newest datagram of one end reaches the other, its epoch in reach. */
  ghost predicate Hears(me: Side, peer: Side, now: Instant, heard: Side) {
    && me.flight.loss.Valid() && me.clock <= now && peer.out.sealed != []
    && InReach(me.inc, Newest(peer).header.epoch) && heard == me.Receives(Newest(peer), now, false)
  }

  /** What has been let through is acknowledged. */
  ghost predicate Answers(me: Side, ack: Ack, now: Instant, answered: Side) {
    && me.Refuses(Acking).None? && me.clock <= now && Honest(ack, me.inc.seen) && answered.out.sealed != []
    && answered == me.Seals(Acking, AckBody(ack), now, true, Application)
  }

  /**
   A frame that is sealed, let through, acknowledged, and whose acknowledgement is
   let through in turn, was handed up as it was sent and has left the flight as
   arrived. Only the epochs must be in reach: everything else follows.
   */
  lemma RoundTrip(me: Side, peer: Side, frame: seq<nat>, t: Instant, limited: Limited, u: Instant, ack: Ack, v: Instant, x: Instant,
                  sent: Side, heard: Side, answered: Side, done: Side)
    requires Together(me, peer) && SendsFrame(me, frame, t, limited, sent) && Hears(peer, sent, u, heard)
    requires Answers(heard, ack, v, answered) && Hears(sent, answered, x, done)
    ensures peer.Outcome(Newest(sent), false) == FrameUp(Bytes(frame))
    ensures
      var p := InFlight(me.out.next, |frame| + 32, t, limited);
      p in sent.flight.loss.sent && p in done.flight.arrived && p !in done.flight.loss.sent
  {
    FrameHeard(me, peer, frame, t, limited, u, sent, heard);
    AnswerBelieved(sent, heard, ack, v, x, answered, done, InFlight(me.out.next, |frame| + 32, t, limited));
  }

  /** The frame is on the wire under the next number, new to the peer, and in flight. */
  lemma FrameSealed(me: Side, peer: Side, frame: seq<nat>, t: Instant, limited: Limited, sent: Side)
    requires Together(me, peer) && SendsFrame(me, frame, t, limited, sent)
    ensures Together(sent, peer) && Newest(sent).header.number == me.out.next && me.out.next !in NumbersOf(peer.inc.admitted)
    ensures Newest(sent).header.kind == Frame && Newest(sent).sealed.body == Bytes(frame) && |sent.out.sealed| == me.out.next + 1
    ensures InFlight(me.out.next, |frame| + 32, t, limited) in sent.flight.loss.sent
  {
    SealKeeps(me, peer, Frame, Bytes(frame), t, true, limited);
    UnsealedUnheard(peer, me);
  }

  lemma FrameHeard(me: Side, peer: Side, frame: seq<nat>, t: Instant, limited: Limited, u: Instant, sent: Side, heard: Side)
    requires Together(me, peer) && SendsFrame(me, frame, t, limited, sent) && Hears(peer, sent, u, heard)
    ensures peer.Outcome(Newest(sent), false) == FrameUp(Bytes(frame))
    ensures Together(sent, heard) && heard.inc.seen.top == me.out.next
    ensures InFlight(me.out.next, |frame| + 32, t, limited) in sent.flight.loss.sent
  {
    FrameSealed(me, peer, frame, t, limited, sent);
    NewestHeard(peer, sent, u, false);
    NewestEpoch(sent);
    RecvKeeps(peer, sent, Newest(sent), u, false);
  }

  lemma NewestEpoch(s: Side)
    requires s.Valid() && s.out.sealed != []
    ensures Newest(s).header.epoch <= LAST_EPOCH
  {
    assert EpochUpTo(s.out.sealed[|s.out.sealed| - 1], s.out.epoch);
  }

  lemma AnswerBelieved(sent: Side, heard: Side, ack: Ack, v: Instant, x: Instant, answered: Side, done: Side, p: InFlight)
    requires Together(sent, heard) && Answers(heard, ack, v, answered) && Hears(sent, answered, x, done)
    requires p in sent.flight.loss.sent && p.number == heard.inc.seen.top
    ensures p in done.flight.arrived && p !in done.flight.loss.sent
  {
    SealKeeps(heard, sent, Acking, AckBody(ack), v, true, Application);
    UnsealedUnheard(sent, heard);
    NewestHeard(sent, answered, x, false);
    AckBelieved(sent, answered, Newest(answered), x, false, p);
  }

  // ---- closing and moving ----

  /** Nothing is sealed by a side that is closed, whatever then happens. */
  lemma {:induction false} ClosedSealsNothing(s: Side, steps: seq<Step>)
    requires LegalRun(s, steps) && s.out.closed
    ensures SideRuns.Run(s, steps).out.closed && SideRuns.Run(s, steps).out.sealed == s.out.sealed
    decreases |steps|
  {
    if steps != [] {
      ClosedStays(s, steps[0]);
      ClosedSealsNothing(Apply(s, steps[0]), steps[1..]);
    }
  }

  lemma ClosedStays(s: Side, step: Step)
    requires s.flight.loss.Valid() && s.out.closed
    ensures Apply(s, step).out.closed && Apply(s, step).out.sealed == s.out.sealed
  {
  }

  /** A close from the peer is final: it is reported once, and this side seals nothing more. */
  lemma CloseIsFinal(me: Side, w: Wire, now: Instant, moves: bool, steps: seq<Step>)
    requires me.Valid() && me.Accepts(w) && w.header.kind == Close
    requires LegalRun(me.Receives(w, now, moves), steps)
    ensures me.Outcome(w, moves) == PeerClosed
    ensures SideRuns.Run(me.Receives(w, now, moves), steps).out.sealed == me.out.sealed
  {
    ClosedSealsNothing(me.Receives(w, now, moves), steps);
  }

  /** A completed move: nothing sealed from then on shares an epoch with anything sealed before. */
  lemma MoveChangesEpoch(me: Side, w: Wire, now: Instant, i: nat)
    requires me.Valid() && me.Accepts(w) && w.header.kind == Response && w.sealed.body.Token?
    requires me.out.epoch < LAST_EPOCH && i < |me.out.sealed|
    ensures me.Outcome(w, true) == Migrated
    ensures me.out.sealed[i].header.epoch < me.Receives(w, now, true).out.epoch
    ensures me.Receives(w, now, true).flight.loss.sent == me.flight.loss.sent
    ensures me.Receives(w, now, true).flight.loss == Idle.(sent := me.flight.loss.sent, arrived := me.flight.loss.arrived,
      gone := me.flight.loss.gone, persistent := me.flight.loss.persistent, revived := me.flight.loss.revived,
      losses := me.flight.loss.losses, spurious := me.flight.loss.spurious)
  {
    assert EpochUpTo(me.out.sealed[i], me.out.epoch);
  }

  /** A move is reported exactly for a datagram let through that answers the challenge to a new address with its token. */
  lemma MigratedIff(me: Side, w: Wire, moves: bool)
    ensures me.Outcome(w, moves) == Migrated <==> me.Accepts(w) && w.header.kind == Response && w.sealed.body.Token? && moves
    ensures me.Outcome(w, moves).Refused? <==> !me.Accepts(w)
  {
  }

  // ---- timing out ----

  /** The timer takes out of flight, and reports, whatever has gone a probe timeout unanswered, and nothing younger than that unless it is overdue. */
  lemma TimerGivesUp(me: Side, now: Instant, p: InFlight)
    requires me.Valid() && p in me.flight.loss.sent
    ensures
      var d, t := me.flight.loss, me.Expires(now);
      var overdue := Overdue(p.number, p.sent, now, d.largestAcked, d.rtt.LossDelay());
      var silent := now >= p.sent + ProbeTimeoutAfter(d.rtt, d.silence);
      && (p in t.flight.loss.sent <==> !overdue && !silent)
      && (overdue ==> GoneOf(p, Lost) in t.flight.gone)
      && (!overdue && silent ==> GoneOf(p, Silent) in t.flight.gone)
      && t.flight.arrived == me.flight.arrived
  {
    GivenUpIff(me.flight.loss.Cleared(), now, p);
  }
}
