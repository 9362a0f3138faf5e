/**
 One end of a datagram connection, composed of its parts and proved to do, call by
 call, what the value model of a side does. What the path and the width search
 decide arrives as arguments: `may` is whether the path lets a datagram go, `width`
 the datagram size in force afterwards, `moves` whether a response completes a move.
 */
module Endpoints {
  import opened Prelude
  import opened Keys
  import opened ReplayWindows
  import opened Loss
  import opened LossDetection
  import opened CongestionControl
  import opened Absorbing
  import opened Sides
  import opened SideRuns
  import opened Network

  const ACK_EVERY: nat := 2

  /** Datagrams waiting for a socket, appended to and truncated in place. */
  class Buffer {
    var datagrams: seq<Wire>

    constructor ()
      ensures datagrams == []
    {
      datagrams := [];
    }
  }

  datatype AckDebt = Paid | Owed(at: Instant, since: Instant, eliciting: nat)

  datatype Own = Own(next: nat, closed: bool, rekeyEvery: nat, rekeyAt: nat, debt: AckDebt)

  class Endpoint {
    const cid: nat
    const keys: KeySchedule
    const window: ReplayWindow
    const loss: LossDetector
    const congestion: Congestion
    var own: Own

    /** The parts are sound, the controller counts exactly what the flight table holds, and nothing overflowed it. */
    ghost predicate Valid()
      reads this, keys, keys.ahead, window, window.seen, loss, congestion
    {
      && keys.Valid() && window.Valid() && loss.state.Valid() && congestion.Valid()
      && congestion.state.inFlight == FlightBytes(loss.state.sent)
      && NeverOverflowed(loss.state.gone)
    }

    ghost predicate ShowsOut(o: Outgoing)
      reads this, keys
    {
      && own.next == o.next && keys.send.epoch == o.epoch && own.rekeyEvery == o.rekeyEvery
      && own.rekeyAt == o.rekeyAt && own.closed == o.closed
    }

    ghost predicate ShowsIn(inc: Incoming)
      reads this, keys, window
    {
      && keys.recv.epoch == inc.epoch && window.View() == inc.seen
      && inc.previous == if keys.previous.Some? then Some(keys.previous.value.0) else None
    }

    /** This endpoint is in the state a side is in. */
    ghost predicate Shows(s: Side)
      reads this, keys, window, loss
    {
      && s.id == Identity(keys.root, keys.sending, cid)
      && ShowsOut(s.out) && ShowsIn(s.inc) && loss.state == s.flight.loss
    }

    constructor (root: Secret, sending: Direction, cid: nat, now: Instant)
      ensures Valid() && Shows(Opening(Identity(root, sending, cid), now))
      ensures fresh(keys) && fresh(keys.ahead) && fresh(window) && fresh(window.seen) && fresh(loss) && fresh(congestion)
    {
      this.cid := cid;
      keys := new KeySchedule(root, sending);
      window := new ReplayWindow();
      loss := new LossDetector();
      congestion := new Congestion(1200);
      own := Own(0, false, REKEY_AFTER, REKEY_AFTER, Paid);
    }

    /** Moves to a fresh epoch, or says there is none left. */
    method Rotate(ghost s: Side) returns (epoch: Option<nat>)
      requires Valid() && Shows(s)
      modifies keys`send, keys`sendKey
      ensures Valid() && Shows(s.(out := s.out.Rotated()))
      ensures epoch.None? <==> s.out.epoch == LAST_EPOCH
    {
      epoch := keys.Rotate();
    }

    /**
     Seals one datagram. What is left in the buffer afterwards is exactly what the
     sealing history grew by, even when the path refuses what was already sealed.
     */
    method SealWith(kind: Kind, body: Body, now: Instant, may: bool, width: nat, out: Buffer, ghost s: Side)
      returns (error: Option<SendError>)
      requires Valid() && Shows(s) && s.Valid() && s.clock <= now && width > 0
      modifies this, keys`send, keys`sendKey, loss, congestion, out
      ensures Valid()
      ensures Shows(s.Seals(kind, body, now, may, old(congestion.state).LimitedAt(BodySize(body) + OVERHEAD)))
      ensures error == if s.Refuses(kind).Some? then s.Refuses(kind) else if may then None else Some(Blocked)
      ensures out.datagrams == old(out.datagrams) + if error.None? then [s.out.Rekeyed().Next(s.id, kind, body)] else []
      ensures own == old(own).(next := own.next, rekeyAt := own.rekeyAt)
      ensures error.Some? ==> congestion.state == old(congestion.state)
    {
      if own.closed {
        return Some(SendError.Closed);
      }
      if Tracked(kind) && !loss.state.Admits() {
        return Some(Blocked);
      }
      error := SealOpen(kind, body, now, may, width, out, s);
    }

    /** Sealing on an open connection with room in the table. */
    method SealOpen(kind: Kind, body: Body, now: Instant, may: bool, width: nat, out: Buffer, ghost s: Side)
      returns (error: Option<SendError>)
      requires Valid() && Shows(s) && s.Valid() && s.clock <= now && width > 0
      requires !own.closed && (Tracked(kind) ==> loss.state.Admits())
      modifies this, keys`send, keys`sendKey, loss, congestion, out
      ensures Valid()
      ensures Shows(s.Seals(kind, body, now, may, old(congestion.state).LimitedAt(BodySize(body) + OVERHEAD)))
      ensures error == if s.Refuses(kind).Some? then s.Refuses(kind) else if may then None else Some(Blocked)
      ensures out.datagrams == old(out.datagrams) + if error.None? then [s.out.Rekeyed().Next(s.id, kind, body)] else []
      ensures own == old(own).(next := own.next, rekeyAt := own.rekeyAt)
      ensures error.Some? ==> congestion.state == old(congestion.state)
    {
      error := Put(kind, body, may, out, s);
      if error.None? && Tracked(kind) {
        Track(InFlight(own.next - 1, BodySize(body) + OVERHEAD, now, Application), width);
      }
    }

    method Put(kind: Kind, body: Body, may: bool, out: Buffer, ghost s: Side) returns (error: Option<SendError>)
      requires keys.Valid() && ShowsOut(s.out) && s.id == Identity(keys.root, keys.sending, cid)
      modifies this, keys`send, keys`sendKey, out
      ensures keys.Valid()
      ensures error == if s.out.next >= s.out.rekeyAt && s.out.epoch == LAST_EPOCH then Some(Exhausted)
                       else if may then None else Some(Blocked)
      ensures ShowsOut(if error.None? then s.out.Seals(s.id, kind, body) else s.out.Rekeyed())
      ensures own == old(own).(next := own.next, rekeyAt := own.rekeyAt)
      ensures out.datagrams == old(out.datagrams) + if error.None? then [s.out.Rekeyed().Next(s.id, kind, body)] else []
    {
      if own.next >= own.rekeyAt {
        var epoch := keys.Rotate();
        if epoch.None? {
          return Some(Exhausted);
        }
        own := own.(rekeyAt := Min(own.next + own.rekeyEvery, U64_MAX));
      }
      var header := Header(kind, cid, keys.send.epoch, own.next);
      var start := |out.datagrams|;
      out.datagrams := out.datagrams + [Wire(header, Sealed(keys.sendKey, header, body))];
      if !may {
        out.datagrams := out.datagrams[..start];
        return Some(Blocked);
      }
      own := own.(next := own.next + 1);
      return None;
    }

    /** A sealed datagram joins the flight and is charged to the window. */
    method Track(sealed: InFlight, width: nat)
      requires congestion.Valid() && width > 0 && loss.state.Valid() && loss.state.Newer(sealed) && loss.state.Admits()
      requires congestion.state.inFlight == FlightBytes(loss.state.sent)
      modifies loss, congestion
      ensures congestion.Valid() && congestion.state.inFlight == FlightBytes(loss.state.sent) && loss.state.Valid()
      ensures loss.state == old(loss.state).Cleared().(
                sent := old(loss.state).sent + [sealed.(limited := old(congestion.state).LimitedAt(sealed.bytes))])
    {
      BytesPush(loss.state.sent, sealed.(limited := congestion.state.LimitedAt(sealed.bytes)));
      var limited := congestion.Sealed(sealed.bytes, sealed.sent);
      loss.Sealed(sealed.(limited := limited));
      Absorb(congestion, loss.state, sealed.sent, width);
    }

    /** The probe timer: whatever is given up on reaches the controller. */
    method Expire(now: Instant, width: nat, ghost s: Side)
      requires Valid() && Shows(s) && width > 0
      modifies loss, congestion
      ensures Valid() && Shows(s.Expires(now))
      ensures congestion.state == ApplyAll(old(congestion.state), Calls(loss.state, now, width))
    {
      Lapse(now, width);
    }

    method Lapse(now: Instant, width: nat)
      requires congestion.Valid() && width > 0 && loss.state.Valid()
      requires congestion.state.inFlight == FlightBytes(loss.state.sent)
      modifies loss, congestion
      ensures congestion.Valid() && congestion.state.inFlight == FlightBytes(loss.state.sent)
      ensures loss.state.Valid() && loss.state == old(loss.state).Cleared().Detected(now) && NeverOverflowed(loss.state.gone)
      ensures congestion.state == ApplyAll(old(congestion.state), Calls(loss.state, now, width))
    {
      DoomedBytes(loss.state.sent, loss.state.JudgeAt(now));
      DoomedNeverOverflowed(loss.state.sent, loss.state.JudgeAt(now));
      loss.Expire(now);
      Absorb(congestion, loss.state, now, width);
    }

    /** Opens a datagram under the key its epoch has, and follows the peer to that epoch only once it opened. */
    method Authenticate(w: Wire, ghost s: Side) returns (error: Option<RecvError>)
      requires keys.Valid() && ShowsIn(s.inc) && s.id == Identity(keys.root, keys.sending, cid)
      requires w.header.epoch <= LAST_EPOCH
      modifies keys`recv, keys`recvKey, keys`previous, keys.ahead
      ensures keys.Valid()
      ensures error == s.inc.Rejects(s.id, w)
      ensures ShowsIn(if error.None? then s.inc.Followed(w) else s.inc)
    {
      if w.header.cid != cid {
        return Some(WrongConnection);
      }
      var reach := keys.Reaches(w.header.epoch);
      assert reach == s.inc.ReachOf(w.header.epoch);
      var key: Option<Key>;
      match reach {
        case Current => key := keys.Reading(reach);
        case Previous => key := keys.Reading(reach);
        case Ahead(steps) => key := keys.PeekAhead(steps);
        case Unreachable => key := None;
      }
      if key.None? {
        return Some(UnknownEpoch);
      }
      assert key.value == KeyAt(s.id.root, w.header.epoch, s.id.direction.Opposite());
      if !Opens(key.value, w) {
        return Some(Auth);
      }
      if reach.Ahead? {
        var followed := keys.Follow(reach.steps);
        assert followed.Some?;
      }
      return None;
    }

    /** What an admitted datagram does to everything but the replay window. */
    method Handle(w: Wire, now: Instant, moves: bool, width: nat, ghost s: Side)
      requires Valid() && Shows(s) && width > 0
      modifies this, keys`send, keys`sendKey, loss, congestion
      ensures Valid()
      ensures Shows(s.Handled(w, now, moves)) && own.debt == old(own).debt
    {
      match w.header.kind {
        case Response =>
          if w.sealed.body.Token? && moves {
            Move(width);
          }
        case Acking =>
          if w.sealed.body.AckBody? && w.sealed.body.ack.largest < own.next {
            Learn(w.sealed.body.ack, now, width);
          }
        case Close => own := own.(closed := true);
        case _ =>
      }
    }

    /** A completed move: the next epoch's key, the opening window, and a detector that has measured nothing. */
    method Move(width: nat)
      requires Valid() && width > 0
      modifies keys`send, keys`sendKey, loss, congestion
      ensures Valid() && loss.state == Flight(old(loss.state), [], [], []).Moved().loss
      ensures keys.send.epoch == if old(keys.send.epoch) < LAST_EPOCH then old(keys.send.epoch) + 1 else LAST_EPOCH
    {
      var epoch := keys.Rotate();
      congestion.Datagram(width);
      congestion.Migrated();
      loss.Migrated();
    }

    /** An acknowledgement reaches the flight table, and what follows from it the controller. */
    method Learn(ack: Ack, now: Instant, width: nat)
      requires Valid() && width > 0
      modifies loss, congestion
      ensures Valid() && loss.state == old(loss.state).Settled(ack, now).Detected(now)
      ensures congestion.state == ApplyAll(old(congestion.state), Calls(loss.state, now, width))
    {
      ghost var settled := loss.state.Settled(ack, now);
      NamedBytes(loss.state.sent, ack);
      DoomedBytes(settled.sent, settled.JudgeAt(now));
      DoomedNeverOverflowed(settled.sent, settled.JudgeAt(now));
      var sample := loss.Acknowledged(ack, now);
      Absorb(congestion, loss.state, now, width);
    }

    /** Authenticate and follow, then ask the replay window. */
    method Open(w: Wire, ghost s: Side) returns (error: Option<RecvError>)
      requires keys.Valid() && window.Valid() && ShowsIn(s.inc) && s.id == Identity(keys.root, keys.sending, cid)
      requires w.header.epoch <= LAST_EPOCH
      modifies keys`recv, keys`recvKey, keys`previous, keys.ahead, window, window.seen
      ensures keys.Valid() && window.Valid() && ShowsIn(s.inc.Receives(s.id, w))
      ensures error == if s.inc.Rejects(s.id, w).Some? then s.inc.Rejects(s.id, w)
                       else if s.Accepts(w) then None else Some(Replayed(w.header.number))
    {
      error := Authenticate(w, s);
      if error.None? {
        var admission := window.Admit(w.header.number);
        if admission != Fresh {
          error := Some(Replayed(w.header.number));
        }
      }
    }

    /** Authenticate, admit, then let it touch anything: exactly what a side does with the datagram. */
    method Recv(w: Wire, now: Instant, moves: bool, width: nat, ghost s: Side) returns (r: Received)
      requires Valid() && Shows(s) && w.header.epoch <= LAST_EPOCH && width > 0
      modifies this, keys, keys.ahead, window, window.seen, loss, congestion
      ensures Valid() && Shows(s.Receives(w, now, moves))
      ensures r == s.Outcome(w, moves)
      ensures own.debt == if s.Accepts(w) && AckEliciting(w.header.kind)
                          then Owes(old(own).debt, now, w.header.kind) else old(own).debt
      ensures w.header.kind in {Acking, Alive, Close} ==> own.debt == old(own).debt
      ensures s.Accepts(w) && w.header.kind in {Frame, Challenge, Response, Probe} ==> own.debt.Owed? && own.debt.since == now
    {
      var error := Open(w, s);
      if error.Some? {
        return Refused(error.value);
      }
      r := Take(w, now, moves, width, s.(clock := now, inc := s.inc.Receives(s.id, w)));
    }

    /** An admitted datagram is owed for, handled, and reported. */
    method Take(w: Wire, now: Instant, moves: bool, width: nat, ghost s: Side) returns (r: Received)
      requires Valid() && Shows(s) && width > 0
      modifies this, keys`send, keys`sendKey, loss, congestion
      ensures Valid() && Shows(s.Handled(w, now, moves))
      ensures own.debt == if AckEliciting(w.header.kind) then Owes(old(own).debt, now, w.header.kind) else old(own).debt
      ensures r == match w.header.kind
        case Frame => FrameUp(w.sealed.body)
        case Response => if w.sealed.body.Token? && moves then Migrated else Nothing
        case Close => PeerClosed
        case _ => Nothing
    {
      if AckEliciting(w.header.kind) {
        own := own.(debt := Owes(own.debt, now, w.header.kind));
      }
      Handle(w, now, moves, width, s);
      r := match w.header.kind
        case Frame => FrameUp(w.sealed.body)
        case Response => if w.sealed.body.Token? && moves then Migrated else Nothing
        case Close => PeerClosed
        case _ => Nothing;
    }

    /** Seals a frame, if it fits a datagram and neither the window nor the pacer holds it back. */
    method Send(frame: seq<nat>, now: Instant, may: bool, carries: nat, width: nat, out: Buffer, ghost s: Side)
      returns (error: Option<SendError>)
      requires Valid() && Shows(s) && s.Valid() && s.clock <= now && width > 0
      modifies this, keys`send, keys`sendKey, loss, congestion, out
      ensures Valid()
      ensures error ==
        if |frame| + OVERHEAD > carries then Some(TooLarge)
        else if s.out.closed then Some(SendError.Closed)
        else if !s.flight.loss.Admits() || !may || !old(congestion.state).Writable(now, |frame| + OVERHEAD) then Some(Blocked)
        else s.Refuses(Frame)
      ensures error.Some? ==>
        Shows(s) && own == old(own) && congestion.state == old(congestion.state) && out.datagrams == old(out.datagrams)
      ensures error.None? ==>
        && Shows(s.Seals(Frame, Bytes(frame), now, true, old(congestion.state).LimitedAt(|frame| + OVERHEAD)))
        && out.datagrams == old(out.datagrams) + [s.out.Rekeyed().Next(s.id, Frame, Bytes(frame))]
    {
      if |frame| + OVERHEAD > carries {
        return Some(TooLarge);
      }
      if own.closed {
        return Some(SendError.Closed);
      }
      if !loss.state.Admits() || !may || !congestion.state.Writable(now, |frame| + OVERHEAD) {
        return Some(Blocked);
      }
      error := SealWith(Frame, Bytes(frame), now, may, width, out, s);
    }

    /** Seals a debt of acknowledgement once it is due: what it says is what the replay window holds. */
    method Acknowledge(now: Instant, may: bool, width: nat, out: Buffer, ghost s: Side)
      returns (sent: bool, ghost step: Option<Step>)
      requires Valid() && Shows(s) && s.Valid() && s.clock <= now && width > 0
      modifies this, keys`send, keys`sendKey, loss, congestion, out
      ensures Valid()
      ensures step.Some? <==> old(own).debt.Owed? && old(own).debt.at <= now && s.inc.seen.admitted != {}
      ensures step.None? ==> Shows(s) && !sent
      ensures step.Some? ==>
        && step.value.SealStep? && step.value.kind == Acking && step.value.body.AckBody? && step.value.now == now
        && Honest(step.value.body.ack, s.inc.seen) && step.value.body.ack.delay == Since(now, old(own).debt.since)
        && Shows(SideRuns.Apply(s, step.value))
      ensures own.debt == if sent then Paid else old(own).debt
    {
      sent, step := false, None;
      if own.debt.Owed? && own.debt.at <= now {
        var named := window.Acknowledgement();
        if named.Some? {
          var ack := Ack(named.value.0, Since(now, own.debt.since), named.value.1);
          step := Some(SealStep(Acking, AckBody(ack), now, may, congestion.state.LimitedAt(18 + OVERHEAD)));
          var error := SealWith(Acking, AckBody(ack), now, may, width, out, s);
          if error.None? {
            own := own.(debt := Paid);
            sent := true;
          }
        }
      }
    }
  }

  /** An acknowledgement waits for company at most 25 ms, not at all for a probe or a second datagram, and no longer than one already owed. */
  function Owes(debt: AckDebt, now: Instant, kind: Kind): (r: AckDebt)
    ensures r.Owed? && r.since == now && r.at <= Max(now + MAX_ACK_DELAY, if debt.Owed? then debt.at else 0)
    ensures debt.Owed? ==> r.at <= Max(now, debt.at)
    ensures kind == Probe ==> r.at == now
    ensures debt.Paid? && kind != Probe ==> r.at == now + 25_000_000
    ensures debt.Owed? && debt.eliciting > 0 ==> r.at == now
    ensures r.eliciting > 0
  {
    var eliciting := match debt case Paid => 1 case Owed(_, _, n) => Min(n + 1, 255);
    var at := if kind == Probe || eliciting >= ACK_EVERY then now
              else match debt case Paid => now + MAX_ACK_DELAY case Owed(at, _, _) => at;
    Owed(at, now, eliciting)
  }

  ghost predicate NeverOverflowed(gone: seq<Gone>) {
    forall g :: g in gone ==> g.cause != Overflowed
  }
}
