/**
 One end of a datagram connection as a value: its counters, its view of the
 other end, and the history of what it sealed, admitted and was told about.
 Sealing is ideal (RFC 8439 section 2.8): a sealed body opens only under the key
 and the header it was sealed with.
 */
module Sides {
  import opened Prelude
  import opened Bits
  import opened Keys
  import opened ReplayWindows
  import opened Loss
  import opened LossDetection

  const REKEY_AFTER: nat := 0x100_0000_0000       // 2^40
  const MAX_PACKET_NUMBER: nat := 0xffff_ffff_ffff // 2^48 - 1
  const OVERHEAD: nat := 32                        // header and tag

  datatype Kind = Frame | Challenge | Response | Alive | Close | Acking | Probe

  /** Only these join the flight; a challenge may go to an address that never answers. */
  predicate Tracked(kind: Kind) {
    kind == Frame || kind == Probe
  }

  predicate AckEliciting(kind: Kind) {
    kind == Frame || kind == Challenge || kind == Response || kind == Probe
  }

  datatype Header = Header(kind: Kind, cid: nat, epoch: nat, number: nat)

  datatype Body = Bytes(bytes: seq<nat>) | AckBody(ack: Ack) | Token(token: nat) | Padding(size: nat)

  function BodySize(body: Body): nat {
    match body
    case Bytes(bytes) => |bytes|
    case AckBody(_) => 18
    case Token(_) => 8
    case Padding(size) => size
  }

  datatype Sealed = Sealed(key: Key, header: Header, body: Body)

  /** A datagram on the wire: a header in the clear and something sealed. */
  datatype Wire = Wire(header: Header, sealed: Sealed)

  /** Whether a datagram opens under a key: the header is authenticated, and its number is the nonce. */
  predicate Opens(key: Key, w: Wire) {
    w.sealed.key == key && w.sealed.header == w.header
  }

  datatype SendError = TooLarge | Exhausted | Closed | Blocked

  datatype RecvError = WrongConnection | UnknownEpoch | Auth | Replayed(number: nat)

  datatype Received = FrameUp(body: Body) | Nothing | Migrated | PeerClosed | Refused(error: RecvError)

  /** Who this end is: the shared root, the direction it sends in, and the connection. */
  datatype Identity = Identity(root: Secret, direction: Direction, cid: nat)

  /** The sealing half, and everything it has left on the wire. */
  datatype Outgoing = Outgoing(next: nat, epoch: nat, rekeyEvery: nat, rekeyAt: nat, closed: bool, sealed: seq<Wire>) {
    /** The next datagram, under the epoch in force. */
    function Next(id: Identity, kind: Kind, body: Body): Wire {
      var header := Header(kind, id.cid, epoch, next);
      Wire(header, Sealed(KeyAt(id.root, epoch, id.direction), header, body))
    }

    function Rotated(): Outgoing {
      this.(epoch := if epoch < LAST_EPOCH then epoch + 1 else epoch)
    }

    /** The threshold passed, a seal first moves to a fresh epoch, and to a new threshold. */
    function Rekeyed(): Outgoing {
      if next >= rekeyAt && epoch < LAST_EPOCH
      then Rotated().(rekeyAt := Min(next + rekeyEvery, U64_MAX)) else this
    }

    function Seals(id: Identity, kind: Kind, body: Body): Outgoing {
      var o := Rekeyed();
      o.(next := next + 1, sealed := sealed + [o.Next(id, kind, body)])
    }

    /** Numbers count from zero, epochs never fall, and each datagram is sealed under its epoch's key. */
    ghost predicate Valid(id: Identity) {
      |sealed| == next && epoch <= LAST_EPOCH && SealedInOrder(sealed, epoch, id)
    }
  }

  /** The opening half, and every datagram it has let through. */
  datatype Incoming = Incoming(epoch: nat, previous: Option<nat>, seen: Seen, admitted: seq<Wire>) {
    function ReachOf(e: nat): Reach {
      if e == epoch then Current
      else if previous == Some(e) then Previous
      else if epoch < e <= epoch + MAX_EPOCH_CATCHUP then Ahead(e - epoch)
      else Unreachable
    }

    /** Why a datagram is refused before the replay window is asked. */
    function Rejects(id: Identity, w: Wire): Option<RecvError> {
      if w.header.cid != id.cid then Some(WrongConnection)
      else if ReachOf(w.header.epoch).Unreachable? then Some(UnknownEpoch)
      else if !Opens(KeyAt(id.root, w.header.epoch, id.direction.Opposite()), w) then Some(Auth)
      else None
    }

    /** Adopting the epoch of a datagram that opened ahead of this side. */
    function Followed(w: Wire): Incoming {
      if ReachOf(w.header.epoch).Ahead? then this.(epoch := w.header.epoch, previous := Some(epoch)) else this
    }

    function Admits(w: Wire): Incoming {
      if seen.Answer(w.header.number) == Fresh
      then this.(seen := seen.After(w.header.number), admitted := admitted + [w]) else this
    }

    /** Authenticate, follow, then admit. */
    function Receives(id: Identity, w: Wire): Incoming {
      if Rejects(id, w).Some? then this else Followed(w).Admits(w)
    }

    ghost predicate Valid() {
      epoch <= LAST_EPOCH && (previous.Some? ==> previous.value < epoch) && seen.Valid()
    }
  }

  /** What is tracked, and everything ever reported about it. */
  datatype Flight = Flight(loss: Detector, tracked: seq<InFlight>, arrived: seq<InFlight>, gone: seq<Gone>) {
    function Joins(p: InFlight): Flight {
      this.(loss := loss.Cleared().(sent := loss.sent + [p]), tracked := tracked + [p])
    }

    ghost function Told(ack: Ack, now: Instant): Flight
      requires loss.Valid()
    {
      var d := loss.Settled(ack, now).Detected(now);
      this.(loss := d, arrived := arrived + d.arrived, gone := gone + d.gone)
    }

    ghost function Expires(now: Instant): Flight {
      var d := loss.Cleared().Detected(now);
      this.(loss := d, gone := gone + d.gone)
    }

    function Moved(): Flight {
      this.(loss := loss.(rtt := Unmeasured, silence := 0, silentSince := None, answered := false,
                          largestAcked := None, writtenOff := []))
    }

    /** The flight, the register and the high-water mark all name datagrams already sealed. */
    ghost predicate Valid(next: nat, clock: Instant) {
      && loss.Valid() && Below(loss, next, clock)
      && (loss.largestAcked.Some? ==> loss.largestAcked.value < next)
    }
  }

  datatype Side = Side(id: Identity, out: Outgoing, inc: Incoming, flight: Flight, clock: Instant) {
    /** Why nothing can be sealed, before the path is asked. */
    function Refuses(kind: Kind): Option<SendError> {
      if out.closed then Some(SendError.Closed)
      else if Tracked(kind) && !flight.loss.Admits() then Some(Blocked)
      else if out.next >= out.rekeyAt && out.epoch == LAST_EPOCH then Some(Exhausted)
      else None
    }

    /** What sealing does: a path that refuses takes the datagram back off the buffer, but not the rotation. */
    function Seals(kind: Kind, body: Body, now: Instant, may: bool, limited: Limited): Side {
      if Refuses(kind).Some? then this.(clock := now)
      else if !may then this.(clock := now, out := out.Rekeyed())
      else
        var p := InFlight(out.next, BodySize(body) + OVERHEAD, now, limited);
        this.(clock := now, out := out.Seals(id, kind, body), flight := if Tracked(kind) then flight.Joins(p) else flight)
    }

    /** Whether a datagram is authentic and new. */
    predicate Accepts(w: Wire) {
      inc.Rejects(id, w).None? && inc.seen.Answer(w.header.number) == Fresh
    }

    /** An acknowledgement is believed only about what this side has sealed. */
    predicate Informs(w: Wire) {
      w.header.kind == Acking && w.sealed.body.AckBody? && w.sealed.body.ack.largest < out.next
    }

    /** The order is the argument: authenticate, then admit, then let it touch anything.
        `moves` is whether a response answers the challenge to a new address. */
    ghost function Receives(w: Wire, now: Instant, moves: bool): Side
      requires flight.loss.Valid()
    {
      var s := this.(clock := now, inc := inc.Receives(id, w));
      if Accepts(w) then s.Handled(w, now, moves) else s
    }

    /** What an admitted datagram does to everything but what has been received. */
    ghost function Handled(w: Wire, now: Instant, moves: bool): Side
      requires flight.loss.Valid()
    {
      if w.header.kind == Response && w.sealed.body.Token? && moves
      then this.(out := out.Rotated(), flight := flight.Moved())
      else if Informs(w) then this.(flight := flight.Told(w.sealed.body.ack, now))
      else if w.header.kind == Close then this.(out := out.(closed := true))
      else this
    }

    function Outcome(w: Wire, moves: bool): Received {
      if inc.Rejects(id, w).Some? then Refused(inc.Rejects(id, w).value)
      else if inc.seen.Answer(w.header.number) != Fresh then Refused(Replayed(w.header.number))
      else match w.header.kind
        case Frame => FrameUp(w.sealed.body)
        case Response => if w.sealed.body.Token? && moves then Migrated else Nothing
        case Close => PeerClosed
        case _ => Nothing
    }

    ghost function Expires(now: Instant): Side {
      this.(clock := now, flight := flight.Expires(now))
    }

    /** What every reachable side keeps. */
    ghost predicate Valid() {
      out.Valid(id) && inc.Valid() && flight.Valid(out.next, clock)
    }
  }

  /** The datagram at an index is the one of that number, sealed under the key of its epoch. */
  predicate SealedAs(w: Wire, i: nat, id: Identity) {
    && w.header.number == i && w.header.cid == id.cid && w.sealed.header == w.header
    && w.sealed.key == KeyAt(id.root, w.header.epoch, id.direction)
  }

  predicate EpochUpTo(w: Wire, epoch: nat) {
    w.header.epoch <= epoch
  }

  ghost predicate SealedInOrder(sealed: seq<Wire>, epoch: nat, id: Identity) {
    && (forall i {:trigger SealedAs(sealed[i], i, id)} ::
          0 <= i < |sealed| ==> SealedAs(sealed[i], i, id))
    && (forall i {:trigger EpochUpTo(sealed[i], epoch)} :: 0 <= i < |sealed| ==> EpochUpTo(sealed[i], epoch))
    && (forall i, j {:trigger EpochUpTo(sealed[i], sealed[j].header.epoch)} ::
          0 <= i <= j < |sealed| ==> EpochUpTo(sealed[i], sealed[j].header.epoch))
  }

  lemma SealedMore(sealed: seq<Wire>, epoch: nat, w: Wire, id: Identity)
    requires SealedInOrder(sealed, epoch, id)
    requires SealedAs(w, |sealed|, id) && w.header.epoch == epoch
    ensures SealedInOrder(sealed + [w], epoch, id)
  {
    var all := sealed + [w];
    forall i, j | 0 <= i <= j < |all|
      ensures EpochUpTo(all[i], all[j].header.epoch)
    {
      if j < |sealed| {
        assert EpochUpTo(sealed[i], sealed[j].header.epoch);
      } else if i < |sealed| {
        assert EpochUpTo(sealed[i], epoch);
      }
    }
    forall i | 0 <= i < |all|
      ensures SealedAs(all[i], i, id) && EpochUpTo(all[i], epoch)
    {
      if i < |sealed| {
        assert SealedAs(sealed[i], i, id) && EpochUpTo(sealed[i], epoch);
      }
    }
  }

  lemma SealedLater(sealed: seq<Wire>, epoch: nat, later: nat, id: Identity)
    requires SealedInOrder(sealed, epoch, id) && epoch <= later
    ensures SealedInOrder(sealed, later, id)
  {
    forall i | 0 <= i < |sealed|
      ensures EpochUpTo(sealed[i], later)
    {
      assert EpochUpTo(sealed[i], epoch);
    }
  }

  /** Everything a detector holds was sealed before `next` and by `clock`. */
  ghost predicate Below(d: Detector, next: nat, clock: Instant) {
    && (forall p :: p in d.sent ==> p.number < next && p.sent <= clock)
    && (forall w :: w in d.writtenOff ==> w.number < next)
  }

  lemma {:induction false} OffAfterBelow(off: seq<WrittenOff>, gone: seq<Gone>, n: nat, next: nat)
    requires n <= |gone|
    requires forall w :: w in off ==> w.number < next
    requires forall g :: g in gone ==> g.number < next
    ensures forall w :: w in OffAfter(off, gone, n) ==> w.number < next
  {
    if n > 0 {
      OffAfterBelow(off, gone, n - 1, next);
      assert gone[n - 1] in gone;
    }
  }

  lemma DetectedBelow(d: Detector, now: Instant, next: nat, clock: Instant)
    requires Below(d, next, clock)
    ensures Below(d.Detected(now), next, clock)
  {
    var judge := d.JudgeAt(now);
    DoomedIs(d.sent, judge);
    OffAfterBelow(d.writtenOff, Doomed(d.sent, judge), |Doomed(d.sent, judge)|, next);
  }

  lemma SettledBelow(d: Detector, ack: Ack, now: Instant, next: nat, clock: Instant)
    requires Below(d, next, clock) && d.Valid()
    ensures Below(d.Settled(ack, now), next, clock)
  {
    NamedIs(d.sent, ack, false);
    ReachableIs(d.writtenOff, ack);
    LateIs(Reachable(d.writtenOff, ack), ack, false);
  }

  /** Judging a detector in order leaves one in order. */
  lemma DetectedValid(d: Detector, now: Instant)
    requires Ordered(d.writtenOff, d.sent) && |d.sent| <= MAX_TRACKED && d.rtt.Valid()
    ensures d.Detected(now).Valid()
  {
    DetectedOrdered(d.writtenOff, d.sent, d.JudgeAt(now));
  }

  lemma SettledValid(d: Detector, ack: Ack, now: Instant)
    requires d.Valid()
    ensures var r := d.Settled(ack, now);
            Ordered(r.writtenOff, r.sent) && |r.sent| <= MAX_TRACKED && r.rtt.Valid()
  {
    AckKeeps(d.writtenOff, d.sent, ack);
  }

  function Opening(id: Identity, now: Instant): Side {
    Side(id, Outgoing(0, 0, REKEY_AFTER, REKEY_AFTER, false, []), Incoming(0, None, Unseen, []),
         Flight(Idle, [], [], []), now)
  }
}
