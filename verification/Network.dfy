/**
 Two ends joined by a network that drops, duplicates, reorders and injects: every
 datagram delivered either carries something an end sealed, under any header, or
 was sealed under a key that is not the connection's.
 */
module Network {
  import opened Prelude
  import opened Keys
  import opened ReplayWindows
  import opened Loss
  import opened LossDetection
  import opened Sides
  import opened SideRuns

  // ---- what the network may deliver and what an end may seal ----

  ghost predicate OwnKey(key: Key, root: Secret) {
    exists e: nat, d: Direction :: key == KeyAt(root, e, d)
  }

  ghost predicate WasSealed(x: Sealed, history: seq<Wire>) {
    exists i :: 0 <= i < |history| && history[i].sealed == x
  }

  ghost predicate Possible(w: Wire, me: Side, peer: Side) {
    OwnKey(w.sealed.key, me.id.root) ==> WasSealed(w.sealed, me.out.sealed) || WasSealed(w.sealed, peer.out.sealed)
  }

  /** An acknowledgement says what the replay window holds when it is sealed. */
  ghost predicate Honest(ack: Ack, seen: Seen) {
    ack.largest == seen.top && seen.top in seen.admitted && MapNames(ack.behind, seen)
  }

  ghost predicate Allowed(me: Side, peer: Side, step: Step) {
    && Legal(me, step)
    && (step.RecvStep? ==> Possible(step.wire, me, peer))
    && (step.SealStep? && step.kind == Acking ==> step.body.AckBody? && Honest(step.body.ack, me.inc.seen))
  }

  // ---- what holds between two ends ----

  /** A datagram `hearer` let through is the one `speaker` sealed under its number, in an epoch `hearer` has reached. */
  predicate HeardRight(w: Wire, sealed: seq<Wire>, epoch: nat) {
    w.header.number < |sealed| && sealed[w.header.number] == w && w.header.epoch <= epoch
  }

  predicate Differ(w: Wire, v: Wire) {
    w.header.number != v.header.number
  }

  ghost predicate Heard(speaker: Side, hearer: Side) {
    && hearer.inc.epoch <= speaker.out.epoch
    && HeardAll(hearer.inc.admitted, speaker.out.sealed, hearer.inc.epoch)
    && NumbersOf(hearer.inc.admitted) == hearer.inc.seen.admitted
    && AllDiffer(hearer.inc.admitted)
  }

  ghost predicate HeardAll(admitted: seq<Wire>, sealed: seq<Wire>, epoch: nat) {
    forall i {:trigger HeardRight(admitted[i], sealed, epoch)} ::
      0 <= i < |admitted| ==> HeardRight(admitted[i], sealed, epoch)
  }

  ghost predicate AllDiffer(admitted: seq<Wire>) {
    forall i, j {:trigger Differ(admitted[i], admitted[j])} :: 0 <= i < j < |admitted| ==> Differ(admitted[i], admitted[j])
  }

  function NumbersOf(ws: seq<Wire>): set<nat> {
    if ws == [] then {} else NumbersOf(ws[..|ws| - 1]) + {ws[|ws| - 1].header.number}
  }

  /** Every number an acknowledgement names was admitted. */
  ghost predicate Truthful(w: Wire, admitted: set<nat>) {
    w.header.kind == Acking && w.sealed.body.AckBody? ==>
      forall n: nat :: Covers(w.sealed.body.ack, n) ==> n in admitted
  }

  ghost predicate AcksTruthful(sealed: seq<Wire>, admitted: set<nat>) {
    forall i {:trigger Truthful(sealed[i], admitted)} :: 0 <= i < |sealed| ==> Truthful(sealed[i], admitted)
  }

  /** Everything reported arrived is something the peer's window admitted. */
  ghost predicate ArrivedThere(arrived: seq<InFlight>, admitted: set<nat>) {
    forall p :: p in arrived ==> p.number in admitted
  }

  /** What holds of one end towards the other. */
  ghost predicate Towards(me: Side, peer: Side) {
    && me.Valid()
    && Heard(peer, me)
    && AcksTruthful(me.out.sealed, me.inc.seen.admitted)
    && ArrivedThere(me.flight.arrived, peer.inc.seen.admitted)
  }

  ghost predicate Matched(me: Side, peer: Side) {
    me.id.root == peer.id.root && me.id.cid == peer.id.cid && me.id.direction == peer.id.direction.Opposite()
  }

  ghost predicate Together(me: Side, peer: Side) {
    Matched(me, peer) && Towards(me, peer) && Towards(peer, me)
  }

  // ---- authenticity ----

  lemma {:induction false} NumbersOfHas(ws: seq<Wire>, i: nat)
    requires i < |ws|
    ensures ws[i].header.number in NumbersOf(ws)
  {
    if i < |ws| - 1 {
      NumbersOfHas(ws[..|ws| - 1], i);
    }
  }

  lemma {:induction false} NumbersOfFrom(ws: seq<Wire>, n: nat) returns (i: nat)
    requires n in NumbersOf(ws)
    ensures i < |ws| && ws[i].header.number == n
  {
    if ws[|ws| - 1].header.number == n {
      i := |ws| - 1;
    } else {
      i := NumbersOfFrom(ws[..|ws| - 1], n);
    }
  }

  /** A datagram that opens is exactly the one the peer sealed under its number. */
  lemma OpensOnlyThePeers(me: Side, peer: Side, w: Wire)
    requires Matched(me, peer) && me.Valid() && peer.Valid()
    requires Possible(w, me, peer) && me.inc.Rejects(me.id, w).None?
    ensures w.header.number < |peer.out.sealed| && peer.out.sealed[w.header.number] == w
  {
    var key := KeyAt(me.id.root, w.header.epoch, me.id.direction.Opposite());
    assert OwnKey(key, me.id.root);
    if WasSealed(w.sealed, me.out.sealed) {
      var i :| 0 <= i < |me.out.sealed| && me.out.sealed[i].sealed == w.sealed;
      assert SealedAs(me.out.sealed[i], i, me.id);
      KeysDistinct(me.id.root, w.header.epoch, me.out.sealed[i].header.epoch, me.id.direction.Opposite(), me.id.direction);
      assert false;
    }
    var i :| 0 <= i < |peer.out.sealed| && peer.out.sealed[i].sealed == w.sealed;
    assert SealedAs(peer.out.sealed[i], i, peer.id);
  }

  /**
   A datagram that opens ahead of the epoch being read is always new, so following
   it before asking the replay window never follows for nothing.
   */
  lemma AheadIsFresh(me: Side, peer: Side, w: Wire)
    requires Together(me, peer)
    requires Possible(w, me, peer) && me.inc.Rejects(me.id, w).None? && me.inc.ReachOf(w.header.epoch).Ahead?
    ensures me.inc.seen.Answer(w.header.number) == Fresh
  {
    OpensOnlyThePeers(me, peer, w);
    var n, sealed := w.header.number, peer.out.sealed;
    var seen := me.inc.seen;
    if n in seen.admitted {
      AdmittedEpoch(me, peer, n);
      assert false;
    }
    if seen.top > 0 {
      AdmittedEpoch(me, peer, seen.top);
      assert n <= seen.top ==> EpochUpTo(sealed[n], sealed[seen.top].header.epoch);
    }
  }

  lemma AdmittedEpoch(me: Side, peer: Side, n: nat)
    requires Heard(peer, me) && n in me.inc.seen.admitted
    ensures n < |peer.out.sealed| && peer.out.sealed[n].header.epoch <= me.inc.epoch
  {
    var i := NumbersOfFrom(me.inc.admitted, n);
    assert HeardRight(me.inc.admitted[i], peer.out.sealed, me.inc.epoch);
  }

  // ---- every step keeps it ----

  lemma HeardAllMore(admitted: seq<Wire>, w: Wire, sealed: seq<Wire>, epoch: nat, later: nat)
    requires HeardAll(admitted, sealed, epoch) && epoch <= later && HeardRight(w, sealed, later)
    ensures HeardAll(admitted + [w], sealed, later)
  {
    var all := admitted + [w];
    forall i | 0 <= i < |all|
      ensures HeardRight(all[i], sealed, later)
    {
      if i < |admitted| {
        assert HeardRight(admitted[i], sealed, epoch);
      }
    }
  }

  lemma AllDifferMore(admitted: seq<Wire>, w: Wire)
    requires AllDiffer(admitted) && w.header.number !in NumbersOf(admitted)
    ensures AllDiffer(admitted + [w])
  {
    var all := admitted + [w];
    forall i, j | 0 <= i < j < |all|
      ensures Differ(all[i], all[j])
    {
      if j < |admitted| {
        assert Differ(admitted[i], admitted[j]);
      } else {
        NumbersOfHas(admitted, i);
      }
    }
  }

  lemma HeardMore(admitted: seq<Wire>, w: Wire, sealed: seq<Wire>, epoch: nat, later: nat, seen: Seen)
    requires HeardAll(admitted, sealed, epoch) && AllDiffer(admitted) && NumbersOf(admitted) == seen.admitted
    requires epoch <= later && HeardRight(w, sealed, later) && seen.Answer(w.header.number) == Fresh
    ensures HeardAll(admitted + [w], sealed, later) && AllDiffer(admitted + [w])
    ensures NumbersOf(admitted + [w]) == seen.After(w.header.number).admitted
  {
    HeardAllMore(admitted, w, sealed, epoch, later);
    AllDifferMore(admitted, w);
    assert (admitted + [w])[..|admitted|] == admitted;
  }

  lemma HeardLater(admitted: seq<Wire>, sealed: seq<Wire>, epoch: nat, more: seq<Wire>)
    requires HeardAll(admitted, sealed, epoch) && sealed <= more
    ensures HeardAll(admitted, more, epoch)
  {
    forall i | 0 <= i < |admitted|
      ensures HeardRight(admitted[i], more, epoch)
    {
      assert HeardRight(admitted[i], sealed, epoch);
    }
  }

  lemma TruthfulLater(sealed: seq<Wire>, admitted: set<nat>, more: set<nat>)
    requires AcksTruthful(sealed, admitted) && admitted <= more
    ensures AcksTruthful(sealed, more)
  {
    forall i | 0 <= i < |sealed|
      ensures Truthful(sealed[i], more)
    {
      assert Truthful(sealed[i], admitted);
    }
  }

  lemma HonestIsTruthful(w: Wire, seen: Seen)
    requires w.header.kind == Acking ==> w.sealed.body.AckBody? && Honest(w.sealed.body.ack, seen)
    ensures Truthful(w, seen.admitted)
  {
  }

  /** When it is sealed, an acknowledgement names exactly what was admitted of the top and the 64 numbers behind it. */
  lemma HonestIsExact(ack: Ack, seen: Seen)
    requires Honest(ack, seen) && seen.Valid()
    ensures forall n: nat {:trigger Covers(ack, n)} :: Covers(ack, n) <==> n in seen.admitted && n + 64 >= seen.top
  {
    forall n: nat
      ensures Covers(ack, n) <==> n in seen.admitted && n + 64 >= seen.top
    {
      if n < seen.top && n + 64 >= seen.top {
        assert ack.behind[seen.top - n - 1] <==> n in seen.admitted;
      }
    }
  }

  /** The receiving half of a step keeps what was heard. */
  lemma ReceiveHeard(me: Side, peer: Side, w: Wire)
    requires Together(me, peer) && Possible(w, me, peer)
    ensures var inc := me.inc.Receives(me.id, w);
            && inc.epoch <= peer.out.epoch && HeardAll(inc.admitted, peer.out.sealed, inc.epoch)
            && NumbersOf(inc.admitted) == inc.seen.admitted && AllDiffer(inc.admitted)
            && me.inc.seen.admitted <= inc.seen.admitted
  {
    if me.inc.Rejects(me.id, w).None? {
      OpensOnlyThePeers(me, peer, w);
      assert EpochUpTo(peer.out.sealed[w.header.number], peer.out.epoch);
      if me.inc.ReachOf(w.header.epoch).Ahead? {
        AheadIsFresh(me, peer, w);
      }
      if me.inc.seen.Answer(w.header.number) == Fresh {
        var later := me.inc.Followed(w).epoch;
        HeardMore(me.inc.admitted, w, peer.out.sealed, me.inc.epoch, later, me.inc.seen);
      }
    }
  }

  /** What an acknowledgement from the peer makes arrive, the peer admitted. */
  lemma ToldArrives(me: Side, peer: Side, w: Wire, now: Instant)
    requires Together(me, peer) && Possible(w, me, peer) && me.Accepts(w) && me.Informs(w)
    ensures ArrivedThere(me.flight.Told(w.sealed.body.ack, now).arrived, peer.inc.seen.admitted)
  {
    OpensOnlyThePeers(me, peer, w);
    assert Truthful(peer.out.sealed[w.header.number], peer.inc.seen.admitted);
    NamedIs(me.flight.loss.sent, w.sealed.body.ack, true);
  }

  lemma TruthfulMore(sealed: seq<Wire>, w: Wire, admitted: set<nat>)
    requires AcksTruthful(sealed, admitted) && Truthful(w, admitted)
    ensures AcksTruthful(sealed + [w], admitted)
  {
    forall i | 0 <= i < |sealed + [w]|
      ensures Truthful((sealed + [w])[i], admitted)
    {
      if i < |sealed| {
        assert Truthful(sealed[i], admitted);
      }
    }
  }

  /** The peer's side of things, when this side has only sealed more or moved to a later epoch. */
  lemma PeerStillHeard(me: Side, t: Side, peer: Side)
    requires Together(me, peer)
    requires t.out.epoch >= me.out.epoch && me.out.sealed <= t.out.sealed
    requires me.inc.seen.admitted <= t.inc.seen.admitted
    ensures Towards(peer, t)
  {
    HeardLater(peer.inc.admitted, me.out.sealed, peer.inc.epoch, t.out.sealed);
  }

  lemma SealKeeps(me: Side, peer: Side, kind: Kind, body: Body, now: Instant, may: bool, limited: Limited)
    requires Together(me, peer) && Allowed(me, peer, SealStep(kind, body, now, may, limited))
    ensures Together(me.Seals(kind, body, now, may, limited), peer)
  {
    var t := me.Seals(kind, body, now, may, limited);
    SealStepValid(me, kind, body, now, may, limited);
    PeerStillHeard(me, t, peer);
    var w := me.out.Rekeyed().Next(me.id, kind, body);
    HonestIsTruthful(w, me.inc.seen);
    TruthfulMore(me.out.sealed, w, me.inc.seen.admitted);
  }

  /** What receiving leaves alone. */
  lemma ReceivesLeaves(me: Side, w: Wire, now: Instant, moves: bool)
    requires me.flight.loss.Valid()
    ensures
      var t := me.Receives(w, now, moves);
      && t.id == me.id && t.inc == me.inc.Receives(me.id, w)
      && t.out.sealed == me.out.sealed && t.out.epoch >= me.out.epoch
      && t.flight.arrived == if me.Accepts(w) && me.Informs(w) && !(w.header.kind == Response && moves)
                             then me.flight.Told(w.sealed.body.ack, now).arrived else me.flight.arrived
  {
  }

  lemma RecvKeeps(me: Side, peer: Side, w: Wire, now: Instant, moves: bool)
    requires Together(me, peer) && Allowed(me, peer, RecvStep(w, now, moves))
    ensures Together(me.Receives(w, now, moves), peer)
  {
    var t := me.Receives(w, now, moves);
    RecvStepValid(me, w, now, moves);
    ReceivesLeaves(me, w, now, moves);
    ReceiveHeard(me, peer, w);
    PeerStillHeard(me, t, peer);
    TruthfulLater(me.out.sealed, me.inc.seen.admitted, t.inc.seen.admitted);
    if me.Accepts(w) && me.Informs(w) {
      ToldArrives(me, peer, w, now);
    }
    TogetherOf(t, peer);
  }

  lemma TogetherOf(t: Side, peer: Side)
    requires Matched(t, peer) && t.Valid() && Heard(peer, t) && AcksTruthful(t.out.sealed, t.inc.seen.admitted)
    requires ArrivedThere(t.flight.arrived, peer.inc.seen.admitted) && Towards(peer, t)
    ensures Together(t, peer)
  {
  }

  /** Whatever either end or the network does next, everything that holds between the two still holds. */
  lemma MoveKeeps(me: Side, peer: Side, step: Step)
    requires Together(me, peer) && Allowed(me, peer, step)
    ensures Together(Apply(me, step), peer)
  {
    match step
    case SealStep(kind, body, now, may, limited) => SealKeeps(me, peer, kind, body, now, may, limited);
    case RecvStep(w, now, moves) => RecvKeeps(me, peer, w, now, moves);
    case _ =>
      StepValid(me, step);
      PeerStillHeard(me, Apply(me, step), peer);
  }

  // ---- runs of the two ends ----

  datatype Turn = Turn(client: bool, step: Step)

  ghost predicate Playable(client: Side, server: Side, turns: seq<Turn>)
    decreases |turns|
  {
    && client.Valid() && server.Valid()
    && (turns != [] ==>
          if turns[0].client
          then Allowed(client, server, turns[0].step) && Playable(Apply(client, turns[0].step), server, turns[1..])
          else Allowed(server, client, turns[0].step) && Playable(client, Apply(server, turns[0].step), turns[1..]))
  }

  ghost function Play(client: Side, server: Side, turns: seq<Turn>): (Side, Side)
    requires Playable(client, server, turns)
    decreases |turns|
  {
    if turns == [] then (client, server)
    else if turns[0].client then Play(Apply(client, turns[0].step), server, turns[1..])
    else Play(client, Apply(server, turns[0].step), turns[1..])
  }

  /** Every turn is allowed where it is taken; nothing is asked of the states in between. */
  ghost predicate Permits(client: Side, server: Side, turns: seq<Turn>)
    decreases |turns|
  {
    client.Valid() && server.Valid() && turns != [] ==>
      if turns[0].client
      then Allowed(client, server, turns[0].step) && Permits(Apply(client, turns[0].step), server, turns[1..])
      else Allowed(server, client, turns[0].step) && Permits(client, Apply(server, turns[0].step), turns[1..])
  }

  lemma {:induction false} AllowedTurnsSuffice(client: Side, server: Side, turns: seq<Turn>)
    requires client.Valid() && server.Valid() && Permits(client, server, turns)
    ensures Playable(client, server, turns)
    decreases |turns|
  {
    if turns != [] {
      if turns[0].client {
        StepValid(client, turns[0].step);
        AllowedTurnsSuffice(Apply(client, turns[0].step), server, turns[1..]);
      } else {
        StepValid(server, turns[0].step);
        AllowedTurnsSuffice(client, Apply(server, turns[0].step), turns[1..]);
      }
    }
  }

  lemma {:induction false} PlayTogether(client: Side, server: Side, turns: seq<Turn>)
    requires Playable(client, server, turns) && Together(client, server)
    ensures Together(Play(client, server, turns).0, Play(client, server, turns).1)
    decreases |turns|
  {
    if turns != [] {
      if turns[0].client {
        MoveKeeps(client, server, turns[0].step);
        PlayTogether(Apply(client, turns[0].step), server, turns[1..]);
      } else {
        MoveKeeps(server, client, turns[0].step);
        PlayTogether(client, Apply(server, turns[0].step), turns[1..]);
      }
    }
  }

  function ClientOpening(root: Secret, cid: nat, now: Instant): Side {
    Opening(Identity(root, ClientToServer, cid), now)
  }

  function ServerOpening(root: Secret, cid: nat, now: Instant): Side {
    Opening(Identity(root, ServerToClient, cid), now)
  }

  /** From the opening of a connection, allowed turns are all a run needs. */
  lemma OpeningPlays(root: Secret, cid: nat, t: Instant, u: Instant, turns: seq<Turn>)
    requires Permits(ClientOpening(root, cid, t), ServerOpening(root, cid, u), turns)
    ensures Playable(ClientOpening(root, cid, t), ServerOpening(root, cid, u), turns)
  {
    OpeningValid(Identity(root, ClientToServer, cid), t);
    OpeningValid(Identity(root, ServerToClient, cid), u);
    AllowedTurnsSuffice(ClientOpening(root, cid, t), ServerOpening(root, cid, u), turns);
  }

  /** The two ends of a fresh connection stand together, and whatever then happens they still do. */
  lemma AlwaysTogether(root: Secret, cid: nat, t: Instant, u: Instant, turns: seq<Turn>)
    requires Playable(ClientOpening(root, cid, t), ServerOpening(root, cid, u), turns)
    ensures var (c, s) := Play(ClientOpening(root, cid, t), ServerOpening(root, cid, u), turns);
            Together(c, s) && Together(s, c)
  {
    PlayTogether(ClientOpening(root, cid, t), ServerOpening(root, cid, u), turns);
  }

  /**
   Over every run, in both directions: whatever an end let through its peer sealed,
   and nothing was let through twice; and whatever an end was told arrived, its
   peer had let through.
   */
  lemma DeliveredAtMostOnce(root: Secret, cid: nat, t: Instant, u: Instant, turns: seq<Turn>, i: nat, j: nat)
    requires Playable(ClientOpening(root, cid, t), ServerOpening(root, cid, u), turns)
    ensures var (c, s) := Play(ClientOpening(root, cid, t), ServerOpening(root, cid, u), turns);
            && AuthenticOnce(c, s, i, j) && AuthenticOnce(s, c, i, j)
            && (forall p :: p in c.flight.arrived ==> p.number in NumbersOf(s.inc.admitted))
            && (forall p :: p in s.flight.arrived ==> p.number in NumbersOf(c.inc.admitted))
  {
    AlwaysTogether(root, cid, t, u, turns);
    var (c, s) := Play(ClientOpening(root, cid, t), ServerOpening(root, cid, u), turns);
    TogetherMeans(c, s, i, j);
    TogetherMeans(s, c, i, j);
  }

  /** The `j`th datagram let through is one the peer sealed, and is not the `i`th again. */
  ghost predicate AuthenticOnce(hearer: Side, speaker: Side, i: nat, j: nat) {
    j < |hearer.inc.admitted| ==>
      var w := hearer.inc.admitted[j];
      w in speaker.out.sealed && (i < j ==> hearer.inc.admitted[i].header.number != w.header.number)
  }

  lemma TogetherMeans(me: Side, peer: Side, i: nat, j: nat)
    requires Together(me, peer)
    ensures AuthenticOnce(me, peer, i, j)
  {
    var all := me.inc.admitted;
    if j < |all| {
      assert HeardRight(all[j], peer.out.sealed, me.inc.epoch);
      assert i < j ==> Differ(all[i], all[j]);
    }
  }

  /** What was let through stays let through. */
  lemma AdmittedGrows(s: Side, step: Step)
    requires s.flight.loss.Valid()
    ensures s.inc.seen.admitted <= Apply(s, step).inc.seen.admitted
  {
  }

  lemma {:induction false} AdmittedStays(client: Side, server: Side, turns: seq<Turn>)
    requires Playable(client, server, turns)
    ensures client.inc.seen.admitted <= Play(client, server, turns).0.inc.seen.admitted
    decreases |turns|
  {
    if turns != [] {
      if turns[0].client {
        AdmittedGrows(client, turns[0].step);
        AdmittedStays(Apply(client, turns[0].step), server, turns[1..]);
      } else {
        AdmittedStays(client, Apply(server, turns[0].step), turns[1..]);
      }
    }
  }

  /**
   A frame handed up is one the peer sealed as a frame, never let through before;
   and after whatever either end and the network do next, it is refused.
   */
  lemma FrameHandedUpOnce(me: Side, peer: Side, w: Wire, now: Instant, moves: bool, body: Body, turns: seq<Turn>, again: bool)
    requires Together(me, peer) && Allowed(me, peer, RecvStep(w, now, moves))
    requires me.Outcome(w, moves) == FrameUp(body)
    requires Playable(me.Receives(w, now, moves), peer, turns)
    ensures w in peer.out.sealed && w.header.kind == Frame && w.sealed.body == body
    ensures w.header.number !in NumbersOf(me.inc.admitted)
    ensures Play(me.Receives(w, now, moves), peer, turns).0.Outcome(w, again).Refused?
  {
    OpensOnlyThePeers(me, peer, w);
    AdmittedStays(me.Receives(w, now, moves), peer, turns);
  }

  /** A datagram refused as a replay has changed nothing about this end but its clock. */
  lemma ReplayChangesNothing(me: Side, peer: Side, w: Wire, now: Instant, moves: bool)
    requires Together(me, peer) && Allowed(me, peer, RecvStep(w, now, moves))
    requires me.Outcome(w, moves).Refused?
    ensures me.Receives(w, now, moves) == me.(clock := now)
  {
    if me.inc.Rejects(me.id, w).None? && me.inc.ReachOf(w.header.epoch).Ahead? {
      AheadIsFresh(me, peer, w);
    }
  }
}
