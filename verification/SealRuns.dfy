/** What a side's runs put on the wire: which epoch every number has, and that every frame is tracked. */
module SealRuns {
  import opened Prelude
  import opened Keys
  import opened Loss
  import opened LossDetection
  import opened Sides
  import opened SideRuns

  // ---- epochs by number ----

  /** A step that does not itself change the sealing epoch: no extra rotation, and no completed move. */
  predicate Unturned(step: Step) {
    !step.RotateStep? && (step.RecvStep? ==> !step.moves)
  }

  predicate EpochByNumber(w: Wire, i: nat) {
    w.header.epoch == i / 0x100_0000_0000
  }

  /** Epochs change every 2^40 numbers, and at no other. */
  ghost predicate Regular(o: Outgoing) {
    && o.rekeyEvery == 0x100_0000_0000 && o.rekeyAt == 0x100_0000_0000 * (o.epoch + 1) && o.epoch <= LAST_EPOCH
    && 0x100_0000_0000 * o.epoch <= o.next <= o.rekeyAt && |o.sealed| == o.next
    && forall i {:trigger EpochByNumber(o.sealed[i], i)} :: 0 <= i < |o.sealed| ==> EpochByNumber(o.sealed[i], i)
  }

  lemma SealsRegular(o: Outgoing, id: Identity, kind: Kind, body: Body)
    requires Regular(o) && (o.next < o.rekeyAt || o.epoch < LAST_EPOCH)
    ensures Regular(o.Seals(id, kind, body)) && Regular(o.Rekeyed())
  {
    var t := o.Seals(id, kind, body);
    forall i | 0 <= i < |t.sealed|
      ensures EpochByNumber(t.sealed[i], i)
    {
      if i < |o.sealed| {
        assert EpochByNumber(o.sealed[i], i);
      }
    }
  }

  lemma StepRegular(s: Side, step: Step)
    requires s.Valid() && Legal(s, step) && Unturned(step) && Regular(s.out)
    ensures Regular(Apply(s, step).out)
  {
    if step.SealStep? && s.Refuses(step.kind).None? {
      SealsRegular(s.out, s.id, step.kind, step.body);
    }
  }

  lemma {:induction false} RunRegular(s: Side, steps: seq<Step>)
    requires LegalRun(s, steps) && Regular(s.out) && forall i :: 0 <= i < |steps| ==> Unturned(steps[i])
    ensures Regular(Run(s, steps).out)
    decreases |steps|
  {
    if steps != [] {
      StepRegular(s, steps[0]);
      RunRegular(Apply(s, steps[0]), steps[1..]);
    }
  }

  /**
   Over every run without an extra rotation the epoch of a datagram is its number
   by 2^40, and a side is out of epochs exactly when it has used up all 2^48 numbers.
   */
  lemma EpochOfNumber(id: Identity, now: Instant, steps: seq<Step>, i: nat, kind: Kind)
    requires LegalRun(Opening(id, now), steps) && forall k :: 0 <= k < |steps| ==> Unturned(steps[k])
    ensures
      var s := Run(Opening(id, now), steps);
      && (i < |s.out.sealed| ==> s.out.sealed[i].header.epoch == i / 0x100_0000_0000)
      && (s.Refuses(kind) == Some(Exhausted) <==>
            !s.out.closed && (Tracked(kind) ==> s.flight.loss.Admits()) && |s.out.sealed| == 0x1_0000_0000_0000)
  {
    RunRegular(Opening(id, now), steps);
    var s := Run(Opening(id, now), steps);
    assert i < |s.out.sealed| ==> EpochByNumber(s.out.sealed[i], i);
  }

  /** A path that refuses what was just sealed takes nothing onto the wire, but an epoch begun for it stays begun. */
  lemma RefusalKeepsRotation(s: Side, kind: Kind, body: Body, now: Instant, limited: Limited)
    requires s.Valid() && Budget(s.out) && s.Refuses(kind).None?
    ensures
      var t := s.Seals(kind, body, now, false, limited);
      && t.out.sealed == s.out.sealed && t.out.next == s.out.next && t.flight == s.flight
      && t.out.epoch == s.out.epoch + (if s.out.next >= s.out.rekeyAt then 1 else 0)
      && t.Seals(kind, body, now, true, limited).out == s.Seals(kind, body, now, true, limited).out
  {
  }

  /** A new connection may seal anything, and its first datagram is number 0 of epoch 0. */
  lemma OpeningSeals(id: Identity, now: Instant, kind: Kind, body: Body, limited: Limited)
    ensures Opening(id, now).Refuses(kind) == None
    ensures Opening(id, now).Seals(kind, body, now, true, limited).out.sealed
         == [Wire(Header(kind, id.cid, 0, 0), Sealed(Key(id.root, id.direction), Header(kind, id.cid, 0, 0), body))]
  {
  }

  // ---- every frame is tracked ----

  /** The numbers and sizes of the datagrams that must be tracked: frames and probes, with their 32 bytes of overhead. */
  function MustTrack(sealed: seq<Wire>): seq<(nat, nat)> {
    if sealed == [] then []
    else
      var last := sealed[|sealed| - 1];
      MustTrack(sealed[..|sealed| - 1])
      + if last.header.kind == Frame || last.header.kind == Probe then [(last.header.number, BodySize(last.sealed.body) + 32)] else []
  }

  function Pairs(tracked: seq<InFlight>): (r: seq<(nat, nat)>)
    ensures |r| == |tracked| && forall i :: 0 <= i < |r| ==> r[i] == (tracked[i].number, tracked[i].bytes)
  {
    seq(|tracked|, i requires 0 <= i < |tracked| => (tracked[i].number, tracked[i].bytes))
  }

  ghost predicate AllTracked(s: Side) {
    Pairs(s.flight.tracked) == MustTrack(s.out.sealed)
  }

  lemma SealTracks(s: Side, kind: Kind, body: Body, now: Instant, may: bool, limited: Limited)
    requires s.out.Valid(s.id) && AllTracked(s)
    ensures AllTracked(s.Seals(kind, body, now, may, limited))
  {
    var t := s.Seals(kind, body, now, may, limited);
    if s.Refuses(kind).None? && may {
      assert t.out.sealed[..|t.out.sealed| - 1] == s.out.sealed;
    }
  }

  lemma StepTracks(s: Side, step: Step)
    requires s.Valid() && Legal(s, step) && AllTracked(s)
    ensures AllTracked(Apply(s, step))
  {
    if step.SealStep? {
      SealTracks(s, step.kind, step.body, step.now, step.may, step.limited);
    } else {
      OthersSealNothing(s, step);
    }
  }

  lemma OthersSealNothing(s: Side, step: Step)
    requires s.flight.loss.Valid() && !step.SealStep?
    ensures Apply(s, step).out.sealed == s.out.sealed && Apply(s, step).flight.tracked == s.flight.tracked
  {
  }

  lemma {:induction false} RunTracks(s: Side, steps: seq<Step>)
    requires LegalRun(s, steps) && AllTracked(s)
    ensures AllTracked(Run(s, steps))
    decreases |steps|
  {
    if steps != [] {
      StepTracks(s, steps[0]);
      RunTracks(Apply(s, steps[0]), steps[1..]);
    }
  }

  lemma {:induction false} MustTrackHas(sealed: seq<Wire>, i: nat)
    requires i < |sealed| && (sealed[i].header.kind == Frame || sealed[i].header.kind == Probe)
    ensures (sealed[i].header.number, BodySize(sealed[i].sealed.body) + 32) in MustTrack(sealed)
  {
    if i < |sealed| - 1 {
      MustTrackHas(sealed[..|sealed| - 1], i);
    }
  }

  /** Over every run, every frame and probe left on the wire is in flight, reported arrived or reported gone, once in all. */
  lemma SealedInOnePlace(id: Identity, now: Instant, steps: seq<Step>, i: nat) returns (p: InFlight)
    requires LegalRun(Opening(id, now), steps) && i < |Run(Opening(id, now), steps).out.sealed|
    requires Run(Opening(id, now), steps).out.sealed[i].header.kind in {Frame, Probe}
    ensures
      var s := Run(Opening(id, now), steps);
      && p.number == i && p.bytes == BodySize(s.out.sealed[i].sealed.body) + 32
      && Marks(s.flight.loss.sent)[MarkOf(p)] + Marks(s.flight.arrived)[MarkOf(p)] + GoneMarks(s.flight.gone)[MarkOf(p)] == 1
  {
    var s := Run(Opening(id, now), steps);
    RunTracks(Opening(id, now), steps);
    RunBudget(Opening(id, now), steps);
    assert SealedAs(s.out.sealed[i], i, id);
    MustTrackHas(s.out.sealed, i);
    var k :| 0 <= k < |Pairs(s.flight.tracked)| && Pairs(s.flight.tracked)[k] == (i, BodySize(s.out.sealed[i].sealed.body) + 32);
    p := s.flight.tracked[k];
    ExactlyOnePlace(id, now, steps, p);
  }
}
