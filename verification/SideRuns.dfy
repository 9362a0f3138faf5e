/** What one end of a connection keeps over every run, whatever the other end and the network do. */
module SideRuns {
  import opened Prelude
  import opened Keys
  import opened ReplayWindows
  import opened Loss
  import opened LossDetection
  import opened Sides

  datatype Step =
    | SealStep(kind: Kind, body: Body, now: Instant, may: bool, limited: Limited)
    | RecvStep(wire: Wire, now: Instant, moves: bool)
    | ExpireStep(now: Instant)
    | RotateStep
    | CloseStep

  /** The clock does not go back, and an epoch is a byte. */
  ghost predicate Legal(s: Side, step: Step) {
    match step
    case SealStep(_, _, now, _, _) => s.clock <= now
    case RecvStep(wire, now, _) => s.clock <= now && wire.header.epoch <= LAST_EPOCH
    case ExpireStep(now) => s.clock <= now
    case RotateStep => true
    case CloseStep => true
  }

  ghost function Apply(s: Side, step: Step): Side
    requires s.flight.loss.Valid()
  {
    match step
    case SealStep(kind, body, now, may, limited) => s.Seals(kind, body, now, may, limited)
    case RecvStep(wire, now, moves) => s.Receives(wire, now, moves)
    case ExpireStep(now) => s.Expires(now)
    case RotateStep => s.(out := s.out.Rotated())
    case CloseStep => s.(out := s.out.(closed := true))
  }

  // ---- well-formedness ----

  lemma ToldValid(f: Flight, ack: Ack, now: Instant, next: nat, clock: Instant)
    requires f.Valid(next, clock) && ack.largest < next
    ensures f.Told(ack, now).Valid(next, clock)
  {
    SettledValid(f.loss, ack, now);
    SettledBelow(f.loss, ack, now, next, clock);
    DetectedValid(f.loss.Settled(ack, now), now);
    DetectedBelow(f.loss.Settled(ack, now), now, next, clock);
  }

  lemma ExpiresValid(f: Flight, now: Instant, next: nat, clock: Instant)
    requires f.Valid(next, clock)
    ensures f.Expires(now).Valid(next, clock)
  {
    DetectedValid(f.loss.Cleared(), now);
    DetectedBelow(f.loss.Cleared(), now, next, clock);
  }

  lemma JoinsValid(f: Flight, p: InFlight, next: nat, clock: Instant)
    requires f.Valid(next, clock) && p.number == next && clock <= p.sent && f.loss.Admits()
    ensures f.Joins(p).Valid(next + 1, p.sent)
  {
    Pushed(f.loss.sent, p);
  }

  lemma RotatedValid(o: Outgoing, id: Identity)
    requires o.Valid(id)
    ensures o.Rotated().Valid(id) && o.Rekeyed().Valid(id)
  {
    SealedLater(o.sealed, o.epoch, o.Rotated().epoch, id);
  }

  lemma SealsValid(o: Outgoing, id: Identity, kind: Kind, body: Body)
    requires o.Valid(id)
    ensures o.Seals(id, kind, body).Valid(id)
  {
    RotatedValid(o, id);
    var r := o.Rekeyed();
    SealedMore(r.sealed, r.epoch, r.Next(id, kind, body), id);
  }

  lemma ReceivesValid(inc: Incoming, id: Identity, w: Wire)
    requires inc.Valid() && w.header.epoch <= LAST_EPOCH
    ensures inc.Receives(id, w).Valid()
  {
  }

  lemma LaterValid(f: Flight, next: nat, clock: Instant, later: nat, now: Instant)
    requires f.Valid(next, clock) && next <= later && clock <= now
    ensures f.Valid(later, now) && f.Moved().Valid(later, now)
  {
  }

  lemma SealStepValid(s: Side, kind: Kind, body: Body, now: Instant, may: bool, limited: Limited)
    requires s.Valid() && s.clock <= now
    ensures s.Seals(kind, body, now, may, limited).Valid()
  {
    RotatedValid(s.out, s.id);
    SealsValid(s.out, s.id, kind, body);
    LaterValid(s.flight, s.out.next, s.clock, s.out.next, now);
    LaterValid(s.flight, s.out.next, s.clock, s.out.next + 1, now);
    if s.Refuses(kind).None? && Tracked(kind) {
      JoinsValid(s.flight, InFlight(s.out.next, BodySize(body) + OVERHEAD, now, limited), s.out.next, s.clock);
    }
  }

  lemma RecvStepValid(s: Side, w: Wire, now: Instant, moves: bool)
    requires s.Valid() && s.clock <= now && w.header.epoch <= LAST_EPOCH
    ensures s.Receives(w, now, moves).Valid()
  {
    RotatedValid(s.out, s.id);
    ReceivesValid(s.inc, s.id, w);
    LaterValid(s.flight, s.out.next, s.clock, s.out.next, now);
    if s.Informs(w) {
      ToldValid(s.flight, w.sealed.body.ack, now, s.out.next, now);
    }
  }

  /** Every step from a well-formed side leads to one. */
  lemma StepValid(s: Side, step: Step)
    requires s.Valid() && Legal(s, step)
    ensures Apply(s, step).Valid()
  {
    match step
    case SealStep(kind, body, now, may, limited) => SealStepValid(s, kind, body, now, may, limited);
    case RecvStep(w, now, moves) => RecvStepValid(s, w, now, moves);
    case ExpireStep(now) =>
      LaterValid(s.flight, s.out.next, s.clock, s.out.next, now);
      ExpiresValid(s.flight, now, s.out.next, now);
    case RotateStep => RotatedValid(s.out, s.id);
    case CloseStep =>
  }

  // ---- runs ----

  ghost predicate LegalRun(s: Side, steps: seq<Step>)
    decreases |steps|
  {
    s.Valid() && (steps != [] ==> Legal(s, steps[0]) && LegalRun(Apply(s, steps[0]), steps[1..]))
  }

  ghost function Run(s: Side, steps: seq<Step>): Side
    requires LegalRun(s, steps)
    decreases |steps|
  {
    if steps == [] then s else Run(Apply(s, steps[0]), steps[1..])
  }

  lemma OpeningValid(id: Identity, now: Instant)
    ensures Opening(id, now).Valid()
  {
  }

  /** Every step is legal where it is taken; nothing is asked of the states in between. */
  ghost predicate Permitted(s: Side, steps: seq<Step>)
    decreases |steps|
  {
    s.Valid() && steps != [] ==> Legal(s, steps[0]) && Permitted(Apply(s, steps[0]), steps[1..])
  }

  /** From an opening side, or any well-formed one, legal steps are all a run needs. */
  lemma {:induction false} LegalStepsSuffice(s: Side, steps: seq<Step>)
    requires s.Valid() && Permitted(s, steps)
    ensures LegalRun(s, steps)
    decreases |steps|
  {
    if steps != [] {
      StepValid(s, steps[0]);
      LegalStepsSuffice(Apply(s, steps[0]), steps[1..]);
    }
  }

  // ---- nonces ----

  /** Two datagrams of one epoch are fewer than a rekey threshold apart, so the epoch carries at most that many. */
  predicate CloseTogether(sealed: seq<Wire>, i: nat, j: nat)
    requires i <= j < |sealed|
  {
    sealed[i].header.epoch == sealed[j].header.epoch ==> j - i < REKEY_AFTER
  }

  /** The current epoch began no earlier than a threshold before the next rekey. */
  predicate Recently(w: Wire, i: nat, epoch: nat, rekeyAt: nat) {
    w.header.epoch == epoch ==> rekeyAt <= i + REKEY_AFTER
  }

  /** The nonce budget: epochs are never overdrawn, and 256 thresholds are the whole number space. */
  ghost predicate Budget(o: Outgoing) {
    && o.rekeyEvery == REKEY_AFTER
    && o.next <= o.rekeyAt <= o.next + REKEY_AFTER
    && o.rekeyAt <= 0x100_0000_0000 * (o.epoch + 1)
    && (forall i {:trigger Recently(o.sealed[i], i, o.epoch, o.rekeyAt)} ::
          0 <= i < |o.sealed| ==> Recently(o.sealed[i], i, o.epoch, o.rekeyAt))
    && (forall i, j {:trigger CloseTogether(o.sealed, i, j)} :: 0 <= i <= j < |o.sealed| ==> CloseTogether(o.sealed, i, j))
  }

  lemma RotatedBudget(o: Outgoing, id: Identity)
    requires o.Valid(id) && Budget(o)
    ensures Budget(o.Rotated()) && Budget(o.Rekeyed())
  {
    forall i | 0 <= i < |o.sealed|
      ensures Recently(o.sealed[i], i, o.Rotated().epoch, o.rekeyAt)
      ensures Recently(o.sealed[i], i, o.Rekeyed().epoch, o.Rekeyed().rekeyAt)
    {
      assert EpochUpTo(o.sealed[i], o.epoch) && Recently(o.sealed[i], i, o.epoch, o.rekeyAt);
    }
  }

  lemma SealsBudget(o: Outgoing, id: Identity, kind: Kind, body: Body)
    requires o.Valid(id) && Budget(o) && (o.next < o.rekeyAt || o.epoch < LAST_EPOCH)
    ensures Budget(o.Seals(id, kind, body))
  {
    RotatedBudget(o, id);
    var r := o.Rekeyed();
    var t := o.Seals(id, kind, body);
    assert r.next < r.rekeyAt;
    forall i | 0 <= i < |t.sealed|
      ensures Recently(t.sealed[i], i, t.epoch, t.rekeyAt)
    {
      if i < |o.sealed| {
        assert Recently(r.sealed[i], i, r.epoch, r.rekeyAt);
      }
    }
    forall i, j | 0 <= i <= j < |t.sealed|
      ensures CloseTogether(t.sealed, i, j)
    {
      if j < |o.sealed| {
        assert CloseTogether(o.sealed, i, j);
      } else if i < |o.sealed| {
        assert Recently(r.sealed[i], i, r.epoch, r.rekeyAt);
      }
    }
  }

  lemma StepBudget(s: Side, step: Step)
    requires s.Valid() && Legal(s, step) && Budget(s.out)
    ensures Budget(Apply(s, step).out)
  {
    RotatedBudget(s.out, s.id);
    if step.SealStep? && s.Refuses(step.kind).None? {
      SealsBudget(s.out, s.id, step.kind, step.body);
    }
  }

  lemma {:induction false} RunBudget(s: Side, steps: seq<Step>)
    requires LegalRun(s, steps) && Budget(s.out)
    ensures Run(s, steps).Valid() && Budget(Run(s, steps).out) && Run(s, steps).id == s.id
    decreases |steps|
  {
    if steps != [] {
      StepBudget(s, steps[0]);
      RunBudget(Apply(s, steps[0]), steps[1..]);
    }
  }

  /**
   Over every run, with refused seals and extra rotations: of the datagrams left
   on the wire no two share an epoch and a number, none reaches 2^48, and no
   epoch carries more than 2^40 of them.
   */
  lemma NoncesNeverRepeat(id: Identity, now: Instant, steps: seq<Step>, i: nat, j: nat)
    requires LegalRun(Opening(id, now), steps)
    requires i < j < |Run(Opening(id, now), steps).out.sealed|
    ensures var sealed := Run(Opening(id, now), steps).out.sealed;
            && sealed[i].header.number == i < sealed[j].header.number == j <= MAX_PACKET_NUMBER
            && sealed[i].header.epoch <= sealed[j].header.epoch <= LAST_EPOCH
            && (sealed[i].header.epoch == sealed[j].header.epoch ==> j - i < REKEY_AFTER)
  {
    RunBudget(Opening(id, now), steps);
    var o := Run(Opening(id, now), steps).out;
    assert SealedAs(o.sealed[i], i, id) && SealedAs(o.sealed[j], j, id);
    assert EpochUpTo(o.sealed[i], o.sealed[j].header.epoch) && EpochUpTo(o.sealed[j], o.epoch);
    assert CloseTogether(o.sealed, i, j);
  }

  // ---- conservation ----

  /** What identifies a tracked packet wherever it is reported. */
  datatype Mark = Mark(number: nat, bytes: nat, sent: Instant)

  function MarkOf(p: InFlight): Mark { Mark(p.number, p.bytes, p.sent) }

  function Marks(flight: seq<InFlight>): multiset<Mark> {
    if flight == [] then multiset{} else multiset{MarkOf(flight[0])} + Marks(flight[1..])
  }

  function GoneMarks(gone: seq<Gone>): multiset<Mark> {
    if gone == [] then multiset{}
    else multiset{Mark(gone[0].number, gone[0].bytes, gone[0].sent)} + GoneMarks(gone[1..])
  }

  lemma {:induction false} MarksConcat(a: seq<InFlight>, b: seq<InFlight>)
    ensures Marks(a + b) == Marks(a) + Marks(b)
  {
    if a == [] {
      assert a + b == b;
    } else {
      assert (a + b)[1..] == a[1..] + b;
      MarksConcat(a[1..], b);
    }
  }

  lemma {:induction false} GoneMarksConcat(a: seq<Gone>, b: seq<Gone>)
    ensures GoneMarks(a + b) == GoneMarks(a) + GoneMarks(b)
  {
    if a == [] {
      assert a + b == b;
    } else {
      assert (a + b)[1..] == a[1..] + b;
      GoneMarksConcat(a[1..], b);
    }
  }

  lemma MarksCons(p: InFlight, rest: seq<InFlight>)
    ensures Marks([p] + rest) == multiset{MarkOf(p)} + Marks(rest) && Marks([] + rest) == Marks(rest)
  {
    assert ([p] + rest)[1..] == rest;
    assert [] + rest == rest;
  }

  lemma GoneMarksCons(g: Gone, rest: seq<Gone>)
    ensures GoneMarks([g] + rest) == multiset{Mark(g.number, g.bytes, g.sent)} + GoneMarks(rest)
    ensures GoneMarks([] + rest) == GoneMarks(rest)
  {
    assert ([g] + rest)[1..] == rest;
    assert [] + rest == rest;
  }

  lemma Regroup(m: multiset<Mark>, a: multiset<Mark>, b: multiset<Mark>, c: multiset<Mark>)
    requires a + b == c
    ensures (m + a) + b == m + c && a + (m + b) == m + c
  {
  }

  lemma {:induction false} NamedConserves(flight: seq<InFlight>, ack: Ack)
    ensures Marks(Named(flight, ack, true)) + Marks(Named(flight, ack, false)) == Marks(flight)
  {
    if flight != [] {
      var rest := flight[1..];
      NamedConserves(rest, ack);
      MarksCons(flight[0], Named(rest, ack, true));
      MarksCons(flight[0], Named(rest, ack, false));
      Regroup(multiset{MarkOf(flight[0])}, Marks(Named(rest, ack, true)), Marks(Named(rest, ack, false)), Marks(rest));
    }
  }

  lemma {:induction false} DoomedConserves(flight: seq<InFlight>, judge: Judge)
    ensures GoneMarks(Doomed(flight, judge)) + Marks(Kept(flight, judge)) == Marks(flight)
  {
    if flight != [] {
      var rest, fate := flight[1..], judge.Fate(flight[0]);
      DoomedConserves(rest, judge);
      MarksCons(flight[0], Kept(rest, judge));
      GoneMarksCons(GoneOf(flight[0], if fate.Some? then fate.value else Lost), Doomed(rest, judge));
      Regroup(multiset{MarkOf(flight[0])}, GoneMarks(Doomed(rest, judge)), Marks(Kept(rest, judge)), Marks(rest));
    }
  }

  /** Everything tracked is in flight, reported arrived, or reported gone, as often as it was tracked. */
  ghost predicate Conserved(f: Flight) {
    Marks(f.loss.sent) + Marks(f.arrived) + GoneMarks(f.gone) == Marks(f.tracked)
  }

  lemma ToldConserves(f: Flight, ack: Ack, now: Instant)
    requires f.loss.Valid() && Conserved(f)
    ensures Conserved(f.Told(ack, now))
  {
    var settled := f.loss.Settled(ack, now);
    NamedConserves(f.loss.sent, ack);
    DoomedConserves(settled.sent, settled.JudgeAt(now));
    MarksConcat(f.arrived, settled.arrived);
    GoneMarksConcat(f.gone, settled.Detected(now).gone);
  }

  lemma ExpiresConserves(f: Flight, now: Instant)
    requires Conserved(f)
    ensures Conserved(f.Expires(now))
  {
    DoomedConserves(f.loss.sent, f.loss.Cleared().JudgeAt(now));
    GoneMarksConcat(f.gone, f.loss.Cleared().Detected(now).gone);
  }

  lemma JoinsConserves(f: Flight, p: InFlight)
    requires Conserved(f)
    ensures Conserved(f.Joins(p))
  {
    MarksConcat(f.loss.sent, [p]);
    MarksConcat(f.tracked, [p]);
  }

  lemma RecvConserves(s: Side, w: Wire, now: Instant, moves: bool, f: Flight)
    requires s.flight.loss.Valid() && Conserved(s.flight) && f == s.Receives(w, now, moves).flight
    ensures Conserved(f)
  {
    if s.Accepts(w) && s.Informs(w) {
      ToldConserves(s.flight, w.sealed.body.ack, now);
    } else if f != s.flight {
      MovedConserves(s.flight);
    }
  }

  lemma MovedConserves(f: Flight)
    requires Conserved(f)
    ensures Conserved(f.Moved())
  {
  }

  lemma SealConserves(s: Side, kind: Kind, body: Body, now: Instant, may: bool, limited: Limited, f: Flight)
    requires Conserved(s.flight) && f == s.Seals(kind, body, now, may, limited).flight
    ensures Conserved(f)
  {
    JoinsConserves(s.flight, InFlight(s.out.next, BodySize(body) + OVERHEAD, now, limited));
  }

  lemma StepConserves(s: Side, step: Step, f: Flight)
    requires s.flight.loss.Valid() && Conserved(s.flight) && f == Apply(s, step).flight
    ensures Conserved(f)
  {
    match step
    case SealStep(kind, body, now, may, limited) => SealConserves(s, kind, body, now, may, limited, f);
    case RecvStep(w, now, moves) => RecvConserves(s, w, now, moves, f);
    case ExpireStep(now) => ExpiresConserves(s.flight, now);
    case RotateStep =>
    case CloseStep =>
  }

  /** Nothing is tracked twice. */
  ghost predicate Distinct(tracked: seq<InFlight>, next: nat, clock: Instant) {
    Ascending(tracked) && forall p :: p in tracked ==> p.number < next && p.sent <= clock
  }

  ghost predicate Ledger(s: Side) {
    Conserved(s.flight) && Distinct(s.flight.tracked, s.out.next, s.clock)
  }

  lemma SealDistinct(s: Side, kind: Kind, body: Body, now: Instant, may: bool, limited: Limited)
    requires Distinct(s.flight.tracked, s.out.next, s.clock) && s.clock <= now
    ensures var t := s.Seals(kind, body, now, may, limited); Distinct(t.flight.tracked, t.out.next, t.clock)
  {
    if s.Refuses(kind).None? && may && Tracked(kind) {
      Pushed(s.flight.tracked, InFlight(s.out.next, BodySize(body) + OVERHEAD, now, limited));
    }
  }

  lemma OthersTrackNothing(s: Side, step: Step)
    requires s.flight.loss.Valid() && Legal(s, step) && !step.SealStep?
    ensures var t := Apply(s, step);
            t.flight.tracked == s.flight.tracked && t.out.next == s.out.next && t.clock >= s.clock
  {
  }

  lemma StepLedger(s: Side, step: Step)
    requires s.flight.loss.Valid() && Legal(s, step) && Ledger(s)
    ensures Ledger(Apply(s, step))
  {
    StepConserves(s, step, Apply(s, step).flight);
    if step.SealStep? {
      SealDistinct(s, step.kind, step.body, step.now, step.may, step.limited);
    } else {
      OthersTrackNothing(s, step);
    }
  }

  lemma {:induction false} RunLedger(s: Side, steps: seq<Step>)
    requires LegalRun(s, steps) && Ledger(s)
    ensures Ledger(Run(s, steps))
    decreases |steps|
  {
    if steps != [] {
      StepLedger(s, steps[0]);
      RunLedger(Apply(s, steps[0]), steps[1..]);
    }
  }

  lemma {:induction false} AscendingOnce(flight: seq<InFlight>, p: InFlight)
    requires Ascending(flight)
    ensures Marks(flight)[MarkOf(p)] == if exists q :: q in flight && MarkOf(q) == MarkOf(p) then 1 else 0
  {
    if flight != [] {
      AscendingFirst(flight);
      AscendingOnce(flight[1..], p);
      assert flight == [flight[0]] + flight[1..];
    }
  }

  /** Over every run each tracked packet is in exactly one place: in flight, reported arrived, or reported gone, once. */
  lemma ExactlyOnePlace(id: Identity, now: Instant, steps: seq<Step>, p: InFlight)
    requires LegalRun(Opening(id, now), steps)
    requires p in Run(Opening(id, now), steps).flight.tracked
    ensures var f := Run(Opening(id, now), steps).flight;
            Marks(f.loss.sent)[MarkOf(p)] + Marks(f.arrived)[MarkOf(p)] + GoneMarks(f.gone)[MarkOf(p)] == 1
  {
    RunLedger(Opening(id, now), steps);
    var f := Run(Opening(id, now), steps).flight;
    AscendingOnce(f.tracked, p);
    assert (Marks(f.loss.sent) + Marks(f.arrived) + GoneMarks(f.gone))[MarkOf(p)] == Marks(f.tracked)[MarkOf(p)];
  }
}
