/**
 What local echo keeps over every run: drawn predictions are a prefix of what is
 owed, nothing is drawn without evidence that the session echoes, and the
 terminal holds what the session sent followed by what is drawn and still owed.
 */
module PredictionRuns {
  import opened Prelude
  import opened Kmp
  import opened Prediction

  // ---- The invariant ----

  ghost predicate Sorted(owed: seq<Pending>, epoch: nat, confirmed: bool) {
    && (forall i :: 0 <= i < |owed| ==> owed[i].epoch <= epoch)
    && (confirmed ==> forall i :: 0 <= i < |owed| ==> owed[i].epoch == epoch)
  }

  /** What is drawn is a prefix of what is owed. */
  ghost predicate DrawnFirst(owed: seq<Pending>) {
    forall i :: DrawnCount(owed) <= i < |owed| ==> !owed[i].drawn
  }

  ghost predicate Valid(s: State) {
    s.confirmedEpoch <= s.epoch && DrawnFirst(s.outstanding) && Sorted(s.outstanding, s.epoch, s.Confirmed())
  }

  /** Where the drawn part ends, whatever finds it. */
  lemma DrawnCountIs(owed: seq<Pending>, n: nat)
    requires n <= |owed| && (forall i :: 0 <= i < n ==> owed[i].drawn) && (n < |owed| ==> !owed[n].drawn)
    ensures DrawnCount(owed) == n
  {
  }

  lemma {:induction false} DrawnIsPrefix(owed: seq<Pending>)
    requires DrawnFirst(owed)
    ensures Drawn(owed) == owed[..DrawnCount(owed)]
  {
    if owed != [] {
      if owed[0].drawn {
        DroppedFirst(owed, 1);
        DrawnIsPrefix(owed[1..]);
        assert owed[..DrawnCount(owed)] == [owed[0]] + owed[1..][..DrawnCount(owed[1..])];
      } else {
        NoneDrawn(owed);
      }
    }
  }

  lemma {:induction false} NoneDrawn(owed: seq<Pending>)
    requires forall i :: 0 <= i < |owed| ==> !owed[i].drawn
    ensures Drawn(owed) == []
  {
    if owed != [] {
      NoneDrawn(owed[1..]);
    }
  }

  /** Dropping the oldest leaves the drawn part shorter by as many. */
  lemma DroppedFirst(owed: seq<Pending>, n: nat)
    requires DrawnFirst(owed) && n <= |owed|
    ensures DrawnFirst(owed[n..]) && DrawnCount(owed[n..]) == Max(DrawnCount(owed) - n, 0)
  {
    DrawnCountIs(owed[n..], Max(DrawnCount(owed) - n, 0));
  }

  lemma UniformFirst(owed: seq<Pending>, drawn: bool)
    ensures DrawnFirst(AllDrawn(owed, drawn))
    ensures DrawnCount(AllDrawn(owed, drawn)) == if drawn then |owed| else 0
    ensures BytesOf(AllDrawn(owed, drawn)) == BytesOf(owed)
  {
    DrawnCountIs(AllDrawn(owed, drawn), if drawn then |owed| else 0);
  }

  lemma StalledKeeps(s: State)
    requires Valid(s)
    ensures Valid(s.Stalled()) && s.Stalled().DrawnBytes() == s.DrawnBytes() && !s.Stalled().Confirmed()
  {
    DrawnIsPrefix(s.outstanding);
    var n := DrawnCount(s.outstanding);
    DrawnCountIs(s.outstanding[..n], n);
  }

  lemma QueuedKeeps(s: State, bytes: Bytes, sentAs: Option<nat>)
    requires Valid(s)
    ensures Valid(s.Queued(bytes, sentAs)) && s.Queued(bytes, sentAs).DrawnBytes() == s.DrawnBytes()
  {
    DrawnCountIs(s.Queued(bytes, sentAs).outstanding, DrawnCount(s.outstanding));
  }

  lemma {:induction false} ErasedKeeps(s: State, cells: nat, sentAs: Option<nat>)
    requires Valid(s) && cells <= |s.runCells|
    ensures Valid(s.Erased(cells, sentAs)) && s.Erased(cells, sentAs).DrawnBytes() == s.DrawnBytes()
    ensures s.Erased(cells, sentAs).epoch == s.epoch && s.Erased(cells, sentAs).confirmedEpoch == s.confirmedEpoch
    decreases cells
  {
    if cells > 0 {
      var echo := EraseEcho(s.runCells[|s.runCells| - 1]);
      QueuedKeeps(s, echo, sentAs);
      var next := s.Queued(echo, sentAs).(runCells := s.runCells[..|s.runCells| - 1]);
      assert next.DrawnBytes() == s.DrawnBytes();
      ErasedKeeps(next, cells - 1, sentAs);
    }
  }

  lemma ReleasedKeeps(s: State, w: Widths)
    requires Valid(s)
    ensures Valid(s.Released(w)) && s.Released(w).DrawnBytes() == s.DrawnBytes() + s.ToDraw()
  {
    UniformFirst(s.outstanding, true);
  }

  lemma TypedKeeps(s: State, typed: Bytes, w: Widths, sentAs: Option<nat>)
    requires Valid(s)
    ensures
      var t := s.Typed(typed, w, sentAs);
      && Valid(t.0) && t.0.DrawnBytes() == s.DrawnBytes()
      && (t.1 ==> t.0.Confirmed() && s.Confirmed() && t.0.epoch == s.epoch)
      && (t.0.Confirmed() ==> s.Confirmed() && t.0.epoch == s.epoch)
  {
    StalledKeeps(s);
    match (s.cue, KeystrokeOf(typed, w))
    case (Echoing(room), Print(widths)) =>
      QueuedKeeps(s, typed, sentAs);
      assert s.Queued(typed, sentAs).(runCells := s.runCells + widths).DrawnBytes() == s.DrawnBytes();
    case (Echoing(_), Erase(cells)) =>
      if |s.runCells| >= cells {
        ErasedKeeps(s, cells, sentAs);
      }
    case _ =>
  }

  /** A keystroke keeps the invariant, and the terminal gains exactly what it newly holds. */
  lemma PredictsKeeps(s: State, typed: Bytes, sentAs: Option<nat>, interrupted: bool, w: Widths)
    requires Valid(s)
    ensures Valid(s.Predicts(typed, sentAs, interrupted, w))
    ensures s.Predicts(typed, sentAs, interrupted, w).DrawnBytes() == s.DrawnBytes() + s.Draws(typed, sentAs, interrupted, w)
  {
    StalledKeeps(s);
    var b := s.Begun(interrupted);
    TypedKeeps(b, typed, w, sentAs);
    ReleasedKeeps(b.Typed(typed, w, sentAs).0, w);
  }

  lemma ConfirmsWithin(s: State, n: nat)
    requires Valid(s)
    ensures s.Confirming(Confirms(s.outstanding, s.delivered, n)).confirmedEpoch <= s.epoch
    ensures
      s.Confirming(Confirms(s.outstanding, s.delivered, n)).Confirmed() && !s.Confirmed() ==>
        Confirms(s.outstanding, s.delivered, n) == Some(s.epoch) && n >= |s.outstanding|
  {
  }

  lemma MatchedKeeps(s: State, session: Bytes)
    requires Valid(s)
    ensures Valid(s.Matched(session))
  {
    var n := Echoed(s.outstanding, session);
    ConfirmsWithin(s, n);
    DroppedFirst(s.outstanding, n);
  }

  lemma RewrittenKeeps(s: State, rest: Bytes, w: Widths)
    requires Valid(s)
    ensures Valid(s.Rewritten(rest, w))
  {
    var n := s.Restated(rest);
    ConfirmsWithin(s, n);
    UniformFirst([], false);
    UniformFirst(s.outstanding, false);
    UniformFirst(s.outstanding[n..], false);
  }

  lemma JudgesKeeps(s: State, rest: Bytes, written: Bytes, echoAck: Option<nat>, w: Widths)
    requires Valid(s)
    ensures Valid(s.Judges(rest, written, echoAck, w))
  {
    if rest != [] && RestatesRow(rest) {
      if s.Stranded(rest, w) {
        EndedKeeps(s);
      } else {
        RewrittenKeeps(s, rest, w);
      }
    } else if rest != [] && s.Unanswered(echoAck).None? {
      EndedKeeps(s);
    }
  }

  lemma EndedKeeps(s: State)
    requires Valid(s)
    ensures Valid(s.Ended())
  {
  }

  lemma AbsorbsKeeps(s: State, session: Bytes, cue: Cue, echoAck: Option<nat>, w: Widths)
    requires Valid(s)
    ensures Valid(s.Absorbs(session, cue, echoAck, w))
  {
    var c := s.(cue := cue);
    MatchedKeeps(c, session);
    JudgesKeeps(c.Matched(session), session[Echoed(s.outstanding, session)..], session[s.Skip(session)..], echoAck, w);
  }

  // ---- Every run ----

  datatype Event =
    | Typing(typed: Bytes, sentAs: Option<nat>, interrupted: bool)
    | Output(session: Bytes, cue: Cue, echoAck: Option<nat>)
    | Acknowledged(highest: nat)
    | Heartbeat(echoAck: Option<nat>)
    | Painted
    | Resized
    | Measurement(srtt: Option<nat>)

  function After(s: State, e: Event, w: Widths): State {
    match e
    case Typing(typed, sentAs, interrupted) => s.Predicts(typed, sentAs, interrupted, w)
    case Output(session, cue, echoAck) => s.Absorbs(session, cue, echoAck, w)
    case Acknowledged(highest) => s.Delivered(highest)
    case Heartbeat(echoAck) => if s.Settles(echoAck) then s.Ended() else s
    case Painted => s.Ended().(cue := Opaque)
    case Resized => s.(cue := Opaque, column := None)
    case Measurement(srtt) => s.Measured(srtt)
  }

  lemma AfterKeeps(s: State, e: Event, w: Widths)
    requires Valid(s)
    ensures Valid(After(s, e, w))
  {
    match e
    case Typing(typed, sentAs, interrupted) => PredictsKeeps(s, typed, sentAs, interrupted, w);
    case Output(session, cue, echoAck) => AbsorbsKeeps(s, session, cue, echoAck, w);
    case _ =>
  }

  function Run(s: State, events: seq<Event>, w: Widths): State {
    if events == [] then s else After(Run(s, events[..|events| - 1], w), events[|events| - 1], w)
  }

  lemma {:induction false} RunKeeps(s: State, events: seq<Event>, w: Widths)
    requires Valid(s)
    ensures Valid(Run(s, events, w))
  {
    if events != [] {
      RunKeeps(s, events[..|events| - 1], w);
      AfterKeeps(Run(s, events[..|events| - 1], w), events[|events| - 1], w);
    }
  }

  // ---- Nothing is drawn without evidence ----

  /** What a run leaves on record: evidence of an echo, and each byte drawn. */
  datatype Note =
    | Proof(run: nat, owed: seq<Pending>, seen: Bytes, delivered: Option<nat>)
    | Drew(run: nat, what: Pending)

  /**
   Evidence that run `run` is being echoed: output led with, or ended with, every
   byte still owed, and the last of them was typed in that run in a command the
   server had already written to the pty.
   */
  ghost predicate Evidence(n: Note, run: nat) {
    && n.Proof? && n.run == run && n.owed != []
    && (BytesOf(n.owed) <= n.seen || Border(BytesOf(n.owed), n.seen, |n.owed|))
    && var last := n.owed[|n.owed| - 1];
       last.epoch == run && last.sentAs.Some? && !Beyond(last.sentAs.value, n.delivered)
  }

  function ProofNote(s: State, n: nat, seen: Bytes): seq<Note> {
    var run := Confirms(s.outstanding, s.delivered, n);
    if run.Some? then [Proof(run.value, s.outstanding, seen, s.delivered)] else []
  }

  function DrewNotes(s: State): seq<Note> {
    if !s.DrawingNow() then []
    else
      var n := DrawnCount(s.outstanding);
      seq(|s.outstanding| - n, i requires 0 <= i < |s.outstanding| - n => Drew(s.epoch, s.outstanding[n + i]))
  }

  function Notes(s: State, e: Event, w: Widths): seq<Note> {
    match e
    case Typing(typed, sentAs, interrupted) =>
      var t := s.Begun(interrupted).Typed(typed, w, sentAs);
      if t.1 then DrewNotes(t.0) else []
    case Output(session, cue, _) =>
      var n := Echoed(s.outstanding, session);
      var m := s.(cue := cue).Matched(session);
      var rest := session[n..];
      ProofNote(s, n, session) + JudgeNotes(m, rest, w)
    case _ => []
  }

  function Log(s: State, events: seq<Event>, w: Widths): seq<Note> {
    if events == [] then []
    else
      var front := events[..|events| - 1];
      Log(s, front, w) + Notes(Run(s, front, w), events[|events| - 1], w)
  }

  ghost predicate Proved(log: seq<Note>, before: nat, run: nat) {
    exists j :: 0 <= j < before && j < |log| && Evidence(log[j], run)
  }

  ghost predicate DrawnOnEvidence(log: seq<Note>) {
    forall i :: 0 <= i < |log| && log[i].Drew? ==> log[i].what.epoch == log[i].run && Proved(log, i, log[i].run)
  }

  /** The bytes drawn, as the record has them. */
  function DrewBytes(log: seq<Note>): Bytes {
    if log == [] then []
    else
      var last := log[|log| - 1];
      DrewBytes(log[..|log| - 1]) + if last.Drew? then [last.what.byte] else []
  }

  /** The bytes drawn, as the terminal is given them. */
  function DrawnOver(s: State, events: seq<Event>, w: Widths): Bytes {
    if events == [] then []
    else
      var front, e := events[..|events| - 1], events[|events| - 1];
      DrawnOver(s, front, w) + if e.Typing? then Run(s, front, w).Draws(e.typed, e.sentAs, e.interrupted, w) else []
  }

  lemma {:induction false} DrewConcat(a: seq<Note>, b: seq<Note>)
    ensures DrewBytes(a + b) == DrewBytes(a) + DrewBytes(b)
  {
    if b == [] {
      assert a + b == a;
    } else {
      assert (a + b)[..|a + b| - 1] == a + b[..|b| - 1];
      DrewConcat(a, b[..|b| - 1]);
    }
  }

  lemma {:induction false} DrewThese(notes: seq<Note>, bytes: Bytes)
    requires |notes| == |bytes|
    requires forall i :: 0 <= i < |notes| ==> notes[i].Drew? && notes[i].what.byte == bytes[i]
    ensures DrewBytes(notes) == bytes
  {
    if notes != [] {
      var n := |notes| - 1;
      DrewThese(notes[..n], bytes[..n]);
      assert bytes == bytes[..n] + [bytes[n]];
    }
  }

  lemma NoProofDraws(s: State, n: nat, seen: Bytes)
    ensures DrewBytes(ProofNote(s, n, seen)) == []
  {
    if Confirms(s.outstanding, s.delivered, n).Some? {
      assert ProofNote(s, n, seen)[..0] == [];
    }
  }

  /** What an event records as drawn is what it gives the terminal to draw. */
  lemma DrewAreDrawn(s: State, e: Event, w: Widths)
    ensures DrewBytes(Notes(s, e, w)) == if e.Typing? then s.Draws(e.typed, e.sentAs, e.interrupted, w) else []
  {
    match e
    case Typing(typed, sentAs, interrupted) =>
      var t := s.Begun(interrupted).Typed(typed, w, sentAs);
      DrewThese(DrewNotes(t.0), t.0.ToDraw());
    case Output(session, cue, _) =>
      var n := Echoed(s.outstanding, session);
      var m := s.(cue := cue).Matched(session);
      NoProofDraws(s, n, session);
      NoProofDraws(m, m.Restated(session[n..]), session[n..]);
      DrewConcat(ProofNote(s, n, session), JudgeNotes(m, session[n..], w));
    case _ =>
  }

  lemma ProvedMore(log: seq<Note>, more: seq<Note>, before: nat, run: nat)
    requires Proved(log, before, run)
    ensures Proved(log + more, before, run)
  {
    var j :| 0 <= j < before && j < |log| && Evidence(log[j], run);
    assert (log + more)[j] == log[j];
  }

  /** Growing the record keeps every older draw's evidence. */
  lemma EvidenceMore(log: seq<Note>, more: seq<Note>)
    requires DrawnOnEvidence(log)
    requires forall i :: 0 <= i < |more| && more[i].Drew? ==> more[i].what.epoch == more[i].run && Proved(log, |log|, more[i].run)
    ensures DrawnOnEvidence(log + more)
  {
    forall i | 0 <= i < |log + more| && (log + more)[i].Drew?
      ensures (log + more)[i].what.epoch == (log + more)[i].run && Proved(log + more, i, (log + more)[i].run)
    {
      if i < |log| {
        ProvedMore(log, more, i, log[i].run);
      } else {
        ProvedMore(log, more, |log|, more[i - |log|].run);
        var j :| 0 <= j < |log| && j < |log + more| && Evidence((log + more)[j], more[i - |log|].run);
      }
    }
  }

  lemma EchoIsEvidence(s: State, session: Bytes)
    requires Confirms(s.outstanding, s.delivered, Echoed(s.outstanding, session)).Some?
    ensures
      var n := Echoed(s.outstanding, session);
      Evidence(ProofNote(s, n, session)[0], Confirms(s.outstanding, s.delivered, n).value)
  {
    assert BytesOf(s.outstanding) == session[..|s.outstanding|];
  }

  lemma RewriteIsEvidence(s: State, rest: Bytes)
    requires Confirms(s.outstanding, s.delivered, s.Restated(rest)).Some?
    ensures
      var n := s.Restated(rest);
      Evidence(ProofNote(s, n, rest)[0], Confirms(s.outstanding, s.delivered, n).value)
  {
    NaiveIsLongest(BytesOf(s.outstanding), rest, |s.outstanding|);
  }

  ghost predicate Supported(log: seq<Note>, s: State) {
    DrawnOnEvidence(log) && (s.Confirmed() ==> Proved(log, |log|, s.epoch))
  }

  /** Confirming a run from a match leaves its evidence on record. */
  lemma ConfirmingSupported(log: seq<Note>, s: State, n: nat, seen: Bytes)
    requires Valid(s) && Supported(log, s)
    requires Confirms(s.outstanding, s.delivered, n).Some? ==>
      Evidence(ProofNote(s, n, seen)[0], Confirms(s.outstanding, s.delivered, n).value)
    ensures Supported(log + ProofNote(s, n, seen), s.Confirming(Confirms(s.outstanding, s.delivered, n)))
  {
    var notes := ProofNote(s, n, seen);
    EvidenceMore(log, notes);
    if s.Confirmed() {
      ProvedMore(log, notes, |log|, s.epoch);
      var j :| 0 <= j < |log| && j < |log + notes| && Evidence((log + notes)[j], s.epoch);
    } else if s.Confirming(Confirms(s.outstanding, s.delivered, n)).Confirmed() {
      ConfirmsWithin(s, n);
      assert (log + notes)[|log|] == notes[0];
    }
  }

  lemma TypingSupported(log: seq<Note>, s: State, e: Event, w: Widths)
    requires Valid(s) && Supported(log, s) && e.Typing?
    ensures Supported(log + Notes(s, e, w), After(s, e, w))
  {
    StalledKeeps(s);
    var b := s.Begun(e.interrupted);
    TypedKeeps(b, e.typed, w, e.sentAs);
    var t := b.Typed(e.typed, w, e.sentAs);
    var notes := Notes(s, e, w);
    EvidenceMore(log, notes);
    if t.0.Confirmed() {
      ProvedMore(log, notes, |log|, s.epoch);
      var j :| 0 <= j < |log| && j < |log + notes| && Evidence((log + notes)[j], s.epoch);
    }
  }

  lemma MatchedSupported(log: seq<Note>, s: State, session: Bytes)
    requires Valid(s) && Supported(log, s)
    ensures Supported(log + ProofNote(s, Echoed(s.outstanding, session), session), s.Matched(session))
  {
    var n := Echoed(s.outstanding, session);
    if Confirms(s.outstanding, s.delivered, n).Some? {
      EchoIsEvidence(s, session);
    }
    ConfirmingSupported(log, s, n, session);
  }

  lemma RewrittenSupported(log: seq<Note>, s: State, rest: Bytes, w: Widths)
    requires Valid(s) && Supported(log, s)
    ensures Supported(log + ProofNote(s, s.Restated(rest), rest), s.Rewritten(rest, w))
  {
    var n := s.Restated(rest);
    if Confirms(s.outstanding, s.delivered, n).Some? {
      RewriteIsEvidence(s, rest);
    }
    ConfirmingSupported(log, s, n, rest);
  }

  function JudgeNotes(s: State, rest: Bytes, w: Widths): seq<Note> {
    if RestatesRow(rest) && !s.Stranded(rest, w) then ProofNote(s, s.Restated(rest), rest) else []
  }

  lemma JudgesSupported(log: seq<Note>, s: State, rest: Bytes, written: Bytes, echoAck: Option<nat>, w: Widths)
    requires Valid(s) && Supported(log, s)
    ensures Supported(log + JudgeNotes(s, rest, w), s.Judges(rest, written, echoAck, w))
  {
    if RestatesRow(rest) && !s.Stranded(rest, w) {
      RewrittenSupported(log, s, rest, w);
    } else {
      assert log + [] == log;
    }
  }

  lemma OutputSupported(log: seq<Note>, s: State, e: Event, w: Widths)
    requires Valid(s) && Supported(log, s) && e.Output?
    ensures Supported(log + Notes(s, e, w), After(s, e, w))
  {
    var c := s.(cue := e.cue);
    var n := Echoed(s.outstanding, e.session);
    MatchedKeeps(c, e.session);
    MatchedSupported(log, c, e.session);
    var m := c.Matched(e.session);
    var first := ProofNote(s, n, e.session);
    assert first == ProofNote(c, n, e.session);
    JudgesSupported(log + first, m, e.session[n..], e.session[s.Skip(e.session)..], e.echoAck, w);
    assert log + Notes(s, e, w) == log + first + JudgeNotes(m, e.session[n..], w);
  }

  lemma AfterSupported(log: seq<Note>, s: State, e: Event, w: Widths)
    requires Valid(s) && Supported(log, s)
    ensures Supported(log + Notes(s, e, w), After(s, e, w))
  {
    match e
    case Typing(_, _, _) => TypingSupported(log, s, e, w);
    case Output(_, _, _) => OutputSupported(log, s, e, w);
    case _ => assert log + [] == log;
  }

  /**
   Over every run from a fresh predictor: each byte drawn ahead of the session was
   typed in the run it was drawn in, and drawn only after output had answered for
   everything that run then owed; and the record of draws is what the terminal was
   given to draw, byte for byte.
   */
  lemma {:induction false} NothingDrawnWithoutEvidence(mode: Mode, events: seq<Event>, w: Widths)
    ensures Supported(Log(Fresh(mode), events, w), Run(Fresh(mode), events, w))
    ensures DrewBytes(Log(Fresh(mode), events, w)) == DrawnOver(Fresh(mode), events, w)
  {
    if events != [] {
      var front := events[..|events| - 1];
      NothingDrawnWithoutEvidence(mode, front, w);
      RunKeeps(Fresh(mode), front, w);
      var s, e := Run(Fresh(mode), front, w), events[|events| - 1];
      AfterSupported(Log(Fresh(mode), front, w), s, e, w);
      DrewAreDrawn(s, e, w);
      DrewConcat(Log(Fresh(mode), front, w), Notes(s, e, w));
    }
  }

  // ---- What the terminal holds ----

  /** The bytes the terminal was given, and the bytes the session sent. */
  datatype Screen = Screen(state: State, terminal: Bytes, session: Bytes)

  function Undo(r: Repair): Bytes {
    if r.Local? then r.undo else []
  }

  function Shown(d: Screen, e: Event, w: Widths): Screen {
    match e
    case Typing(typed, sentAs, interrupted) =>
      Screen(After(d.state, e, w), d.terminal + d.state.Draws(typed, sentAs, interrupted, w), d.session)
    case Output(bytes, cue, echoAck) =>
      var r := d.state.Reports(bytes, cue, echoAck, w);
      Screen(After(d.state, e, w), d.terminal + Undo(r.repair) + bytes[r.skip..], d.session + bytes)
    case _ => d.(state := After(d.state, e, w))
  }

  /**
   Nothing on the terminal needs taking back or moving: no output is written past a
   drawn prediction still owed, none is judged wrong, and no screen is painted.
   */
  predicate Smooth(s: State, e: Event, w: Widths) {
    match e
    case Output(bytes, cue, echoAck) =>
      var n := Echoed(s.outstanding, bytes);
      n == |bytes| || DrawnCount(s.outstanding) <= n
    case Heartbeat(echoAck) => !s.Settles(echoAck) || s.DrawnBytes() == []
    case Painted => false
    case _ => true
  }

  ghost predicate Faithful(d: Screen) {
    Valid(d.state) && d.terminal == d.session + d.state.DrawnBytes()
  }

  /** A smooth chunk takes its leading echo off what is drawn, and leaves the rest of it owed. */
  lemma EchoTakenOff(s: State, session: Bytes)
    requires Valid(s)
    ensures s.Skip(session) <= |s.DrawnBytes()| && s.DrawnBytes()[..s.Skip(session)] == session[..s.Skip(session)]
    ensures s.Matched(session).DrawnBytes() == s.DrawnBytes()[s.Skip(session)..]
  {
    DroppedFirst(s.outstanding, Echoed(s.outstanding, session));
    assert s.outstanding[0..] == s.outstanding;
  }

  lemma JudgedSmoothly(s: State, rest: Bytes, written: Bytes, echoAck: Option<nat>, w: Widths)
    requires Valid(s)
    requires rest == [] || s.DrawnBytes() == []
    ensures s.Judges(rest, written, echoAck, w).DrawnBytes() == s.DrawnBytes()
    ensures s.RepairFor(rest, echoAck, w) == NoRepair
  {
    if rest != [] && RestatesRow(rest) && !s.Stranded(rest, w) {
      RewrittenUndrawn(s, rest, w);
    }
  }

  /** A rewrite leaves nothing drawn. */
  lemma RewrittenUndrawn(s: State, rest: Bytes, w: Widths)
    ensures s.Rewritten(rest, w).DrawnBytes() == []
  {
    UniformFirst([], false);
    UniformFirst(s.outstanding, false);
    UniformFirst(s.outstanding[s.Restated(rest)..], false);
  }

  lemma OutputDraws(s: State, e: Event, w: Widths)
    requires Valid(s) && e.Output? && Smooth(s, e, w)
    ensures After(s, e, w).DrawnBytes() == s.DrawnBytes()[s.Skip(e.session)..]
    ensures s.Reports(e.session, e.cue, e.echoAck, w) == Absorbed(s.Skip(e.session), NoRepair)
    ensures s.Skip(e.session) == |e.session| || s.Skip(e.session) == |s.DrawnBytes()|
  {
    var c := s.(cue := e.cue);
    EchoTakenOff(c, e.session);
    MatchedKeeps(c, e.session);
    JudgedSmoothly(c.Matched(e.session), e.session[Echoed(s.outstanding, e.session)..], e.session[s.Skip(e.session)..], e.echoAck, w);
  }

  lemma Spliced(terminal: Bytes, session: Bytes, drawn: Bytes, chunk: Bytes, k: nat)
    requires terminal == session + drawn && k <= |drawn| && k <= |chunk| && drawn[..k] == chunk[..k]
    requires k == |chunk| || k == |drawn|
    ensures terminal + [] + chunk[k..] == session + chunk + drawn[k..]
  {
    assert drawn == chunk[..k] + drawn[k..];
    assert chunk == chunk[..k] + chunk[k..];
  }

  lemma OutputFaithful(d: Screen, e: Event, w: Widths)
    requires Faithful(d) && e.Output? && Smooth(d.state, e, w)
    ensures Faithful(Shown(d, e, w))
  {
    AfterKeeps(d.state, e, w);
    OutputDraws(d.state, e, w);
    EchoTakenOff(d.state, e.session);
    Spliced(d.terminal, d.session, d.state.DrawnBytes(), e.session, d.state.Skip(e.session));
  }

  lemma QuietFaithful(d: Screen, e: Event, w: Widths)
    requires Faithful(d) && Smooth(d.state, e, w) && !e.Output? && !e.Typing?
    ensures Faithful(Shown(d, e, w))
  {
    AfterKeeps(d.state, e, w);
  }

  /** The terminal gains exactly what is newly drawn. */
  lemma DrawingFaithful(d: Screen, s: State, drawn: Bytes)
    requires Faithful(d) && Valid(s) && s.DrawnBytes() == d.state.DrawnBytes() + drawn
    ensures Faithful(Screen(s, d.terminal + drawn, d.session))
  {
    assert d.session + d.state.DrawnBytes() + drawn == d.session + (d.state.DrawnBytes() + drawn);
  }

  lemma TypingFaithful(d: Screen, e: Event, w: Widths, t: Screen)
    requires Faithful(d) && e.Typing? && t == Shown(d, e, w)
    ensures Faithful(t)
  {
    PredictsKeeps(d.state, e.typed, e.sentAs, e.interrupted, w);
    DrawingFaithful(d, t.state, d.state.Draws(e.typed, e.sentAs, e.interrupted, w));
  }

  lemma ShownFaithful(d: Screen, e: Event, w: Widths)
    requires Faithful(d) && Smooth(d.state, e, w)
    ensures Faithful(Shown(d, e, w))
  {
    if e.Typing? {
      TypingFaithful(d, e, w, Shown(d, e, w));
    } else if e.Output? {
      OutputFaithful(d, e, w);
    } else {
      QuietFaithful(d, e, w);
    }
  }

  function Display(mode: Mode, events: seq<Event>, w: Widths): Screen {
    if events == [] then Screen(Fresh(mode), [], [])
    else Shown(Display(mode, events[..|events| - 1], w), events[|events| - 1], w)
  }

  predicate AllSmooth(mode: Mode, events: seq<Event>, w: Widths) {
    events == [] ||
    var front := events[..|events| - 1];
    AllSmooth(mode, front, w) && Smooth(Display(mode, front, w).state, events[|events| - 1], w)
  }

  /**
   Suppressing exactly the echo of what is drawn: over every smooth run the
   terminal has been given the session's bytes, each once and in order, followed
   by what is drawn and still owed.
   */
  lemma {:induction false} TerminalShowsSessionAndOwed(mode: Mode, events: seq<Event>, w: Widths)
    requires AllSmooth(mode, events, w)
    ensures Faithful(Display(mode, events, w))
  {
    if events != [] {
      var front := events[..|events| - 1];
      TerminalShowsSessionAndOwed(mode, front, w);
      ShownFaithful(Display(mode, front, w), events[|events| - 1], w);
    }
  }

  // ---- Taking a guess back in place ----

  /** One row of a terminal, as one-cell characters and backspaces move over it; a cell may hold half a glyph. */
  datatype Row = Row(cells: Bytes, cursor: nat)

  function Put(r: Row, b: nat): Row {
    if b == 8 then r.(cursor := Max(r.cursor - 1, 0))
    else Row(if r.cursor < |r.cells| then r.cells[r.cursor := b] else r.cells + [b], r.cursor + 1)
  }

  function PutAll(r: Row, bytes: Bytes): Row
    decreases |bytes|
  {
    if bytes == [] then r else PutAll(Put(r, bytes[0]), bytes[1..])
  }

  lemma {:induction false} PutConcat(r: Row, a: Bytes, b: Bytes)
    ensures PutAll(r, a + b) == PutAll(PutAll(r, a), b)
    decreases |a|
  {
    if a == [] {
      assert a + b == b;
    } else {
      assert (a + b)[1..] == a[1..] + b;
      PutConcat(Put(r, a[0]), a[1..], b);
    }
  }

  /** Text written at the cursor covers what stood there, and nothing past it. */
  lemma {:induction false} TextCovers(left: Bytes, under: Bytes, right: Bytes, text: Bytes)
    requires 8 !in text && |under| == |text|
    ensures PutAll(Row(left + under + right, |left|), text) == Row(left + text + right, |left| + |text|)
    decreases |text|
  {
    if text == [] {
      assert under == text;
    } else {
      PutCovers(left, under, right, text[0]);
      TextCovers(left + [text[0]], under[1..], right, text[1..]);
      assert left + [text[0]] + text[1..] == left + text;
    }
  }

  lemma PutCovers(left: Bytes, under: Bytes, right: Bytes, b: nat)
    requires b != 8 && under != []
    ensures Put(Row(left + under + right, |left|), b) == Row(left + [b] + under[1..] + right, |left| + 1)
  {
  }

  lemma {:induction false} BackOver(cells: Bytes, cursor: nat, n: nat)
    requires n <= cursor
    ensures PutAll(Row(cells, cursor), Repeat(8, n)) == Row(cells, cursor - n)
  {
    if n > 0 {
      assert Repeat(8, n)[1..] == Repeat(8, n - 1);
      BackOver(cells, cursor - 1, n - 1);
    }
  }

  lemma PutThen(a: Row, x: Bytes, b: Row, y: Bytes, c: Row)
    requires PutAll(a, x) == b && PutAll(b, y) == c
    ensures PutAll(a, x + y) == c
  {
    PutConcat(a, x, y);
  }

  /** As many backspaces, blanks and backspaces as there are cells behind the cursor blank them, and go back to their start. */
  lemma UndoBlanks(left: Bytes, ink: Bytes, right: Bytes)
    ensures
      var n := |ink|;
      PutAll(Row(left + ink + right, |left| + n), Repeat(8, n) + Repeat(32, n) + Repeat(8, n)) == Row(left + Repeat(32, n) + right, |left|)
  {
    var n := |ink|;
    var blank := Repeat(32, n);
    var full, home, wiped := Row(left + ink + right, |left| + n), Row(left + ink + right, |left|), Row(left + blank + right, |left| + n);
    BackOver(left + ink + right, |left| + n, n);
    TextCovers(left, ink, right, blank);
    PutThen(full, Repeat(8, n), home, blank, wiped);
    BackOver(left + blank + right, |left| + n, n);
    PutThen(full, Repeat(8, n) + blank, wiped, Repeat(8, n), Row(left + blank + right, |left|));
  }

  /**
   The cells a drawn run's glyphs stand in, one or two each, whatever they show:
   the bytes a local repair writes leave them blank, the cursor where the run
   began, and everything to either side as it was.
   */
  lemma LocalRepairClears(left: Bytes, ink: Bytes, right: Bytes, s: State, follows: Bytes, w: Widths)
    requires s.Plan(follows, w).Local? && |ink| == Sum(w.cells(s.DrawnBytes()).value)
    ensures PutAll(Row(left + ink + right, |left| + |ink|), s.Plan(follows, w).undo) == Row(left + Repeat(32, |ink|) + right, |left|)
  {
    UndoBlanks(left, ink, right);
  }

  /** Something is taken off the terminal exactly when something is on it. */
  lemma RepairIffDrawn(s: State, follows: Bytes, w: Widths)
    requires Valid(s)
    ensures s.Plan(follows, w) == NoRepair <==> !AnyDrawn(s.outstanding)
  {
    var n := DrawnCount(s.outstanding);
    assert |s.DrawnBytes()| == n;
    if n > 0 {
      assert s.outstanding[0].drawn;
    }
  }
}
