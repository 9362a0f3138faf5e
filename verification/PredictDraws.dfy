/** What local echo does draw, when a run becomes confirmed, and what output that contradicts it does. */
module PredictionDraws {
  import opened Prelude
  import opened Kmp
  import opened Prediction
  import opened PredictionRuns

  // ---- keystrokes ----

  /** Always, or adaptively while the measured link is slow enough. */
  predicate Drawing(s: State) {
    s.mode == Always || (s.mode == Adaptive && s.gateOpen)
  }

  /** Text this side can place, within a paste's size. */
  predicate Text(typed: Bytes, w: Widths) {
    && typed != [] && (exists i :: 0 <= i < |typed| && typed[i] != 0x7f && typed[i] != 0x08)
    && w.cells(typed).Some? && Sum(w.cells(typed).value) <= 100
  }

  /** Text within the room the row has left. */
  predicate Fits(s: State, typed: Bytes, w: Widths) {
    s.cue.Echoing? && |s.outstanding| + |typed| <= s.cue.room && Text(typed, w)
  }

  /** Bytes queued are owed after everything else, and the terminal holds what it held. */
  lemma QueuedIs(s: State, bytes: Bytes, sentAs: Option<nat>, q: State)
    requires Valid(s) && q == s.Queued(bytes, sentAs)
    ensures BytesOf(q.outstanding) == BytesOf(s.outstanding) + bytes && DrawnCount(q.outstanding) == DrawnCount(s.outstanding)
    ensures BytesOf(q.outstanding)[DrawnCount(q.outstanding)..] == BytesOf(s.outstanding)[DrawnCount(s.outstanding)..] + bytes
  {
    DrawnCountIs(q.outstanding, DrawnCount(s.outstanding));
  }

  lemma TextTyped(s: State, typed: Bytes, sentAs: Option<nat>, w: Widths)
    requires Fits(s, typed, w)
    ensures s.Typed(typed, w, sentAs) == (s.Queued(typed, sentAs).(runCells := s.runCells + w.cells(typed).value), s.Confirmed())
  {
  }

  /** Releasing marks what is owed and changes nothing else of it. */
  lemma ReleasedMarks(s: State, w: Widths, t: State)
    requires t == s || t == s.Released(w)
    ensures |t.outstanding| == |s.outstanding| && t.runCells == s.runCells && t.epoch == s.epoch
    ensures forall i :: 0 <= i < |t.outstanding| ==> t.outstanding[i] == s.outstanding[i].(drawn := t.outstanding[i].drawn)
  {
  }

  lemma TextPredicts(s: State, typed: Bytes, sentAs: Option<nat>, w: Widths, q: State)
    requires Fits(s, typed, w) && q == s.Queued(typed, sentAs).(runCells := s.runCells + w.cells(typed).value)
    ensures s.Predicts(typed, sentAs, false, w) == q || s.Predicts(typed, sentAs, false, w) == q.Released(w)
  {
    TextTyped(s, typed, sentAs, w);
  }

  lemma SameBytes(a: seq<Pending>, b: seq<Pending>)
    requires |a| == |b| && forall i :: 0 <= i < |a| ==> a[i] == b[i].(drawn := a[i].drawn)
    ensures BytesOf(a) == BytesOf(b)
  {
  }

  /** Text that fits is owed after everything else; its cells may be taken back while the run lasts. */
  lemma TextIsOwed(s: State, typed: Bytes, sentAs: Option<nat>, w: Widths, t: State)
    requires Valid(s) && Fits(s, typed, w) && t == s.Predicts(typed, sentAs, false, w)
    ensures BytesOf(t.outstanding) == BytesOf(s.outstanding) + typed
    ensures t.runCells == s.runCells + w.cells(typed).value && t.epoch == s.epoch
    ensures forall i :: |s.outstanding| <= i < |t.outstanding| ==> t.outstanding[i].epoch == s.epoch && t.outstanding[i].sentAs == sentAs
  {
    var q := s.Queued(typed, sentAs).(runCells := s.runCells + w.cells(typed).value);
    TextPredicts(s, typed, sentAs, w, q);
    ReleasedMarks(q, w, t);
    SameBytes(t.outstanding, q.outstanding);
    QueuedIs(s, typed, sentAs, s.Queued(typed, sentAs));
  }

  lemma TextDraws(s: State, typed: Bytes, sentAs: Option<nat>, w: Widths, q: State)
    requires Valid(s) && Fits(s, typed, w) && q == s.Queued(typed, sentAs)
    ensures s.Draws(typed, sentAs, false, w)
         == if s.Confirmed() && Drawing(s) then BytesOf(q.outstanding)[DrawnCount(q.outstanding)..] else []
  {
    TextTyped(s, typed, sentAs, w);
  }

  /** On a confirmed run everything owed and not yet on the terminal is drawn, the new text last; on any other, nothing. */
  lemma TextIsDrawn(s: State, typed: Bytes, sentAs: Option<nat>, w: Widths)
    requires Valid(s) && Fits(s, typed, w)
    ensures s.Draws(typed, sentAs, false, w)
         == if s.Confirmed() && Drawing(s) then BytesOf(s.outstanding)[DrawnCount(s.outstanding)..] + typed else []
  {
    TextDraws(s, typed, sentAs, w, s.Queued(typed, sentAs));
    QueuedIs(s, typed, sentAs, s.Queued(typed, sentAs));
  }

  /** Backspaces over cells of this run, with everything owed on the terminal. */
  predicate Erases(s: State, typed: Bytes) {
    && s.cue.Echoing? && s.Confirmed() && DrawnCount(s.outstanding) == |s.outstanding|
    && 0 < |typed| <= |s.runCells| && (forall i :: 0 <= i < |typed| ==> typed[i] == 0x7f || typed[i] == 0x08)
  }

  /** The echoes of the cells taken back, newest first. */
  function EraseEchoes(cells: seq<nat>, count: nat): Bytes
    requires count <= |cells|
    decreases count
  {
    if count == 0 then [] else EraseEcho(cells[|cells| - 1]) + EraseEchoes(cells[..|cells| - 1], count - 1)
  }

  lemma ErasedOnce(s: State, cells: nat, sentAs: Option<nat>, next: State, t: State)
    requires 0 < cells <= |s.runCells| && t == s.Erased(cells, sentAs)
    requires next == s.Queued(EraseEcho(s.runCells[|s.runCells| - 1]), sentAs).(runCells := s.runCells[..|s.runCells| - 1])
    ensures t == next.Erased(cells - 1, sentAs)
  {
  }

  /** The second owes what the first does, and then some. */
  ghost predicate OwesMore(s: State, t: State, more: Bytes) {
    BytesOf(t.outstanding) == BytesOf(s.outstanding) + more
  }

  lemma OwesThrough(s: State, t: State, u: State, a: Bytes, b: Bytes)
    requires OwesMore(s, t, a) && OwesMore(t, u, b)
    ensures OwesMore(s, u, a + b)
  {
  }

  lemma QueuedOwes(s: State, bytes: Bytes, sentAs: Option<nat>, cells: seq<nat>)
    ensures OwesMore(s, s.Queued(bytes, sentAs).(runCells := cells), bytes)
  {
  }

  lemma OwesNone(s: State)
    ensures OwesMore(s, s, [])
  {
  }

  lemma {:induction false} ErasedOwes(s: State, cells: nat, sentAs: Option<nat>, t: State)
    requires cells <= |s.runCells| && t == s.Erased(cells, sentAs)
    ensures OwesMore(s, t, EraseEchoes(s.runCells, cells))
    decreases cells
  {
    if cells == 0 {
      OwesNone(s);
    } else {
      var echo, rest := EraseEcho(s.runCells[|s.runCells| - 1]), s.runCells[..|s.runCells| - 1];
      var next := s.Queued(echo, sentAs).(runCells := rest);
      ErasedOnce(s, cells, sentAs, next, t);
      QueuedOwes(s, echo, sentAs, rest);
      ErasedOwes(next, cells - 1, sentAs, t);
      OwesThrough(s, next, t, echo, EraseEchoes(rest, cells - 1));
    }
  }

  lemma {:induction false} ErasedLeaves(s: State, cells: nat, sentAs: Option<nat>, t: State)
    requires cells <= |s.runCells| && t == s.Erased(cells, sentAs)
    ensures t.runCells == s.runCells[..|s.runCells| - cells] && t.column == s.column && t.mode == s.mode && t.gateOpen == s.gateOpen
    decreases cells
  {
    if cells > 0 {
      var rest := s.runCells[..|s.runCells| - 1];
      var next := s.Queued(EraseEcho(s.runCells[|s.runCells| - 1]), sentAs).(runCells := rest);
      ErasedOnce(s, cells, sentAs, next, t);
      ErasedLeaves(next, cells - 1, sentAs, t);
      assert rest[..|rest| - (cells - 1)] == s.runCells[..|s.runCells| - cells];
    }
  }

  lemma EraseTyped(s: State, typed: Bytes, sentAs: Option<nat>, w: Widths)
    requires Erases(s, typed)
    ensures s.Typed(typed, w, sentAs) == (s.Erased(|typed|, sentAs), true)
  {
  }

  /** Everything owed was on the terminal, so what is queued is all there is to draw. */
  lemma RestIs(s: State, t: State, more: Bytes)
    requires DrawnCount(s.outstanding) == |s.outstanding| && |t.DrawnBytes()| == |s.DrawnBytes()|
    requires BytesOf(t.outstanding) == BytesOf(s.outstanding) + more
    ensures BytesOf(t.outstanding)[DrawnCount(t.outstanding)..] == more
  {
  }

  /** Erasing draws the echo of each cell taken back, newest first, and those cells can be taken back no more. */
  lemma EraseIsDrawn(s: State, typed: Bytes, sentAs: Option<nat>, w: Widths)
    requires Valid(s) && Erases(s, typed)
    ensures s.Predicts(typed, sentAs, false, w).runCells == s.runCells[..|s.runCells| - |typed|]
    ensures s.Draws(typed, sentAs, false, w) == if Drawing(s) then EraseEchoes(s.runCells, |typed|) else []
  {
    var e := s.Erased(|typed|, sentAs);
    EraseTyped(s, typed, sentAs, w);
    ErasedToDraw(s, |typed|, sentAs, e);
  }

  lemma ErasedToDraw(s: State, cells: nat, sentAs: Option<nat>, e: State)
    requires Valid(s) && DrawnCount(s.outstanding) == |s.outstanding| && cells <= |s.runCells| && e == s.Erased(cells, sentAs)
    ensures e.runCells == s.runCells[..|s.runCells| - cells]
    ensures e.ToDraw() == if Drawing(s) then EraseEchoes(s.runCells, cells) else []
  {
    ErasedOwes(s, cells, sentAs, e);
    ErasedLeaves(s, cells, sentAs, e);
    ErasedKeeps(s, cells, sentAs);
    RestIs(s, e, EraseEchoes(s.runCells, cells));
  }

  function Last(cells: seq<nat>, count: nat): seq<nat>
    requires count <= |cells|
  {
    cells[|cells| - count..]
  }

  /** Written after some cells, the bytes blank exactly those and leave the cursor where they began. */
  ghost predicate Blanks(left: Bytes, ink: Bytes, right: Bytes, bytes: Bytes) {
    PutAll(Row(left + ink + right, |left| + |ink|), bytes) == Row(left + Repeat(32, |ink|) + right, |left|)
  }

  lemma BlanksNone(left: Bytes, ink: Bytes, right: Bytes)
    requires ink == []
    ensures Blanks(left, ink, right, [])
  {
    assert Repeat(32, 0) == [];
  }

  lemma LastWidth(cells: seq<nat>, count: nat)
    requires 0 < count <= |cells|
    ensures Sum(Last(cells, count)) == Sum(Last(cells[..|cells| - 1], count - 1)) + cells[|cells| - 1]
  {
    SumLast(Last(cells, count));
    assert Last(cells, count)[..count - 1] == Last(cells[..|cells| - 1], count - 1);
  }

  /** On the row, those echoes blank exactly the cells taken back and leave the cursor where they began. */
  lemma {:induction false} EraseClears(left: Bytes, ink: Bytes, right: Bytes, cells: seq<nat>, count: nat, echoes: Bytes)
    requires count <= |cells| && (forall i :: 0 <= i < |cells| ==> cells[i] == 1 || cells[i] == 2)
    requires |ink| == Sum(Last(cells, count)) && echoes == EraseEchoes(cells, count)
    ensures Blanks(left, ink, right, echoes)
    decreases count
  {
    if count == 0 {
      BlanksNone(left, ink, right);
    } else {
      var width, rest := cells[|cells| - 1], cells[..|cells| - 1];
      LastWidth(cells, count);
      var more := EraseEchoes(rest, count - 1);
      var near, far := ink[..|ink| - width], ink[|ink| - width..];
      EraseClears(left, near, Repeat(32, width) + right, rest, count - 1, more);
      OneMoreCleared(left, near, far, ink, right, width, more, echoes);
    }
  }

  lemma OneMoreCleared(left: Bytes, near: Bytes, far: Bytes, ink: Bytes, right: Bytes, width: nat, echoes: Bytes, all: Bytes)
    requires |far| == width && (width == 1 || width == 2) && ink == near + far && all == EraseEcho(width) + echoes
    requires Blanks(left, near, Repeat(32, width) + right, echoes)
    ensures Blanks(left, ink, right, all)
  {
    EchoBlanks(left + near, far, right, width);
    Nested(left, near, far, right, ink);
    Nested(left, near, Repeat(32, width), right, near + Repeat(32, width));
    Nested(left, Repeat(32, |near|), Repeat(32, width), right, Repeat(32, |ink|));
    PutThen(Row(left + ink + right, |left| + |ink|), EraseEcho(width),
            Row(left + near + (Repeat(32, width) + right), |left| + |near|), echoes, Row(left + Repeat(32, |ink|) + right, |left|));
  }

  /** Ways to bracket four stretches of a row. */
  lemma Nested(a: Bytes, b: Bytes, c: Bytes, d: Bytes, bc: Bytes)
    requires bc == b + c
    ensures a + b + c + d == a + bc + d == a + b + (c + d)
  {
  }

  lemma EchoBlanks(left: Bytes, ink: Bytes, right: Bytes, width: nat)
    requires |ink| == width && (width == 1 || width == 2)
    ensures PutAll(Row(left + ink + right, |left| + width), EraseEcho(width)) == Row(left + Repeat(32, width) + right, |left|)
  {
    assert EraseEcho(width) == Repeat(8, width) + Repeat(32, width) + Repeat(8, width);
    UndoBlanks(left, ink, right);
  }

  lemma {:induction false} SumLast(s: seq<nat>)
    requires s != []
    ensures Sum(s) == Sum(s[..|s| - 1]) + s[|s| - 1]
  {
    if |s| > 1 {
      SumLast(s[1..]);
      assert s[1..][..|s| - 2] == s[..|s| - 1][1..];
    } else {
      assert s[..0] == [] && s[1..] == [];
    }
  }

  /** Whatever is neither, or comes after typing this side did not see, draws nothing, ends the run, and forgets what was only queued. */
  lemma OtherwiseStalls(s: State, typed: Bytes, sentAs: Option<nat>, interrupted: bool, w: Widths)
    requires Valid(s) && (interrupted || (!Fits(s, typed, w) && !Erases(s, typed)))
    ensures s.Draws(typed, sentAs, interrupted, w) == [] && !s.Predicts(typed, sentAs, interrupted, w).Confirmed()
    ensures s.Predicts(typed, sentAs, interrupted, w).DrawnBytes() == s.DrawnBytes()
    ensures !interrupted ==> BytesOf(s.Predicts(typed, sentAs, false, w).outstanding) == s.DrawnBytes()
  {
    StalledKeeps(s);
    if interrupted {
      TypedKeeps(s.Stalled(), typed, w, sentAs);
    } else {
      OthersType(s, typed, sentAs, w);
      StalledIs(s);
    }
  }

  lemma OthersType(s: State, typed: Bytes, sentAs: Option<nat>, w: Widths)
    requires !Fits(s, typed, w) && !Erases(s, typed)
    ensures s.Typed(typed, w, sentAs) == (s.Stalled(), false)
  {
  }

  lemma StalledIs(s: State)
    requires Valid(s)
    ensures BytesOf(s.Stalled().outstanding) == s.DrawnBytes() && s.Stalled().runCells == []
  {
    DrawnIsPrefix(s.outstanding);
  }

  // ---- echo ----

  /** The last byte owed is of this run, in a command the server has written to the pty. */
  predicate Answerable(s: State) {
    && s.outstanding != [] && var last := s.outstanding[|s.outstanding| - 1];
       && last.epoch == s.epoch && last.sentAs.Some? && s.delivered.Some? && last.sentAs.value <= s.delivered.value
  }

  /** Output that leads with everything owed settles it, and confirms the run exactly when its last byte had been delivered. */
  lemma WholeEchoConfirms(s: State, more: Bytes, session: Bytes)
    requires Valid(s) && session == BytesOf(s.outstanding) + more
    ensures
      var m := s.Matched(session);
      && m.outstanding == [] && Echoed(s.outstanding, session) == |s.outstanding|
      && (m.Confirmed() <==> s.Confirmed() || Answerable(s))
  {
    EchoedWhole(s.outstanding, session);
  }

  lemma {:induction false} EchoedWhole(owed: seq<Pending>, session: Bytes)
    requires BytesOf(owed) <= session
    ensures Echoed(owed, session) == |owed|
  {
    if owed != [] {
      assert BytesOf(owed)[0] == session[0];
      assert BytesOf(owed[1..]) == BytesOf(owed)[1..];
      EchoedWhole(owed[1..], session[1..]);
    }
  }

  /** What is left once everything owed is delivered and echoed: a confirmed run that owes nothing. */
  lemma EchoedRun(s: State, highest: nat, room: nat, echoAck: Option<nat>, w: Widths, echoed: State)
    requires Valid(s) && Answerable(s.Delivered(highest))
    requires echoed == After(s.Delivered(highest), Output(BytesOf(s.outstanding), Echoing(room), echoAck), w)
    ensures Valid(echoed) && echoed.outstanding == [] && echoed.Confirmed() && Drawing(echoed) == Drawing(s)
    ensures echoed.cue == Echoing(room)
  {
    var d := s.Delivered(highest);
    AfterKeeps(d, Output(BytesOf(s.outstanding), Echoing(room), echoAck), w);
    WholeEchoConfirms(d.(cue := Echoing(room)), [], BytesOf(s.outstanding));
    assert BytesOf(s.outstanding)[|s.outstanding|..] == [];
  }

  /**
   An echo unlocks the run: once what is owed is delivered and the session echoes it,
   text typed next that the row has room for is drawn at once, and nothing else with it.
   */
  lemma EchoUnlocks(s: State, highest: nat, room: nat, echoAck: Option<nat>, typed: Bytes, sentAs: Option<nat>, w: Widths,
                    echoed: State)
    requires Valid(s) && Drawing(s) && Answerable(s.Delivered(highest))
    requires echoed == Run(s, [Acknowledged(highest), Output(BytesOf(s.outstanding), Echoing(room), echoAck)], w)
    requires Text(typed, w) && |typed| <= room
    ensures echoed.outstanding == [] && echoed.Draws(typed, sentAs, false, w) == typed
  {
    TwoEvents(s, Acknowledged(highest), Output(BytesOf(s.outstanding), Echoing(room), echoAck), w);
    EchoedRun(s, highest, room, echoAck, w, echoed);
    TextIsDrawn(echoed, typed, sentAs, w);
  }

  /** A new predictor owes nothing, has confirmed nothing, and draws unless it never does. */
  lemma FreshDraws(mode: Mode)
    ensures Drawing(Fresh(mode)) <==> mode != Never
    ensures Fresh(mode).outstanding == [] && !Fresh(mode).Confirmed() && Valid(Fresh(mode))
  {
  }

  lemma TwoEvents(s: State, a: Event, b: Event, w: Widths)
    ensures Run(s, [a, b], w) == After(After(s, a, w), b, w)
  {
    var both, one := [a, b], [a];
    assert both[..|both| - 1] == one && one[..|one| - 1] == [];
    assert Run(s, one, w) == After(Run(s, [], w), a, w);
  }

  // ---- contradiction ----

  /** Output that goes on with something other than a rewrite of the row. */
  predicate Contradicts(rest: Bytes) {
    rest != [] && !(rest[0] == 13 && (|rest| == 1 || rest[1] != 10))
  }

  /** The oldest byte owed is in a command the application cannot have answered yet. */
  predicate Early(owed: seq<Pending>, echoAck: Option<nat>) {
    owed != [] && owed[0].sentAs.Some? && (echoAck.None? || owed[0].sentAs.value > echoAck.value)
  }

  /** What is judged of a state that has taken its echo off. */
  lemma RestJudged(m: State, rest: Bytes, written: Bytes, echoAck: Option<nat>, w: Widths)
    requires Valid(m) && Contradicts(rest)
    ensures
      var t := m.Judges(rest, written, echoAck, w);
      if Early(m.outstanding, echoAck)
      then t.outstanding == m.outstanding && t.deferred == m.outstanding[0].sentAs && t.column == ColumnAfter(m.column, written, w)
           && m.RepairFor(rest, echoAck, w) == NoRepair
      else t.outstanding == [] && t.deferred == None && !t.Confirmed() && t.runCells == [] && t.column == None
           && (m.RepairFor(rest, echoAck, w) == NoRepair <==> DrawnCount(m.outstanding) == 0)
  {
    assert |m.DrawnBytes()| == DrawnCount(m.outstanding);
  }

  /**
   Output that contradicts what is owed: while the application may not have seen it the
   judgement is put off and nothing is lost; otherwise nothing stays owed, the run is
   over, and a repair is asked for exactly when something drawn was not echoed.
   */
  lemma ContradictionJudged(s: State, session: Bytes, cue: Cue, echoAck: Option<nat>, w: Widths)
    requires Valid(s) && Contradicts(session[Echoed(s.outstanding, session)..])
    ensures
      var n := Echoed(s.outstanding, session);
      var t, r := s.Absorbs(session, cue, echoAck, w), s.Reports(session, cue, echoAck, w);
      if Early(s.outstanding[n..], echoAck)
      then t.outstanding == s.outstanding[n..] && t.deferred == s.outstanding[n].sentAs && r.repair == NoRepair
      else t.outstanding == [] && t.deferred == None && !t.Confirmed() && t.runCells == [] && t.column == None
           && (r.repair == NoRepair <==> DrawnCount(s.outstanding) <= n)
  {
    var n := Echoed(s.outstanding, session);
    var m := s.(cue := cue).Matched(session);
    MatchedKeeps(s.(cue := cue), session);
    MatchedIs(s.(cue := cue), session, m);
    RestJudged(m, session[n..], session[s.Skip(session)..], echoAck, w);
  }

  lemma MatchedIs(s: State, session: Bytes, m: State)
    requires Valid(s) && m == s.Matched(session)
    ensures m.outstanding == s.outstanding[Echoed(s.outstanding, session)..]
    ensures DrawnCount(m.outstanding) == Max(DrawnCount(s.outstanding) - Echoed(s.outstanding, session), 0)
    ensures m.deferred == if Echoed(s.outstanding, session) > 0 then None else s.deferred
  {
    DroppedFirst(s.outstanding, Echoed(s.outstanding, session));
    assert s.outstanding[0..] == s.outstanding;
  }

  /** A judgement put off falls due with the first heartbeat that covers the command it waits for, and not before. */
  lemma PostponedFallsDue(s: State, echoAck: Option<nat>, w: Widths)
    requires Valid(s) && s.deferred.Some?
    ensures
      var t := After(s, Heartbeat(echoAck), w);
      if echoAck.Some? && s.deferred.value <= echoAck.value then t.outstanding == [] && !t.Confirmed() && t.deferred == None
      else t == s
  {
  }

  lemma RewriteConfirms(s: State, rest: Bytes, w: Widths, n: nat)
    requires Valid(s) && n == s.Restated(rest) && n <= |s.outstanding|
    ensures s.Rewritten(rest, w).Confirmed() <==> s.Confirmed() || (n == |s.outstanding| && Answerable(s))
  {
  }

  lemma RewriteLeaves(s: State, rest: Bytes, w: Widths, n: nat)
    requires Valid(s) && n == s.Restated(rest) && n <= |s.outstanding|
    ensures BytesOf(s.Rewritten(rest, w).outstanding)
         == if n > 0 then BytesOf(s.outstanding)[n..] else if s.Confirmed() then BytesOf(s.outstanding) else []
  {
    UniformFirst(s.outstanding, false);
    UniformFirst(s.outstanding[n..], false);
    assert n == 0 && Answerable(s) ==> Confirms(s.outstanding, s.delivered, n) == None;
  }

  /** A rewrite of the row leaves nothing on the terminal that is owed: what it ends with is settled, the rest of a confirmed run is owed afresh. */
  lemma RewriteSettles(s: State, rest: Bytes, w: Widths)
    requires Valid(s)
    ensures
      var n := s.Restated(rest);
      var t := s.Rewritten(rest, w);
      && Border(BytesOf(s.outstanding), rest, n) && t.DrawnBytes() == [] && t.deferred == None
      && BytesOf(t.outstanding) == (if n > 0 then BytesOf(s.outstanding)[n..] else if s.Confirmed() then BytesOf(s.outstanding) else [])
      && (t.Confirmed() <==> s.Confirmed() || (n == |s.outstanding| && Answerable(s)))
  {
    NaiveIsLongest(BytesOf(s.outstanding), rest, |s.outstanding|);
    RewrittenUndrawn(s, rest, w);
    RewriteConfirms(s, rest, w, s.Restated(rest));
    RewriteLeaves(s, rest, w, s.Restated(rest));
  }

  /** Some of what is owed, from the oldest on, is what the rewrite ends with. */
  ghost predicate Restates(owed: Bytes, rest: Bytes) {
    exists k :: 0 < k <= |owed| && Border(owed, rest, k)
  }

  /**
   A chunk that goes on with a rewrite of the row, once its echo is taken off: a run it
   neither restates any of nor accounts for is over, and what is left of it on the
   terminal needs a screen; any other is settled, with the cursor where the rewrite ends.
   */
  lemma RewriteJudged(s: State, session: Bytes, cue: Cue, echoAck: Option<nat>, w: Widths, m: State)
    requires Valid(s) && m == s.(cue := cue).Matched(session)
    requires var rest := session[Echoed(s.outstanding, session)..]; rest != [] && rest[0] == 13 && (|rest| == 1 || rest[1] != 10)
    ensures
      var rest := session[Echoed(s.outstanding, session)..];
      var t, repair := s.Absorbs(session, cue, echoAck, w), s.Reports(session, cue, echoAck, w).repair;
      if Restates(BytesOf(m.outstanding), rest) || m.Accounts(w.extent(rest), w)
      then t == m.Rewritten(rest, w) && repair == NoRepair
           && t.column == if w.extent(rest).cols.Some? && w.extent(rest).cols.value >= 0 then w.extent(rest).cols else None
      else t.outstanding == [] && !t.Confirmed() && (if DrawnCount(m.outstanding) > 0 then repair == Repaint else repair == NoRepair)
  {
    var rest := session[Echoed(s.outstanding, session)..];
    MatchedKeeps(s.(cue := cue), session);
    NaiveIsLongest(BytesOf(m.outstanding), rest, |m.outstanding|);
    assert |m.DrawnBytes()| == DrawnCount(m.outstanding);
  }

  /**
   A rewrite that restates nothing leaves the run accounted for exactly when it wipes
   the row's tail, or the run has no cells right of where it began, or it writes over
   every cell of the run, or it stops right where the run begins. With no column in
   hand the run is taken to begin the row, and only covering it all will do.
   */
  lemma AccountsIff(s: State, extent: Extent, w: Widths, advance: int)
    requires w.advance(s.DrawnBytes()) == Some(advance)
    ensures
      var end := if s.column.Some? then s.column.value else advance;
      s.Accounts(extent, w) <==>
        || extent.clearsTail || advance <= 0
        || (extent.cols.Some? && (forall col :: end - advance <= col < end ==> Written(extent.cols.value, col)))
        || (s.column.Some? && extent.cols == Some(end - advance))
  {
    var end := if s.column.Some? then s.column.value else advance;
    assert extent.cols.Some? && end - 1 >= extent.cols.value ==> !Written(extent.cols.value, end - 1);
  }

  /** A rewrite of an extent writes over the columns below it. */
  predicate Written(cols: int, col: int) { col < cols }

  /** A guess is taken back in place exactly when what follows begins with a character of its own and every glyph drawn has a width. */
  lemma RepairKind(s: State, follows: Bytes, w: Widths)
    ensures s.Plan(follows, w).Local? <==>
      && s.DrawnBytes() != [] && w.cells(s.DrawnBytes()).Some?
      && follows != [] && (32 <= follows[0] <= 126 || follows[0] >= 128)
    ensures s.Plan(follows, w).Repaint? <==> s.DrawnBytes() != [] && !s.Plan(follows, w).Local?
  {
  }

  // ---- the column ----

  /** A known column moves with what is drawn. */
  lemma ColumnFollowsDrawing(s: State, typed: Bytes, sentAs: Option<nat>, w: Widths, column: int, moved: int)
    requires Valid(s) && s.column == Some(column) && Drawing(s) && ((Fits(s, typed, w) && s.Confirmed()) || Erases(s, typed))
    requires w.advance(s.Draws(typed, sentAs, false, w)) == Some(moved)
    ensures s.Predicts(typed, sentAs, false, w).column == if column + moved >= 0 then Some(column + moved) else None
  {
    if Fits(s, typed, w) {
      TextTyped(s, typed, sentAs, w);
    } else {
      EraseTyped(s, typed, sentAs, w);
      ErasedLeaves(s, |typed|, sentAs, s.Erased(|typed|, sentAs));
    }
  }

  /** And with the part of an echo the terminal did not hold yet. */
  lemma ColumnFollowsEcho(s: State, session: Bytes, cue: Cue, echoAck: Option<nat>, w: Widths, column: int, moved: int)
    requires Valid(s) && s.column == Some(column) && session <= BytesOf(s.outstanding)
    requires w.advance(session[s.Skip(session)..]) == Some(moved)
    ensures s.Absorbs(session, cue, echoAck, w).column == if column + moved >= 0 then Some(column + moved) else None
  {
    EchoedPart(s.outstanding, session);
    assert session[|session|..] == [];
    MatchedColumn(s.(cue := cue), session);
  }

  lemma MatchedColumn(s: State, session: Bytes)
    ensures s.Matched(session).column == s.column
  {
  }

  lemma {:induction false} EchoedPart(owed: seq<Pending>, session: Bytes)
    requires session <= BytesOf(owed)
    ensures Echoed(owed, session) == |session|
  {
    if session != [] {
      assert BytesOf(owed)[0] == session[0];
      assert BytesOf(owed[1..]) == BytesOf(owed)[1..];
      EchoedPart(owed[1..], session[1..]);
    }
  }
}
