/**
 Local echo: when typed bytes may be drawn before the session echoes them, which
 echo is then suppressed, and how a wrong guess is taken back. What only a
 terminal width table can say arrives through `Widths`.
 */
module Prediction {
  import opened Prelude
  import opened Kmp

  type Bytes = seq<nat>

  /** One predicted byte: the run it was typed into, the command it left in, and whether it is on the terminal. */
  datatype Pending = Pending(byte: nat, epoch: nat, sentAs: Option<nat>, drawn: bool)

  datatype Repair = NoRepair | Local(undo: Bytes) | Repaint

  datatype Absorbed = Absorbed(skip: nat, repair: Repair)

  datatype Mode = Never | Adaptive | Always

  datatype Cue = Opaque | Echoing(room: nat)

  /** A keystroke this side can model: text with its cell widths, or backspaces. */
  datatype Keystroke = Print(widths: seq<nat>) | Erase(cells: nat) | Unmodelled

  /** How far a row rewrite reaches, and whether it erases the rest of the row. */
  datatype Extent = Extent(cols: Option<int>, clearsTail: bool)

  /**
   What the width table says of bytes: the cell widths of text every scalar of
   which it will place, how far drawn bytes move the cursor, and how far along
   the row a rewrite reaches.
   */
  datatype Widths = Widths(cells: Bytes -> Option<seq<nat>>, advance: Bytes -> Option<int>, extent: Bytes -> Extent)

  const PASTE_CELLS: nat := 100

  // Nanoseconds of round trip that turn drawing on, and that turn it off.
  const PREDICT_ABOVE: nat := 30_000_000
  const PREDICT_BELOW: nat := 20_000_000

  function Sum(s: seq<nat>): nat {
    if s == [] then 0 else s[0] + Sum(s[1..])
  }

  function BytesOf(owed: seq<Pending>): (r: Bytes)
    ensures |r| == |owed| && forall i :: 0 <= i < |r| ==> r[i] == owed[i].byte
  {
    seq(|owed|, i requires 0 <= i < |owed| => owed[i].byte)
  }

  /** How many leading predictions are on the terminal. */
  function DrawnCount(owed: seq<Pending>): (n: nat)
    ensures n <= |owed| && (forall i :: 0 <= i < n ==> owed[i].drawn) && (n < |owed| ==> !owed[n].drawn)
  {
    DrawnFrom(owed, 0)
  }

  function DrawnFrom(owed: seq<Pending>, from: nat): (n: nat)
    requires from <= |owed|
    ensures from <= n <= |owed| && (forall i :: from <= i < n ==> owed[i].drawn) && (n < |owed| ==> !owed[n].drawn)
    decreases |owed| - from
  {
    if from < |owed| && owed[from].drawn then DrawnFrom(owed, from + 1) else from
  }

  /** How many leading predictions output agrees with. */
  function Echoed(owed: seq<Pending>, session: Bytes): (n: nat)
    ensures n <= |owed| && n <= |session|
    ensures forall i :: 0 <= i < n ==> owed[i].byte == session[i]
    ensures n < |owed| && n < |session| ==> owed[n].byte != session[n]
  {
    if owed == [] || session == [] || owed[0].byte != session[0] then 0 else 1 + Echoed(owed[1..], session[1..])
  }

  /** `Some(seq) > ack`, with nothing acknowledged below everything. */
  predicate Beyond(seq_: nat, ack: Option<nat>) {
    ack.None? || seq_ > ack.value
  }

  /**
   The run a match confirms: only when it covers everything still owed, and the
   last byte it covers is of a command already written to the pty.
   */
  function Confirms(owed: seq<Pending>, delivered: Option<nat>, matched: nat): Option<nat> {
    if matched == 0 || matched < |owed| || owed == [] then None else
    var last := owed[|owed| - 1];
    if last.sentAs.Some? && !Beyond(last.sentAs.value, delivered) then Some(last.epoch) else None
  }

  /** Output that goes back to the first column of the row it is on. */
  predicate RestatesRow(session: Bytes) {
    session != [] && session[0] == 13 && !(|session| > 1 && session[1] == 10)
  }

  predicate Printable(follows: Bytes) {
    follows != [] && follows[0] >= 32 && follows[0] != 127
  }

  function ColumnAfter(column: Option<int>, written: Bytes, w: Widths): Option<int> {
    if column.None? || w.advance(written).None? then None
    else if column.value + w.advance(written).value >= 0 then Some(column.value + w.advance(written).value) else None
  }

  function Repeat(b: nat, n: nat): Bytes {
    seq(n, i => b)
  }

  function EraseEcho(width: nat): Bytes {
    if width == 2 then [8, 8, 32, 32, 8, 8] else [8, 32, 8]
  }

  datatype State = State(
    outstanding: seq<Pending>, epoch: nat, confirmedEpoch: nat, deferred: Option<nat>, delivered: Option<nat>,
    runCells: seq<nat>, cue: Cue, mode: Mode, gateOpen: bool, column: Option<int>)
  {
    predicate Confirmed() { epoch == confirmedEpoch }

    predicate DrawingNow() {
      match mode case Never => false case Adaptive => gateOpen case Always => true
    }

    function DrawnBytes(): Bytes {
      BytesOf(outstanding)[..DrawnCount(outstanding)]
    }

    /** A new run: only what is drawn stays owed, and no cell may be erased yet. */
    function Stalled(): State {
      this.(epoch := epoch + 1, outstanding := Drawn(outstanding), runCells := [])
    }

    function Queued(bytes: Bytes, sentAs: Option<nat>): State {
      this.(outstanding := outstanding + seq(|bytes|, i requires 0 <= i < |bytes| => Pending(bytes[i], epoch, sentAs, false)))
    }

    /** The bytes owed and not drawn, in order, or none while drawing is off. */
    function ToDraw(): Bytes {
      if DrawingNow() then BytesOf(outstanding)[DrawnCount(outstanding)..] else []
    }

    function Released(w: Widths): State {
      if !DrawingNow() then this
      else this.(outstanding := AllDrawn(outstanding, true), column := ColumnAfter(column, ToDraw(), w))
    }

    function Ended(): State {
      this.(outstanding := [], runCells := [], deferred := None, column := None, epoch := epoch + 1)
    }

    function Plan(follows: Bytes, w: Widths): Repair {
      if DrawnBytes() == [] then NoRepair
      else if Printable(follows) && w.cells(DrawnBytes()).Some? then
        var cols := Sum(w.cells(DrawnBytes()).value);
        Local(Repeat(8, cols) + Repeat(32, cols) + Repeat(8, cols))
      else Repaint
    }

    function Confirming(run: Option<nat>): State {
      if run.Some? then this.(confirmedEpoch := Max(confirmedEpoch, run.value)) else this
    }

    /** Whether a rewrite that restated no prediction still leaves this run's cells accounted for. */
    predicate Accounts(extent: Extent, w: Widths) {
      extent.clearsTail ||
      var advance := w.advance(DrawnBytes());
      advance.Some? && (advance.value <= 0 ||
        (extent.cols.Some? &&
          match column
          case Some(cursor) => extent.cols.value >= cursor || extent.cols.value == cursor - advance.value
          case None => extent.cols.value >= advance.value))
    }

    /** The command of the oldest prediction, when the application cannot have seen it yet. */
    function Unanswered(echoAck: Option<nat>): Option<nat> {
      if outstanding != [] && outstanding[0].sentAs.Some? && Beyond(outstanding[0].sentAs.value, echoAck)
      then outstanding[0].sentAs else None
    }

    /** Dropping what output echoed, having noted what that confirms. */
    function Matched(session: Bytes): State {
      var n := Echoed(outstanding, session);
      var s := Confirming(Confirms(outstanding, delivered, n));
      if n > 0 then s.(deferred := None, outstanding := outstanding[n..]) else s
    }

    /** How many of the predictions a rewrite ends with. */
    function Restated(rest: Bytes): nat {
      NaiveTail(BytesOf(outstanding), rest, |outstanding|)
    }

    /** A rewrite settles what it restates; the rest of the run is drawn afresh. */
    function Rewritten(rest: Bytes, w: Widths): State {
      var n := Restated(rest);
      var s := Confirming(Confirms(outstanding, delivered, n));
      var left := if n > 0 then outstanding[n..] else if !s.Confirmed() then [] else outstanding;
      var cols := w.extent(rest).cols;
      s.(outstanding := AllDrawn(left, false), deferred := None,
         column := if cols.Some? && cols.value >= 0 then cols else None)
    }

    predicate Stranded(rest: Bytes, w: Widths) {
      Restated(rest) == 0 && !Accounts(w.extent(rest), w)
    }

    /** What the rest of a chunk does, once its leading echo is taken off; `written` is what the terminal is given of it. */
    function Judges(rest: Bytes, written: Bytes, echoAck: Option<nat>, w: Widths): State {
      if rest == [] then this.(column := ColumnAfter(column, written, w))
      else if RestatesRow(rest) then if Stranded(rest, w) then Ended() else Rewritten(rest, w)
      else if Unanswered(echoAck).Some? then
        this.(deferred := Unanswered(echoAck), column := ColumnAfter(column, written, w))
      else Ended()
    }

    function RepairFor(rest: Bytes, echoAck: Option<nat>, w: Widths): Repair {
      if rest == [] then NoRepair
      else if RestatesRow(rest) then if Stranded(rest, w) then Plan([], w) else NoRepair
      else if Unanswered(echoAck).Some? then NoRepair
      else Plan(rest, w)
    }

    /** What a chunk of output does. */
    function Absorbs(session: Bytes, newCue: Cue, echoAck: Option<nat>, w: Widths): State {
      this.(cue := newCue).Matched(session).Judges(session[Echoed(outstanding, session)..], session[Skip(session)..], echoAck, w)
    }

    function Reports(session: Bytes, newCue: Cue, echoAck: Option<nat>, w: Widths): Absorbed {
      Absorbed(Skip(session), this.(cue := newCue).Matched(session).RepairFor(session[Echoed(outstanding, session)..], echoAck, w))
    }

    /** How much of a chunk repeats drawn bytes. */
    function Skip(session: Bytes): nat {
      Min(Echoed(outstanding, session), DrawnCount(outstanding))
    }

    /** What a keystroke queues, and whether it may be drawn; a shape nothing here models ends the run instead. */
    function Typed(typed: Bytes, w: Widths, sentAs: Option<nat>): (State, bool) {
      match (cue, KeystrokeOf(typed, w))
      case (Echoing(room), Print(widths)) =>
        if Sum(widths) <= PASTE_CELLS && |outstanding| + |typed| <= room
        then (Queued(typed, sentAs).(runCells := runCells + widths), Confirmed())
        else (Stalled(), false)
      case (Echoing(_), Erase(cells)) =>
        if Confirmed() && DrawnCount(outstanding) == |outstanding| && |runCells| >= cells
        then (Erased(cells, sentAs), true)
        else (Stalled(), false)
      case _ => (Stalled(), false)
    }

    /** Each cell taken back is echoed as a line editor writes it. */
    function Erased(cells: nat, sentAs: Option<nat>): State
      requires cells <= |runCells|
      decreases cells
    {
      if cells == 0 then this
      else
        var s := Queued(EraseEcho(runCells[|runCells| - 1]), sentAs).(runCells := runCells[..|runCells| - 1]);
        s.Erased(cells - 1, sentAs)
    }

    function Begun(interrupted: bool): State {
      if interrupted then Stalled() else this
    }

    function Predicts(typed: Bytes, sentAs: Option<nat>, interrupted: bool, w: Widths): State {
      var t := Begun(interrupted).Typed(typed, w, sentAs);
      if t.1 then t.0.Released(w) else t.0
    }

    function Draws(typed: Bytes, sentAs: Option<nat>, interrupted: bool, w: Widths): Bytes {
      var t := Begun(interrupted).Typed(typed, w, sentAs);
      if t.1 then t.0.ToDraw() else []
    }

    /** A heartbeat settles a postponed judgement once the application has had the keystroke. */
    predicate Settles(echoAck: Option<nat>) {
      deferred.Some? && !Beyond(deferred.value, echoAck)
    }

    function Measured(srtt: Option<nat>): State {
      if srtt.None? then this
      else if srtt.value > PREDICT_ABOVE then this.(gateOpen := true)
      else if srtt.value <= PREDICT_BELOW && !AnyDrawn(outstanding) then this.(gateOpen := false)
      else this
    }

    function Delivered(highest: nat): State {
      this.(delivered := if Beyond(highest, delivered) then Some(highest) else delivered)
    }
  }

  function Fresh(mode: Mode): State {
    State([], 1, 0, None, None, [], Opaque, mode, true, None)
  }

  function KeystrokeOf(typed: Bytes, w: Widths): Keystroke {
    if typed == [] then Unmodelled
    else if forall i :: 0 <= i < |typed| ==> typed[i] == 0x7f || typed[i] == 0x08 then Erase(|typed|)
    else if w.cells(typed).Some? then Print(w.cells(typed).value)
    else Unmodelled
  }

  predicate AnyDrawn(owed: seq<Pending>) {
    exists i :: 0 <= i < |owed| && owed[i].drawn
  }

  function Drawn(owed: seq<Pending>): seq<Pending> {
    if owed == [] then [] else (if owed[0].drawn then [owed[0]] else []) + Drawn(owed[1..])
  }

  function AllDrawn(owed: seq<Pending>, drawn: bool): (r: seq<Pending>)
    ensures |r| == |owed| && forall i :: 0 <= i < |r| ==> r[i] == owed[i].(drawn := drawn)
  {
    seq(|owed|, i requires 0 <= i < |owed| => owed[i].(drawn := drawn))
  }
}
