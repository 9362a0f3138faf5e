/** The predictor itself: the loops over what is owed, and the state each call replaces. */
module Predictors {
  import opened Prelude
  import opened Kmp
  import opened Prediction
  import opened PredictionRuns

  /** How much of the output is the echo of what is owed. */
  method CountEchoed(owed: seq<Pending>, session: Bytes) returns (n: nat)
    ensures n == Echoed(owed, session)
  {
    n := 0;
    while n < |owed| && n < |session| && owed[n].byte == session[n]
      invariant n <= |owed| && n <= |session|
      invariant forall i :: 0 <= i < n ==> owed[i].byte == session[i]
    {
      n := n + 1;
    }
    EchoedIs(owed, session, n);
  }

  lemma EchoedIs(owed: seq<Pending>, session: Bytes, n: nat)
    requires n <= |owed| && n <= |session|
    requires forall i :: 0 <= i < n ==> owed[i].byte == session[i]
    requires n < |owed| && n < |session| ==> owed[n].byte != session[n]
    ensures n == Echoed(owed, session)
  {
  }

  method CountDrawn(owed: seq<Pending>, limit: nat) returns (n: nat)
    requires limit <= |owed|
    ensures n == Min(limit, DrawnCount(owed))
  {
    n := 0;
    while n < limit && owed[n].drawn
      invariant n <= limit && forall i :: 0 <= i < n ==> owed[i].drawn
    {
      n := n + 1;
    }
  }

  /** Mark everything drawn, gathering what was not. */
  method Draw(owed: seq<Pending>) returns (marked: seq<Pending>, drawing: Bytes)
    requires DrawnFirst(owed)
    ensures marked == AllDrawn(owed, true) && drawing == BytesOf(owed)[DrawnCount(owed)..]
  {
    marked, drawing := [], [];
    ghost var c := DrawnCount(owed);
    for i := 0 to |owed|
      invariant marked == AllDrawn(owed, true)[..i]
      invariant drawing == if i <= c then [] else BytesOf(owed)[c..i]
    {
      if !owed[i].drawn {
        drawing := drawing + [owed[i].byte];
      }
      marked := marked + [owed[i].(drawn := true)];
    }
  }

  /** Keep only what is drawn. */
  method Retain(owed: seq<Pending>) returns (kept: seq<Pending>)
    ensures kept == Drawn(owed)
  {
    kept := [];
    for i := 0 to |owed|
      invariant kept + Drawn(owed[i..]) == Drawn(owed)
    {
      assert owed[i..][1..] == owed[i + 1..];
      if owed[i].drawn {
        kept := kept + [owed[i]];
      }
    }
  }

  /** Queue the echo of each erased cell. */
  method EraseCells(s: State, cells: nat, sentAs: Option<nat>) returns (t: State)
    requires cells <= |s.runCells|
    ensures t == s.Erased(cells, sentAs)
  {
    t := s;
    for left := cells downto 0
      invariant left <= |t.runCells| && t.Erased(left, sentAs) == s.Erased(cells, sentAs)
    {
      var width := t.runCells[|t.runCells| - 1];
      t := t.Queued(EraseEcho(width), sentAs).(runCells := t.runCells[..|t.runCells| - 1]);
    }
  }

  class Predictor {
    var state: State

    ghost predicate Valid()
      reads this
    {
      PredictionRuns.Valid(state)
    }

    constructor (mode: Mode)
      ensures Valid() && state == Fresh(mode)
    {
      state := Fresh(mode);
    }

    method Release(w: Widths) returns (drawn: Bytes)
      requires Valid()
      modifies this
      ensures Valid() && state == old(state).Released(w) && drawn == old(state).ToDraw()
    {
      ReleasedKeeps(state, w);
      drawn := [];
      if state.DrawingNow() {
        var marked, drawing := Draw(state.outstanding);
        drawn := drawing;
        state := state.(outstanding := marked, column := ColumnAfter(state.column, drawing, w));
      }
    }

    method Stall()
      requires Valid()
      modifies this
      ensures Valid() && state == old(state).Stalled()
    {
      StalledKeeps(state);
      var kept := Retain(state.outstanding);
      state := state.(epoch := state.epoch + 1, outstanding := kept, runCells := []);
    }

    /** One keystroke: the state it leads to, and the bytes it draws. */
    method Predict(typed: Bytes, sentAs: Option<nat>, interrupted: bool, w: Widths) returns (drawn: Bytes)
      requires Valid()
      modifies this
      ensures Valid() && state == old(state).Predicts(typed, sentAs, interrupted, w)
      ensures drawn == old(state).Draws(typed, sentAs, interrupted, w)
    {
      if interrupted {
        Stall();
      }
      drawn := Type(typed, sentAs, w);
    }

    method Type(typed: Bytes, sentAs: Option<nat>, w: Widths) returns (drawn: Bytes)
      requires Valid()
      modifies this
      ensures Valid() && state == old(state).Predicts(typed, sentAs, false, w)
      ensures drawn == old(state).Draws(typed, sentAs, false, w)
    {
      TypedKeeps(state, typed, w, sentAs);
      ghost var t := state.Typed(typed, w, sentAs);
      drawn := [];
      if state.cue.Opaque? {
        Stall();
        return;
      }
      match KeystrokeOf(typed, w)
      case Print(widths) =>
        if Sum(widths) <= PASTE_CELLS && |state.outstanding| + |typed| <= state.cue.room {
          state := state.Queued(typed, sentAs).(runCells := state.runCells + widths);
          assert state == t.0;
          if state.Confirmed() {
            drawn := Release(w);
          }
        } else {
          Stall();
        }
      case Erase(cells) =>
        var all := CountDrawn(state.outstanding, |state.outstanding|);
        if state.Confirmed() && all == |state.outstanding| && |state.runCells| >= cells {
          var next := EraseCells(state, cells, sentAs);
          state := next;
          assert state == t.0;
          drawn := Release(w);
        } else {
          Stall();
        }
      case Unmodelled => Stall();
    }

    /** Nothing stays owed; the repair is the one planned from what was drawn. */
    method EndRun(follows: Bytes, w: Widths) returns (repair: Repair)
      requires Valid()
      modifies this
      ensures Valid() && state == old(state).Ended() && repair == old(state).Plan(follows, w)
    {
      var n := CountDrawn(state.outstanding, |state.outstanding|);
      var undoing := BytesOf(state.outstanding)[..n];
      if undoing == [] {
        repair := NoRepair;
      } else if Printable(follows) && w.cells(undoing).Some? {
        var cols := Sum(w.cells(undoing).value);
        repair := Local(Repeat(8, cols) + Repeat(32, cols) + Repeat(8, cols));
      } else {
        repair := Repaint;
      }
      state := state.Ended();
    }

    /** One chunk of output: the state it leads to, how much of it is not written again, and the repair. */
    method Absorb(session: Bytes, cue: Cue, echoAck: Option<nat>, w: Widths) returns (r: Absorbed)
      requires Valid()
      modifies this
      ensures Valid() && state == old(state).Absorbs(session, cue, echoAck, w)
      ensures r == old(state).Reports(session, cue, echoAck, w)
    {
      var echoed := CountEchoed(state.outstanding, session);
      var skip := CountDrawn(state.outstanding, echoed);
      MatchedKeeps(state.(cue := cue), session);
      var run := Confirms(state.outstanding, state.delivered, echoed);
      var s := state.(cue := cue).Confirming(run);
      state := if echoed > 0 then s.(deferred := None, outstanding := s.outstanding[echoed..]) else s;
      var repair := Judge(session[echoed..], session[skip..], echoAck, w);
      r := Absorbed(skip, repair);
    }

    method Judge(rest: Bytes, written: Bytes, echoAck: Option<nat>, w: Widths) returns (repair: Repair)
      requires Valid()
      modifies this
      ensures Valid() && state == old(state).Judges(rest, written, echoAck, w)
      ensures repair == old(state).RepairFor(rest, echoAck, w)
    {
      repair := NoRepair;
      if rest == [] {
        state := state.(column := ColumnAfter(state.column, written, w));
      } else if RestatesRow(rest) {
        repair := Restate(rest, w);
      } else if state.Unanswered(echoAck).Some? {
        state := state.(deferred := state.Unanswered(echoAck), column := ColumnAfter(state.column, written, w));
      } else {
        repair := EndRun(rest, w);
      }
    }

    /** Reconcile a rewrite of the row. */
    method Restate(rest: Bytes, w: Widths) returns (repair: Repair)
      requires Valid()
      modifies this
      ensures Valid() && state == if old(state).Stranded(rest, w) then old(state).Ended() else old(state).Rewritten(rest, w)
      ensures repair == if old(state).Stranded(rest, w) then old(state).Plan([], w) else NoRepair
    {
      var restated := RestatedTail(BytesOf(state.outstanding), rest);
      var extent := w.extent(rest);
      if restated == 0 && !state.Accounts(extent, w) {
        repair := EndRun([], w);
        return;
      }
      RewrittenKeeps(state, rest, w);
      var s := state.Confirming(Confirms(state.outstanding, state.delivered, restated));
      var left := if restated > 0 then s.outstanding[restated..] else if !s.Confirmed() then [] else s.outstanding;
      state := s.(outstanding := AllDrawn(left, false), deferred := None,
                  column := if extent.cols.Some? && extent.cols.value >= 0 then extent.cols else None);
      repair := NoRepair;
    }

    /** The newest delivered command only rises. */
    method Acknowledged(highest: nat)
      requires Valid()
      modifies this
      ensures Valid() && state == old(state).Delivered(highest)
      ensures state.delivered == Some(if old(state).delivered.Some? then Max(highest, old(state).delivered.value) else highest)
    {
      state := state.Delivered(highest);
    }

    /** Settle a postponed judgement: true when the terminal holds what the session did not send. */
    method EchoAck(echoAck: Option<nat>, w: Widths) returns (repaint: bool)
      requires Valid()
      modifies this
      ensures Valid() && state == if old(state).Settles(echoAck) then old(state).Ended() else old(state)
      ensures repaint == (old(state).Settles(echoAck) && AnyDrawn(old(state).outstanding))
    {
      RepairIffDrawn(state, [], w);
      repaint := false;
      if state.Settles(echoAck) {
        var repair := EndRun([], w);
        repaint := repair != NoRepair;
      }
    }

    /** Nothing stays owed before a paint, which must be whole exactly when something is drawn. */
    method Invalidate(w: Widths) returns (whole: bool)
      requires Valid()
      modifies this
      ensures Valid() && state == old(state).Ended().(cue := Opaque)
      ensures whole == AnyDrawn(old(state).outstanding)
    {
      RepairIffDrawn(state, [], w);
      var repair := EndRun([], w);
      state := state.(cue := Opaque);
      whole := repair != NoRepair;
    }

    /** What is drawn stays, and nothing more is drawn until output brings a cue. */
    method Resized()
      requires Valid()
      modifies this
      ensures Valid() && state == old(state).(cue := Opaque, column := None)
      ensures state.DrawnBytes() == old(state).DrawnBytes()
      ensures forall typed, sentAs, interrupted, w :: state.Draws(typed, sentAs, interrupted, w) == []
    {
      state := state.(cue := Opaque, column := None);
    }

    /** Drawing is turned off only while nothing is drawn. */
    method ObservedRtt(srtt: Option<nat>)
      requires Valid()
      modifies this
      ensures Valid() && state == old(state).Measured(srtt)
      ensures old(state).gateOpen && !state.gateOpen ==> state.DrawnBytes() == []
      ensures srtt.Some? && srtt.value > 30_000_000 ==> state.gateOpen
      ensures srtt.Some? && srtt.value <= 20_000_000 ==> !state.gateOpen || (old(state).gateOpen && AnyDrawn(state.outstanding))
      ensures srtt.None? || 20_000_000 < srtt.value <= 30_000_000 ==> state == old(state)
    {
      state := state.Measured(srtt);
    }
  }
}
