/** The reorder buffer and the output loop around it, as they are updated step by step. */
module OutputLoops {
  import opened Prelude
  import opened Prediction
  import opened Reordering

  method IsHeld(held: seq<Chunk>, off: nat) returns (found: bool)
    ensures found == Starts(held, off)
  {
    for i := 0 to |held|
      invariant forall k :: 0 <= k < i ==> held[k].off != off
    {
      if held[i].off == off {
        return true;
      }
    }
    return false;
  }

  /** Sort an appended chunk back to its place. */
  method SortIn(held: seq<Chunk>, c: Chunk) returns (sorted: seq<Chunk>)
    ensures sorted == Inserted(held, c)
  {
    var k := |held|;
    while k > 0 && held[k - 1].off >= c.off
      invariant 0 <= k <= |held| && Rank(held[..k], c.off) == Rank(held, c.off)
    {
      assert held[..k][..k - 1] == held[..k - 1];
      k := k - 1;
    }
    sorted := held[..k] + [c] + held[k..];
  }

  method Retain(held: seq<Chunk>, expected: nat) returns (kept: seq<Chunk>)
    ensures kept == Kept(held, expected)
  {
    kept := [];
    for i := 0 to |held|
      invariant kept == Kept(held[..i], expected)
    {
      assert held[..i + 1][..i] == held[..i];
      if Reaches(held[i], expected) {
        kept := kept + [held[i]];
      }
    }
    assert held[..|held|] == held;
  }

  method FindAt(held: seq<Chunk>, off: nat) returns (k: nat)
    ensures k == Position(held, off)
  {
    k := 0;
    while k < |held| && held[k].off != off
      invariant k <= |held| && PositionFrom(held, off, k) == Position(held, off)
    {
      k := k + 1;
    }
  }

  method SumBytes(held: seq<Chunk>) returns (n: nat)
    ensures n == Total(held)
  {
    n := 0;
    for i := 0 to |held|
      invariant n == Total(held[..i])
    {
      assert held[..i + 1][..i] == held[..i];
      n := n + |held[i].bytes|;
    }
    assert held[..|held|] == held;
  }

  /** Drop what is behind the position, and take out the chunk that starts there. */
  method TakeFrom(g: Gap, expected: nat) returns (left: Gap, taken: Option<Chunk>)
    ensures left == g.Taking(expected) && taken == g.Taken(expected)
  {
    var kept := Retain(g.held, expected);
    var at := FindAt(kept, expected);
    taken := None;
    if at < |kept| {
      taken := Some(kept[at]);
      kept := kept[..at] + kept[at + 1..];
    }
    var bytes := SumBytes(kept);
    left := Gap(kept, bytes, if kept == [] then None else g.since);
  }

  /** Show held chunks one after another, until none follows. */
  method DrainTo(f: Flow, ghost all: Flow, ghost count: nat) returns (d: Flow)
    requires f.gap.Valid() && Drains(f, all, count)
    ensures d == all && d.gap.Valid()
  {
    d := f;
    ghost var n := count;
    while true
      invariant d.gap.Valid() && Drains(d, all, n)
      decreases n
    {
      TakingKeeps(d.gap, d.expected);
      var left, taken := TakeFrom(d.gap, d.expected);
      var t := d.(gap := left);
      if taken.None? {
        return t;
      }
      var next := CheckedAdd(d.expected, |taken.value.bytes|);
      if next.None? {
        return t;
      }
      d := Shown(t, taken.value.bytes);
      n := n - 1;
    }
  }

  /** Show what the gap was holding, for as long as it follows. */
  method DrainAll(f: Flow) returns (d: Flow)
    requires f.gap.Valid()
    ensures d == Drained(f) && d.gap.Valid()
  {
    ghost var n := DrainedDrains(f);
    d := DrainTo(f, Drained(f), n);
  }

  /** Show a chunk at the position and what then follows, and move the window once it is passed. */
  method Place(r: Reader, bytes: Bytes) returns (p: Reader)
    requires r.flow.gap.Valid()
    ensures p == Placed(r, bytes) && p.flow.gap.Valid() && p.repaints == r.repaints
  {
    var d := DrainAll(Shown(r.flow, bytes));
    p := r.(flow := d, window := if d.expected >= r.window then Window(d.expected) else r.window);
  }

  class Reorder {
    var state: Gap

    constructor ()
      ensures state == Closed() && state.Valid()
    {
      state := Closed();
    }

    /** Hold a chunk that starts past the position; a second copy of one offset changes nothing. */
    method Hold(c: Chunk, now: nat)
      requires state.Valid()
      modifies this
      ensures state.Valid() && state == old(state).Holding(c, now)
    {
      HoldingKeeps(state, c, now);
      var found := IsHeld(state.held, c.off);
      if !found {
        var sorted := SortIn(state.held, c);
        state := Gap(sorted, state.bytes + |c.bytes|, if state.since.Some? then state.since else Some(now));
      }
    }

    /** Takes out the chunk that starts at the position, dropping what ends by it. */
    method Take(expected: nat) returns (taken: Option<Chunk>)
      requires state.Valid()
      modifies this
      ensures state.Valid() && state == old(state).Taking(expected) && taken == old(state).Taken(expected)
      ensures !Starts(state.held, expected)
    {
      TakingKeeps(state, expected);
      var next;
      next, taken := TakeFrom(state, expected);
      state := next;
    }

    /** With nothing held no gap is judged lost, however late it is. */
    method Clear()
      modifies this
      ensures state == Closed() && state.Valid()
      ensures forall now, deadline :: !state.Lost(now, deadline)
    {
      state := Closed();
    }
  }

  /** The reader's side of the loop: where the stream stands, and what the terminal was given. */
  class Session {
    const reorder: Reorder
    var expected: nat
    var window: nat
    var shown: Bytes
    var repaints: nat

    ghost function View(): Reader
      reads this, reorder
    {
      Reader(Flow(expected, reorder.state, shown), window, repaints)
    }

    constructor (start: nat)
      ensures View() == Started(start) && reorder.state.Valid() && fresh(reorder)
    {
      reorder := new Reorder();
      expected, shown, repaints := start, [], 0;
      window := Window(start);
    }

    /** A chunk that does not belong here yet, or no longer does. */
    method Wait(c: Chunk, now: nat, srtt: Option<nat>)
      requires reorder.state.Valid()
      modifies this, reorder
      ensures reorder.state.Valid() && View() == Waited(old(View()), c, now, srtt)
    {
      if c.off >= expected {
        reorder.Hold(c, now);
      }
      Ping(now, srtt);
    }

    /** A probe ages the gap too: nothing else does once chunks stop arriving. */
    method Ping(now: nat, srtt: Option<nat>)
      requires reorder.state.Valid()
      modifies this, reorder
      ensures reorder.state.Valid() && View() == After(old(View()), Probed(now, srtt))
    {
      if reorder.state.Lost(now, Deadline(srtt)) {
        reorder.Clear();
        repaints := repaints + 1;
      }
    }

    /** A whole screen restates the position: the stream is followed afresh from there. */
    method Screen(nextOff: nat)
      modifies this, reorder
      ensures reorder.state.Valid() && View() == After(old(View()), Painted(nextOff))
    {
      reorder.Clear();
      expected, shown := nextOff, [];
      window := Window(nextOff);
    }

    /** One chunk of output. */
    method Output(c: Chunk, now: nat, srtt: Option<nat>)
      requires reorder.state.Valid()
      modifies this, reorder
      ensures reorder.state.Valid() && View() == After(old(View()), Came(c, now, srtt))
    {
      var next := PlaceOutput(expected, c.off, |c.bytes|);
      if next.None? {
        Wait(c, now, srtt);
        return;
      }
      var p := Place(Reader(Flow(expected, reorder.state, shown), window, repaints), c.bytes);
      reorder.state := p.flow.gap;
      expected, shown, window := p.flow.expected, p.flow.shown, p.window;
    }
  }
}
