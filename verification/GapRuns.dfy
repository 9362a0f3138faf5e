/** How long the output loop waits for a gap, how much it holds meanwhile, and how far ahead it lets the server run. */
module GapRuns {
  import opened Prelude
  import opened Prediction
  import opened Reordering

  /** Twice the round trip between 50 ms and a second, or a second while none is measured. */
  function Patience(srtt: Option<nat>): nat {
    if srtt.None? || srtt.value >= 500_000_000 then 1_000_000_000
    else if srtt.value <= 25_000_000 then 50_000_000
    else 2 * srtt.value
  }

  /** A probe gives the gap up, for one screen, exactly when it is too wide, too full or too old; then nothing is held. */
  lemma ProbeGivesUpIff(r: Reader, now: nat, srtt: Option<nat>)
    requires r.flow.gap.Valid()
    ensures
      var gap, t := r.flow.gap, After(r, Probed(now, srtt));
      if |gap.held| >= 32 || Total(gap.held) >= 262_144 || (gap.held != [] && now >= gap.since.value + Patience(srtt))
      then t.repaints == r.repaints + 1 && t.flow == r.flow.(gap := Gap([], 0, None)) else t == r
  {
  }

  // ---- a gap that does not close is given up on ----

  function RunFrom(r: Reader, events: seq<Event>): Reader
    decreases |events|
  {
    if events == [] then r else RunFrom(After(r, events[0]), events[1..])
  }

  /** Nothing comes that belongs at the position, and no screen moves it. */
  predicate Stuck(expected: nat, events: seq<Event>) {
    forall i :: 0 <= i < |events| ==> !events[i].Painted? && (events[i].Came? ==> events[i].chunk.off != expected)
  }

  /** Something is held, and has been since a given instant. */
  ghost predicate HeldSince(r: Reader, expected: nat, since: nat) {
    r.flow.gap.Valid() && r.flow.gap.held != [] && r.flow.gap.since == Some(since) && r.flow.expected == expected
  }

  lemma StuckStep(r: Reader, e: Event, expected: nat, since: nat)
    requires HeldSince(r, expected, since) && !e.Painted? && (e.Came? ==> e.chunk.off != expected)
    ensures After(r, e).repaints == r.repaints ==> HeldSince(After(r, e), expected, since)
    ensures After(r, e).repaints >= r.repaints
  {
    if e.Came? {
      HoldingKeeps(r.flow.gap, e.chunk, e.now);
    }
  }

  lemma {:induction false} RepaintsOnlyRise(r: Reader, events: seq<Event>)
    ensures RunFrom(r, events).repaints >= r.repaints
    decreases |events|
  {
    if events != [] {
      RepaintsRise(r, events[0]);
      RepaintsOnlyRise(After(r, events[0]), events[1..]);
    }
  }

  lemma {:induction false} StuckStays(r: Reader, events: seq<Event>, expected: nat, since: nat)
    requires HeldSince(r, expected, since) && Stuck(expected, events)
    ensures RunFrom(r, events).repaints == r.repaints ==> HeldSince(RunFrom(r, events), expected, since)
    decreases |events|
  {
    if events != [] {
      var next := After(r, events[0]);
      StuckStep(r, events[0], expected, since);
      RepaintsOnlyRise(next, events[1..]);
      if next.repaints == r.repaints {
        StuckStays(next, events[1..], expected, since);
      }
    }
  }

  /**
   A gap that does not close is given up on: whatever else comes meanwhile, by the
   first probe a second after something was first held a screen has been asked for.
   */
  lemma StuckGapGivenUp(r: Reader, events: seq<Event>, expected: nat, since: nat, now: nat, srtt: Option<nat>)
    requires HeldSince(r, expected, since) && Stuck(expected, events) && now >= since + 1_000_000_000
    ensures After(RunFrom(r, events), Probed(now, srtt)).repaints > r.repaints
  {
    var t := RunFrom(r, events);
    StuckStays(r, events, expected, since);
    RepaintsOnlyRise(r, events);
    RepaintsRise(t, Probed(now, srtt));
    if t.repaints == r.repaints {
      ProbeGivesUpIff(t, now, srtt);
    }
  }

  // ---- the buffer and the window are bounded ----

  lemma {:induction false} KeptTotal(held: seq<Chunk>, expected: nat)
    ensures Total(Kept(held, expected)) <= Total(held)
    decreases |held|
  {
    if held != [] {
      var front, last := held[..|held| - 1], held[|held| - 1];
      KeptTotal(front, expected);
      TotalConcat(Kept(front, expected), if Reaches(last, expected) then [last] else []);
      TotalConcat(front, [last]);
      assert Total([last]) == |last.bytes| by {
        assert [last][..0] == [];
      }
    }
  }

  lemma LeftTotal(g: Gap, expected: nat)
    ensures Total(g.Left(expected)) <= Total(g.held)
  {
    KeptTotal(g.held, expected);
    var kept := Kept(g.held, expected);
    var at := Position(kept, expected);
    if at < |kept| {
      assert kept == kept[..at] + ([kept[at]] + kept[at + 1..]);
      TotalConcat(kept[..at], [kept[at]] + kept[at + 1..]);
      TotalConcat([kept[at]], kept[at + 1..]);
      TotalConcat(kept[..at], kept[at + 1..]);
    }
  }

  /**
   Within what the buffer may hold, at an offset there is, and short of the window by
   no more than a stride unless offsets run out.
   */
  ghost predicate Within(r: Reader) {
    && r.flow.gap.Valid() && |r.flow.gap.held| < 32 && r.flow.gap.bytes < 262_144
    && r.flow.expected <= U64_MAX
    && (r.flow.expected < r.window <= r.flow.expected + 65_536 || r.flow.expected + 65_536 > U64_MAX)
  }

  lemma {:induction false} DrainsWithin(f: Flow, d: Flow, n: nat)
    requires f.gap.Valid() && |f.gap.held| < 32 && f.gap.bytes < 262_144 && f.expected <= U64_MAX && Drains(f, d, n)
    ensures d.gap.Valid() && |d.gap.held| < 32 && d.gap.bytes < 262_144 && f.expected <= d.expected <= U64_MAX
    decreases n
  {
    TakingKeeps(f.gap, f.expected);
    LeftTotal(f.gap, f.expected);
    if Follows(f) {
      DrainsWithin(Followed(f), d, n - 1);
    }
  }

  lemma PlacedWithin(r: Reader, bytes: Bytes)
    requires Within(r) && PlaceOutput(r.flow.expected, r.flow.expected, |bytes|).Some?
    ensures Within(Placed(r, bytes))
  {
    var f := Shown(r.flow, bytes);
    var n := DrainedDrains(f);
    DrainsWithin(f, Drained(f), n);
  }

  lemma WaitedWithin(r: Reader, c: Chunk, now: nat, srtt: Option<nat>)
    requires Within(r)
    ensures Within(Waited(r, c, now, srtt))
  {
    HoldingKeeps(r.flow.gap, c, now);
  }

  /**
   Over every run: fewer than 32 chunks and 256 KiB are ever held, and the position is
   never at the window it last reported for, nor more than a stride behind it.
   */
  lemma {:induction false} AlwaysWithin(start: nat, events: seq<Event>)
    requires start <= U64_MAX && forall i :: 0 <= i < |events| && events[i].Painted? ==> events[i].nextOff <= U64_MAX
    ensures Within(Run(start, events))
  {
    if events != [] {
      AlwaysWithin(start, events[..|events| - 1]);
      var r, e := Run(start, events[..|events| - 1]), events[|events| - 1];
      match e
      case Came(chunk, now, srtt) =>
        if PlaceOutput(r.flow.expected, chunk.off, |chunk.bytes|).Some? {
          PlacedWithin(r, chunk.bytes);
        } else {
          WaitedWithin(r, chunk, now, srtt);
        }
      case _ =>
    }
  }
}
