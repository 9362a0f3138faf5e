/**
 Output chunks arrive over datagrams in any order, some never and some twice. What
 belongs at the position held is shown; what is ahead of it waits in a bounded
 buffer for the gap to close.
 */
module Reordering {
  import opened Prelude
  import opened Prediction

  const REORDER_PIECES: nat := 32
  const REORDER_BYTES: nat := 262_144
  const CONSUMED_STRIDE: nat := 65_536

  // Nanoseconds.
  const MIN_REORDER_WAIT: nat := 50_000_000
  const MAX_REORDER_WAIT: nat := 1_000_000_000

  /** A chunk, and the cue and echo acknowledgement that travelled with it. */
  datatype Chunk = Chunk(off: nat, bytes: Bytes, cue: Cue, echoAck: Option<nat>)

  function CheckedAdd(a: nat, n: nat): Option<nat> {
    if a + n <= U64_MAX then Some(a + n) else None
  }

  /** Where the stream stands after a chunk that belongs at `expected`. */
  function PlaceOutput(expected: nat, off: nat, len: nat): Option<nat> {
    if off != expected then None else CheckedAdd(expected, len)
  }

  /** Twice the round trip, within bounds; the longest wait while none is measured. */
  function Deadline(srtt: Option<nat>): (d: nat)
    ensures MIN_REORDER_WAIT <= d <= MAX_REORDER_WAIT
  {
    if srtt.None? then MAX_REORDER_WAIT else Min(Max(srtt.value * 2, MIN_REORDER_WAIT), MAX_REORDER_WAIT)
  }

  function Total(held: seq<Chunk>): nat {
    if held == [] then 0 else Total(held[..|held| - 1]) + |held[|held| - 1].bytes|
  }

  predicate Before(a: Chunk, b: Chunk) { a.off < b.off }

  ghost predicate Ascending(held: seq<Chunk>) {
    forall i, j {:trigger Before(held[i], held[j])} :: 0 <= i < j < |held| ==> Before(held[i], held[j])
  }

  predicate Starts(held: seq<Chunk>, off: nat) {
    exists i :: 0 <= i < |held| && held[i].off == off
  }

  /** How many of the held chunks start below `off`. */
  function Rank(held: seq<Chunk>, off: nat): (k: nat)
    ensures k <= |held| && (k > 0 ==> held[k - 1].off < off)
    ensures forall i :: k <= i < |held| ==> held[i].off >= off
  {
    if held == [] || held[|held| - 1].off < off then |held| else Rank(held[..|held| - 1], off)
  }

  /** A chunk in its place among the held ones. */
  function Inserted(held: seq<Chunk>, c: Chunk): seq<Chunk> {
    var k := Rank(held, c.off);
    held[..k] + [c] + held[k..]
  }

  /** Whether any of a chunk is past `expected`; the end saturates at the last offset there is. */
  predicate Reaches(c: Chunk, expected: nat) {
    Min(c.off + |c.bytes|, U64_MAX) > expected
  }

  function Kept(held: seq<Chunk>, expected: nat): seq<Chunk> {
    if held == [] then []
    else
      var last := held[|held| - 1];
      Kept(held[..|held| - 1], expected) + if Reaches(last, expected) then [last] else []
  }

  /** Where `off` is held, or the length when it is not. */
  function Position(held: seq<Chunk>, off: nat): (k: nat)
    ensures k <= |held| && (k < |held| ==> held[k].off == off)
    ensures forall i :: 0 <= i < k ==> held[i].off != off
  {
    PositionFrom(held, off, 0)
  }

  function PositionFrom(held: seq<Chunk>, off: nat, from: nat): (k: nat)
    requires from <= |held|
    ensures from <= k <= |held| && (k < |held| ==> held[k].off == off)
    ensures forall i :: from <= i < k ==> held[i].off != off
    decreases |held| - from
  {
    if from == |held| || held[from].off == off then from else PositionFrom(held, off, from + 1)
  }

  /** The chunks held past a gap, their bytes, and since when there has been one. */
  datatype Gap = Gap(held: seq<Chunk>, bytes: nat, since: Option<nat>) {

    /** Distinct ascending offsets, an exact byte total, and a stamp exactly while something is held. */
    ghost predicate Valid() {
      Ascending(held) && bytes == Total(held) && (since.Some? <==> held != [])
    }

    function Holding(c: Chunk, now: nat): Gap {
      if Starts(held, c.off) then this
      else Gap(Inserted(held, c), bytes + |c.bytes|, if since.Some? then since else Some(now))
    }

    predicate Lost(now: nat, deadline: nat) {
      || |held| >= REORDER_PIECES
      || bytes >= REORDER_BYTES
      || (since.Some? && Max(now - since.value, 0) >= deadline)
    }

    function Left(expected: nat): seq<Chunk> {
      var kept := Kept(held, expected);
      var at := Position(kept, expected);
      if at < |kept| then kept[..at] + kept[at + 1..] else kept
    }

    function Taken(expected: nat): Option<Chunk> {
      var kept := Kept(held, expected);
      var at := Position(kept, expected);
      if at < |kept| then Some(kept[at]) else None
    }

    function Taking(expected: nat): Gap {
      Gap(Left(expected), Total(Left(expected)), if Left(expected) == [] then None else since)
    }
  }

  function Closed(): Gap {
    Gap([], 0, None)
  }

  // ---- The buffer keeps its shape ----

  lemma {:induction false} TotalConcat(a: seq<Chunk>, b: seq<Chunk>)
    ensures Total(a + b) == Total(a) + Total(b)
  {
    if b == [] {
      assert a + b == a;
    } else {
      assert (a + b)[..|a + b| - 1] == a + b[..|b| - 1];
      TotalConcat(a, b[..|b| - 1]);
    }
  }

  lemma InsertedAscending(held: seq<Chunk>, c: Chunk)
    requires Ascending(held) && !Starts(held, c.off)
    ensures Ascending(Inserted(held, c))
  {
    var k := Rank(held, c.off);
    var r := Inserted(held, c);
    forall i, j | 0 <= i < j < |r|
      ensures Before(r[i], r[j])
    {
      if i != k && j != k {
        assert Before(held[if i < k then i else i - 1], held[if j < k then j else j - 1]);
      } else if j == k {
        assert r[i] == held[i] && (i < k - 1 ==> Before(held[i], held[k - 1]));
      } else {
        assert r[j] == held[j - 1];
      }
    }
  }

  /** Sorting one chunk into the buffer loses none and adds only it. */
  lemma InsertedIs(held: seq<Chunk>, c: Chunk)
    ensures Total(Inserted(held, c)) == Total(held) + |c.bytes|
    ensures multiset(Inserted(held, c)) == multiset(held) + multiset{c}
  {
    var k := Rank(held, c.off);
    assert held == held[..k] + held[k..];
    TotalConcat(held[..k], [c]);
    TotalConcat(held[..k] + [c], held[k..]);
    TotalConcat(held[..k], held[k..]);
  }

  lemma HoldingKeeps(g: Gap, c: Chunk, now: nat)
    requires g.Valid()
    ensures g.Holding(c, now).Valid()
  {
    if !Starts(g.held, c.off) {
      InsertedAscending(g.held, c);
      InsertedIs(g.held, c);
    }
  }

  /** Holding adds at most the chunk. */
  lemma HoldingIs(g: Gap, c: Chunk, now: nat, x: Chunk)
    ensures x in g.Holding(c, now).held ==> x in g.held || x == c
  {
    if !Starts(g.held, c.off) {
      InsertedHas(g.held, c, x);
    }
  }

  lemma InsertedHas(held: seq<Chunk>, c: Chunk, x: Chunk)
    ensures x in Inserted(held, c) <==> x in held || x == c
  {
    var k := Rank(held, c.off);
    assert held == held[..k] + held[k..];
  }

  lemma StartsIs(held: seq<Chunk>, off: nat)
    ensures Starts(held, off) <==> exists x :: x in held && x.off == off
  {
    if Starts(held, off) {
      var i :| 0 <= i < |held| && held[i].off == off;
      assert held[i] in held;
    }
  }

  /** After holding, exactly the offsets held before and the chunk's own are held. */
  lemma HoldingStarts(g: Gap, c: Chunk, now: nat, off: nat)
    ensures Starts(g.Holding(c, now).held, off) <==> Starts(g.held, off) || off == c.off
  {
    if !Starts(g.held, c.off) {
      var r := Inserted(g.held, c);
      StartsIs(g.held, off);
      StartsIs(r, off);
      forall x
        ensures x in r <==> x in g.held || x == c
      {
        InsertedHas(g.held, c, x);
      }
    }
  }

  /** What is kept are exactly the held chunks that still reach past the position. */
  lemma {:induction false} KeptIs(held: seq<Chunk>, expected: nat, c: Chunk)
    ensures c in Kept(held, expected) <==> c in held && Reaches(c, expected)
    decreases |held|
  {
    if held != [] {
      KeptIs(held[..|held| - 1], expected, c);
      assert held == held[..|held| - 1] + [held[|held| - 1]];
    }
  }

  lemma {:induction false} KeptAscending(held: seq<Chunk>, expected: nat)
    requires Ascending(held)
    ensures Ascending(Kept(held, expected))
    decreases |held|
  {
    if held != [] {
      var front, last := held[..|held| - 1], held[|held| - 1];
      assert forall i, j :: 0 <= i < j < |front| ==> Before(held[i], held[j]) ==> Before(front[i], front[j]);
      KeptAscending(front, expected);
      var kept := Kept(front, expected);
      forall i | 0 <= i < |kept|
        ensures Before(kept[i], last)
      {
        KeptIs(front, expected, kept[i]);
        var j :| 0 <= j < |front| && front[j] == kept[i];
        assert Before(held[j], held[|held| - 1]);
      }
    }
  }

  lemma LeftAscending(g: Gap, expected: nat)
    requires Ascending(g.held)
    ensures Ascending(g.Left(expected)) && !Starts(g.Left(expected), expected)
  {
    KeptAscending(g.held, expected);
    var kept := Kept(g.held, expected);
    var at := Position(kept, expected);
    var left := g.Left(expected);
    if at < |kept| {
      forall i, j | 0 <= i < j < |left|
        ensures Before(left[i], left[j])
      {
        assert Before(kept[if i < at then i else i + 1], kept[if j < at then j else j + 1]);
      }
      forall i | 0 <= i < |left|
        ensures left[i].off != expected
      {
        assert i >= at ==> Before(kept[at], kept[i + 1]);
      }
    }
  }

  lemma {:induction false} KeptShorter(held: seq<Chunk>, expected: nat)
    ensures |Kept(held, expected)| <= |held|
    decreases |held|
  {
    if held != [] {
      KeptShorter(held[..|held| - 1], expected);
    }
  }

  /** Taking keeps the buffer's shape, and leaves nothing that starts at the position. */
  lemma TakingKeeps(g: Gap, expected: nat)
    requires g.Valid()
    ensures g.Taking(expected).Valid() && !Starts(g.Taking(expected).held, expected)
    ensures |g.Taking(expected).held| <= |g.held|
    ensures g.Taken(expected).Some? ==> |g.Taking(expected).held| < |g.held|
  {
    LeftAscending(g, expected);
    KeptShorter(g.held, expected);
    assert g.held == [] ==> Kept(g.held, expected) == [];
  }

  /** Every held chunk is taken, dropped as behind the position, or still held. */
  lemma TakingIs(g: Gap, expected: nat, c: Chunk)
    requires g.Valid()
    ensures c in g.Taking(expected).held ==> c in g.held && c.off + |c.bytes| > expected
    ensures c in g.held ==> c in g.Taking(expected).held || g.Taken(expected) == Some(c) || !Reaches(c, expected)
    ensures g.Taken(expected).Some? ==>
      g.Taken(expected).value in g.held && g.Taken(expected).value.off == expected && Reaches(g.Taken(expected).value, expected)
    ensures g.Taken(expected) == None ==> !Starts(Kept(g.held, expected), expected)
  {
    KeptIs(g.held, expected, c);
    var kept := Kept(g.held, expected);
    var at := Position(kept, expected);
    if at < |kept| {
      KeptIs(g.held, expected, kept[at]);
      assert kept == kept[..at] + [kept[at]] + kept[at + 1..];
    }
  }

  // ---- The output loop ----

  /** Where the stream stands, the gap past it, and what the terminal was given. */
  datatype Flow = Flow(expected: nat, gap: Gap, shown: Bytes)

  /** The next position to report, and the screens asked for. */
  datatype Reader = Reader(flow: Flow, window: nat, repaints: nat)

  function Shown(f: Flow, bytes: Bytes): Flow {
    f.(expected := f.expected + |bytes|, shown := f.shown + bytes)
  }

  /** The flow once the chunk at its position, if any, is out of the gap. */
  function Taking(f: Flow): Flow {
    f.(gap := f.gap.Taking(f.expected))
  }

  /** A held chunk follows, and its end is an offset there is. */
  predicate Follows(f: Flow) {
    f.gap.Taken(f.expected).Some? && f.expected + |f.gap.Taken(f.expected).value.bytes| <= U64_MAX
  }

  function Followed(f: Flow): Flow
    requires Follows(f)
  {
    Shown(Taking(f), f.gap.Taken(f.expected).value.bytes)
  }

  /** Show every held chunk that now follows. */
  function Drained(f: Flow): Flow
    decreases |f.gap.held|
  {
    if Follows(f) && |Taking(f).gap.held| < |f.gap.held| then Drained(Followed(f)) else Taking(f)
  }

  /** Draining as a walk: `n` chunks are shown, and then none follows. */
  ghost predicate Drains(f: Flow, d: Flow, n: nat)
    decreases n
  {
    if Follows(f) then n > 0 && Drains(Followed(f), d, n - 1) else n == 0 && d == Taking(f)
  }

  /** The position is reported once it passes the window, which then moves on by a stride. */
  function Window(expected: nat): nat {
    match CheckedAdd(expected, CONSUMED_STRIDE) case Some(w) => w case None => expected
  }

  function Reported(r: Reader): Reader {
    if r.flow.expected >= r.window then r.(window := Window(r.flow.expected)) else r
  }

  function GaveUp(r: Reader): Reader {
    r.(flow := r.flow.(gap := Closed()), repaints := r.repaints + 1)
  }

  /** A gap judged lost is given up, for one screen. */
  function Judged(r: Reader, now: nat, srtt: Option<nat>): Reader {
    if r.flow.gap.Lost(now, Deadline(srtt)) then GaveUp(r) else r
  }

  /** A chunk that does not belong at the position: held if it is ahead, and the gap judged either way. */
  function Waited(r: Reader, c: Chunk, now: nat, srtt: Option<nat>): Reader {
    Judged(if c.off >= r.flow.expected then r.(flow := r.flow.(gap := r.flow.gap.Holding(c, now))) else r, now, srtt)
  }

  /** A chunk that belongs at the position: shown, with everything held that then follows. */
  function Placed(r: Reader, bytes: Bytes): Reader {
    Reported(r.(flow := Drained(Shown(r.flow, bytes))))
  }

  function Arrived(r: Reader, c: Chunk, now: nat, srtt: Option<nat>): Reader {
    if PlaceOutput(r.flow.expected, c.off, |c.bytes|).Some? then Placed(r, c.bytes) else Waited(r, c, now, srtt)
  }

  function Started(start: nat): Reader {
    Reader(Flow(start, Closed(), []), Window(start), 0)
  }

  /** A chunk that came, a probe, or a whole screen that restates the position. */
  datatype Event =
    | Came(chunk: Chunk, now: nat, srtt: Option<nat>)
    | Probed(now: nat, srtt: Option<nat>)
    | Painted(nextOff: nat)

  function After(r: Reader, e: Event): Reader {
    match e
    case Came(chunk, now, srtt) => Arrived(r, chunk, now, srtt)
    case Probed(now, srtt) => Judged(r, now, srtt)
    case Painted(nextOff) => Started(nextOff).(repaints := r.repaints)
  }

  function Run(start: nat, events: seq<Event>): Reader {
    if events == [] then Started(start) else After(Run(start, events[..|events| - 1]), events[|events| - 1])
  }

  /** Where the terminal's bytes begin: at the last screen, or where the reader started. */
  function Origin(start: nat, events: seq<Event>): nat {
    if events == [] then start
    else if events[|events| - 1].Painted? then events[|events| - 1].nextOff
    else Origin(start, events[..|events| - 1])
  }

  lemma {:induction false} DrainedDrains(f: Flow) returns (n: nat)
    requires f.gap.Valid()
    ensures Drains(f, Drained(f), n)
    decreases |f.gap.held|
  {
    TakingKeeps(f.gap, f.expected);
    if Follows(f) {
      n := DrainedDrains(Followed(f));
      n := n + 1;
    } else {
      n := 0;
    }
  }

  // ---- The terminal is given exactly the stream ----

  /** A chunk cut from the stream. */
  predicate Genuine(stream: Bytes, c: Chunk) {
    c.off + |c.bytes| <= |stream| && stream[c.off..c.off + |c.bytes|] == c.bytes
  }

  ghost predicate AllGenuine(stream: Bytes, held: seq<Chunk>) {
    forall c {:trigger Genuine(stream, c)} :: c in held ==> Genuine(stream, c)
  }

  /** The terminal was given exactly the stream, from where the reader started to where it stands. */
  ghost predicate Exact(stream: Bytes, start: nat, f: Flow) {
    && start <= f.expected <= |stream| && f.shown == stream[start..f.expected]
    && f.gap.Valid() && AllGenuine(stream, f.gap.held)
  }

  lemma ShownExact(stream: Bytes, start: nat, f: Flow, c: Chunk)
    requires Exact(stream, start, f) && Genuine(stream, c) && c.off == f.expected
    ensures Exact(stream, start, Shown(f, c.bytes))
  {
    assert stream[start..f.expected] + stream[f.expected..f.expected + |c.bytes|] == stream[start..f.expected + |c.bytes|];
  }

  lemma TakingGenuine(stream: Bytes, g: Gap, expected: nat)
    requires g.Valid() && AllGenuine(stream, g.held)
    ensures AllGenuine(stream, g.Taking(expected).held)
    ensures g.Taken(expected).Some? ==> Genuine(stream, g.Taken(expected).value) && g.Taken(expected).value.off == expected
  {
    forall c | c in g.Taking(expected).held
      ensures Genuine(stream, c)
    {
      TakingIs(g, expected, c);
    }
    if g.Taken(expected).Some? {
      TakingIs(g, expected, g.Taken(expected).value);
    }
  }

  lemma TakingExact(stream: Bytes, start: nat, f: Flow)
    requires Exact(stream, start, f)
    ensures Exact(stream, start, Taking(f)) && !Starts(Taking(f).gap.held, f.expected)
  {
    TakingKeeps(f.gap, f.expected);
    TakingGenuine(stream, f.gap, f.expected);
  }

  lemma FollowedExact(stream: Bytes, start: nat, f: Flow)
    requires Exact(stream, start, f) && Follows(f)
    ensures Exact(stream, start, Followed(f))
  {
    TakingExact(stream, start, f);
    TakingGenuine(stream, f.gap, f.expected);
    ShownExact(stream, start, Taking(f), f.gap.Taken(f.expected).value);
  }

  lemma {:induction false} DrainsExact(stream: Bytes, start: nat, f: Flow, d: Flow, n: nat)
    requires Exact(stream, start, f) && Drains(f, d, n)
    ensures Exact(stream, start, d) && !Starts(d.gap.held, d.expected)
    decreases n
  {
    if Follows(f) {
      FollowedExact(stream, start, f);
      DrainsExact(stream, start, Followed(f), d, n - 1);
    } else {
      TakingExact(stream, start, f);
    }
  }

  lemma HoldingGenuine(stream: Bytes, g: Gap, c: Chunk, now: nat)
    requires AllGenuine(stream, g.held) && Genuine(stream, c)
    ensures AllGenuine(stream, g.Holding(c, now).held)
  {
    forall x | x in g.Holding(c, now).held
      ensures Genuine(stream, x)
    {
      HoldingIs(g, c, now, x);
    }
  }

  lemma HoldingExact(stream: Bytes, start: nat, f: Flow, c: Chunk, now: nat)
    requires Exact(stream, start, f) && Genuine(stream, c)
    ensures Exact(stream, start, f.(gap := f.gap.Holding(c, now)))
  {
    HoldingKeeps(f.gap, c, now);
    HoldingGenuine(stream, f.gap, c, now);
  }

  lemma JudgedExact(stream: Bytes, start: nat, r: Reader, now: nat, srtt: Option<nat>)
    requires Exact(stream, start, r.flow)
    ensures Exact(stream, start, Judged(r, now, srtt).flow)
  {
  }

  lemma WaitedExact(stream: Bytes, start: nat, r: Reader, c: Chunk, now: nat, srtt: Option<nat>)
    requires Exact(stream, start, r.flow) && Genuine(stream, c)
    ensures Exact(stream, start, Waited(r, c, now, srtt).flow)
  {
    HoldingExact(stream, start, r.flow, c, now);
    JudgedExact(stream, start, r, now, srtt);
    JudgedExact(stream, start, r.(flow := r.flow.(gap := r.flow.gap.Holding(c, now))), now, srtt);
  }

  lemma PlacedExact(stream: Bytes, start: nat, r: Reader, c: Chunk)
    requires Exact(stream, start, r.flow) && Genuine(stream, c) && c.off == r.flow.expected
    ensures Exact(stream, start, Placed(r, c.bytes).flow)
  {
    var f := Shown(r.flow, c.bytes);
    ShownExact(stream, start, r.flow, c);
    var n := DrainedDrains(f);
    DrainsExact(stream, start, f, Drained(f), n);
  }

  /** One event, whatever chunk of the stream it brings. */
  lemma AfterExact(stream: Bytes, start: nat, r: Reader, e: Event)
    requires Exact(stream, start, r.flow)
    requires e.Came? ==> Genuine(stream, e.chunk)
    requires e.Painted? ==> e.nextOff <= |stream|
    ensures Exact(stream, if e.Painted? then e.nextOff else start, After(r, e).flow)
  {
    match e
    case Came(chunk, now, srtt) =>
      if PlaceOutput(r.flow.expected, chunk.off, |chunk.bytes|).Some? {
        PlacedExact(stream, start, r, chunk);
      } else {
        WaitedExact(stream, start, r, chunk, now, srtt);
      }
    case Probed(now, srtt) => JudgedExact(stream, start, r, now, srtt);
    case Painted(nextOff) => StartedExact(stream, nextOff);
  }

  lemma StartedExact(stream: Bytes, start: nat)
    requires start <= |stream|
    ensures Exact(stream, start, Started(start).flow)
  {
    assert stream[start..start] == [];
  }

  /** What comes was cut from the stream, and a screen stands somewhere in it. */
  ghost predicate FromStream(stream: Bytes, events: seq<Event>) {
    forall i :: 0 <= i < |events| ==>
      (events[i].Came? ==> Genuine(stream, events[i].chunk)) && (events[i].Painted? ==> events[i].nextOff <= |stream|)
  }

  /**
   However a stream is cut into chunks, and whichever of them come, however often
   and in whatever order, between probes and screens: the terminal has been given
   exactly the stream from the last screen, or the start, to where the reader stands.
   */
  lemma {:induction false} ShownIsStream(stream: Bytes, start: nat, events: seq<Event>)
    requires start <= |stream| && FromStream(stream, events)
    ensures Exact(stream, Origin(start, events), Run(start, events).flow)
  {
    if events == [] {
      StartedExact(stream, start);
    } else {
      var front := events[..|events| - 1];
      ShownIsStream(stream, start, front);
      AfterExact(stream, Origin(start, front), Run(start, front), events[|events| - 1]);
    }
  }

  // ---- Nothing that arrived in time is lost ----

  predicate Under(a: nat, b: nat) { a < b }

  /** Where a stream is cut: from the starting position to its end. */
  ghost predicate Cuts(stream: Bytes, start: nat, cuts: seq<nat>) {
    && |cuts| > 0 && cuts[0] == start <= |stream| && cuts[|cuts| - 1] == |stream| <= U64_MAX
    && forall i, j {:trigger Under(cuts[i], cuts[j])} :: 0 <= i < j < |cuts| ==> Under(cuts[i], cuts[j])
  }

  ghost predicate Piece(stream: Bytes, cuts: seq<nat>, c: Chunk, k: nat) {
    k + 1 < |cuts| && c.off == cuts[k] && c.off + |c.bytes| == cuts[k + 1] && Genuine(stream, c)
  }

  ghost predicate IsPiece(stream: Bytes, cuts: seq<nat>, c: Chunk) {
    exists k: nat :: Piece(stream, cuts, c, k)
  }

  ghost predicate AllPieces(stream: Bytes, cuts: seq<nat>, held: seq<Chunk>) {
    forall c {:trigger IsPiece(stream, cuts, c)} :: c in held ==> IsPiece(stream, cuts, c)
  }

  /** A piece that arrived is shown, or held until what it follows is. */
  ghost predicate Accounted(cuts: seq<nat>, k: nat, f: Flow) {
    k + 1 < |cuts| ==> cuts[k + 1] <= f.expected || Starts(f.gap.held, cuts[k])
  }

  ghost predicate AllAccounted(cuts: seq<nat>, seen: seq<nat>, f: Flow) {
    forall k {:trigger Accounted(cuts, k, f)} :: k in seen ==> Accounted(cuts, k, f)
  }

  /** The flow stands at a cut and holds only pieces. */
  ghost predicate AtCut(stream: Bytes, start: nat, cuts: seq<nat>, f: Flow) {
    Exact(stream, start, f) && f.expected in cuts && AllPieces(stream, cuts, f.gap.held)
  }

  lemma SamePiece(stream: Bytes, start: nat, cuts: seq<nat>, c: Chunk, k: nat)
    requires Cuts(stream, start, cuts) && k + 1 < |cuts| && c.off == cuts[k]
    requires IsPiece(stream, cuts, c)
    ensures Piece(stream, cuts, c, k)
  {
    var j: nat :| Piece(stream, cuts, c, j);
    assert j < k ==> Under(cuts[j], cuts[k]);
    assert k < j ==> Under(cuts[k], cuts[j]);
  }

  lemma TakingPieces(stream: Bytes, cuts: seq<nat>, g: Gap, expected: nat)
    requires g.Valid() && AllPieces(stream, cuts, g.held)
    ensures AllPieces(stream, cuts, g.Taking(expected).held)
    ensures g.Taken(expected).Some? ==> IsPiece(stream, cuts, g.Taken(expected).value)
  {
    forall c | c in g.Taking(expected).held
      ensures IsPiece(stream, cuts, c)
    {
      TakingIs(g, expected, c);
    }
    if g.Taken(expected).Some? {
      TakingIs(g, expected, g.Taken(expected).value);
    }
  }

  lemma TakingAtCut(stream: Bytes, start: nat, cuts: seq<nat>, f: Flow)
    requires AtCut(stream, start, cuts, f)
    ensures AtCut(stream, start, cuts, Taking(f)) && !Starts(Taking(f).gap.held, f.expected)
  {
    TakingExact(stream, start, f);
    TakingPieces(stream, cuts, f.gap, f.expected);
  }

  lemma FollowedAtCut(stream: Bytes, start: nat, cuts: seq<nat>, f: Flow)
    requires AtCut(stream, start, cuts, f) && Follows(f)
    ensures AtCut(stream, start, cuts, Followed(f))
  {
    FollowedExact(stream, start, f);
    TakingPieces(stream, cuts, f.gap, f.expected);
    TakingGenuine(stream, f.gap, f.expected);
    var c := f.gap.Taken(f.expected).value;
    var j: nat :| Piece(stream, cuts, c, j);
    assert f.expected + |c.bytes| == cuts[j + 1];
  }

  /** Taking drops a piece only once it has been shown, or to show it now. */
  lemma TakingAccounts(stream: Bytes, start: nat, cuts: seq<nat>, k: nat, f: Flow)
    requires Cuts(stream, start, cuts) && AtCut(stream, start, cuts, f) && Accounted(cuts, k, f)
    ensures Accounted(cuts, k, Taking(f)) || (f.gap.Taken(f.expected).Some? && k + 1 < |cuts|
      && cuts[k + 1] == f.expected + |f.gap.Taken(f.expected).value.bytes|)
  {
    if k + 1 < |cuts| && cuts[k + 1] > f.expected {
      var i :| 0 <= i < |f.gap.held| && f.gap.held[i].off == cuts[k];
      var c := f.gap.held[i];
      assert IsPiece(stream, cuts, c);
      SamePiece(stream, start, cuts, c, k);
      TakingIs(f.gap, f.expected, c);
      assert Reaches(c, f.expected);
    }
  }

  /** What follows fits: every piece ends within the stream. */
  lemma PieceFollows(stream: Bytes, start: nat, f: Flow)
    requires Exact(stream, start, f) && |stream| <= U64_MAX
    ensures Follows(f) <==> f.gap.Taken(f.expected).Some?
  {
    TakingGenuine(stream, f.gap, f.expected);
  }

  lemma FollowedAccounts(stream: Bytes, start: nat, cuts: seq<nat>, seen: seq<nat>, f: Flow)
    requires Cuts(stream, start, cuts) && AtCut(stream, start, cuts, f) && AllAccounted(cuts, seen, f) && Follows(f)
    ensures AllAccounted(cuts, seen, Followed(f))
  {
    forall k | k in seen
      ensures Accounted(cuts, k, Followed(f))
    {
      assert Accounted(cuts, k, f);
      TakingAccounts(stream, start, cuts, k, f);
    }
  }

  lemma IdleAccounts(stream: Bytes, start: nat, cuts: seq<nat>, seen: seq<nat>, f: Flow)
    requires Cuts(stream, start, cuts) && AtCut(stream, start, cuts, f) && AllAccounted(cuts, seen, f) && !Follows(f)
    ensures AllAccounted(cuts, seen, Taking(f))
  {
    PieceFollows(stream, start, f);
    forall k | k in seen
      ensures Accounted(cuts, k, Taking(f))
    {
      assert Accounted(cuts, k, f);
      TakingAccounts(stream, start, cuts, k, f);
    }
  }

  /** Everything that arrived is accounted for, and nothing held could be shown already. */
  ghost predicate Caught(stream: Bytes, start: nat, cuts: seq<nat>, seen: seq<nat>, f: Flow) {
    AtCut(stream, start, cuts, f) && AllAccounted(cuts, seen, f) && !Starts(f.gap.held, f.expected)
  }

  lemma {:induction false} DrainsCaught(stream: Bytes, start: nat, cuts: seq<nat>, seen: seq<nat>, f: Flow, d: Flow, n: nat)
    requires Cuts(stream, start, cuts) && AtCut(stream, start, cuts, f) && AllAccounted(cuts, seen, f)
    requires Drains(f, d, n)
    ensures Caught(stream, start, cuts, seen, d)
    decreases n
  {
    if Follows(f) {
      FollowedAtCut(stream, start, cuts, f);
      FollowedAccounts(stream, start, cuts, seen, f);
      DrainsCaught(stream, start, cuts, seen, Followed(f), d, n - 1);
    } else {
      TakingAtCut(stream, start, cuts, f);
      IdleAccounts(stream, start, cuts, seen, f);
    }
  }

  lemma ShownAccounts(stream: Bytes, cuts: seq<nat>, seen: seq<nat>, f: Flow, c: Chunk, k: nat)
    requires AllAccounted(cuts, seen, f) && Piece(stream, cuts, c, k) && c.off == f.expected
    ensures AllAccounted(cuts, seen + [k], Shown(f, c.bytes))
  {
    forall j | j in seen + [k]
      ensures Accounted(cuts, j, Shown(f, c.bytes))
    {
      assert j in seen ==> Accounted(cuts, j, f);
    }
  }

  lemma PlacedCaught(stream: Bytes, start: nat, cuts: seq<nat>, seen: seq<nat>, r: Reader, c: Chunk, k: nat)
    requires Cuts(stream, start, cuts) && Caught(stream, start, cuts, seen, r.flow)
    requires Piece(stream, cuts, c, k) && c.off == r.flow.expected
    ensures Caught(stream, start, cuts, seen + [k], Placed(r, c.bytes).flow)
  {
    var f := Shown(r.flow, c.bytes);
    ShownExact(stream, start, r.flow, c);
    assert f.expected == cuts[k + 1];
    ShownAccounts(stream, cuts, seen, r.flow, c, k);
    var n := DrainedDrains(f);
    DrainsCaught(stream, start, cuts, seen + [k], f, Drained(f), n);
  }

  lemma HoldingPieces(stream: Bytes, cuts: seq<nat>, g: Gap, c: Chunk, now: nat, k: nat)
    requires AllPieces(stream, cuts, g.held) && Piece(stream, cuts, c, k)
    ensures AllPieces(stream, cuts, g.Holding(c, now).held)
  {
    forall x | x in g.Holding(c, now).held
      ensures IsPiece(stream, cuts, x)
    {
      HoldingIs(g, c, now, x);
    }
  }

  /** A piece ahead of the position is held for it. */
  lemma HoldingCaught(stream: Bytes, start: nat, cuts: seq<nat>, seen: seq<nat>, f: Flow, c: Chunk, now: nat, k: nat)
    requires Caught(stream, start, cuts, seen, f) && Piece(stream, cuts, c, k) && c.off > f.expected
    ensures Caught(stream, start, cuts, seen + [k], f.(gap := f.gap.Holding(c, now)))
  {
    var h := f.(gap := f.gap.Holding(c, now));
    HoldingExact(stream, start, f, c, now);
    HoldingPieces(stream, cuts, f.gap, c, now, k);
    HoldingStarts(f.gap, c, now, f.expected);
    forall j | j in seen + [k]
      ensures Accounted(cuts, j, h)
    {
      if j + 1 < |cuts| {
        HoldingStarts(f.gap, c, now, cuts[j]);
        assert j in seen ==> Accounted(cuts, j, f);
      }
    }
  }

  /** A piece behind the position was shown before. */
  lemma BehindCaught(stream: Bytes, start: nat, cuts: seq<nat>, seen: seq<nat>, f: Flow, c: Chunk, k: nat)
    requires Cuts(stream, start, cuts) && Caught(stream, start, cuts, seen, f)
    requires Piece(stream, cuts, c, k) && c.off < f.expected
    ensures Caught(stream, start, cuts, seen + [k], f)
  {
    var e :| 0 <= e < |cuts| && cuts[e] == f.expected;
    assert e < k ==> Under(cuts[e], cuts[k]);
    assert k + 1 < e ==> Under(cuts[k + 1], cuts[e]);
    forall j | j in seen + [k]
      ensures Accounted(cuts, j, f)
    {
      assert j in seen ==> Accounted(cuts, j, f);
    }
  }

  lemma CameCaught(stream: Bytes, start: nat, cuts: seq<nat>, seen: seq<nat>, r: Reader, e: Event, k: nat)
    requires Cuts(stream, start, cuts) && Caught(stream, start, cuts, seen, r.flow)
    requires e.Came? && Piece(stream, cuts, e.chunk, k) && After(r, e).repaints == r.repaints
    ensures Caught(stream, start, cuts, seen + [k], After(r, e).flow)
  {
    if e.chunk.off == r.flow.expected {
      PlacedCaught(stream, start, cuts, seen, r, e.chunk, k);
    } else if e.chunk.off < r.flow.expected {
      BehindCaught(stream, start, cuts, seen, r.flow, e.chunk, k);
    } else {
      HoldingCaught(stream, start, cuts, seen, r.flow, e.chunk, e.now, k);
    }
  }

  /** Which piece each chunk that comes is; no screen interrupts. */
  ghost predicate Delivers(stream: Bytes, cuts: seq<nat>, events: seq<Event>, which: seq<nat>) {
    && |which| == |events|
    && forall i :: 0 <= i < |events| ==> !events[i].Painted? && (events[i].Came? ==> Piece(stream, cuts, events[i].chunk, which[i]))
  }

  /** The pieces that came, in the order they did. */
  function Pieces(events: seq<Event>, which: seq<nat>): seq<nat>
    requires |which| == |events|
  {
    if events == [] then []
    else
      var n := |events| - 1;
      Pieces(events[..n], which[..n]) + if events[n].Came? then [which[n]] else []
  }

  lemma RepaintsRise(r: Reader, e: Event)
    ensures After(r, e).repaints >= r.repaints
  {
  }

  lemma StartedCaught(stream: Bytes, start: nat, cuts: seq<nat>)
    requires Cuts(stream, start, cuts)
    ensures Caught(stream, start, cuts, [], Started(start).flow)
  {
    StartedExact(stream, start);
    assert cuts[0] in cuts;
  }

  lemma {:induction false} RunCaught(stream: Bytes, start: nat, cuts: seq<nat>, events: seq<Event>, which: seq<nat>)
    requires Cuts(stream, start, cuts) && Delivers(stream, cuts, events, which)
    requires Run(start, events).repaints == 0
    ensures Caught(stream, start, cuts, Pieces(events, which), Run(start, events).flow)
  {
    if events == [] {
      StartedCaught(stream, start, cuts);
    } else {
      var n := |events| - 1;
      var r := Run(start, events[..n]);
      RepaintsRise(r, events[n]);
      RunCaught(stream, start, cuts, events[..n], which[..n]);
      if events[n].Came? {
        CameCaught(stream, start, cuts, Pieces(events[..n], which[..n]), r, events[n], which[n]);
      }
    }
  }

  ghost predicate PieceCame(events: seq<Event>, which: seq<nat>, k: nat)
    requires |which| == |events|
  {
    exists i :: 0 <= i < |events| && events[i].Came? && which[i] == k
  }

  lemma {:induction false} CameInPieces(events: seq<Event>, which: seq<nat>, i: nat)
    requires |which| == |events| && i < |events| && events[i].Came?
    ensures which[i] in Pieces(events, which)
  {
    if i < |events| - 1 {
      CameInPieces(events[..|events| - 1], which[..|events| - 1], i);
    }
  }

  lemma AllCame(n: nat, events: seq<Event>, which: seq<nat>)
    requires |which| == |events| && forall k: nat :: k < n ==> PieceCame(events, which, k)
    ensures forall k: nat :: k < n ==> k in Pieces(events, which)
  {
    forall k: nat | k < n
      ensures k in Pieces(events, which)
    {
      assert PieceCame(events, which, k);
      var i :| 0 <= i < |events| && events[i].Came? && which[i] == k;
      CameInPieces(events, which, i);
    }
  }

  /** Standing where everything seen is accounted for and nothing waits, the position is past every piece seen. */
  lemma CaughtUp(stream: Bytes, start: nat, cuts: seq<nat>, seen: seq<nat>, f: Flow)
    requires Cuts(stream, start, cuts) && Caught(stream, start, cuts, seen, f)
    requires forall k: nat :: k < |cuts| - 1 ==> k in seen
    ensures f.shown == stream[start..]
  {
    var e :| 0 <= e < |cuts| && cuts[e] == f.expected;
    assert e + 1 < |cuts| ==> Under(cuts[e], cuts[e + 1]);
    assert e + 1 < |cuts| ==> Accounted(cuts, e, f);
  }

  /**
   Cut the stream anywhere, deliver every piece at least once in any order, and
   unless a gap was given up on the terminal has been given all of it: nothing
   that arrived was dropped, and nothing is left waiting.
   */
  lemma EverythingShown(stream: Bytes, start: nat, cuts: seq<nat>, events: seq<Event>, which: seq<nat>)
    requires Cuts(stream, start, cuts) && Delivers(stream, cuts, events, which)
    requires forall k: nat :: k < |cuts| - 1 ==> PieceCame(events, which, k)
    requires Run(start, events).repaints == 0
    ensures Run(start, events).flow.shown == stream[start..]
  {
    RunCaught(stream, start, cuts, events, which);
    AllCame(|cuts| - 1, events, which);
    CaughtUp(stream, start, cuts, Pieces(events, which), Run(start, events).flow);
  }
}
