/**
 The congestion window and the pacer as values and as a class, and what any run of
 calls keeps of them. The rules are those of RFC 9002 section 7 and RFC 9406.
 */
module CongestionControl {
  import opened Prelude
  import opened Loss

  const USIZE_MAX: nat := 0xffff_ffff_ffff_ffff
  const OVERSHOOT_SAMPLES: nat := 3
  const OVERSHOOT_FLOOR: nat := 4_000      // microseconds
  const OVERSHOOT_CEILING: nat := 16_000   // microseconds

  // ---- the pacer ----

  /** What the bucket gains over some microseconds: five quarters of the window per round trip, or a flight per 100 ms. */
  function Gained(elapsed: nat, window: nat, srtt: Option<nat>): nat {
    match srtt
    case Some(s) => MulDiv(elapsed * 5, window, 4 * Max(s, 1))
    case None => MulDiv(elapsed, window, 100_000)
  }

  function MulDiv(a: nat, b: nat, c: nat): nat
    requires c > 0
  {
    var product: nat := a * b;
    product / c
  }

  /** A token bucket: what it held, and when; one never drawn from counts as full. */
  datatype Pacer = Pacer(tokens: nat, refilled: Option<Instant>) {
    function Available(now: Instant, window: nat, burst: nat, srtt: Option<nat>): (r: nat)
      ensures r <= burst
    {
      if refilled.None? then burst
      else Min(tokens + Gained(Micros(Since(now, refilled.value)), window, srtt), burst)
    }

    function Spent(bytes: nat, now: Instant, window: nat, burst: nat, srtt: Option<nat>): Pacer {
      Pacer(Max(Available(now, window, burst, srtt) - bytes, 0), Some(now))
    }

    /** When the bucket will hold enough, for a size it can hold. */
    function Ready(now: Instant, bytes: nat, window: nat, burst: nat, srtt: Option<nat>): (at: Instant)
      ensures at >= now
    {
      var short := Max(bytes - Available(now, window, burst, srtt), 0);
      if short == 0 then now else
      var w := Max(window, 1);
      now + 1000 * match srtt
                   case Some(s) => CeilDiv(s * 4 * short, 5 * w)
                   case None => CeilDiv(100_000 * short, w)
    }
  }

  function CeilDiv(a: nat, b: nat): nat
    requires b > 0
  {
    (a + b - 1) / b
  }

  lemma DivAdd(x: nat, y: nat, q: nat)
    requires q > 0
    ensures x / q + y / q <= (x + y) / q
  {
    var sum := x / q + y / q;
    assert q * sum == q * (x / q) + q * (y / q) <= x + y;
    DivAtLeast(sum, x + y, q);
  }

  lemma DivAtLeast(k: nat, x: nat, q: nat)
    requires q > 0 && q * k <= x
    ensures k <= x / q
  {
    var d := x / q;
    assert x < q * d + q;
    if k > d {
      MulMonotone(q, d + 1, k);
      assert false;
    }
  }

  lemma MulMonotone(q: nat, a: nat, b: nat)
    requires a <= b
    ensures q * a <= q * b
  {
    assert q * b == q * a + q * (b - a);
  }

  /** Two intervals never gain more apart than together. */
  lemma GainedAdd(a: nat, b: nat, window: nat, srtt: Option<nat>)
    ensures Gained(a, window, srtt) + Gained(b, window, srtt) <= Gained(a + b, window, srtt)
  {
    match srtt
    case Some(s) =>
      assert (a + b) * 5 * window == a * 5 * window + b * 5 * window;
      DivAdd(a * 5 * window, b * 5 * window, 4 * Max(s, 1));
    case None =>
      assert (a + b) * window == a * window + b * window;
      DivAdd(a * window, b * window, 100_000);
  }

  lemma GainedMonotone(a: nat, b: nat, window: nat, srtt: Option<nat>)
    requires a <= b
    ensures Gained(a, window, srtt) <= Gained(b, window, srtt)
  {
    GainedAdd(a, b - a, window, srtt);
  }

  /** One admitted send. */
  datatype Send = Send(at: Instant, bytes: nat)

  function Total(sends: seq<Send>): nat {
    if sends == [] then 0 else sends[0].bytes + Total(sends[1..])
  }

  /** Every send was within what the bucket held when it was made, and the clock never went back. */
  ghost predicate Admitted(p: Pacer, sends: seq<Send>, window: nat, burst: nat, srtt: Option<nat>)
    decreases |sends|
  {
    sends != [] ==>
      && sends[0].bytes <= p.Available(sends[0].at, window, burst, srtt)
      && (|sends| > 1 ==> sends[0].at <= sends[1].at)
      && Admitted(p.Spent(sends[0].bytes, sends[0].at, window, burst, srtt), sends[1..], window, burst, srtt)
  }

  /**
   Whatever the bucket held, the bytes released over any interval are at most a
   burst and what the interval gains.
   */
  lemma {:induction false} PacedRelease(p: Pacer, sends: seq<Send>, window: nat, burst: nat, srtt: Option<nat>)
    requires sends != [] && Admitted(p, sends, window, burst, srtt)
    ensures sends[0].at <= sends[|sends| - 1].at
    ensures Total(sends) <= p.Available(sends[0].at, window, burst, srtt)
                            + Gained(Micros(sends[|sends| - 1].at - sends[0].at), window, srtt)
    ensures Total(sends) <= burst + Gained(Micros(sends[|sends| - 1].at - sends[0].at), window, srtt)
    decreases |sends|
  {
    if |sends| > 1 {
      var first, rest := sends[0], sends[1..];
      PacedRelease(p.Spent(first.bytes, first.at, window, burst, srtt), rest, window, burst, srtt);
      var last := rest[|rest| - 1].at;
      var a, b, c := Micros(rest[0].at - first.at), Micros(last - rest[0].at), Micros(last - first.at);
      GainedAdd(a, b, window, srtt);
      GainedMonotone(a + b, c, window, srtt);
    } else {
      assert sends[1..] == [];
    }
  }

  lemma CeilDivCovers(a: nat, b: nat)
    requires b > 0
    ensures CeilDiv(a, b) * b >= a
  {
    var k := (a + b - 1) / b;
    assert a + b - 1 < b * (k + 1);
  }

  lemma WaitGains(wait: nat, short: nat, window: nat, s: nat)
    requires s > 0 && wait * (5 * window) >= s * 4 * short
    ensures Gained(wait, window, Some(s)) >= short
  {
    assert wait * 5 * window == wait * (5 * window);
    assert s * 4 * short == 4 * s * short;
    DivAtLeast(short, wait * 5 * window, 4 * s);
  }

  /** At the instant the pacer names the bucket holds the bytes, exactly when a burst can hold them at all. */
  lemma ReadyIsEnough(p: Pacer, now: Instant, bytes: nat, window: nat, burst: nat, srtt: Option<nat>)
    requires window > 0
    requires srtt.Some? ==> srtt.value >= 1
    requires p.refilled.Some? ==> p.refilled.value <= now
    ensures p.Available(p.Ready(now, bytes, window, burst, srtt), window, burst, srtt) >= bytes <==> bytes <= burst
  {
    var have := p.Available(now, window, burst, srtt);
    if have < bytes <= burst {
      var short := bytes - have;
      var at := p.Ready(now, bytes, window, burst, srtt);
      var wait := (at - now) / 1000;
      match srtt {
        case Some(s) =>
          CeilDivCovers(s * 4 * short, 5 * window);
          WaitGains(wait, short, window, s);
        case None =>
          CeilDivCovers(100_000 * short, window);
          DivAtLeast(short, wait * window, 100_000);
      }
      var before, after := Micros(now - p.refilled.value), Micros(at - p.refilled.value);
      assert after == before + wait;
      GainedAdd(before, wait, window, srtt);
    }
  }

  // ---- the window ----

  /** What taking a mistaken answer back would restore. */
  datatype Undo = Undo(window: nat, ssthresh: nat)

  datatype Controller = Controller(
    window: nat, ssthresh: nat, inFlight: nat, credit: nat, recoveryStart: Option<Instant>,
    undo: Option<Undo>, datagram: nat, overshoot: nat, pacer: Pacer, srtt: Option<nat>)
  {
    /** Datagram sizes stay between `least` and `most`, and the window between two of the least and 512 of the most. */
    ghost predicate Bounded(least: nat, most: nat) {
      0 < least <= datagram <= most && 2 * least <= window <= 512 * most
    }

    /** Clamped to the window, or a floor that follows the path's width could let a loss raise it. */
    function Minimum(): nat { Min(datagram * 2, window) }

    function Ceiling(): nat { datagram * 512 }

    function Initial(): nat { datagram * 10 }

    function Burst(): nat { Min(window, datagram * 10) }

    /** What the bucket holds at an instant. */
    function Holds(now: Instant): nat {
      pacer.Available(now, window, Burst(), srtt)
    }

    predicate Writable(now: Instant, bytes: nat) {
      inFlight + bytes <= window && pacer.Available(now, window, Burst(), srtt) >= bytes
    }

    /** `None` when the window is what refuses. */
    function Ready(now: Instant, bytes: nat): Option<Instant> {
      if inFlight + bytes > window then None else Some(pacer.Ready(now, bytes, window, Burst(), srtt))
    }

    function LimitedAt(bytes: nat): Limited {
      if inFlight + bytes + datagram <= window then Application else Window
    }

    function Sealed(bytes: nat, now: Instant): Controller {
      this.(inFlight := inFlight + bytes, pacer := pacer.Spent(bytes, now, window, Burst(), srtt))
    }

    function Released(bytes: nat): Controller {
      this.(inFlight := Max(inFlight - bytes, 0))
    }

    predicate Recovering(sent: Instant) {
      recoveryStart.Some? && sent < recoveryStart.value
    }

    function Lost(bytes: nat, sent: Instant, now: Instant): (r: Controller)
      ensures r.window <= window
    {
      if Recovering(sent) then Released(bytes) else
      var halved := Max(window / 2, Minimum());
      Released(bytes).(undo := Some(Undo(window, ssthresh)), recoveryStart := Some(now),
                       window := halved, ssthresh := halved, credit := 0, overshoot := 0)
    }

    function Collapsed(now: Instant): (r: Controller)
      ensures r.window <= window
    {
      this.(undo := Some(Undo(window, ssthresh)), ssthresh := Max(window / 2, Initial()), window := Minimum(),
            credit := 0, recoveryStart := Some(now), overshoot := 0)
    }

    function Unwound(): Controller {
      if undo.None? then this else
      this.(undo := None, window := Min(Max(window, undo.value.window), Ceiling()),
            ssthresh := Max(ssthresh, undo.value.ssthresh), recoveryStart := None, credit := 0, overshoot := 0)
    }

    function Migrated(): Controller {
      this.(window := Initial(), ssthresh := USIZE_MAX, credit := 0, recoveryStart := None, undo := None,
            overshoot := 0, srtt := None, pacer := Pacer(0, None))
    }

    /** Three samples in a row an eighth over the minimum, clamped to 4..16 ms, end slow start. */
    function CheckedOvershoot(rtt: Rtt): Controller {
      if rtt.minimum.None? then this else
      var least := rtt.minimum.value.0;
      var trigger := least + Max(OVERSHOOT_FLOOR, Min(least / 8, OVERSHOOT_CEILING));
      if rtt.latest <= trigger then this.(overshoot := 0)
      else if overshoot + 1 >= OVERSHOOT_SAMPLES
      then this.(overshoot := overshoot + 1, ssthresh := Max(window, Initial()))
      else this.(overshoot := overshoot + 1)
    }

    /** What an arrival does before it may grow the window. */
    function Noted(bytes: nat, sent: Instant, rtt: Rtt): Controller {
      var c := Released(bytes).(srtt := rtt.smoothed,
                 recoveryStart := if recoveryStart.Some? && sent > recoveryStart.value then None else recoveryStart);
      if c.window < c.ssthresh then c.CheckedOvershoot(rtt) else c
    }

    /** What an arrival does: grow by its bytes in slow start, else by a datagram per window of credit. */
    ghost function Acknowledged(bytes: nat, sent: Instant, rtt: Rtt, limited: Limited): Controller
      requires window > 0
    {
      var c := Noted(bytes, sent, rtt);
      if limited == Application then c
      else if c.window < c.ssthresh then c.(window := Min(c.window + bytes, Ceiling()))
      else
        var (w, left) := Credited(c.window, c.credit + bytes, datagram, Ceiling());
        c.(window := w, credit := left)
    }
  }

  /** Spends whole windows of credit, each buying one datagram, up to the ceiling. */
  ghost function Credited(window: nat, credit: nat, datagram: nat, ceiling: nat): (r: (nat, nat))
    ensures window > 0 && ceiling > 0 ==> r.1 < r.0
    decreases credit
  {
    if window == 0 || credit < window then (window, credit)
    else Credited(Min(window + datagram, ceiling), credit - window, datagram, ceiling)
  }

  /** Avoidance never grows by more than one datagram per window acknowledged. */
  lemma {:induction false} OneDatagramPerWindow(window: nat, credit: nat, datagram: nat, ceiling: nat)
    requires 0 < window <= ceiling
    ensures var r := Credited(window, credit, datagram, ceiling);
            && window <= r.0 <= ceiling
            && r.0 <= window + Bought(datagram, credit, window)
    decreases credit
  {
    if credit >= window {
      var next := Min(window + datagram, ceiling);
      OneDatagramPerWindow(next, credit - window, datagram, ceiling);
      BoughtStep(datagram, credit, window, next);
    } else {
      BoughtNone(datagram, credit, window);
    }
  }

  /** A datagram for each whole window of credit. */
  function Bought(datagram: nat, credit: nat, window: nat): (r: nat)
    requires window > 0
  {
    datagram * (credit / window)
  }

  lemma BoughtNone(datagram: nat, credit: nat, window: nat)
    requires 0 < window && credit < window
    ensures Bought(datagram, credit, window) == 0
  {
    assert credit / window == 0;
  }

  lemma BoughtStep(datagram: nat, credit: nat, window: nat, next: nat)
    requires 0 < window <= next && window <= credit
    ensures datagram + Bought(datagram, credit - window, next) <= Bought(datagram, credit, window)
  {
    DivAntitone(credit - window, window, next);
    DivStep(credit, window);
    GrowthStep(datagram, (credit - window) / next, credit / window);
  }

  lemma GrowthStep(datagram: nat, k: nat, q: nat)
    requires k + 1 <= q
    ensures datagram + datagram * k <= datagram * q
  {
    MulMonotone(datagram, k + 1, q);
  }

  lemma DivStep(x: nat, q: nat)
    requires 0 < q <= x
    ensures x / q == (x - q) / q + 1
  {
    var d := (x - q) / q;
    assert q * (d + 1) <= x < q * (d + 1) + q;
    DivAtLeast(d + 1, x, q);
    if x / q > d + 1 {
      MulMonotone(q, d + 2, x / q);
      assert false;
    }
  }

  lemma DivAntitone(x: nat, a: nat, b: nat)
    requires 0 < a <= b
    ensures x / b <= x / a
  {
    var d := x / b;
    assert b * d <= x;
    MulMonotone(d, a, b);
    DivAtLeast(d, x, a);
  }

  /** Whenever the controller names an instant, the bytes may go then exactly when one burst of ten datagrams can carry them. */
  lemma ReadyIffWritable(c: Controller, now: Instant, bytes: nat)
    requires c.window > 0
    requires c.srtt.Some? ==> c.srtt.value >= 1
    requires c.pacer.refilled.Some? ==> c.pacer.refilled.value <= now
    ensures c.Ready(now, bytes).None? <==> c.inFlight + bytes > c.window
    ensures c.Ready(now, bytes).Some? ==> (c.Writable(c.Ready(now, bytes).value, bytes) <==> bytes <= 10 * c.datagram)
  {
    ReadyIsEnough(c.pacer, now, bytes, c.window, c.Burst(), c.srtt);
  }

  /** A size above the burst and within the window: an instant is named, and the datagram may not go at it. */
  lemma ReadyOverBurst(now: Instant)
    ensures
      var c := Opened(1000).(window := 20_000);
      && c.Ready(now, 15_000).Some? && 15_000 <= c.window
      && !c.Writable(c.Ready(now, 15_000).value, 15_000)
  {
    ReadyIffWritable(Opened(1000).(window := 20_000), now, 15_000);
  }

  // ---- runs of the controller ----

  datatype Call =
    | Seal(bytes: nat, now: Instant)
    | Arrive(bytes: nat, sent: Instant, rtt: Rtt, limited: Limited)
    | Lose(bytes: nat, sent: Instant, now: Instant)
    | Abandon(bytes: nat)
    | Collapse(now: Instant)
    | Unwind
    | Migrate
    | Resize(datagram: nat)

  function Opened(datagram: nat): Controller {
    Controller(datagram * 10, USIZE_MAX, 0, 0, None, None, datagram, 0, Pacer(0, None), None)
  }

  ghost function Apply(c: Controller, call: Call): Controller
    requires c.window > 0
  {
    match call
    case Seal(bytes, now) => c.Sealed(bytes, now)
    case Arrive(bytes, sent, rtt, limited) => c.Acknowledged(bytes, sent, rtt, limited)
    case Lose(bytes, sent, now) => c.Lost(bytes, sent, now)
    case Abandon(bytes) => c.Released(bytes)
    case Collapse(now) => c.Collapsed(now)
    case Unwind => c.Unwound()
    case Migrate => c.Migrated()
    case Resize(datagram) => c.(datagram := datagram)
  }

  ghost predicate SizesWithin(calls: seq<Call>, least: nat, most: nat) {
    forall i :: 0 <= i < |calls| && calls[i].Resize? ==> least <= calls[i].datagram <= most
  }

  lemma CreditedWithin(window: nat, credit: nat, datagram: nat, ceiling: nat, least: nat, most: nat)
    requires 0 < least <= window <= most && least <= ceiling <= most
    ensures least <= Credited(window, credit, datagram, ceiling).0 <= most
    decreases credit
  {
    if credit >= window {
      CreditedWithin(Min(window + datagram, ceiling), credit - window, datagram, ceiling, least, most);
    }
  }

  lemma BoundedStep(c: Controller, call: Call, least: nat, most: nat)
    requires c.Bounded(least, most) && SizesWithin([call], least, most)
    ensures Apply(c, call).Bounded(least, most)
  {
    match call
    case Arrive(bytes, sent, rtt, limited) =>
      var n := c.Noted(bytes, sent, rtt);
      CreditedWithin(n.window, n.credit + bytes, c.datagram, c.Ceiling(), 2 * least, 512 * most);
    case Resize(datagram) => assert [call][0] == call;
    case _ =>
  }

  ghost function Run(c: Controller, calls: seq<Call>, least: nat, most: nat): (r: Controller)
    requires c.Bounded(least, most) && SizesWithin(calls, least, most)
    ensures r.Bounded(least, most)
    decreases |calls|
  {
    if calls == [] then c else
    BoundedStep(c, calls[0], least, most);
    Run(Apply(c, calls[0]), calls[1..], least, most)
  }

  /** From any opening and through any calls the window stays between two of the smallest and 512 of the largest datagram. */
  lemma WindowAlwaysBounded(datagram: nat, calls: seq<Call>, least: nat, most: nat)
    requires 0 < least <= datagram <= most && SizesWithin(calls, least, most)
    ensures Opened(datagram).Bounded(least, most)
    ensures 2 * least <= Run(Opened(datagram), calls, least, most).window <= 512 * most
  {
  }

  /** Losses reported one after another, whenever each is noticed. */
  function LostAll(c: Controller, losses: seq<(nat, Instant, Instant)>): Controller
    decreases |losses|
  {
    if losses == [] then c
    else LostAll(c.Lost(losses[0].0, losses[0].1, losses[0].2), losses[1..])
  }

  /** What was sealed before the recovery began moves the window no further, however much of it is lost. */
  lemma {:induction false} OneHalvingPerFlight(c: Controller, losses: seq<(nat, Instant, Instant)>)
    requires c.recoveryStart.Some?
    requires forall i :: 0 <= i < |losses| ==> losses[i].1 < c.recoveryStart.value
    ensures LostAll(c, losses) == c.(inFlight := LostAll(c, losses).inFlight)
    decreases |losses|
  {
    if losses != [] {
      OneHalvingPerFlight(c.Lost(losses[0].0, losses[0].1, losses[0].2), losses[1..]);
    }
  }

  /** A flight lost together halves the window once, at the first loss. */
  lemma FlightLostTogether(c: Controller, first: (nat, Instant, Instant), rest: seq<(nat, Instant, Instant)>)
    requires !c.Recovering(first.1)
    requires forall i :: 0 <= i < |rest| ==> rest[i].1 < first.2
    ensures LostAll(c, [first] + rest).window == Max(c.window / 2, c.Minimum())
    ensures LostAll(c, [first] + rest).undo == Some(Undo(c.window, c.ssthresh))
  {
    assert ([first] + rest)[1..] == rest;
    OneHalvingPerFlight(c.Lost(first.0, first.1, first.2), rest);
  }

  /** Taking a mistaken halving back restores the window, within the ceiling, and never leaves a lower threshold. */
  lemma MistakeUndone(c: Controller, bytes: nat, sent: Instant, now: Instant)
    requires !c.Recovering(sent)
    ensures
      c.Lost(bytes, sent, now).Unwound()
      == c.(window := Min(c.window, 512 * c.datagram), ssthresh := Max(c.ssthresh, Max(c.window / 2, Min(2 * c.datagram, c.window))),
            inFlight := Max(c.inFlight - bytes, 0), recoveryStart := None, undo := None, credit := 0, overshoot := 0)
  {
  }

  class Congestion {
    var state: Controller

    ghost predicate Valid()
      reads this
    {
      state.datagram > 0 && state.window > 0
    }

    constructor (datagram: nat)
      requires datagram > 0
      ensures Valid() && state == Opened(datagram)
    {
      state := Opened(datagram);
    }

    /** A new datagram size leaves the window itself alone. */
    method Datagram(bytes: nat)
      requires Valid() && bytes > 0
      modifies this
      ensures Valid() && state == Apply(old(state), Resize(bytes))
    {
      state := state.(datagram := bytes);
    }

    /** The bytes move from the bucket into the flight. */
    method Sealed(bytes: nat, now: Instant) returns (limited: Limited)
      requires Valid()
      modifies this
      ensures Valid() && state == Apply(old(state), Seal(bytes, now))
      ensures limited == old(state).LimitedAt(bytes) && (limited == Window <==> state.inFlight + state.datagram > state.window)
      ensures state.inFlight == old(state).inFlight + bytes && state.Holds(now) == Max(old(state).Holds(now) - bytes, 0)
    {
      limited := state.LimitedAt(bytes);
      state := state.Sealed(bytes, now);
    }

    /** The credit loop ends, having bought what whole windows of credit buy. */
    method Acknowledged(bytes: nat, sent: Instant, rtt: Rtt, limited: Limited)
      requires Valid()
      modifies this
      ensures Valid() && state == Apply(old(state), Arrive(bytes, sent, rtt, limited))
    {
      var c := state.Noted(bytes, sent, rtt);
      if limited == Window {
        var ceiling := c.Ceiling();
        if c.window < c.ssthresh {
          c := c.(window := Min(c.window + bytes, ceiling));
        } else {
          var credit: nat, window: nat := c.credit + bytes, c.window;
          while credit >= window
            invariant window > 0
            invariant Credited(window, credit, c.datagram, ceiling)
                   == Credited(c.window, c.credit + bytes, c.datagram, ceiling)
            decreases credit
          {
            credit, window := credit - window, Min(window + c.datagram, ceiling);
          }
          c := c.(window := window, credit := credit);
        }
      }
      state := c;
    }

    /** A loss frees its bytes and never raises the window, and what it took is restored should it prove mistaken. */
    method Lost(bytes: nat, sent: Instant, now: Instant)
      requires Valid()
      modifies this
      ensures Valid() && state == Apply(old(state), Lose(bytes, sent, now))
      ensures state.window <= old(state).window && state.inFlight == Max(old(state).inFlight - bytes, 0)
      ensures old(state).Recovering(sent) ==> state.window == old(state).window
      ensures !old(state).Recovering(sent) ==> state.Unwound().window == Min(old(state).window, old(state).Ceiling())
    {
      state := state.Lost(bytes, sent, now);
    }

    method Abandoned(bytes: nat)
      requires Valid()
      modifies this
      ensures Valid() && state == Apply(old(state), Abandon(bytes))
    {
      state := state.Released(bytes);
    }

    /** The answer to a loss that was none comes back, once. */
    method Spurious()
      requires Valid()
      modifies this
      ensures Valid() && state == Apply(old(state), Unwind) && state.undo == None
    {
      state := state.Unwound();
    }

    /** A collapse never raises the window and frees nothing; packets sealed before it cannot halve the window again. */
    method Collapse(now: Instant)
      requires Valid()
      modifies this
      ensures Valid() && state == Apply(old(state), Call.Collapse(now))
      ensures state.window <= old(state).window && state.inFlight == old(state).inFlight
      ensures forall sent: Instant :: sent < now ==> state.Recovering(sent)
      ensures state.Unwound().window == Min(old(state).window, old(state).Ceiling())
    {
      state := state.Collapsed(now);
    }

    /** The flight is kept and the bucket is full; no loss on the old path can be taken back on this one. */
    method Migrated()
      requires Valid()
      modifies this
      ensures Valid() && state == Apply(old(state), Migrate)
      ensures state.inFlight == old(state).inFlight && state.Unwound() == state && state.window == 10 * state.datagram
      ensures forall now: Instant :: state.Holds(now) == state.Burst()
    {
      state := state.Migrated();
    }
  }
}
