/**
 Nothing typed is lost, doubled or reordered: over every run of typing, losing and
 replacing the transport, resending and acknowledging, against the server's gate
 and a link that loses and repeats commands.
 */
module CommandRuns {
  import opened Prelude
  import opened Commands

  ghost predicate Numbered(s: seq<Command>, from: nat) {
    forall i {:trigger s[i]} :: 0 <= i < |s| ==> s[i].number == from + i
  }

  lemma {:induction false} BytesConcat(a: seq<Command>, b: seq<Command>)
    ensures BytesIn(a + b) == BytesIn(a) + BytesIn(b)
  {
    if b == [] {
      assert a + b == a;
    } else {
      assert (a + b)[..|a + b| - 1] == a + b[..|b| - 1];
      BytesConcat(a, b[..|b| - 1]);
    }
  }

  // ---- What each step adds ----

  /** The commands retained since. */
  function News(o: Outbound, p: Outbound): seq<Command>
    requires |o.journal| <= |p.journal|
  {
    p.journal[|o.journal|..]
  }

  function Since(o: Outbound, p: Outbound): seq<Command> {
    if |o.journal| <= |p.journal| then News(o, p) else []
  }

  /** Nothing but retained commands is put on the wire. */
  ghost predicate WireGrows(before: seq<Command>, after: seq<Command>, journal: seq<Command>) {
    before <= after && forall i {:trigger after[i]} :: |before| <= i < |after| ==> after[i] in journal
  }

  /**
   One stretch of work: commands are numbered on from where numbering stood, all
   retained, and they carry exactly what left `pending`.
   */
  ghost predicate Grows(o: Outbound, p: Outbound) {
    && o.journal <= p.journal && p.next == o.next + |News(o, p)| && Numbered(News(o, p), o.next)
    && BytesIn(News(o, p)) + p.pending == o.pending
    && (|o.journal| <= JOURNAL_CAPACITY ==> |p.journal| <= JOURNAL_CAPACITY)
    && WireGrows(o.wire, p.wire, p.journal)
  }

  lemma GrowsThrough(o: Outbound, p: Outbound, q: Outbound)
    requires Grows(o, p) && Grows(p, q)
    ensures Grows(o, q)
  {
    var a, b := News(o, p), News(p, q);
    assert News(o, q) == a + b;
    BytesConcat(a, b);
    assert BytesIn(a) + (BytesIn(b) + q.pending) == BytesIn(a) + BytesIn(b) + q.pending;
    forall i | |o.wire| <= i < |q.wire|
      ensures q.wire[i] in q.journal
    {
      assert i < |p.wire| ==> q.wire[i] == p.wire[i];
    }
  }

  lemma GrowsNone(o: Outbound, p: Outbound)
    requires p.journal == o.journal && p.next == o.next && p.pending == o.pending && p.wire == o.wire
    ensures Grows(o, p)
  {
    assert News(o, p) == [];
  }

  lemma QueuedGrows(o: Outbound, body: Body, verdict: Verdicts, now: nat, rest: Bytes)
    requires !o.Full()
    requires o.pending == (if body.Input? then body.bytes else []) + rest
    ensures Grows(o, o.Queued(body, verdict, now).(pending := rest))
  {
    var p := o.Queued(body, verdict, now).(pending := rest);
    var c := Command(o.next, body);
    assert News(o, p) == [c];
    assert BytesIn([c]) == if body.Input? then body.bytes else [] by {
      assert BytesIn([c][..0]) == [];
    }
    assert c == p.journal[|o.journal|];
  }

  lemma ResizeSentGrows(o: Outbound, verdict: Verdicts, now: nat)
    ensures Grows(o, o.ResizeSent(verdict, now)) && o.ResizeSent(verdict, now).pending == o.pending
  {
    assert [] + o.pending == o.pending;
    if o.resize.Some? && !o.Full() {
      QueuedGrows(o, Resize(o.resize.value), verdict, now, o.pending);
    } else {
      GrowsNone(o, o);
    }
  }

  lemma RepaintSentGrows(o: Outbound, verdict: Verdicts, now: nat)
    ensures Grows(o, o.RepaintSent(verdict, now)) && o.RepaintSent(verdict, now).pending == o.pending
  {
    assert [] + o.pending == o.pending;
    if o.repaint && !o.Full() {
      QueuedGrows(o, RequestRepaint, verdict, now, o.pending);
    } else {
      GrowsNone(o, o);
    }
  }

  lemma {:induction false} FlushedGrows(o: Outbound, chunk: nat, verdict: Verdicts, now: nat)
    requires chunk > 0
    ensures Grows(o, o.Flushed(chunk, verdict, now))
    decreases |o.pending|
  {
    if o.pending == [] || o.Full() {
      GrowsNone(o, o);
    } else {
      var end := Min(chunk, |o.pending|);
      assert o.pending == o.pending[..end] + o.pending[end..];
      QueuedGrows(o, Input(o.pending[..end]), verdict, now, o.pending[end..]);
      var p := o.Queued(Input(o.pending[..end]), verdict, now).(pending := o.pending[end..]);
      FlushedGrows(p, chunk, verdict, now);
      GrowsThrough(o, p, o.Flushed(chunk, verdict, now));
    }
  }

  lemma DrainedGrows(o: Outbound, verdict: Verdicts, now: nat)
    ensures Grows(o, o.Drained(verdict, now))
  {
    if o.output.None? {
      GrowsNone(o, o);
    } else {
      var a := o.ResizeSent(verdict, now);
      var b := a.RepaintSent(verdict, now);
      ResizeSentGrows(o, verdict, now);
      RepaintSentGrows(a, verdict, now);
      FlushedGrows(b, o.output.value.InputChunk(), verdict, now);
      GrowsThrough(o, a, b);
      GrowsThrough(o, b, o.Drained(verdict, now));
    }
  }

  lemma {:induction false} RepeatedKeeps(o: Outbound, from: nat, count: nat, verdict: Verdicts)
    requires from + count <= |o.journal|
    ensures
      var p := o.Repeated(from, count, verdict);
      p == o.(wire := p.wire, offered := p.offered, output := p.output) && (p.output == o.output || p.output == None)
    decreases count
  {
    if count > 0 && o.output.Some? {
      RepeatedKeeps(o.Offered(o.journal[from], verdict), from + 1, count - 1, verdict);
    }
  }

  /** Repeating puts the retained commands on the wire in order, as far as they are taken. */
  lemma {:induction false} RepeatedIs(o: Outbound, from: nat, count: nat, verdict: Verdicts)
    requires from + count <= |o.journal|
    ensures o.Repeated(from, count, verdict).wire == o.wire + o.journal[from..from + o.Carried(count, verdict)]
    decreases count
  {
    if count == 0 || o.output.None? {
      assert o.journal[from..from] == [];
    } else if verdict(o.offered) {
      var p := o.Offered(o.journal[from], verdict);
      RepeatedIs(p, from + 1, count - 1, verdict);
      CarriedOn(p, o.(offered := o.offered + 1), count - 1, verdict);
      WireCons(o.wire, o.journal, from, p.Carried(count - 1, verdict));
    } else {
      assert o.Offered(o.journal[from], verdict).Repeated(from + 1, count - 1, verdict).wire == o.wire;
      assert o.journal[from..from] == [];
    }
  }

  lemma WireCons(wire: seq<Command>, journal: seq<Command>, from: nat, n: nat)
    requires from + 1 + n <= |journal|
    ensures wire + [journal[from]] + journal[from + 1..from + 1 + n] == wire + journal[from..from + 1 + n]
  {
    assert journal[from..from + 1 + n] == [journal[from]] + journal[from + 1..from + 1 + n];
  }

  lemma {:induction false} CarriedOn(o: Outbound, p: Outbound, count: nat, verdict: Verdicts)
    requires o.offered == p.offered && o.output.Some? == p.output.Some?
    ensures o.Carried(count, verdict) == p.Carried(count, verdict)
    decreases count
  {
    if count > 0 && o.output.Some? {
      CarriedOn(o.(offered := o.offered + 1), p.(offered := p.offered + 1), count - 1, verdict);
    }
  }

  lemma RepeatedGrows(o: Outbound, count: nat, verdict: Verdicts)
    requires count <= |o.journal|
    ensures Grows(o, o.Repeated(0, count, verdict))
  {
    RepeatedIs(o, 0, count, verdict);
    RepeatedKeeps(o, 0, count, verdict);
    assert News(o, o.Repeated(0, count, verdict)) == [];
  }

  lemma ResentFrontGrows(o: Outbound, verdict: Verdicts)
    ensures Grows(o, o.ResentFront(verdict))
  {
    RepeatedGrows(o, Min(RESEND_BATCH, |o.journal|), verdict);
  }

  /** A retransmission timer that fires numbers nothing new. */
  lemma RetransmittedGrows(o: Outbound, verdict: Verdicts, now: nat)
    ensures Grows(o, o.Retransmitted(verdict, now))
  {
    var p := o.(resend := o.resend.Waited(now));
    if o.OnDatagrams() && o.journal != [] && o.resend.Due(now) {
      ResentFrontGrows(p, verdict);
      GrowsNone(o, p);
      GrowsThrough(o, p, p.ResentFront(verdict));
    } else {
      GrowsNone(o, o.Retransmitted(verdict, now));
    }
  }

  lemma ReconnectedGrows(o: Outbound, carriage: Carriage, verdict: Verdicts, now: nat)
    ensures Grows(o, o.Reconnected(carriage, verdict, now))
  {
    var a := o.(output := Some(carriage), resend := Unmeasured());
    var b := a.Repeated(0, |o.journal|, verdict);
    GrowsNone(o, a);
    RepeatedGrows(a, |o.journal|, verdict);
    GrowsThrough(o, a, b);
    DrainedGrows(b, verdict, now);
    GrowsThrough(o, b, o.Reconnected(carriage, verdict, now));
  }

  /** Retiring what is acknowledged comes first; the rest only grows. */
  lemma AcknowledgedGrows(o: Outbound, highest: nat, verdict: Verdicts, now: nat)
    ensures Grows(o.(journal := o.journal[o.Retired(highest)..]), o.Acknowledged(highest, verdict, now))
  {
    var a := o.(journal := o.journal[o.Retired(highest)..]);
    var p := if o.OnDatagrams() then a.(resend := o.resend.Acknowledged(highest, now)) else a;
    GrowsNone(a, p);
    var q := if o.OnDatagrams() && !o.resend.Advances(highest) && !o.resend.retried then p.ResentFront(verdict) else p;
    if o.OnDatagrams() && !o.resend.Advances(highest) && !o.resend.retried {
      ResentFrontGrows(p, verdict);
    } else {
      GrowsNone(p, q);
    }
    GrowsThrough(a, p, q);
    DrainedGrows(q, verdict, now);
    GrowsThrough(a, q, q.Drained(verdict, now));
  }

  // ---- The whole system ----

  /**
   The journal is the tail of everything ever numbered, and every command on the
   wire is the one its number names.
   */
  ghost predicate Ledger(o: Outbound, first: nat, history: seq<Command>) {
    && o.next == first + |history| && Numbered(history, first)
    && |o.journal| <= |history| && |o.journal| <= JOURNAL_CAPACITY
    && o.journal == history[|history| - |o.journal|..]
    && OnRecord(o.wire, first, history)
  }

  ghost predicate OnRecord(wire: seq<Command>, first: nat, history: seq<Command>) {
    forall i {:trigger wire[i]} :: 0 <= i < |wire| ==> wire[i] in history
  }

  lemma GrowsLedger(o: Outbound, p: Outbound, first: nat, history: seq<Command>)
    requires Ledger(o, first, history) && Grows(o, p)
    ensures Ledger(p, first, history + News(o, p))
  {
    var h := history + News(o, p);
    assert p.journal == o.journal + News(o, p);
    assert h[|h| - |p.journal|..] == p.journal;
    forall i | 0 <= i < |p.wire|
      ensures p.wire[i] in h
    {
      if i < |o.wire| {
        assert p.wire[i] == o.wire[i];
      } else {
        var k :| 0 <= k < |p.journal| && p.journal[k] == p.wire[i];
        assert h[|h| - |p.journal| + k] == p.wire[i];
      }
    }
  }

  /** The client, everything it ever numbered, what the server applied, and what the user was told is queued. */
  datatype System = System(out: Outbound, first: nat, history: seq<Command>, applied: seq<Command>, accepted: Bytes)

  datatype Event =
    | Typing(typed: Bytes, now: nat)
    | Losing
    | Replacing(carriage: Carriage, now: nat)
    | Resending(now: nat)
    | Acking(highest: nat, now: nat)
    | Resizing(size: nat, now: nat)
    | Repainting(now: nat)
    | Opening(target: nat, now: nat)
    | Arriving(index: nat)

  /** The server acknowledges only what it applied, and only what was put on the wire arrives. */
  predicate Legal(s: System, e: Event) {
    match e
    case Acking(highest, _) => highest < s.first + |s.applied|
    case Arriving(index) => index < |s.out.wire|
    case _ => true
  }

  /** What the client does on its own. */
  function Outward(o: Outbound, e: Event, verdict: Verdicts): Outbound {
    match e
    case Typing(typed, now) => o.Typed(typed, verdict, now)
    case Losing => o.(output := None)
    case Replacing(carriage, now) => o.Reconnected(carriage, verdict, now)
    case Resending(now) => o.Retransmitted(verdict, now)
    case Acking(highest, now) => o.Acknowledged(highest, verdict, now)
    case Resizing(size, now) => o.Resized(size, verdict, now)
    case Repainting(now) => o.RepaintAsked(verdict, now)
    case Opening(target, now) => o.Sent(ForwardOpen(target), verdict, now)
    case Arriving(_) => o
  }

  /** The state the event's own numbering starts from. */
  function Prepared(o: Outbound, e: Event): Outbound {
    match e
    case Typing(typed, _) => o.(pending := o.pending + typed[..o.Room(typed)])
    case Acking(highest, _) => o.(journal := o.journal[o.Retired(highest)..])
    case _ => o
  }

  lemma OutwardGrows(o: Outbound, e: Event, verdict: Verdicts)
    ensures Grows(Prepared(o, e), Outward(o, e, verdict))
  {
    assert [] + o.pending == o.pending;
    match e
    case Typing(_, now) => DrainedGrows(Prepared(o, e), verdict, now);
    case Losing => GrowsNone(o, Outward(o, e, verdict));
    case Replacing(carriage, now) => ReconnectedGrows(o, carriage, verdict, now);
    case Resending(now) => RetransmittedGrows(o, verdict, now);
    case Acking(highest, now) => AcknowledgedGrows(o, highest, verdict, now);
    case Resizing(size, now) => SentGrows(o, Resize(size), verdict, now);
      GrowsNone(o, o.(resize := Some(size)));
    case Repainting(now) => SentGrows(o, RequestRepaint, verdict, now);
      GrowsNone(o, o.(repaint := true));
    case Opening(target, now) => SentGrows(o, ForwardOpen(target), verdict, now);
    case Arriving(_) => GrowsNone(o, o);
  }

  lemma SentGrows(o: Outbound, body: Body, verdict: Verdicts, now: nat)
    requires !body.Input?
    ensures Grows(o, o.Sent(body, verdict, now))
  {
    assert [] + o.pending == o.pending;
    if o.Full() {
      GrowsNone(o, o);
    } else {
      QueuedGrows(o, body, verdict, now, o.pending);
      assert o.Queued(body, verdict, now) == o.Queued(body, verdict, now).(pending := o.pending);
    }
  }

  function AcceptedOf(o: Outbound, e: Event): Bytes {
    if e.Typing? then e.typed[..o.Room(e.typed)] else []
  }

  function AppliedBy(s: System, e: Event): seq<Command>
    requires Legal(s, e)
  {
    if e.Arriving? && Check(s.first + |s.applied|, s.out.wire[e.index].number) == Fresh
    then s.applied + [s.out.wire[e.index]] else s.applied
  }

  function After(s: System, e: Event, verdict: Verdicts): System
    requires Legal(s, e)
  {
    var o, p := Prepared(s.out, e), Outward(s.out, e, verdict);
    System(p, s.first, s.history + Since(o, p), AppliedBy(s, e), s.accepted + AcceptedOf(s.out, e))
  }

  ghost predicate Valid(s: System) {
    && Ledger(s.out, s.first, s.history)
    && s.applied <= s.history && |s.history| - |s.out.journal| <= |s.applied|
    && s.accepted == BytesIn(s.history) + s.out.pending
  }

  /** An acknowledgement of what is applied retires only what is applied. */
  lemma PreparedLedger(s: System, e: Event)
    requires Valid(s) && Legal(s, e)
    ensures Ledger(Prepared(s.out, e), s.first, s.history)
    ensures |s.history| - |Prepared(s.out, e).journal| <= |s.applied|
    ensures Prepared(s.out, e).pending == s.out.pending + AcceptedOf(s.out, e)
  {
    if e.Acking? {
      var k := s.out.Retired(e.highest);
      var d := |s.history| - |s.out.journal|;
      assert s.out.journal[k..] == s.history[d + k..];
      if k > 0 {
        assert s.out.journal[k - 1] == s.history[d + k - 1];
      }
    } else {
      assert s.out.pending + [] == s.out.pending;
    }
  }

  lemma AppliedKeeps(s: System, e: Event)
    requires Valid(s) && Legal(s, e)
    ensures s.applied <= AppliedBy(s, e) <= s.history
  {
    if e.Arriving? {
      var c := s.out.wire[e.index];
      var k :| 0 <= k < |s.history| && s.history[k] == c;
      if c.number == s.first + |s.applied| {
        assert s.history[..|s.applied| + 1] == s.applied + [c];
      }
    }
  }

  /** The gate's answer to what arrives: fresh exactly for the next command, duplicate exactly for one applied, and a gap otherwise. */
  lemma GateAnswers(s: System, index: nat)
    requires Valid(s) && index < |s.out.wire|
    ensures
      var c, next := s.out.wire[index], s.first + |s.applied|;
      && (Check(next, c.number) == Fresh <==> |s.applied| < |s.history| && c == s.history[|s.applied|])
      && (Check(next, c.number) == Duplicate <==> c in s.applied)
      && (Check(next, c.number) == Gap <==> c in s.history[Min(|s.applied| + 1, |s.history|)..])
  {
    var c := s.out.wire[index];
    var k :| 0 <= k < |s.history| && s.history[k] == c;
    if k < |s.applied| {
      assert s.applied[k] == c;
    } else if k > |s.applied| {
      assert s.history[|s.applied| + 1..][k - |s.applied| - 1] == c;
    }
    forall j | 0 <= j < |s.history| && s.history[j] == c
      ensures j == k
    {
    }
    assert c in s.applied ==> exists j :: 0 <= j < |s.applied| && s.history[j] == c;
    assert c in s.history[Min(|s.applied| + 1, |s.history|)..] ==> exists j :: |s.applied| + 1 <= j < |s.history| && s.history[j] == c;
  }

  lemma Regrouped(accepted: Bytes, numbered: Bytes, pending: Bytes, typed: Bytes, news: Bytes, left: Bytes)
    requires accepted == numbered + pending && pending + typed == news + left
    ensures accepted + typed == numbered + news + left
  {
    assert accepted + typed == numbered + (pending + typed);
  }

  lemma AfterKeeps(s: System, e: Event, verdict: Verdicts)
    requires Valid(s) && Legal(s, e)
    ensures Valid(After(s, e, verdict))
  {
    var o, p := Prepared(s.out, e), Outward(s.out, e, verdict);
    PreparedLedger(s, e);
    OutwardGrows(s.out, e, verdict);
    GrowsLedger(o, p, s.first, s.history);
    AppliedKeeps(s, e);
    BytesConcat(s.history, News(o, p));
    Regrouped(s.accepted, BytesIn(s.history), s.out.pending, AcceptedOf(s.out, e), BytesIn(News(o, p)), p.pending);
  }

  ghost predicate LegalRun(s: System, events: seq<Event>, verdict: Verdicts)
    decreases |events|
  {
    events == [] || (Legal(s, events[0]) && LegalRun(After(s, events[0], verdict), events[1..], verdict))
  }

  ghost function Run(s: System, events: seq<Event>, verdict: Verdicts): System
    requires LegalRun(s, events, verdict)
    decreases |events|
  {
    if events == [] then s else Run(After(s, events[0], verdict), events[1..], verdict)
  }

  lemma {:induction false} RunKeeps(s: System, events: seq<Event>, verdict: Verdicts) returns (t: System)
    requires Valid(s) && LegalRun(s, events, verdict)
    ensures t == Run(s, events, verdict) && Valid(t)
    decreases |events|
  {
    t := s;
    if events != [] {
      AfterKeeps(s, events[0], verdict);
      t := RunKeeps(After(s, events[0], verdict), events[1..], verdict);
    }
  }

  function Beginning(carriage: Carriage, first: nat): System {
    System(Opened(carriage, first), first, [], [], [])
  }

  lemma BeginningValid(carriage: Carriage, first: nat)
    ensures Valid(Beginning(carriage, first))
  {
    var none: seq<Command> := [];
    assert none[0..] == none && BytesIn(none) == [];
    assert Ledger(Opened(carriage, first), first, none);
  }

  /** The retained commands the server has not applied. */
  function Unapplied(s: System): seq<Command> {
    s.out.journal[Min(Max(s.first + |s.applied| - (s.out.next - |s.out.journal|), 0), |s.out.journal|)..]
  }

  /**
   Retained commands are numbered consecutively up to the last number given out,
   and what the user was told is queued is what the server applied, then what is
   retained for it, then what waits: each byte once and in order.
   */
  ghost predicate Conserved(s: System) {
    && |s.out.journal| <= s.out.next && Numbered(s.out.journal, s.out.next - |s.out.journal|)
    && s.accepted == BytesIn(s.applied) + BytesIn(Unapplied(s)) + s.out.pending
  }

  lemma JournalNumbered(s: System)
    requires Valid(s)
    ensures |s.out.journal| <= s.out.next && Numbered(s.out.journal, s.out.next - |s.out.journal|)
  {
    var d := |s.history| - |s.out.journal|;
    forall i | 0 <= i < |s.out.journal|
      ensures s.out.journal[i].number == s.out.next - |s.out.journal| + i
    {
      assert s.out.journal[i] == s.history[d + i];
    }
  }

  /** A whole is a prefix of it and the rest of a suffix that overlaps it. */
  lemma Overlapping<T>(whole: seq<T>, prefix: seq<T>, suffix: seq<T>, k: nat)
    requires prefix <= whole && |suffix| <= |whole| && suffix == whole[|whole| - |suffix|..]
    requires |whole| - |suffix| + k == |prefix| && k <= |suffix|
    ensures whole == prefix + suffix[k..]
  {
    assert suffix[k..] == whole[|prefix|..];
  }

  lemma UnappliedFrom(s: System, k: nat)
    requires Valid(s) && |s.history| - |s.out.journal| + k == |s.applied|
    ensures k <= |s.out.journal| && Unapplied(s) == s.out.journal[k..]
  {
  }

  lemma UnappliedIs(s: System)
    requires Valid(s)
    ensures s.history == s.applied + Unapplied(s)
  {
    var d := |s.history| - |s.out.journal|;
    UnappliedFrom(s, |s.applied| - d);
    Overlapping(s.history, s.applied, s.out.journal, |s.applied| - d);
  }

  lemma ValidConserves(s: System)
    requires Valid(s)
    ensures Conserved(s)
  {
    JournalNumbered(s);
    UnappliedIs(s);
    BytesConcat(s.applied, Unapplied(s));
  }

  /** Over every run, whatever transports refuse and whatever the link loses or repeats. */
  lemma NothingLostOrDoubled(carriage: Carriage, first: nat, events: seq<Event>, verdict: Verdicts)
    requires LegalRun(Beginning(carriage, first), events, verdict)
    ensures Conserved(Run(Beginning(carriage, first), events, verdict))
  {
    BeginningValid(carriage, first);
    var t := RunKeeps(Beginning(carriage, first), events, verdict);
    ValidConserves(t);
  }

  // ---- A replacement transport carries everything the server lacks ----

  ghost predicate Stepped(s: System, e: Event, t: System, verdict: Verdicts) {
    Legal(s, e) && After(s, e, verdict) == t
  }

  /** The states a run of events goes through. */
  ghost predicate Trace(states: seq<System>, events: seq<Event>, verdict: Verdicts)
    decreases |events|
  {
    && |states| == |events| + 1
    && (events != [] ==> Stepped(states[0], events[0], states[1], verdict) && Trace(states[1..], events[1..], verdict))
  }

  lemma TraceFirst(s: System, e: Event, states: seq<System>, events: seq<Event>, verdict: Verdicts)
    requires Trace(states, events, verdict) && Stepped(s, e, states[0], verdict)
    ensures Trace([s] + states, [e] + events, verdict)
  {
    assert ([s] + states)[1..] == states && ([e] + events)[1..] == events;
  }

  /** An arrival changes only what is applied. */
  lemma ArrivingOnly(s: System, index: nat, verdict: Verdicts)
    requires Legal(s, Arriving(index))
    ensures After(s, Arriving(index), verdict) == s.(applied := AppliedBy(s, Arriving(index)))
  {
    assert News(s.out, s.out) == [];
    assert s.history + [] == s.history && s.accepted + [] == s.accepted;
  }

  /** How far into the journal the server has applied. */
  function Reached(s: System): int {
    |s.applied| - (|s.history| - |s.out.journal|)
  }

  /** The oldest `n` retained commands stand on the wire from `from` on. */
  ghost predicate FrontAt(s: System, from: nat, n: nat) {
    n <= |s.out.journal| && from + n <= |s.out.wire| && s.out.wire[from..from + n] == s.out.journal[..n]
  }

  lemma NextApplied(s: System, from: nat, n: nat, k: nat)
    requires Valid(s) && FrontAt(s, from, n) && k < n && k <= Reached(s)
    ensures k + 1 <= |AppliedBy(s, Arriving(from + k))| - (|s.history| - |s.out.journal|)
  {
    assert s.out.wire[from..from + n][k] == s.out.wire[from + k] && s.out.journal[..n][k] == s.out.journal[k];
    assert s.out.journal[k] == s.history[|s.history| - |s.out.journal| + k];
  }

  /** The next command of the front arrives. */
  lemma OneArrival(s: System, from: nat, n: nat, k: nat, verdict: Verdicts, u: System)
    requires Valid(s) && FrontAt(s, from, n) && k < n && k <= Reached(s)
    requires u == s.(applied := AppliedBy(s, Arriving(from + k)))
    ensures Stepped(s, Arriving(from + k), u, verdict)
    ensures Valid(u) && FrontAt(u, from, n) && k + 1 <= Reached(u) && s.applied <= u.applied
  {
    AppliedKeeps(s, Arriving(from + k));
    ArrivingOnly(s, from + k, verdict);
    NextApplied(s, from, n, k);
  }

  /** With the front of the journal on the wire, its arrival in order leaves the server with all of that front. */
  lemma {:induction false} InOrderApplied(s: System, from: nat, n: nat, k: nat, verdict: Verdicts)
    returns (states: seq<System>, events: seq<Event>, t: System)
    requires Valid(s) && FrontAt(s, from, n) && k <= n && k <= Reached(s)
    ensures Trace(states, events, verdict) && states[0] == s && states[|events|] == t
    ensures forall i :: 0 <= i < |events| ==> events[i].Arriving?
    ensures t == s.(applied := t.applied) && s.applied <= t.applied <= s.history && n <= Reached(t)
    decreases n - k
  {
    if k == n {
      states, events, t := [s], [], s;
    } else {
      var e := Arriving(from + k);
      var u := s.(applied := AppliedBy(s, e));
      OneArrival(s, from, n, k, verdict, u);
      states, events, t := InOrderApplied(u, from, n, k + 1, verdict);
      TraceFirst(s, e, states, events, verdict);
      states, events := [s] + states, [e] + events;
    }
  }

  /** Over a transport that takes what it is offered, what is numbered is put on the wire. */
  ghost predicate Mirrors(o: Outbound, p: Outbound) {
    && o.output == p.output && o.output.Some? && o.offered <= p.offered
    && o.journal <= p.journal && p.wire == o.wire + News(o, p)
  }

  ghost predicate Willing(verdict: Verdicts, from: nat) {
    forall n :: from <= n ==> verdict(n)
  }

  lemma {:induction false} AllCarried(o: Outbound, count: nat, verdict: Verdicts)
    requires o.output.Some? && Willing(verdict, o.offered)
    ensures o.Carried(count, verdict) == count
    decreases count
  {
    if count > 0 {
      AllCarried(o.(offered := o.offered + 1), count - 1, verdict);
    }
  }

  lemma QueuedMirrors(o: Outbound, body: Body, verdict: Verdicts, now: nat)
    requires o.output.Some? && Willing(verdict, o.offered)
    ensures Mirrors(o, o.Queued(body, verdict, now))
  {
    assert News(o, o.Queued(body, verdict, now)) == [Command(o.next, body)];
  }

  lemma MirrorsThrough(o: Outbound, p: Outbound, q: Outbound)
    requires Mirrors(o, p) && Mirrors(p, q)
    ensures Mirrors(o, q)
  {
    assert News(o, q) == News(o, p) + News(p, q);
  }

  lemma MirrorsSelf(o: Outbound)
    requires o.output.Some?
    ensures Mirrors(o, o)
  {
    assert News(o, o) == [];
  }

  lemma {:induction false} FlushedMirrors(o: Outbound, chunk: nat, verdict: Verdicts, now: nat)
    requires chunk > 0 && o.output.Some? && Willing(verdict, o.offered)
    ensures Mirrors(o, o.Flushed(chunk, verdict, now))
    decreases |o.pending|
  {
    if o.pending == [] || o.Full() {
      MirrorsSelf(o);
    } else {
      var end := Min(chunk, |o.pending|);
      QueuedMirrors(o, Input(o.pending[..end]), verdict, now);
      var p := o.Queued(Input(o.pending[..end]), verdict, now).(pending := o.pending[end..]);
      FlushedMirrors(p, chunk, verdict, now);
      MirrorsThrough(o, p, o.Flushed(chunk, verdict, now));
    }
  }

  lemma DrainedMirrors(o: Outbound, verdict: Verdicts, now: nat)
    requires o.output.Some? && Willing(verdict, o.offered)
    ensures Mirrors(o, o.Drained(verdict, now))
  {
    MirrorsSelf(o);
    if o.resize.Some? {
      QueuedMirrors(o, Resize(o.resize.value), verdict, now);
    }
    var a := o.ResizeSent(verdict, now);
    assert Mirrors(o, a);
    MirrorsSelf(a);
    QueuedMirrors(a, RequestRepaint, verdict, now);
    var b := a.RepaintSent(verdict, now);
    assert Mirrors(a, b);
    FlushedMirrors(b, o.output.value.InputChunk(), verdict, now);
    MirrorsThrough(o, a, b);
    MirrorsThrough(o, b, o.Drained(verdict, now));
  }

  lemma {:induction false} RepeatedWilling(o: Outbound, from: nat, count: nat, verdict: Verdicts)
    requires from + count <= |o.journal| && o.output.Some? && Willing(verdict, o.offered)
    ensures o.Repeated(from, count, verdict).output == o.output && o.Repeated(from, count, verdict).offered >= o.offered
    decreases count
  {
    if count > 0 {
      RepeatedWilling(o.Offered(o.journal[from], verdict), from + 1, count - 1, verdict);
    }
  }

  /** Replaying puts the whole journal on the wire, and leaves the transport as willing as it was. */
  lemma ReplayMirrors(a: Outbound, b: Outbound, verdict: Verdicts)
    requires a.output.Some? && Willing(verdict, a.offered) && b == a.Repeated(0, |a.journal|, verdict)
    ensures b.wire == a.wire + a.journal && b.journal == a.journal && b.output == a.output && b.offered >= a.offered
  {
    AllCarried(a, |a.journal|, verdict);
    RepeatedIs(a, 0, |a.journal|, verdict);
    RepeatedKeeps(a, 0, |a.journal|, verdict);
    RepeatedWilling(a, 0, |a.journal|, verdict);
    assert a.journal[0..|a.journal|] == a.journal;
  }

  lemma MirrorsWhole(o: Outbound, p: Outbound, wire: seq<Command>)
    requires Mirrors(o, p) && o.wire == wire + o.journal
    ensures p.wire == wire + p.journal
  {
    assert p.journal == o.journal + News(o, p);
  }

  /** Nothing that could be numbered waits: no input, no size and no repaint, unless the journal is full. */
  ghost predicate NothingWaits(o: Outbound) {
    o.Full() || (o.pending == [] && o.resize == None && !o.repaint)
  }

  lemma {:induction false} FlushedAll(o: Outbound, chunk: nat, verdict: Verdicts, now: nat, f: Outbound)
    requires chunk > 0 && f == o.Flushed(chunk, verdict, now) && (o.Full() || (o.resize == None && !o.repaint))
    ensures NothingWaits(f)
    decreases |o.pending|
  {
    if o.pending != [] && !o.Full() {
      var end := Min(chunk, |o.pending|);
      FlushedAll(o.Queued(Input(o.pending[..end]), verdict, now).(pending := o.pending[end..]), chunk, verdict, now, f);
    }
  }

  /** With a transport there, everything that waits is numbered until the journal is full. */
  lemma DrainedNumbersAll(o: Outbound, verdict: Verdicts, now: nat)
    requires o.output.Some?
    ensures NothingWaits(o.Drained(verdict, now))
  {
    var b := o.ResizeSent(verdict, now).RepaintSent(verdict, now);
    FlushedAll(b, o.output.value.InputChunk(), verdict, now, o.Drained(verdict, now));
  }

  /** A replacement transport that takes what it is offered is given the whole journal, then what is newly numbered. */
  lemma ReplayIsWhole(o: Outbound, carriage: Carriage, verdict: Verdicts, now: nat)
    requires Willing(verdict, o.offered)
    ensures o.Reconnected(carriage, verdict, now).wire == o.wire + o.Reconnected(carriage, verdict, now).journal
    ensures NothingWaits(o.Reconnected(carriage, verdict, now))
  {
    var a := o.(output := Some(carriage), resend := Unmeasured());
    var b := a.Repeated(0, |o.journal|, verdict);
    ReplayMirrors(a, b, verdict);
    DrainedMirrors(b, verdict, now);
    DrainedNumbersAll(b, verdict, now);
    MirrorsWhole(b, b.Drained(verdict, now), o.wire);
  }

  /**
   From every reachable state, a replacement transport that takes what it is
   offered and delivers it in order leaves the server with every byte the user
   was told is queued, but for what still waits behind a full journal.
   */
  lemma ReplacementRecovers(s: System, carriage: Carriage, verdict: Verdicts, now: nat)
    returns (states: seq<System>, events: seq<Event>)
    requires Valid(s) && Willing(verdict, s.out.offered)
    ensures Trace(states, events, verdict) && states[0] == After(s, Replacing(carriage, now), verdict)
    ensures forall i :: 0 <= i < |events| ==> events[i].Arriving?
    ensures
      var t := states[|events|];
      t.accepted == s.accepted == BytesIn(t.applied) + t.out.pending && (t.out.pending == [] || t.out.Full())
  {
    var t := After(s, Replacing(carriage, now), verdict);
    Replaced(s, carriage, verdict, now, t);
    var u;
    states, events, u := InOrderApplied(t, |s.out.wire|, |t.out.journal|, 0, verdict);
    assert u.applied == u.history;
  }

  /** A replacement leaves the whole journal on the wire, nothing waiting, and what was accepted as it was. */
  lemma Replaced(s: System, carriage: Carriage, verdict: Verdicts, now: nat, t: System)
    requires Valid(s) && Willing(verdict, s.out.offered) && t == After(s, Replacing(carriage, now), verdict)
    ensures Valid(t) && FrontAt(t, |s.out.wire|, |t.out.journal|) && t.accepted == s.accepted && NothingWaits(t.out)
  {
    AfterKeeps(s, Replacing(carriage, now), verdict);
    ReplayIsWhole(s.out, carriage, verdict, now);
    WholeFront(t, s.out.wire);
    assert s.accepted + [] == s.accepted;
  }

  lemma WholeFront(t: System, before: seq<Command>)
    requires t.out.wire == before + t.out.journal
    ensures FrontAt(t, |before|, |t.out.journal|)
  {
  }

  // ---- Only a command sent once is timed ----

  function Count(wire: seq<Command>, number: nat): nat {
    if wire == [] then 0
    else Count(wire[..|wire| - 1], number) + if wire[|wire| - 1].number == number then 1 else 0
  }

  lemma {:induction false} CountConcat(a: seq<Command>, b: seq<Command>, number: nat)
    ensures Count(a + b, number) == Count(a, number) + Count(b, number)
  {
    if b == [] {
      assert a + b == a;
    } else {
      assert (a + b)[..|a + b| - 1] == a + b[..|b| - 1];
      CountConcat(a, b[..|b| - 1], number);
    }
  }

  lemma {:induction false} CountNone(wire: seq<Command>, number: nat)
    requires forall i {:trigger wire[i]} :: 0 <= i < |wire| ==> wire[i].number != number
    ensures Count(wire, number) == 0
  {
    if wire != [] {
      CountNone(wire[..|wire| - 1], number);
    }
  }

  /** Numbers on the wire and in the journal are ones given out, and the journal ascends. */
  ghost predicate Given(o: Outbound) {
    && (forall i {:trigger o.wire[i]} :: 0 <= i < |o.wire| ==> o.wire[i].number < o.next)
    && |o.journal| <= o.next && Numbered(o.journal, o.next - |o.journal|)
  }

  ghost predicate SampleOnce(wire: seq<Command>, sample: Option<(nat, nat)>) {
    sample.Some? ==> Count(wire, sample.value.0) == 1
  }

  /** The command being timed has been put on the wire exactly once, so its acknowledgement measures that copy. */
  ghost predicate TimedOnce(o: Outbound) {
    Given(o) && SampleOnce(o.wire, o.resend.sample)
  }

  lemma CountOne(c: Command, number: nat)
    ensures Count([c], number) == if c.number == number then 1 else 0
  {
    assert Count([c][..0], number) == 0;
  }

  /** A number put on the wire for the first time has been put there once; the others as often as before. */
  lemma CountNew(o: Outbound, c: Command, number: nat)
    requires Given(o) && c.number == o.next
    ensures Count(o.wire + [c], number) == if number == o.next then 1 else Count(o.wire, number)
  {
    CountConcat(o.wire, [c], number);
    CountOne(c, number);
    if number == o.next {
      CountNone(o.wire, number);
    }
  }

  /** The sample in hand is of an older command. */
  lemma SampleStays(o: Outbound, c: Command)
    requires TimedOnce(o) && c.number == o.next
    ensures SampleOnce(o.wire + [c], o.resend.sample)
  {
    if o.resend.sample.Some? {
      var n := o.resend.sample.value.0;
      if n == o.next {
        CountNone(o.wire, n);
        assert false;
      }
      CountNew(o, c, n);
    }
  }

  lemma QueuedGiven(o: Outbound, body: Body, verdict: Verdicts, now: nat)
    requires Given(o)
    ensures Given(o.Queued(body, verdict, now))
  {
  }

  lemma QueuedSample(o: Outbound, body: Body, verdict: Verdicts, now: nat)
    requires TimedOnce(o)
    ensures SampleOnce(o.Queued(body, verdict, now).wire, o.Queued(body, verdict, now).resend.sample)
  {
    var c := Command(o.next, body);
    CountNew(o, c, o.next);
    SampleStays(o, c);
  }

  lemma QueuedTimedOnce(o: Outbound, body: Body, verdict: Verdicts, now: nat)
    requires TimedOnce(o)
    ensures TimedOnce(o.Queued(body, verdict, now))
  {
    QueuedGiven(o, body, verdict, now);
    QueuedSample(o, body, verdict, now);
  }

  lemma {:induction false} FlushedTimedOnce(o: Outbound, chunk: nat, verdict: Verdicts, now: nat)
    requires chunk > 0 && TimedOnce(o)
    ensures TimedOnce(o.Flushed(chunk, verdict, now))
    decreases |o.pending|
  {
    if o.pending != [] && !o.Full() {
      var end := Min(chunk, |o.pending|);
      QueuedTimedOnce(o, Input(o.pending[..end]), verdict, now);
      FlushedTimedOnce(o.Queued(Input(o.pending[..end]), verdict, now).(pending := o.pending[end..]), chunk, verdict, now);
    }
  }

  lemma DrainedTimedOnce(o: Outbound, verdict: Verdicts, now: nat)
    requires TimedOnce(o)
    ensures TimedOnce(o.Drained(verdict, now))
  {
    if o.output.Some? {
      if o.resize.Some? {
        QueuedTimedOnce(o, Resize(o.resize.value), verdict, now);
      }
      var a := o.ResizeSent(verdict, now);
      assert TimedOnce(a);
      QueuedTimedOnce(a, RequestRepaint, verdict, now);
      var b := a.RepaintSent(verdict, now);
      assert TimedOnce(b);
      FlushedTimedOnce(b, o.output.value.InputChunk(), verdict, now);
    }
  }

  lemma RepeatedGiven(o: Outbound, count: nat, verdict: Verdicts)
    requires Given(o) && count <= |o.journal|
    ensures Given(o.Repeated(0, count, verdict))
  {
    RepeatedIs(o, 0, count, verdict);
    RepeatedKeeps(o, 0, count, verdict);
  }

  /** A number above all of a stretch of the journal is not in it. */
  lemma AboveNotIn(journal: seq<Command>, base: nat, n: nat, m: nat)
    requires Numbered(journal, base) && 0 < n <= |journal| && m > journal[n - 1].number
    ensures Count(journal[..n], m) == 0
  {
    CountNone(journal[..n], m);
  }

  lemma FrontSample(o: Outbound, n: nat)
    requires TimedOnce(o) && 0 < n <= |o.journal|
    ensures SampleOnce(o.wire + o.journal[..n], o.resend.Resent(o.journal[n - 1].number).sample)
  {
    var sample := o.resend.Resent(o.journal[n - 1].number).sample;
    if sample.Some? {
      CountConcat(o.wire, o.journal[..n], sample.value.0);
      AboveNotIn(o.journal, o.next - |o.journal|, n, sample.value.0);
    }
  }

  /** What goes out a second time stops being timed. */
  lemma ResentFrontTimedOnce(o: Outbound, verdict: Verdicts)
    requires TimedOnce(o)
    ensures TimedOnce(o.ResentFront(verdict))
  {
    var count := Min(RESEND_BATCH, |o.journal|);
    var n := o.Carried(count, verdict);
    RepeatedGiven(o, count, verdict);
    RepeatedIs(o, 0, count, verdict);
    RepeatedKeeps(o, 0, count, verdict);
    if n > 0 {
      FrontSample(o, n);
    } else {
      assert o.wire + o.journal[0..0] == o.wire;
    }
  }

  lemma SentTimedOnce(o: Outbound, body: Body, verdict: Verdicts, now: nat)
    requires TimedOnce(o)
    ensures TimedOnce(o.Sent(body, verdict, now))
  {
    QueuedTimedOnce(o, body, verdict, now);
  }

  lemma ReconnectedTimedOnce(o: Outbound, carriage: Carriage, verdict: Verdicts, now: nat)
    requires TimedOnce(o)
    ensures TimedOnce(o.Reconnected(carriage, verdict, now))
  {
    var a := o.(output := Some(carriage), resend := Unmeasured());
    RepeatedGiven(a, |o.journal|, verdict);
    RepeatedKeeps(a, 0, |o.journal|, verdict);
    DrainedTimedOnce(a.Repeated(0, |o.journal|, verdict), verdict, now);
  }

  lemma AcknowledgedTimedOnce(o: Outbound, highest: nat, verdict: Verdicts, now: nat)
    requires TimedOnce(o)
    ensures TimedOnce(o.Acknowledged(highest, verdict, now))
  {
    var a := o.(journal := o.journal[o.Retired(highest)..]);
    var p := if o.OnDatagrams() then a.(resend := o.resend.Acknowledged(highest, now)) else a;
    assert TimedOnce(p);
    ResentFrontTimedOnce(p, verdict);
    var q := if o.OnDatagrams() && !o.resend.Advances(highest) && !o.resend.retried then p.ResentFront(verdict) else p;
    DrainedTimedOnce(q, verdict, now);
  }

  lemma RetransmittedTimedOnce(o: Outbound, verdict: Verdicts, now: nat)
    requires TimedOnce(o)
    ensures TimedOnce(o.Retransmitted(verdict, now))
  {
    ResentFrontTimedOnce(o.(resend := o.resend.Waited(now)), verdict);
  }

  lemma OutwardTimedOnce(o: Outbound, e: Event, verdict: Verdicts)
    requires TimedOnce(o)
    ensures TimedOnce(Outward(o, e, verdict))
  {
    match e
    case Typing(_, now) => DrainedTimedOnce(Prepared(o, e), verdict, now);
    case Replacing(carriage, now) => ReconnectedTimedOnce(o, carriage, verdict, now);
    case Resending(now) => RetransmittedTimedOnce(o, verdict, now);
    case Acking(highest, now) => AcknowledgedTimedOnce(o, highest, verdict, now);
    case Resizing(size, now) => QueuedTimedOnce(o, Resize(size), verdict, now);
    case Repainting(now) => QueuedTimedOnce(o, RequestRepaint, verdict, now);
    case Opening(target, now) => SentTimedOnce(o, ForwardOpen(target), verdict, now);
    case _ =>
  }

  /** Over every run, a round trip is measured only from a command put on the wire exactly once. */
  lemma {:induction false} OnlyTimedOnce(s: System, events: seq<Event>, verdict: Verdicts)
    requires TimedOnce(s.out) && LegalRun(s, events, verdict)
    ensures TimedOnce(Run(s, events, verdict).out)
    decreases |events|
  {
    if events != [] {
      OutwardTimedOnce(s.out, events[0], verdict);
      OnlyTimedOnce(After(s, events[0], verdict), events[1..], verdict);
    }
  }
}
