/** The two walks that find a row's patch: cell by cell, and by bytes and run boundaries. */
module RowDiff {
  import opened Prelude
  import opened Rows

  /** A walk over a row's cells: the byte and column it stands at, the run covering it, and where that run ends. */
  datatype Walk = Walk(byte: nat, col: nat, run: nat, runEnd: nat)

  /** Where run `k` ends, or the last one when there is no such run. */
  function EndOf(runs: seq<Run>, k: nat): nat
    requires k <= |runs|
  {
    if k < |runs| then End(runs, k + 1) else End(runs, k)
  }

  ghost predicate Covers(runs: seq<Run>, k: nat, end: nat, byte: nat) {
    k <= |runs| && k == Seek(runs, 0, byte) && end == EndOf(runs, k)
  }

  /** Move on to the run covering `byte`. */
  method SeekTo(runs: seq<Run>, k: nat, end: nat, byte: nat) returns (j: nat, jEnd: nat)
    requires k <= |runs| && end == EndOf(runs, k) && End(runs, k) <= byte
    ensures Covers(runs, j, jEnd, byte)
  {
    j, jEnd := k, end;
    while j < |runs| && byte >= jEnd
      invariant j <= |runs| && jEnd == EndOf(runs, j) && End(runs, j) <= byte
      decreases |runs| - j
    {
      j := j + 1;
      jEnd := jEnd + if j < |runs| then runs[j].bytes else 0;
    }
    SeekIs(runs, byte, j);
  }

  /** Where a walk of the runs begins: at the first, which covers the first byte unless it is empty. */
  method Begin(runs: seq<Run>) returns (k: nat, end: nat)
    ensures k == 0 && end == EndOf(runs, 0)
    ensures (forall i :: 0 <= i < |runs| ==> runs[i].bytes > 0) ==> Covers(runs, k, end, 0)
  {
    k, end := 0, if |runs| > 0 then runs[0].bytes else 0;
    if |runs| == 0 || runs[0].bytes > 0 {
      SeekIs(runs, 0, 0);
    }
  }

  /** A walk at the first byte holds the first run; past it, the run that covers its byte. */
  ghost predicate OnRun(runs: seq<Run>, w: Walk) {
    if w.byte == 0 then w.run == 0 && w.runEnd == EndOf(runs, 0) else Covers(runs, w.run, w.runEnd, w.byte)
  }

  /** The walk stands at column `col` of a row of ASCII text that paints `painted` bytes. */
  ghost predicate Stands(runs: seq<Run>, painted: nat, w: Walk, col: nat) {
    w.col == col && w.byte == Min(col, painted) && OnRun(runs, w)
  }

  function Peek(r: Row, painted: nat, w: Walk): Cell
    requires painted <= |r.text|
  {
    if w.byte >= painted then Cell(BLANK, DEFAULT_STYLE) else Cell(r.text[w.byte], StyleOf(r.runs, w.run))
  }

  lemma OnRunBefore(runs: seq<Run>, w: Walk)
    requires OnRun(runs, w)
    ensures w.run <= |runs| && w.runEnd == EndOf(runs, w.run) && End(runs, w.run) <= w.byte
  {
    SeekCovers(runs, w.byte);
  }

  method Step(runs: seq<Run>, painted: nat, w: Walk) returns (v: Walk)
    requires Stands(runs, painted, w, w.col)
    ensures Stands(runs, painted, v, w.col + 1)
  {
    if w.byte >= painted {
      return w.(col := w.col + 1);
    }
    OnRunBefore(runs, w);
    var k, end := SeekTo(runs, w.run, w.runEnd, w.byte + 1);
    v := Walk(w.byte + 1, w.col + 1, k, end);
  }

  lemma PeekIs(r: Row, painted: nat, w: Walk)
    requires painted == Painted(r) && Stands(r.runs, painted, w, w.col)
    ensures Peek(r, painted, w) == SeenAt(r, w.col)
  {
  }

  /** What the cell-by-cell walk has found below a column: the first difference with its byte, and the byte past the last. */
  ghost predicate Found(old_: Row, new_: Row, now: nat, col: nat, first: Option<(nat, nat)>, last: nat) {
    && (first.None? ==> First(old_, new_, 0, col) == None)
    && (first.Some? ==> First(old_, new_, 0, col) == Some(first.value.0) && first.value.1 == Min(first.value.0, now))
    && last == Min(Last(old_, new_, col), now)
  }

  lemma FoundSame(old_: Row, new_: Row, now: nat, col: nat, first: Option<(nat, nat)>, last: nat)
    requires Found(old_, new_, now, col, first, last) && !Differs(old_, new_, col)
    ensures Found(old_, new_, now, col + 1, first, last)
  {
    FirstExtends(old_, new_, 0, col);
  }

  lemma FoundMore(old_: Row, new_: Row, now: nat, col: nat, first: Option<(nat, nat)>, last: nat)
    requires Found(old_, new_, now, col, first, last) && Differs(old_, new_, col)
    ensures Found(old_, new_, now, col + 1, if first.None? then Some((col, Min(col, now))) else first, Min(col + 1, now))
  {
    FirstExtends(old_, new_, 0, col);
  }

  /** The patch a walk's findings make. */
  function PatchFrom(now: nat, erase: bool, first: Option<(nat, nat)>, last: nat): Patch {
    if first.None? then Nothing
    else Columns(first.value.0, first.value.1, Max(if erase then now else last, first.value.1), erase)
  }

  /** Once both rows are walked through. */
  lemma FoundAll(old_: Row, new_: Row, erase: bool, was: nat, now: nat, col: nat, first: Option<(nat, nat)>, last: nat)
    requires was == Painted(old_) && now == Painted(new_) && col == Max(was, now)
    requires Found(old_, new_, now, col, first, last)
    ensures PatchFrom(now, erase, first, last) == PatchOf(old_, new_, erase)
  {
  }

  /** Once a difference is found that an erase will cover from there on. */
  lemma FoundEnough(old_: Row, new_: Row, was: nat, now: nat, col: nat, first: Option<(nat, nat)>, last: nat)
    requires was == Painted(old_) && now == Painted(new_) && col <= Max(was, now)
    requires Found(old_, new_, now, col, first, last) && first.Some?
    ensures PatchFrom(now, true, first, last) == PatchOf(old_, new_, true)
  {
    FirstStays(old_, new_, col, Max(was, now));
  }

  /** Both walks stand at one column of two rows. */
  ghost predicate Abreast(a: seq<Run>, b: seq<Run>, was: nat, now: nat, before: Walk, after: Walk, col: nat) {
    Stands(a, was, before, col) && Stands(b, now, after, col)
  }

  /** Where the two walks stand, and what they have found. */
  datatype Search = Search(before: Walk, after: Walk, first: Option<(nat, nat)>, last: nat)

  ghost predicate Searched(old_: Row, new_: Row, was: nat, now: nat, s: Search, col: nat) {
    Abreast(old_.runs, new_.runs, was, now, s.before, s.after, col) && Found(old_, new_, now, col, s.first, s.last)
  }

  /** One cell at a time over both rows, whatever their runs. */
  method MeasuredPatch(old_: Row, new_: Row, erase: bool) returns (p: Patch)
    ensures p == PatchOf(old_, new_, erase)
  {
    var was, now := Painted(old_), Painted(new_);
    var k, end := Begin(old_.runs);
    var before := Walk(0, 0, k, end);
    k, end := Begin(new_.runs);
    p := WalkRows(old_, new_, was, now, Search(before, Walk(0, 0, k, end), None, 0), erase);
  }

  method WalkRows(old_: Row, new_: Row, was: nat, now: nat, start: Search, erase: bool) returns (p: Patch)
    requires was == Painted(old_) && now == Painted(new_) && Searched(old_, new_, was, now, start, 0)
    ensures p == PatchOf(old_, new_, erase)
  {
    var s := start;
    while s.before.byte < was || s.after.byte < now
      invariant s.after.col <= Max(was, now) && Searched(old_, new_, was, now, s, s.after.col)
      decreases Max(was, now) - s.after.col
    {
      var same := Same(old_, new_, was, now, s.before, s.after);
      if same {
        s := Agree(old_, new_, was, now, s);
      } else if erase {
        p := FirstFound(old_, new_, was, now, s);
        return;
      } else {
        s := Disagree(old_, new_, was, now, s);
      }
    }
    FoundAll(old_, new_, erase, was, now, s.after.col, s.first, s.last);
    return PatchFrom(now, erase, s.first, s.last);
  }

  method Agree(old_: Row, new_: Row, was: nat, now: nat, s: Search) returns (t: Search)
    requires Searched(old_, new_, was, now, s, s.after.col) && !Differs(old_, new_, s.after.col)
    ensures Searched(old_, new_, was, now, t, s.after.col + 1) && t.after.col == s.after.col + 1
  {
    FoundSame(old_, new_, now, s.after.col, s.first, s.last);
    var before := Step(old_.runs, was, s.before);
    var after := Step(new_.runs, now, s.after);
    t := Search(before, after, s.first, s.last);
  }

  /** The lagging walk moves; on a shared column both do. */
  method Disagree(old_: Row, new_: Row, was: nat, now: nat, s: Search) returns (t: Search)
    requires Searched(old_, new_, was, now, s, s.after.col) && Differs(old_, new_, s.after.col)
    ensures Searched(old_, new_, was, now, t, s.after.col + 1) && t.after.col == s.after.col + 1
  {
    FoundMore(old_, new_, now, s.after.col, s.first, s.last);
    var first := if s.first.None? then Some((s.after.col, s.after.byte)) else s.first;
    var before, after := s.before, s.after;
    if before.col <= after.col {
      before := Step(old_.runs, was, before);
    }
    if after.col <= before.col || before.byte >= was {
      after := Step(new_.runs, now, after);
    }
    t := Search(before, after, first, after.byte);
  }

  /** With the tail erased, the first difference settles the patch. */
  method FirstFound(old_: Row, new_: Row, was: nat, now: nat, s: Search) returns (p: Patch)
    requires was == Painted(old_) && now == Painted(new_) && s.after.col < Max(was, now)
    requires Searched(old_, new_, was, now, s, s.after.col) && Differs(old_, new_, s.after.col)
    ensures p == PatchOf(old_, new_, true)
  {
    FoundMore(old_, new_, now, s.after.col, s.first, s.last);
    var first := if s.first.None? then Some((s.after.col, s.after.byte)) else s.first;
    FoundEnough(old_, new_, was, now, s.after.col + 1, first, Min(s.after.col + 1, now));
    p := PatchFrom(now, true, first, s.last);
  }

  /** Whether the two walks see the same cell. */
  method Same(old_: Row, new_: Row, was: nat, now: nat, before: Walk, after: Walk) returns (same: bool)
    requires was == Painted(old_) && now == Painted(new_)
    requires Abreast(old_.runs, new_.runs, was, now, before, after, after.col)
    ensures same == !Differs(old_, new_, after.col)
  {
    PeekIs(old_, was, before);
    PeekIs(new_, now, after);
    same := Peek(old_, was, before) == Peek(new_, now, after);
  }
}
