/** Painting a patch: what the terminal's row shows after the bytes a patch becomes. */
module Painting {
  import opened Prelude
  import opened Rows
  import opened AsciiDiff

  /** What is written to the terminal, within one row. */
  datatype Op = Cup(col: nat) | Sgr(style: nat) | Reset | Text(bytes: Bytes) | EraseLine

  /**
   One row of a terminal. Text in the last column leaves the cursor there with a
   wrap pending; text after that goes to the next row, which `strayed` records.
   */
  datatype Term = Term(cells: seq<Cell>, col: nat, wrap: bool, pen: nat, strayed: bool) {
    predicate Valid() { col < |cells| }
  }

  function Put(t: Term, b: nat): (u: Term)
    requires t.Valid()
    ensures u.Valid() && |u.cells| == |t.cells|
  {
    if t.wrap then t.(strayed := true)
    else
      var u := t.(cells := t.cells[t.col := Cell(b, t.pen)]);
      if t.col + 1 == |t.cells| then u.(wrap := true) else u.(col := t.col + 1)
  }

  function PutAll(t: Term, bytes: Bytes): (u: Term)
    requires t.Valid()
    ensures u.Valid() && |u.cells| == |t.cells|
  {
    if bytes == [] then t else Put(PutAll(t, bytes[..|bytes| - 1]), bytes[|bytes| - 1])
  }

  /** Erasing a line reaches from the cursor's column to the end of the row, under the current style. */
  function Apply(t: Term, op: Op): (u: Term)
    requires t.Valid()
    ensures u.Valid() && |u.cells| == |t.cells|
  {
    match op
    case Cup(col) => t.(col := Min(col, |t.cells| - 1), wrap := false)
    case Sgr(style) => t.(pen := style)
    case Reset => t.(pen := DEFAULT_STYLE)
    case Text(bytes) => PutAll(t, bytes)
    case EraseLine => t.(cells := t.cells[..t.col] + seq(|t.cells| - t.col, i => Cell(BLANK, t.pen)))
  }

  function ApplyAll(t: Term, ops: seq<Op>): (u: Term)
    requires t.Valid()
    ensures u.Valid() && |u.cells| == |t.cells|
  {
    if ops == [] then t else Apply(ApplyAll(t, ops[..|ops| - 1]), ops[|ops| - 1])
  }

  lemma Applied(t: Term, ops: seq<Op>, op: Op)
    requires t.Valid()
    ensures ApplyAll(t, ops + [op]) == Apply(ApplyAll(t, ops), op)
  {
    assert (ops + [op])[..|ops|] == ops;
  }

  /** The next character goes to column `x`, which past the last column is a pending wrap. */
  predicate Placed(t: Term, x: nat) {
    if x < |t.cells| then t.col == x && !t.wrap else x == |t.cells| && t.col + 1 == x && t.wrap
  }

  ghost predicate Shows(cells: seq<Cell>, r: Row) {
    forall c :: 0 <= c < |cells| ==> cells[c] == CellAt(r, c)
  }

  /** Cells with columns `from` to `to` taken from the row. */
  function Overlay(cells: seq<Cell>, r: Row, from: nat, to: nat): (o: seq<Cell>)
    requires to <= |r.text|
    ensures |o| == |cells|
    ensures forall c :: 0 <= c < |o| ==> o[c] == if from <= c < to then Cell(r.text[c], StyleAt(r, c)) else cells[c]
  {
    seq(|cells|, c requires 0 <= c < |cells| => if from <= c < to then Cell(r.text[c], StyleAt(r, c)) else cells[c])
  }

  /** Text covers its columns under the pen in hand, and leaves the rest of the row alone. */
  lemma {:induction false} PutAllCovers(t: Term, bytes: Bytes, x: nat)
    requires t.Valid() && Placed(t, x) && x + |bytes| <= |t.cells|
    ensures
      var u := PutAll(t, bytes);
      && Placed(u, x + |bytes|) && u.pen == t.pen && u.strayed == t.strayed
      && forall c :: 0 <= c < |t.cells| ==> u.cells[c] == if x <= c < x + |bytes| then Cell(bytes[c - x], t.pen) else t.cells[c]
  {
    if bytes != [] {
      PutAllCovers(t, bytes[..|bytes| - 1], x);
    }
  }

  lemma OverlayExtends(before: seq<Cell>, cells: seq<Cell>, after: seq<Cell>, r: Row, from: nat, x: nat, y: nat, pen: nat)
    requires |before| == |cells| == |after| && from <= x <= y <= |r.text| && cells == Overlay(before, r, from, x)
    requires forall c :: 0 <= c < |cells| ==> after[c] == if x <= c < y then Cell(r.text[x..y][c - x], pen) else cells[c]
    requires forall c {:trigger StyleAt(r, c)} :: x <= c < y ==> StyleAt(r, c) == pen
    ensures after == Overlay(before, r, from, y)
  {
    var o := Overlay(before, r, from, y);
    forall c | 0 <= c < |after|
      ensures after[c] == o[c]
    {
    }
  }

  /** One stretch of a row under one style. */
  lemma StretchPaints(t: Term, r: Row, from: nat, x: nat, y: nat, before: seq<Cell>)
    requires t.Valid() && Placed(t, x) && from <= x <= y <= |r.text| && y <= |t.cells|
    requires |before| == |t.cells| && t.cells == Overlay(before, r, from, x)
    requires forall c {:trigger StyleAt(r, c)} :: x <= c < y ==> StyleAt(r, c) == t.pen
    ensures
      var u := PutAll(t, r.text[x..y]);
      Placed(u, y) && u.pen == t.pen && u.strayed == t.strayed && u.cells == Overlay(before, r, from, y)
  {
    PutAllCovers(t, r.text[x..y], x);
    OverlayExtends(before, t.cells, PutAll(t, r.text[x..y]).cells, r, from, x, y, t.pen);
  }

  /** Within a run the style is the run's, and past them all it is the default. */
  lemma StyleWithin(r: Row, k: nat, c: nat)
    requires k <= |r.runs| && End(r.runs, k) <= c && (k < |r.runs| ==> c < End(r.runs, k + 1))
    ensures StyleAt(r, c) == StyleOf(r.runs, k)
  {
    SeekIs(r.runs, c, k);
  }

  /** Paint so far: columns from `from` up to `at` are the row's, and `x` is where the cursor stands. */
  ghost predicate PaintedTo(t: Term, u: Term, r: Row, from: nat, at: nat, x: nat, current: Option<nat>) {
    && u.Valid() && Max(at, from) <= |r.text| && u.cells == Overlay(t.cells, r, from, Max(at, from))
    && Placed(u, x) && u.strayed == t.strayed && (current.Some? ==> u.pen == current.value)
  }

  /** A style taken in hand changes nothing painted. */
  lemma InHand(t: Term, ops: seq<Op>, r: Row, from: nat, at: nat, x: nat, current: Option<nat>, op: Op, style: nat)
    requires t.Valid() && PaintedTo(t, ApplyAll(t, ops), r, from, at, x, current)
    requires op == Sgr(style) || (op == Reset && style == DEFAULT_STYLE)
    ensures PaintedTo(t, ApplyAll(t, ops + [op]), r, from, at, x, Some(style))
  {
    Applied(t, ops, op);
  }

  /** A stretch of one style, which is in hand; an empty one leaves the cursor where it is. */
  method WriteUnder(r: Row, k: nat, from: nat, at: nat, end: nat, ghost x: nat, ops: seq<Op>, ghost t: Term) returns (out: seq<Op>)
    requires k <= |r.runs| && End(r.runs, k) <= at <= end <= |r.text| && (k < |r.runs| ==> end <= End(r.runs, k + 1))
    requires t.Valid() && from <= end <= |t.cells| && (from < end ==> x == Max(at, from))
    requires PaintedTo(t, ApplyAll(t, ops), r, from, at, x, Some(StyleOf(r.runs, k)))
    ensures PaintedTo(t, ApplyAll(t, out), r, from, end, if from < end then end else x, Some(StyleOf(r.runs, k)))
  {
    var begin := Max(at, from);
    if from < end {
      forall c | begin <= c < end
        ensures StyleAt(r, c) == StyleOf(r.runs, k)
      {
        StyleWithin(r, k, c);
      }
      StretchPaints(ApplyAll(t, ops), r, from, begin, end, t.cells);
    }
    Applied(t, ops, Text(r.text[begin..end]));
    out := ops + [Text(r.text[begin..end])];
  }

  /** A stretch of a run: its style is set only when it is not already in hand. */
  method WriteStretch(r: Row, k: nat, from: nat, at: nat, end: nat, current: Option<nat>, ops: seq<Op>, ghost t: Term)
    returns (out: seq<Op>)
    requires k < |r.runs| && at == End(r.runs, k) && at <= end <= End(r.runs, k + 1) && from < end <= |r.text|
    requires t.Valid() && end <= |t.cells| && PaintedTo(t, ApplyAll(t, ops), r, from, at, Max(at, from), current)
    ensures PaintedTo(t, ApplyAll(t, out), r, from, end, end, Some(r.runs[k].style))
  {
    out := ops;
    if current != Some(r.runs[k].style) {
      InHand(t, ops, r, from, at, Max(at, from), current, Sgr(r.runs[k].style), r.runs[k].style);
      out := ops + [Sgr(r.runs[k].style)];
    }
    out := WriteUnder(r, k, from, at, end, Max(at, from), out, t);
  }

  /** What follows the last run is written under the default style. */
  method WriteTail(r: Row, from: nat, at: nat, to: nat, ghost x: nat, current: Option<nat>, ops: seq<Op>, ghost t: Term)
    returns (out: seq<Op>)
    requires End(r.runs, |r.runs|) <= at < to <= |r.text| && from <= to && (from < to ==> x == Max(at, from))
    requires t.Valid() && to <= |t.cells| && PaintedTo(t, ApplyAll(t, ops), r, from, at, x, current)
    ensures PaintedTo(t, ApplyAll(t, out), r, from, to, if from < to then to else x, Some(DEFAULT_STYLE))
  {
    out := ops;
    if current != Some(DEFAULT_STYLE) {
      InHand(t, ops, r, from, at, x, current, Reset, DEFAULT_STYLE);
      out := ops + [Reset];
    }
    out := WriteUnder(r, |r.runs|, from, at, to, x, out, t);
  }

  /** Text between two bytes of a row, each stretch under its style; with nothing between them the cursor stays. */
  method WriteRowText(r: Row, from: nat, to: nat, start: Option<nat>, ghost t: Term, ghost x: nat) returns (ops: seq<Op>)
    requires t.Valid() && from <= to <= |r.text| && to <= |t.cells|
    requires Placed(t, x) && (from < to ==> x == from) && (start.Some? ==> t.pen == start.value)
    ensures ApplyAll(t, ops).cells == Overlay(t.cells, r, from, to)
    ensures Placed(ApplyAll(t, ops), if from < to then to else x) && ApplyAll(t, ops).strayed == t.strayed
  {
    ops := [];
    var current, at, k := start, 0, 0;
    assert Overlay(t.cells, r, from, from) == t.cells;
    while k < |r.runs| && at < to
      invariant k <= |r.runs| && at == Min(End(r.runs, k), to)
      invariant PaintedTo(t, ApplyAll(t, ops), r, from, at, if from < to then Max(at, from) else x, current)
    {
      var end := Min(at + r.runs[k].bytes, to);
      if end > from {
        ops := WriteStretch(r, k, from, at, end, current, ops, t);
        current := Some(r.runs[k].style);
      }
      at, k := end, k + 1;
    }
    if at < to {
      ops := WriteTail(r, from, at, to, if from < to then Max(at, from) else x, current, ops, t);
    }
  }

  /** What a columns patch leaves: the row's own cells over `from` to `to`, and blanks from where the cursor then stands. */
  ghost predicate Patched(t: Term, u: Term, r: Row, col: nat, from: nat, to: nat, erase: bool)
    requires to <= |r.text|
  {
    var stop := Min(if from < to then to else col, |t.cells| - 1);
    && |u.cells| == |t.cells| && u.strayed == t.strayed
    && forall c :: 0 <= c < |u.cells| ==>
         u.cells[c] == if erase && stop <= c then Cell(BLANK, DEFAULT_STYLE) else Overlay(t.cells, r, from, to)[c]
  }

  method WriteColumns(r: Row, col: nat, from: nat, to: nat, erase: bool, ghost t: Term) returns (ops: seq<Op>)
    requires t.Valid() && from <= to <= |r.text| && to <= |t.cells| && col < |t.cells| && (from < to ==> from == col)
    ensures Patched(t, ApplyAll(t, ops), r, col, from, to, erase)
  {
    ghost var u := Apply(t, Cup(col));
    var text := WriteRowText(r, from, to, None, u, col);
    ops := [Cup(col)] + text;
    AppliedFirst(t, Cup(col), text);
    if erase {
      EraseBlanks(t, ops);
      ops := ops + [Reset] + [EraseLine];
    }
  }

  lemma EraseBlanks(t: Term, ops: seq<Op>)
    requires t.Valid()
    ensures
      var u, v := ApplyAll(t, ops), ApplyAll(t, ops + [Reset] + [EraseLine]);
      && v.strayed == u.strayed
      && forall c :: 0 <= c < |v.cells| ==> v.cells[c] == if u.col <= c then Cell(BLANK, DEFAULT_STYLE) else u.cells[c]
  {
    Applied(t, ops, Reset);
    Applied(t, ops + [Reset], EraseLine);
  }

  lemma {:induction false} AppliedFirst(t: Term, op: Op, ops: seq<Op>)
    requires t.Valid()
    ensures ApplyAll(t, [op] + ops) == ApplyAll(Apply(t, op), ops)
    decreases |ops|
  {
    if ops == [] {
      assert [op] + ops == [op] && [op][..0] == [];
    } else {
      var front := ops[..|ops| - 1];
      AppliedFirst(t, op, front);
      assert ([op] + ops)[..|ops|] == [op] + front;
    }
  }

  /** Home, erase under the default style, then the whole row. */
  method WriteRow(r: Row, ghost t: Term) returns (ops: seq<Op>)
    requires t.Valid() && Painted(r) <= |t.cells|
    ensures Shows(ApplyAll(t, ops).cells, r) && ApplyAll(t, ops).strayed == t.strayed
  {
    var lead := [Cup(0), Reset, EraseLine];
    ghost var u := ApplyAll(t, lead);
    LeadBlanks(t);
    var text := WriteRowText(r, 0, Painted(r), Some(DEFAULT_STYLE), u, 0);
    ops := lead + text;
    AppliedThrough(t, lead, text);
  }

  lemma LeadBlanks(t: Term)
    requires t.Valid()
    ensures
      var u := ApplyAll(t, [Cup(0), Reset, EraseLine]);
      && Placed(u, 0) && u.pen == DEFAULT_STYLE && u.strayed == t.strayed
      && forall c :: 0 <= c < |u.cells| ==> u.cells[c] == Cell(BLANK, DEFAULT_STYLE)
  {
    Applied(t, [], Cup(0));
    Applied(t, [Cup(0)], Reset);
    Applied(t, [Cup(0), Reset], EraseLine);
    assert [] + [Cup(0)] == [Cup(0)] && [Cup(0)] + [Reset] == [Cup(0), Reset];
    assert [Cup(0), Reset] + [EraseLine] == [Cup(0), Reset, EraseLine];
  }

  lemma {:induction false} AppliedThrough(t: Term, a: seq<Op>, b: seq<Op>)
    requires t.Valid()
    ensures ApplyAll(t, a + b) == ApplyAll(ApplyAll(t, a), b)
    decreases |b|
  {
    if b == [] {
      assert a + b == a;
    } else {
      AppliedThrough(t, a, b[..|b| - 1]);
      assert (a + b)[..|a + b| - 1] == a + b[..|b| - 1];
    }
  }

  // ---- When a patch shows the new row ----

  /** The erase asked for would come after text has filled the last column, and take that cell with it. */
  ghost predicate ErasesLastCell(old_: Row, new_: Row, clearTail: bool, width: nat)
    requires width > 0
  {
    && clearTail && Counted(old_) && Counted(new_) && Painted(new_) == width
    && CellAt(new_, width - 1) != Cell(BLANK, DEFAULT_STYLE)
    && exists c: nat :: c < width && Differs(old_, new_, c)
  }

  /** The first column changes, and the walk takes it for unchanged. */
  ghost predicate MisreadsFirstCell(old_: Row, new_: Row) {
    Counted(old_) && Counted(new_) && CellAt(old_, 0) != CellAt(new_, 0) && !Differs(old_, new_, 0)
  }

  /** Only a row that leads with an empty run is misread. */
  lemma MisreadLeadsEmpty(old_: Row, new_: Row)
    requires MisreadsFirstCell(old_, new_)
    ensures !NoEmptyRun(old_) || !NoEmptyRun(new_)
  {
    if NoEmptyRun(old_) && NoEmptyRun(new_) {
      SeenIs(old_, 0);
      SeenIs(new_, 0);
      assert false;
    }
  }

  /** Two columns under one style, the first changed: the erase takes the second. */
  lemma LastCellErased()
    ensures ErasesLastCell(Row([97, 98], [Run(2, 2, 1)], 2), Row([120, 98], [Run(2, 2, 1)], 2), true, 2)
  {
    var old_, new_ := Row([97, 98], [Run(2, 2, 1)], 2), Row([120, 98], [Run(2, 2, 1)], 2);
    assert End(old_.runs, 1) == End(old_.runs, 0) + 2 && End(new_.runs, 1) == End(new_.runs, 0) + 2;
    assert Differs(old_, new_, 0);
  }

  /** A column restyled from the second of two runs, the first empty: the walk reads the empty one. */
  lemma FirstCellMisread()
    ensures MisreadsFirstCell(Row([97], [Run(0, 0, 1), Run(1, 1, 2)], 1), Row([97], [Run(1, 1, 1)], 1))
  {
    var old_, new_ := Row([97], [Run(0, 0, 1), Run(1, 1, 2)], 1), Row([97], [Run(1, 1, 1)], 1);
    assert End(old_.runs, 1) == End(old_.runs, 0) + 0 && End(old_.runs, 2) == End(old_.runs, 1) + 1;
    assert End(new_.runs, 1) == End(new_.runs, 0) + 1;
    SeekIs(old_.runs, 0, 1);
    SeekIs(new_.runs, 0, 0);
  }

  /** Outside what a patch covers, the rows already show the same, but for a first column misread. */
  lemma SameOutside(old_: Row, new_: Row, erase: bool, c: nat)
    requires PatchOf(old_, new_, erase).Columns? && (erase || Painted(old_) <= Painted(new_))
    requires var p := PatchOf(old_, new_, erase); c < p.col || (!erase && c >= p.to)
    ensures !Differs(old_, new_, c)
    ensures c > 0 ==> CellAt(old_, c) == CellAt(new_, c)
  {
    var n := Max(Painted(old_), Painted(new_));
    if c >= n {
      BeyondSame(old_, new_, c);
    } else if First(old_, new_, 0, n).value > c {
      FirstSame(old_, new_, 0, n, c);
    } else {
      FirstDiffers(old_, new_, 0, n);
      LastSame(old_, new_, n, c);
    }
  }

  /** The shape of the patch between two ASCII rows. */
  lemma PatchShape(old_: Row, new_: Row, erase: bool)
    requires PatchOf(old_, new_, erase).Columns? && (erase || Painted(old_) <= Painted(new_))
    ensures
      var p, now := PatchOf(old_, new_, erase), Painted(new_);
      && p.col < Max(Painted(old_), now) && p.from <= p.to <= now
      && (p.col < now ==> p.from == p.col < p.to) && (p.col >= now ==> p.from == p.to == now && erase)
      && (erase ==> p.to == now)
  {
    var n := Max(Painted(old_), Painted(new_));
    var first := First(old_, new_, 0, n).value;
    FirstDiffers(old_, new_, 0, n);
    if first >= Last(old_, new_, n) {
      LastSame(old_, new_, n, first);
    }
  }

  /** An erase whose text fills the last column, which the new row does not leave blank. */
  ghost predicate ReachesLast(p: Patch, new_: Row, width: nat)
    requires width > 0
  {
    p.Columns? && p.erase && Painted(new_) == width && CellAt(new_, width - 1) != Cell(BLANK, DEFAULT_STYLE)
  }

  /** A patch between two rows written over a terminal row that shows the old one. */
  ghost predicate Wrote(old_: Row, new_: Row, erase: bool, t: Term, u: Term) {
    var p := PatchOf(old_, new_, erase);
    && p.Columns? && (erase || Painted(old_) <= Painted(new_))
    && t.Valid() && Painted(old_) <= |t.cells| && Painted(new_) <= |t.cells| && Shows(t.cells, old_)
    && p.to <= |new_.text| && Patched(t, u, new_, p.col, p.from, p.to, erase)
  }

  lemma WroteMost(old_: Row, new_: Row, erase: bool, t: Term, u: Term, c: nat)
    requires Wrote(old_, new_, erase, t, u) && c < |t.cells| && (c > 0 || Differs(old_, new_, 0))
    requires c < |t.cells| - 1 || !ReachesLast(PatchOf(old_, new_, erase), new_, |t.cells|)
    ensures u.cells[c] == CellAt(new_, c)
  {
    var p := PatchOf(old_, new_, erase);
    PatchShape(old_, new_, erase);
    if c < p.col || (!erase && c >= p.to) {
      SameOutside(old_, new_, erase, c);
    }
  }

  lemma WroteLast(old_: Row, new_: Row, erase: bool, t: Term, u: Term)
    requires Wrote(old_, new_, erase, t, u) && ReachesLast(PatchOf(old_, new_, erase), new_, |t.cells|)
    ensures u.cells[|t.cells| - 1] != CellAt(new_, |t.cells| - 1)
  {
    PatchShape(old_, new_, erase);
  }

  lemma WroteFirst(old_: Row, new_: Row, erase: bool, t: Term, u: Term)
    requires Wrote(old_, new_, erase, t, u) && !Differs(old_, new_, 0)
    ensures |t.cells| > 1 && u.cells[0] == CellAt(old_, 0)
  {
    PatchShape(old_, new_, erase);
    LoneColumn(old_, new_, erase, |t.cells|);
    FirstDiffers(old_, new_, 0, Max(Painted(old_), Painted(new_)));
  }

  /** Over every column: painting the patch shows the new row, but for a last cell that an erase reaches and a first one misread. */
  lemma PatchedShows(old_: Row, new_: Row, erase: bool, t: Term, u: Term)
    requires Wrote(old_, new_, erase, t, u)
    ensures Shows(u.cells, new_) <==>
      !ReachesLast(PatchOf(old_, new_, erase), new_, |t.cells|) && (Differs(old_, new_, 0) || CellAt(old_, 0) == CellAt(new_, 0))
  {
    if ReachesLast(PatchOf(old_, new_, erase), new_, |t.cells|) {
      WroteLast(old_, new_, erase, t, u);
    } else {
      if !Differs(old_, new_, 0) {
        WroteFirst(old_, new_, erase, t, u);
      }
      forall c: nat | c < |t.cells| && (c > 0 || Differs(old_, new_, 0))
        ensures u.cells[c] == CellAt(new_, c)
      {
        WroteMost(old_, new_, erase, t, u, c);
      }
    }
  }

  /** On a row of one column a patch begins there. */
  lemma LoneColumn(old_: Row, new_: Row, erase: bool, width: nat)
    requires PatchOf(old_, new_, erase).Columns? && Painted(old_) <= width && Painted(new_) <= width
    ensures width == 1 ==> Differs(old_, new_, 0)
  {
    FirstDiffers(old_, new_, 0, Max(Painted(old_), Painted(new_)));
  }

  /** Finding no difference leaves the row as it is: right, but for a first column misread. */
  lemma NothingShows(old_: Row, new_: Row, erase: bool, cells: seq<Cell>)
    requires PatchOf(old_, new_, erase) == Nothing && cells != [] && Shows(cells, old_)
    ensures Shows(cells, new_) <==> CellAt(old_, 0) == CellAt(new_, 0)
  {
    assert cells[0] == CellAt(old_, 0);
    forall c: nat | 0 < c < |cells|
      ensures cells[c] == CellAt(new_, c)
    {
      NothingDiffers(old_, new_, erase, c);
    }
  }

  lemma NothingDiffers(old_: Row, new_: Row, erase: bool, c: nat)
    requires PatchOf(old_, new_, erase) == Nothing
    ensures !Differs(old_, new_, c)
  {
    var n := Max(Painted(old_), Painted(new_));
    if c >= n {
      BeyondSame(old_, new_, c);
    } else {
      FirstSame(old_, new_, 0, n, c);
    }
  }

  /** The patch reaches the last cell exactly when the rows and the flag say so beforehand. */
  lemma ReachesLastIff(old_: Row, new_: Row, clearTail: bool, width: nat)
    requires width > 0 && Counted(old_) && Counted(new_) && Painted(old_) <= width && Painted(new_) <= width
    ensures ReachesLast(PatchOf(old_, new_, Erases(old_, new_, clearTail)), new_, width) <==> ErasesLastCell(old_, new_, clearTail, width)
  {
    var p := PatchOf(old_, new_, Erases(old_, new_, clearTail));
    if p.Columns? {
      FirstDiffers(old_, new_, 0, Max(Painted(old_), Painted(new_)));
      assert Differs(old_, new_, p.col);
    } else {
      forall c: nat | c < width
        ensures !Differs(old_, new_, c)
      {
        NothingDiffers(old_, new_, Erases(old_, new_, clearTail), c);
      }
    }
  }

  method WritePatch(r: Row, p: Patch, ghost t: Term) returns (ops: seq<Op>)
    requires t.Valid() && Painted(r) <= |t.cells|
    requires p.Columns? ==> p.from <= p.to <= Painted(r) && p.col < |t.cells| && (p.from < p.to ==> p.from == p.col)
    ensures p.Nothing? ==> ApplyAll(t, ops) == t
    ensures p.Whole? ==> Shows(ApplyAll(t, ops).cells, r) && ApplyAll(t, ops).strayed == t.strayed
    ensures p.Columns? ==> Patched(t, ApplyAll(t, ops), r, p.col, p.from, p.to, p.erase)
  {
    match p
    case Nothing => ops := [];
    case Whole => ops := WriteRow(r, t);
    case Columns(col, from, to, erase) => ops := WriteColumns(r, col, from, to, erase, t);
  }

  /**
   A terminal row that shows the old row shows the new one after its patch is
   written, in every column, text and style, and no text leaves the row. The two
   exceptions are exact and known beforehand: an erase asked for although the new
   row's paint reaches the last column, whose cell is then not blank; and a first
   column read under an empty leading run.
   */
  method PaintRow(old_: Row, new_: Row, clearTail: bool, ghost t: Term) returns (p: Patch, ops: seq<Op>)
    requires old_.cells <= 0xffff && new_.cells <= 0xffff
    requires t.Valid() && Painted(old_) <= |t.cells| && Painted(new_) <= |t.cells| && Shows(t.cells, old_)
    ensures Shows(ApplyAll(t, ops).cells, new_) <==>
      !ErasesLastCell(old_, new_, clearTail, |t.cells|) && !MisreadsFirstCell(old_, new_)
    ensures ApplyAll(t, ops).strayed == t.strayed
  {
    p := RowPatch(old_, new_, clearTail);
    ghost var erase := Erases(old_, new_, clearTail);
    if p.Columns? {
      PatchShape(old_, new_, erase);
    }
    ops := WritePatch(new_, p, t);
    if p.Columns? {
      PatchedShows(old_, new_, erase, t, ApplyAll(t, ops));
      ReachesLastIff(old_, new_, clearTail, |t.cells|);
    } else if p.Nothing? && old_ != new_ {
      NothingShows(old_, new_, erase, t.cells);
      ReachesLastIff(old_, new_, clearTail, |t.cells|);
    }
  }
}
