/**
 A row of the screen as it travels: text, style runs tiling a prefix of it, and a
 cell count. Where every painted byte is printable ASCII a column is a byte.
 */
module Rows {
  import opened Prelude

  type Bytes = seq<nat>

  const BLANK: nat := 32
  const DEFAULT_STYLE: nat := 0

  /** A span of cells sharing a style; styles are numbered, with zero the default. */
  datatype Run = Run(bytes: nat, cells: nat, style: nat)

  datatype Row = Row(text: Bytes, runs: seq<Run>, cells: nat)

  /** Where the first `k` runs end. */
  function End(runs: seq<Run>, k: nat): nat
    requires k <= |runs|
  {
    if k == 0 then 0 else End(runs, k - 1) + runs[k - 1].bytes
  }

  function Trimmed(text: Bytes): (n: nat)
    ensures n <= |text| && (n > 0 ==> text[n - 1] != BLANK)
    ensures forall i :: n <= i < |text| ==> text[i] == BLANK
  {
    if text == [] || text[|text| - 1] != BLANK then |text| else Trimmed(text[..|text| - 1])
  }

  /** The bytes that are painted: everything styled, and unstyled text without its trailing blanks. */
  function Painted(r: Row): (n: nat)
    ensures n <= |r.text| && (n > 0 ==> n <= End(r.runs, |r.runs|) || r.text[n - 1] != BLANK)
  {
    Min(Max(Min(End(r.runs, |r.runs|), |r.text|), Trimmed(r.text)), |r.text|)
  }

  /** The runs of a row of ASCII text count their bytes, and they and the tail fit the row. */
  ghost predicate Counted(r: Row) {
    && (forall k :: 0 <= k < |r.runs| ==> r.runs[k].cells == r.runs[k].bytes)
    && End(r.runs, |r.runs|) <= |r.text|
    && Painted(r) <= r.cells <= 0xffff
  }

  ghost predicate NoEmptyRun(r: Row) {
    forall k :: 0 <= k < |r.runs| ==> r.runs[k].bytes > 0
  }

  /** Such a row with no empty run: a run boundary is a column boundary. */
  ghost predicate Ascii(r: Row) {
    Counted(r) && NoEmptyRun(r)
  }

  /** The index of the run that covers a byte, looking from run `k` on; the number of runs when none does. */
  function Seek(runs: seq<Run>, k: nat, byte: nat): (j: nat)
    requires k <= |runs|
    ensures k <= j <= |runs|
    ensures j < |runs| ==> byte < End(runs, j + 1)
    ensures k < j ==> End(runs, j) <= byte
    decreases |runs| - k
  {
    if k < |runs| && byte >= End(runs, k + 1) then Seek(runs, k + 1, byte) else k
  }

  function StyleOf(runs: seq<Run>, k: nat): nat {
    if k < |runs| then runs[k].style else DEFAULT_STYLE
  }

  function StyleAt(r: Row, col: nat): nat {
    StyleOf(r.runs, Seek(r.runs, 0, col))
  }

  /** Past the painted text every column is the blank that was dropped. */
  function ByteAt(r: Row, col: nat): nat {
    if col < Painted(r) then r.text[col] else BLANK
  }

  /** What a column of the row shows. */
  datatype Cell = Cell(byte: nat, style: nat)

  function CellAt(r: Row, col: nat): Cell {
    if col < Painted(r) then Cell(r.text[col], StyleAt(r, col)) else Cell(BLANK, DEFAULT_STYLE)
  }

  /** What the cell-by-cell walk takes a column for: it reads the first column under the first run, even an empty one. */
  function SeenAt(r: Row, col: nat): Cell {
    if 0 == col < Painted(r) then Cell(r.text[0], StyleOf(r.runs, 0)) else CellAt(r, col)
  }

  lemma {:induction false} EndMonotone(runs: seq<Run>, j: nat, k: nat)
    requires j <= k <= |runs|
    ensures End(runs, j) <= End(runs, k)
    decreases k
  {
    if j < k {
      EndMonotone(runs, j, k - 1);
    }
  }

  /** A walk that has reached a byte covers it exactly as one from the start does. */
  lemma {:induction false} SeekIs(runs: seq<Run>, byte: nat, k: nat)
    requires k <= |runs| && End(runs, k) <= byte && (k < |runs| ==> byte < End(runs, k + 1))
    ensures Seek(runs, 0, byte) == k
  {
    SeekReaches(runs, byte, 0, k);
  }

  lemma {:induction false} SeekReaches(runs: seq<Run>, byte: nat, j: nat, k: nat)
    requires j <= k <= |runs| && End(runs, k) <= byte && (k < |runs| ==> byte < End(runs, k + 1))
    ensures Seek(runs, j, byte) == k
    decreases k - j
  {
    if j < k {
      EndMonotone(runs, j + 1, k);
      SeekReaches(runs, byte, j + 1, k);
    }
  }

  /** Every byte has a covering run, or lies past them all. */
  lemma SeekCovers(runs: seq<Run>, byte: nat)
    ensures
      var k := Seek(runs, 0, byte);
      End(runs, k) <= byte && (k < |runs| ==> byte < End(runs, k + 1))
  {
  }

  /** Without an empty run the walk sees what the row shows. */
  lemma SeenIs(r: Row, col: nat)
    requires col > 0 || NoEmptyRun(r)
    ensures SeenAt(r, col) == CellAt(r, col)
  {
    if col == 0 {
      SeekIs(r.runs, 0, 0);
    }
  }

  /** Everything styled is painted, so an unpainted column has the default style. */
  lemma CellIs(r: Row, col: nat)
    requires Counted(r)
    ensures CellAt(r, col) == Cell(ByteAt(r, col), StyleAt(r, col))
  {
    if col >= Painted(r) {
      assert End(r.runs, |r.runs|) <= Painted(r);
      SeekIs(r.runs, col, |r.runs|);
    }
  }

  // ---- What a patch is ----

  datatype Patch = Nothing | Columns(col: nat, from: nat, to: nat, erase: bool) | Whole

  /** Whether a walk of the two rows finds a difference in a column. */
  predicate Differs(old_: Row, new_: Row, col: nat) {
    SeenAt(old_, col) != SeenAt(new_, col)
  }

  /** The first differing column below `n`. */
  ghost predicate IsFirst(old_: Row, new_: Row, n: nat, first: Option<nat>) {
    && (first.Some? ==> first.value < n && Differs(old_, new_, first.value))
    && forall c: nat {:trigger Differs(old_, new_, c)} :: c < (if first.Some? then first.value else n) ==> !Differs(old_, new_, c)
  }

  /** One past the last differing column below `n`. */
  ghost predicate IsLast(old_: Row, new_: Row, n: nat, last: nat) {
    && last <= n && (last > 0 ==> Differs(old_, new_, last - 1))
    && forall c: nat {:trigger Differs(old_, new_, c)} :: last <= c < n ==> !Differs(old_, new_, c)
  }

  function First(old_: Row, new_: Row, from: nat, n: nat): Option<nat>
    decreases n - from
  {
    if from >= n then None else if Differs(old_, new_, from) then Some(from) else First(old_, new_, from + 1, n)
  }

  function Last(old_: Row, new_: Row, n: nat): (last: nat)
    ensures last <= n
  {
    if n == 0 then 0 else if Differs(old_, new_, n - 1) then n else Last(old_, new_, n - 1)
  }

  lemma {:induction false} FirstIs(old_: Row, new_: Row, from: nat, n: nat, first: Option<nat>)
    requires IsFirst(old_, new_, n, first) && from <= (if first.Some? then first.value else n)
    ensures First(old_, new_, from, n) == first
    decreases n - from
  {
    if from < n {
      assert first != Some(from) ==> !Differs(old_, new_, from);
      if first != Some(from) {
        FirstIs(old_, new_, from + 1, n, first);
      }
    }
  }

  lemma {:induction false} LastIs(old_: Row, new_: Row, n: nat, last: nat)
    requires IsLast(old_, new_, n, last)
    ensures Last(old_, new_, n) == last
    decreases n
  {
    if last < n {
      assert !Differs(old_, new_, n - 1);
      LastIs(old_, new_, n - 1, last);
    }
  }

  /** The first difference found so far, one column on. */
  lemma {:induction false} FirstExtends(old_: Row, new_: Row, from: nat, n: nat)
    requires from <= n
    ensures First(old_, new_, from, n + 1) ==
      if First(old_, new_, from, n).Some? then First(old_, new_, from, n)
      else if Differs(old_, new_, n) then Some(n) else None
    decreases n - from
  {
    if from < n && !Differs(old_, new_, from) {
      FirstExtends(old_, new_, from + 1, n);
    }
  }

  lemma {:induction false} FirstStays(old_: Row, new_: Row, m: nat, n: nat)
    requires m <= n && First(old_, new_, 0, m).Some?
    ensures First(old_, new_, 0, n) == First(old_, new_, 0, m)
    decreases n
  {
    if m < n {
      FirstStays(old_, new_, m, n - 1);
      FirstExtends(old_, new_, 0, n - 1);
    }
  }

  /** No difference is found before the first. */
  lemma {:induction false} FirstSame(old_: Row, new_: Row, from: nat, n: nat, c: nat)
    requires from <= c < n && (First(old_, new_, from, n).Some? ==> c < First(old_, new_, from, n).value)
    ensures !Differs(old_, new_, c)
    decreases n - from
  {
    if from < c {
      FirstSame(old_, new_, from + 1, n, c);
    }
  }

  lemma {:induction false} FirstDiffers(old_: Row, new_: Row, from: nat, n: nat)
    requires First(old_, new_, from, n).Some?
    ensures from <= First(old_, new_, from, n).value < n && Differs(old_, new_, First(old_, new_, from, n).value)
    decreases n - from
  {
    if !Differs(old_, new_, from) {
      FirstDiffers(old_, new_, from + 1, n);
    }
  }

  /** Nor after the last. */
  lemma {:induction false} LastSame(old_: Row, new_: Row, n: nat, c: nat)
    requires Last(old_, new_, n) <= c < n
    ensures !Differs(old_, new_, c)
  {
    if c < n - 1 {
      LastSame(old_, new_, n - 1, c);
    }
  }

  /**
   The patch between two ASCII rows: nothing when no column differs, and otherwise
   from the first differing column to the last, or to the end of the paint when
   the tail is erased.
   */
  function PatchOf(old_: Row, new_: Row, erase: bool): Patch {
    var now, n := Painted(new_), Max(Painted(old_), Painted(new_));
    match First(old_, new_, 0, n)
    case None => Nothing
    case Some(first) =>
      var from := Min(first, now);
      Columns(first, from, Max(if erase then now else Min(Last(old_, new_, n), now), from), erase)
  }

  /** Beyond both rows' paint nothing differs. */
  lemma BeyondSame(old_: Row, new_: Row, col: nat)
    requires col >= Max(Painted(old_), Painted(new_))
    ensures !Differs(old_, new_, col)
  {
  }
}
