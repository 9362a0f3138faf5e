/** The fast walk: two byte compares, and one pass over the run boundaries. */
module AsciiDiff {
  import opened Prelude
  import opened Rows
  import opened RowDiff

  /** How many leading bytes two texts share. */
  method CommonPrefix(a: Bytes, b: Bytes) returns (n: nat)
    requires |a| == |b|
    ensures n <= |a| && (forall i :: 0 <= i < n ==> a[i] == b[i]) && (n < |a| ==> a[n] != b[n])
  {
    n := 0;
    while n < |a| && a[n] == b[n]
      invariant n <= |a| && forall i :: 0 <= i < n ==> a[i] == b[i]
    {
      n := n + 1;
    }
  }

  method CommonSuffix(a: Bytes, b: Bytes) returns (n: nat)
    requires |a| == |b|
    ensures n <= |a| && (forall i :: |a| - n <= i < |a| ==> a[i] == b[i])
    ensures n < |a| ==> a[|a| - 1 - n] != b[|a| - 1 - n]
  {
    n := 0;
    while n < |a| && a[|a| - 1 - n] == b[|a| - 1 - n]
      invariant n <= |a| && forall i :: |a| - n <= i < |a| ==> a[i] == b[i]
    {
      n := n + 1;
    }
  }

  method FirstInk(s: Bytes) returns (at: Option<nat>)
    ensures at.Some? ==> at.value < |s| && s[at.value] != BLANK && forall i :: 0 <= i < at.value ==> s[i] == BLANK
    ensures at.None? ==> forall i :: 0 <= i < |s| ==> s[i] == BLANK
  {
    for i := 0 to |s|
      invariant forall k :: 0 <= k < i ==> s[k] == BLANK
    {
      if s[i] != BLANK {
        return Some(i);
      }
    }
    return None;
  }

  method LastInk(s: Bytes) returns (at: Option<nat>)
    ensures at.Some? ==> at.value < |s| && s[at.value] != BLANK && forall i :: at.value < i < |s| ==> s[i] == BLANK
    ensures at.None? ==> forall i :: 0 <= i < |s| ==> s[i] == BLANK
  {
    for i := |s| downto 0
      invariant forall k :: i <= k < |s| ==> s[k] == BLANK
    {
      if s[i] != BLANK {
        return Some(i);
      }
    }
    return None;
  }

  /** The first of some marks, and one past the last; nothing and zero when there are none. */
  ghost predicate Bounds(marks: seq<bool>, first: Option<nat>, last: nat) {
    && (first.None? ==> last == 0)
    && (first.Some? ==> first.value < last <= |marks| && marks[first.value] && marks[last - 1])
    && forall i :: 0 <= i < |marks| && (first.None? || i < first.value || last <= i) ==> !marks[i]
  }

  function Sooner(a: Option<nat>, b: Option<nat>): Option<nat> {
    if a.None? then b else if b.None? then a else Some(Min(a.value, b.value))
  }

  ghost predicate Either(a: seq<bool>, b: seq<bool>, c: seq<bool>) {
    |a| == |b| == |c| && forall i :: 0 <= i < |a| ==> c[i] == (a[i] || b[i])
  }

  lemma BoundsEither(a: seq<bool>, b: seq<bool>, c: seq<bool>, fa: Option<nat>, la: nat, fb: Option<nat>, lb: nat)
    requires Either(a, b, c) && Bounds(a, fa, la) && Bounds(b, fb, lb)
    ensures Bounds(c, Sooner(fa, fb), Max(la, lb))
  {
  }

  /** A painted byte, or the blank past the paint. */
  function Padded(s: Bytes, i: nat): nat {
    if i < |s| then s[i] else BLANK
  }

  ghost function ByteMarks(a: Bytes, b: Bytes): (m: seq<bool>)
    ensures |m| == Max(|a|, |b|) && forall i :: 0 <= i < |m| ==> m[i] == (Padded(a, i) != Padded(b, i))
  {
    seq(Max(|a|, |b|), i requires 0 <= i < Max(|a|, |b|) => Padded(a, i) != Padded(b, i))
  }

  function StyleFor(runs: seq<Run>, i: nat): nat {
    StyleOf(runs, Seek(runs, 0, i))
  }

  ghost function StyleMarks(a: seq<Run>, b: seq<Run>, n: nat): (m: seq<bool>)
    ensures |m| == n && forall i :: 0 <= i < n ==> m[i] == (StyleFor(a, i) != StyleFor(b, i))
  {
    seq(n, i requires 0 <= i < n => StyleFor(a, i) != StyleFor(b, i))
  }

  ghost function Marks(old_: Row, new_: Row, n: nat): (m: seq<bool>)
    ensures |m| == n && forall i :: 0 <= i < n ==> m[i] == Differs(old_, new_, i)
  {
    seq(n, i requires 0 <= i < n => Differs(old_, new_, i))
  }

  lemma MarksSplit(old_: Row, new_: Row, a: Bytes, b: Bytes)
    requires Ascii(old_) && Ascii(new_)
    requires a == old_.text[..Painted(old_)] && b == new_.text[..Painted(new_)]
    ensures Either(ByteMarks(a, b), StyleMarks(old_.runs, new_.runs, Max(|a|, |b|)), Marks(old_, new_, Max(|a|, |b|)))
  {
    forall i: nat | i < Max(|a|, |b|)
      ensures Differs(old_, new_, i) == (Padded(a, i) != Padded(b, i) || StyleFor(old_.runs, i) != StyleFor(new_.runs, i))
    {
      SeenIs(old_, i);
      SeenIs(new_, i);
      CellIs(old_, i);
      CellIs(new_, i);
    }
  }

  lemma BoundsAre(old_: Row, new_: Row, n: nat, first: Option<nat>, last: nat)
    requires Bounds(Marks(old_, new_, n), first, last)
    ensures First(old_, new_, 0, n) == first && Last(old_, new_, n) == last
  {
    var m := Marks(old_, new_, n);
    assert forall c: nat {:trigger Differs(old_, new_, c)} :: c < n ==> m[c] == Differs(old_, new_, c);
    FirstIs(old_, new_, 0, n, first);
    LastIs(old_, new_, n, last);
  }

  ghost function Unequal(a: Bytes, b: Bytes): (m: seq<bool>)
    requires |a| == |b|
    ensures |m| == |a| && forall i :: 0 <= i < |a| ==> m[i] == (a[i] != b[i])
  {
    seq(|a|, i requires 0 <= i < |a| => a[i] != b[i])
  }

  ghost function Inked(s: Bytes): (m: seq<bool>)
    ensures |m| == |s| && forall i :: 0 <= i < |s| ==> m[i] == (s[i] != BLANK)
  {
    seq(|s|, i requires 0 <= i < |s| => s[i] != BLANK)
  }

  method CompareShared(a: Bytes, b: Bytes) returns (first: Option<nat>, last: nat)
    requires |a| == |b|
    ensures Bounds(Unequal(a, b), first, last)
  {
    first, last := None, 0;
    var common := CommonPrefix(a, b);
    if common < |a| {
      var suffix := CommonSuffix(a, b);
      first, last := Some(common), |a| - suffix;
    }
  }

  /** Bounds of one stretch of marks after another. */
  lemma BoundsAppend(a: seq<bool>, b: seq<bool>, fa: Option<nat>, la: nat, fb: Option<nat>, lb: nat)
    requires Bounds(a, fa, la) && Bounds(b, fb, lb)
    ensures Bounds(a + b, if fa.Some? then fa else if fb.Some? then Some(|a| + fb.value) else None, if fb.Some? then |a| + lb else la)
  {
  }

  /** The marks over a shared stretch and over what one row paints past the other. */
  lemma ByteMarksAre(a: Bytes, b: Bytes, shared: nat, overhang: Bytes)
    requires shared == Min(|a|, |b|) && overhang == if |a| > |b| then a[shared..] else b[shared..]
    ensures ByteMarks(a, b) == Unequal(a[..shared], b[..shared]) + Inked(overhang)
  {
  }

  /** Where the painted bytes differ, the shorter row read as blank past its paint. */
  method CompareBytes(a: Bytes, b: Bytes) returns (first: Option<nat>, last: nat)
    ensures Bounds(ByteMarks(a, b), first, last)
  {
    var shared := Min(|a|, |b|);
    first, last := CompareShared(a[..shared], b[..shared]);
    var overhang := if |a| > |b| then a[shared..] else b[shared..];
    ghost var fs, ls := first, last;
    var head, tail := InkBounds(overhang);
    if head.Some? && first.None? {
      first := Some(shared + head.value);
    }
    if tail > 0 {
      last := shared + tail;
    }
    ByteMarksAre(a, b, shared, overhang);
    BoundsAppend(Unequal(a[..shared], b[..shared]), Inked(overhang), fs, ls, head, tail);
  }

  method InkBounds(s: Bytes) returns (first: Option<nat>, last: nat)
    ensures Bounds(Inked(s), first, last)
  {
    first := FirstInk(s);
    var tail := LastInk(s);
    last := if tail.Some? then tail.value + 1 else 0;
  }

  /** Across an interval no boundary cuts, the style is the one at its start. */
  lemma StyleHolds(runs: seq<Run>, k: nat, end: nat, at: nat, c: nat)
    requires Covers(runs, k, end, at) && at <= c && (k < |runs| ==> c < end)
    ensures Seek(runs, 0, c) == k
  {
    SeekCovers(runs, at);
    SeekIs(runs, c, k);
  }

  lemma StyleInterval(a: seq<Run>, b: seq<Run>, k: nat, kEnd: nat, j: nat, jEnd: nat, at: nat, end: nat)
    requires Covers(a, k, kEnd, at) && Covers(b, j, jEnd, at) && at < end
    requires (k < |a| ==> end <= kEnd) && (j < |b| ==> end <= jEnd)
    ensures forall c :: at <= c < end ==> StyleMarks(a, b, end)[c] == (StyleOf(a, k) != StyleOf(b, j))
  {
    forall c | at <= c < end
      ensures StyleMarks(a, b, end)[c] == (StyleOf(a, k) != StyleOf(b, j))
    {
      StyleHolds(a, k, kEnd, at, c);
      StyleHolds(b, j, jEnd, at, c);
    }
  }

  /** Bounds after one more interval, marked throughout or not at all. */
  lemma BoundsInterval(m: seq<bool>, at: nat, mark: bool, first: Option<nat>, last: nat)
    requires at < |m| && Bounds(m[..at], first, last) && forall i :: at <= i < |m| ==> m[i] == mark
    ensures Bounds(m, if mark then Sooner(first, Some(at)) else first, if mark then |m| else last)
  {
    assert forall i :: 0 <= i < at ==> m[..at][i] == m[i];
  }

  lemma StyleBounds(a: seq<Run>, b: seq<Run>, k: nat, kEnd: nat, j: nat, jEnd: nat, at: nat, end: nat, first: Option<nat>, last: nat)
    requires Covers(a, k, kEnd, at) && Covers(b, j, jEnd, at) && at < end
    requires (k < |a| ==> end <= kEnd) && (j < |b| ==> end <= jEnd)
    requires Bounds(StyleMarks(a, b, at), first, last)
    ensures
      var mark := StyleOf(a, k) != StyleOf(b, j);
      Bounds(StyleMarks(a, b, end), if mark then Sooner(first, Some(at)) else first, if mark then end else last)
  {
    StyleInterval(a, b, k, kEnd, j, jEnd, at, end);
    assert StyleMarks(a, b, end)[..at] == StyleMarks(a, b, at);
    BoundsInterval(StyleMarks(a, b, end), at, StyleOf(a, k) != StyleOf(b, j), first, last);
  }

  /** The next boundary of either row's runs, within `n`. */
  function Boundary(a: seq<Run>, b: seq<Run>, k: nat, kEnd: nat, j: nat, jEnd: nat, n: nat): (end: nat)
    ensures end <= n && (k < |a| ==> end <= kEnd) && (j < |b| ==> end <= jEnd)
    ensures end == n || (k < |a| && end == kEnd) || (j < |b| && end == jEnd)
  {
    Min(if k < |a| then kEnd else n, Min(if j < |b| then jEnd else n, n))
  }

  lemma BoundaryAhead(a: seq<Run>, b: seq<Run>, k: nat, kEnd: nat, j: nat, jEnd: nat, at: nat, n: nat)
    requires Covers(a, k, kEnd, at) && Covers(b, j, jEnd, at) && at < n
    ensures at < Boundary(a, b, k, kEnd, j, jEnd, n)
  {
    SeekCovers(a, at);
    SeekCovers(b, at);
  }

  /** Where both rows' runs stand at a column. */
  datatype Cut = Cut(k: nat, kEnd: nat, j: nat, jEnd: nat, at: nat)

  ghost predicate CutAt(a: seq<Run>, b: seq<Run>, c: Cut) {
    Covers(a, c.k, c.kEnd, c.at) && Covers(b, c.j, c.jEnd, c.at)
  }

  method CutTo(a: seq<Run>, b: seq<Run>, c: Cut, end: nat) returns (d: Cut)
    requires CutAt(a, b, c) && c.at <= end
    ensures CutAt(a, b, d) && d.at == end
  {
    SeekCovers(a, c.at);
    SeekCovers(b, c.at);
    var k, kEnd := SeekTo(a, c.k, c.kEnd, end);
    var j, jEnd := SeekTo(b, c.j, c.jEnd, end);
    d := Cut(k, kEnd, j, jEnd, end);
  }

  /** The bounds the styles give up to a column, and what they make of the bounds the bytes gave. */
  ghost predicate Folded(a: seq<Run>, b: seq<Run>, at: nat, first0: Option<nat>, last0: nat, first: Option<nat>, last: nat) {
    exists sf: Option<nat>, sl: nat ::
      Bounds(StyleMarks(a, b, at), sf, sl) && first == Sooner(first0, sf) && last == Max(last0, sl)
  }

  lemma FoldedOn(a: seq<Run>, b: seq<Run>, c: Cut, end: nat, first0: Option<nat>, last0: nat, first: Option<nat>, last: nat)
    requires CutAt(a, b, c) && c.at < end && (c.k < |a| ==> end <= c.kEnd) && (c.j < |b| ==> end <= c.jEnd)
    requires Folded(a, b, c.at, first0, last0, first, last)
    ensures
      var mark := StyleOf(a, c.k) != StyleOf(b, c.j);
      Folded(a, b, end, first0, last0, if mark then Sooner(first, Some(c.at)) else first, if mark then Max(last, end) else last)
  {
    var sf: Option<nat>, sl: nat :|
      Bounds(StyleMarks(a, b, c.at), sf, sl) && first == Sooner(first0, sf) && last == Max(last0, sl);
    StyleBounds(a, b, c.k, c.kEnd, c.j, c.jEnd, c.at, end, sf, sl);
    assert sl <= c.at;
    var mark := StyleOf(a, c.k) != StyleOf(b, c.j);
    var tf, tl := if mark then Sooner(sf, Some(c.at)) else sf, if mark then end else sl;
    assert Bounds(StyleMarks(a, b, end), tf, tl);
  }

  lemma FoldedNone(a: seq<Run>, b: seq<Run>, first: Option<nat>, last: nat)
    ensures Folded(a, b, 0, first, last, first, last)
  {
    assert Bounds(StyleMarks(a, b, 0), None, 0);
  }

  /** Fold the intervals where the styles differ into the bounds the bytes gave. */
  method CompareStyles(a: seq<Run>, b: seq<Run>, n: nat, first0: Option<nat>, last0: nat)
    returns (first: Option<nat>, last: nat)
    requires forall i :: 0 <= i < |a| ==> a[i].bytes > 0
    requires forall i :: 0 <= i < |b| ==> b[i].bytes > 0
    ensures Folded(a, b, n, first0, last0, first, last)
  {
    first, last := first0, last0;
    FoldedNone(a, b, first0, last0);
    var k, kEnd := Begin(a);
    var j, jEnd := Begin(b);
    var cut := Cut(k, kEnd, j, jEnd, 0);
    while cut.at < n
      invariant cut.at <= n && CutAt(a, b, cut) && Folded(a, b, cut.at, first0, last0, first, last)
    {
      BoundaryAhead(a, b, cut.k, cut.kEnd, cut.j, cut.jEnd, cut.at, n);
      var end := Boundary(a, b, cut.k, cut.kEnd, cut.j, cut.jEnd, n);
      FoldedOn(a, b, cut, end, first0, last0, first, last);
      if StyleOf(a, cut.k) != StyleOf(b, cut.j) {
        first, last := Sooner(first, Some(cut.at)), Max(last, end);
      }
      cut := CutTo(a, b, cut, end);
    }
  }

  /** The bytes' bounds with the styles' folded in are the first and last differing columns. */
  lemma FoldedAre(old_: Row, new_: Row, a: Bytes, b: Bytes, bf: Option<nat>, bl: nat, first: Option<nat>, last: nat)
    requires Ascii(old_) && Ascii(new_)
    requires a == old_.text[..Painted(old_)] && b == new_.text[..Painted(new_)] && Bounds(ByteMarks(a, b), bf, bl)
    requires Folded(old_.runs, new_.runs, Max(|a|, |b|), bf, bl, first, last)
    ensures First(old_, new_, 0, Max(|a|, |b|)) == first && Last(old_, new_, Max(|a|, |b|)) == last
    ensures first.Some? ==> first.value < 0xffff
  {
    var n := Max(|a|, |b|);
    var sf: Option<nat>, sl: nat :|
      Bounds(StyleMarks(old_.runs, new_.runs, n), sf, sl) && first == Sooner(bf, sf) && last == Max(bl, sl);
    MarksSplit(old_, new_, a, b);
    BoundsEither(ByteMarks(a, b), StyleMarks(old_.runs, new_.runs, n), Marks(old_, new_, n), bf, bl, sf, sl);
    BoundsAre(old_, new_, n, first, last);
  }

  /** The same patch as the cell-by-cell walk, from bytes and run boundaries alone. */
  method AsciiPatch(old_: Row, new_: Row, erase: bool) returns (p: Patch)
    requires Ascii(old_) && Ascii(new_)
    ensures p == PatchOf(old_, new_, erase)
  {
    var was, now := Painted(old_), Painted(new_);
    var before, after := old_.text[..was], new_.text[..now];
    var first, last := CompareBytes(before, after);
    ghost var bf, bl := first, last;
    first, last := CompareStyles(old_.runs, new_.runs, Max(was, now), first, last);
    FoldedAre(old_, new_, before, after, bf, bl, first, last);
    if first.None? {
      return Nothing;
    }
    var from := Min(first.value, now);
    var to := if erase then now else Min(last, now);
    return Columns(Min(first.value, 0xffff), from, Max(to, from), erase);
  }

  // ---- Which rows take the fast walk ----

  /** What is proved of a row of ASCII text: nothing, its columns, or also that a column is a byte of a run. */
  datatype Proof = Refused | Measured(cells: nat) | Bytewise(cells: nat)

  lemma CountedNeedsRun(r: Row, k: nat)
    requires k < |r.runs| && Counted(r)
    ensures End(r.runs, k + 1) <= |r.text| && End(r.runs, k + 1) <= r.cells && r.runs[k].cells == r.runs[k].bytes
  {
    EndMonotone(r.runs, k + 1, |r.runs|);
  }

  /** The cells a row of ASCII text paints, when its runs count what its bytes do and the row has room for them. */
  method PaintedCells(r: Row) returns (proof: Proof)
    requires r.cells <= 0xffff
    ensures proof.Refused? <==> !Counted(r)
    ensures proof.Bytewise? <==> Ascii(r)
    ensures !proof.Refused? ==> proof.cells == Painted(r)
  {
    var at, counted, full := 0, 0, true;
    for k := 0 to |r.runs|
      invariant at == counted == End(r.runs, k) <= |r.text| && counted <= 0xffff
      invariant forall i :: 0 <= i < k ==> r.runs[i].cells == r.runs[i].bytes
      invariant full <==> forall i :: 0 <= i < k ==> r.runs[i].bytes > 0
    {
      var end := at + r.runs[k].bytes;
      if end > |r.text| || r.runs[k].bytes != r.runs[k].cells || counted + r.runs[k].cells > 0xffff {
        if Counted(r) {
          CountedNeedsRun(r, k);
          assert false;
        }
        return Refused;
      }
      full := full && r.runs[k].bytes > 0;
      counted, at := counted + r.runs[k].cells, end;
    }
    var total := counted + (Painted(r) - at);
    if total > 0xffff || total > r.cells {
      return Refused;
    }
    return if full then Bytewise(total) else Measured(total);
  }

  /** Whether the tail of the row is to be erased: the server says so, or the row got shorter. */
  predicate Erases(old_: Row, new_: Row, clearTail: bool) {
    clearTail || Painted(old_) > Painted(new_)
  }

  /** How to turn one row into another. */
  method RowPatch(old_: Row, new_: Row, clearTail: bool) returns (p: Patch)
    requires old_.cells <= 0xffff && new_.cells <= 0xffff
    ensures p == if old_ == new_ then Nothing
      else if Counted(old_) && Counted(new_) then PatchOf(old_, new_, Erases(old_, new_, clearTail)) else Whole
  {
    if old_ == new_ {
      return Nothing;
    }
    var was := PaintedCells(old_);
    var now := PaintedCells(new_);
    if was.Refused? || now.Refused? {
      return Whole;
    }
    var erase := clearTail || was.cells > now.cells;
    if was.Bytewise? && now.Bytewise? {
      p := AsciiPatch(old_, new_, erase);
    } else {
      p := MeasuredPatch(old_, new_, erase);
    }
  }
}
