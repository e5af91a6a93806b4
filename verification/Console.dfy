/**
 The console's circular bitmap.  A bitmap of `height` lines starts at physical line `offset`, so virtual
 line v lives at physical line v + offset, wrapped at height.  Whole-screen scrolling only moves the
 offset; partial scrolling copies blocks of lines, cut where source or destination wraps.
 */
module Console {

  type byte = bv8
  type Line = seq<byte>

  const ALIGN: nat := 2

  /** Names an index, so that the quantifier below is instantiated only where a proof asks for it. */
  ghost predicate At(k: int)
  {
    true
  }

  /** `after` is `before` with n elements copied, all at once, from s to d. */
  ghost predicate Copied<T>(before: seq<T>, after: seq<T>, d: nat, s: nat, n: nat)
    requires d + n <= |before| && s + n <= |before|
  {
    && |after| == |before|
    && forall k: nat {:trigger At(k)} :: At(k) && k < |before| ==>
         after[k] == before[if d <= k < d + n then s + (k - d) else k]
  }

  lemma CopiedAt<T>(before: seq<T>, after: seq<T>, d: nat, s: nat, n: nat, k: nat)
    requires d + n <= |before| && s + n <= |before| && k < |before|
    requires Copied(before, after, d, s, n)
    ensures after[k] == before[if d <= k < d + n then s + (k - d) else k]
  {
    assert At(k);
  }

  // ----- planes, lines and screens

  lemma Distribute(w: nat, a: nat, b: nat)
    ensures (a + b) * w == a * w + b * w
  {
  }

  lemma MulMono(w: nat, a: nat, b: nat)
    requires a <= b
    ensures a * w <= b * w
  {
    assert b * w == a * w + (b - a) * w;
  }

  /** PLANESIZE: the bytes in a plane of `height` lines of w bytes. */
  function PlaneSize(w: nat, height: nat): (size: nat)
  {
    if height == 0 then 0 else w + PlaneSize(w, height - 1)
  }

  lemma {:induction false} PlaneSizeIsProduct(w: nat, height: nat)
    ensures PlaneSize(w, height) == height * w
  {
    if height > 0 {
      PlaneSizeIsProduct(w, height - 1);
      Distribute(w, height - 1, 1);
    }
  }

  lemma BlockFits(w: nat, height: nat, d: nat, n: nat)
    requires d + n <= height
    ensures d * w + n * w <= height * w
  {
    Distribute(w, d, n);
    MulMono(w, d + n, height);
  }

  /** Blocks of lines that lie in order, or apart, do so byte by byte too. */
  lemma Apart(w: nat, a: nat, b: nat, n: nat)
    ensures a <= b ==> a * w <= b * w
    ensures b + n <= a ==> b * w + n * w <= a * w
  {
    if a <= b {
      MulMono(w, a, b);
    }
    if b + n <= a {
      BlockFits(w, a, b, n);
    }
  }

  /** The lines of a plane in physical order. */
  ghost function Rows(plane: seq<byte>, w: nat, height: nat): (rows: seq<Line>)
    requires |plane| == PlaneSize(w, height)
    ensures |rows| == height
    decreases height
  {
    if height == 0 then [] else [plane[..w]] + Rows(plane[w..], w, height - 1)
  }

  lemma {:induction false} RowsAt(plane: seq<byte>, w: nat, height: nat, r: nat)
    requires |plane| == PlaneSize(w, height) && r < height
    ensures r * w + w <= |plane|
    ensures Rows(plane, w, height)[r] == plane[r * w..r * w + w]
    decreases height
  {
    PlaneSizeIsProduct(w, height);
    BlockFits(w, height, r, 1);
    if r > 0 {
      RowsAt(plane[w..], w, height - 1, r - 1);
      Distribute(w, r - 1, 1);
      assert plane[w..][(r - 1) * w..(r - 1) * w + w] == plane[r * w..r * w + w];
    }
  }

  /** A simultaneous byte copy of n lines' worth of bytes is a simultaneous copy of n lines. */
  lemma CopyBytesIsCopyRows(plane: seq<byte>, plane': seq<byte>, w: nat, height: nat, d: nat, s: nat, n: nat)
    requires |plane| == |plane'| == PlaneSize(w, height) && d + n <= height && s + n <= height
    requires d * w + n * w <= |plane| && s * w + n * w <= |plane|
    requires Copied(plane, plane', d * w, s * w, n * w)
    ensures Copied(Rows(plane, w, height), Rows(plane', w, height), d, s, n)
  {
    forall r: nat {:trigger At(r)} | At(r) && r < height
      ensures Rows(plane', w, height)[r] == Rows(plane, w, height)[if d <= r < d + n then s + (r - d) else r]
    {
      CopiedLine(plane, plane', w, height, d, s, n, r);
    }
  }

  lemma CopiedLine(plane: seq<byte>, plane': seq<byte>, w: nat, height: nat, d: nat, s: nat, n: nat, r: nat)
    requires |plane| == |plane'| == PlaneSize(w, height) && d + n <= height && s + n <= height && r < height
    requires d * w + n * w <= |plane| && s * w + n * w <= |plane|
    requires Copied(plane, plane', d * w, s * w, n * w)
    ensures Rows(plane', w, height)[r] == Rows(plane, w, height)[if d <= r < d + n then s + (r - d) else r]
  {
    RowsAt(plane, w, height, if d <= r < d + n then s + (r - d) else r);
    RowsAt(plane', w, height, r);
    CopiedRow(plane, plane', w, d, s, n, r);
  }

  lemma CopiedRow(plane: seq<byte>, plane': seq<byte>, w: nat, d: nat, s: nat, n: nat, r: nat)
    requires d * w + n * w <= |plane| && s * w + n * w <= |plane|
    requires Copied(plane, plane', d * w, s * w, n * w)
    requires r * w + w <= |plane|
    requires d <= r < d + n ==> (s + (r - d)) * w + w <= |plane|
    ensures var q: nat := if d <= r < d + n then s + (r - d) else r;
            plane'[r * w..r * w + w] == plane[q * w..q * w + w]
  {
    if w == 0 {
      return;
    }
    var q: nat := if d <= r < d + n then s + (r - d) else r;
    RowOffsets(w, d, s, n, r, q);
    CopiedSlice(plane, plane', d * w, s * w, n * w, r * w, q * w, w);
  }

  lemma RowOffsets(w: nat, d: nat, s: nat, n: nat, r: nat, q: nat)
    requires 0 < w && q == if d <= r < d + n then s + (r - d) else r
    ensures if d <= r < d + n then
              d * w <= r * w && r * w + w <= d * w + n * w && q * w == s * w + (r * w - d * w)
            else r * w + w <= d * w || d * w + n * w <= r * w
  {
    if d <= r < d + n {
      var i := r - d;
      Distribute(w, d, i);
      Distribute(w, s, i);
      BlockFits(w, n, i, 1);
    } else if r < d {
      BlockFits(w, d, r, 1);
    } else {
      BlockFits(w, r, d, n);
    }
  }

  lemma CopiedSlice<T>(p: seq<T>, p': seq<T>, d: nat, s: nat, n: nat, a: nat, b: nat, w: nat)
    requires d + n <= |p| && s + n <= |p| && Copied(p, p', d, s, n)
    requires if d <= a < d + n then a + w <= d + n && b == s + (a - d)
             else a + w <= |p| && (a + w <= d || d + n <= a) && b == a
    ensures p'[a..a + w] == p[b..b + w]
  {
    var x, y := p'[a..a + w], p[b..b + w];
    forall k: nat | k < w
      ensures x[k] == y[k]
    {
      CopiedAt(p, p', d, s, n, a + k);
    }
  }

  /** p is the physical line of virtual line v. */
  ghost predicate Holds(p: nat, v: nat, offset: nat, height: nat)
  {
    p < height && (p == v + offset || p + height == v + offset)
  }

  /** The lines in virtual order: what the screen shows from top to bottom. */
  ghost function Screen<T>(rows: seq<T>, offset: nat): (screen: seq<T>)
    requires offset < |rows|
    ensures |screen| == |rows|
  {
    rows[offset..] + rows[..offset]
  }

  lemma ScreenAt<T>(rows: seq<T>, offset: nat, v: nat, p: nat)
    requires offset < |rows| && v < |rows| && Holds(p, v, offset, |rows|)
    ensures Screen(rows, offset)[v] == rows[p]
  {
  }

  /** A chunk copied physically is that chunk copied virtually, as long as neither side wraps. */
  lemma ChunkIsVirtual<T>(now: seq<T>, now': seq<T>, offset: nat, d: nat, s: nat, n: nat, pd: nat, ps: nat)
    requires offset < |now| && d + n <= |now| && s + n <= |now| && pd + n <= |now| && ps + n <= |now|
    requires Holds(pd, d, offset, |now|) && Holds(ps, s, offset, |now|)
    requires Copied(now, now', pd, ps, n)
    ensures Copied(Screen(now, offset), Screen(now', offset), d, s, n)
  {
    var h := |now|;
    forall v: nat {:trigger At(v)} | At(v) && v < h
      ensures Screen(now', offset)[v] == Screen(now, offset)[if d <= v < d + n then s + (v - d) else v]
    {
      var p := if v + offset >= h then v + offset - h else v + offset;
      ScreenAt(now', offset, v, p);
      CopiedAt(now, now', pd, ps, n, p);
      if d <= v < d + n {
        ScreenAt(now, offset, s + (v - d), ps + (v - d));
      } else {
        ScreenAt(now, offset, v, p);
      }
    }
  }

  /** Towards the top of the screen: the first `done` lines, then the next n. */
  lemma UpwardParts<T>(b0: seq<T>, b1: seq<T>, b2: seq<T>, d: nat, s: nat, done: nat, n: nat)
    requires d <= s && s + done + n <= |b0| == |b1|
    requires Copied(b0, b1, d, s, done) && Copied(b1, b2, d + done, s + done, n)
    ensures Copied(b0, b2, d, s, done + n)
  {
    forall k: nat {:trigger At(k)} | At(k) && k < |b0|
      ensures b2[k] == b0[if d <= k < d + done + n then s + (k - d) else k]
    {
      CopiedAt(b1, b2, d + done, s + done, n, k);
      CopiedAt(b0, b1, d, s, done, if d + done <= k < d + done + n then s + (k - d) else k);
    }
  }

  /** Towards the bottom: the lines from number hi on, then the lines from m to hi. */
  lemma DownwardParts<T>(b0: seq<T>, b1: seq<T>, b2: seq<T>, d: nat, s: nat, m: nat, hi: nat, len: nat)
    requires (s <= d || d + len <= s) && m <= hi <= len && d + len <= |b0| == |b1| && s + len <= |b0|
    requires Copied(b0, b1, d + hi, s + hi, len - hi) && Copied(b1, b2, d + m, s + m, hi - m)
    ensures Copied(b0, b2, d + m, s + m, len - m)
  {
    forall k: nat {:trigger At(k)} | At(k) && k < |b0|
      ensures b2[k] == b0[if d + m <= k < d + len then s + (k - d) else k]
    {
      CopiedAt(b1, b2, d + m, s + m, hi - m, k);
      CopiedAt(b0, b1, d + hi, s + hi, len - hi, if d + m <= k < d + hi then s + (k - d) else k);
    }
  }

  // ----- what scrolling means on a plain sequence of lines

  function BlankLine(w: nat): (line: Line)
    ensures |line| == w
  {
    seq(w, _ => 0)
  }

  function BlankLines(w: nat, n: nat): (lines: seq<Line>)
    ensures |lines| == n
  {
    seq(n, _ => BlankLine(w))
  }

  /** The lines [line, line + n) made blank. */
  function Cleared(screen: seq<Line>, w: nat, line: nat, n: nat): (screen': seq<Line>)
    requires line + n <= |screen|
    ensures |screen'| == |screen|
  {
    screen[..line] + BlankLines(w, n) + screen[line + n..]
  }

  /** n blank lines inserted before `line`; the last n lines fall off the screen. */
  function Inserted(screen: seq<Line>, w: nat, line: nat, n: nat): (screen': seq<Line>)
    requires line + n <= |screen|
    ensures |screen'| == |screen|
  {
    screen[..line] + BlankLines(w, n) + screen[line..|screen| - n]
  }

  /** n lines deleted at `line`; n blank lines enter at the bottom. */
  function Deleted(screen: seq<Line>, w: nat, line: nat, n: nat): (screen': seq<Line>)
    requires line + n <= |screen|
    ensures |screen'| == |screen|
  {
    screen[..line] + screen[line + n..] + BlankLines(w, n)
  }

  /** Deleting undoes inserting, except for the lines that were pushed off the bottom. */
  lemma DeleteUndoesInsert(screen: seq<Line>, w: nat, line: nat, n: nat)
    requires line + n <= |screen|
    ensures Deleted(Inserted(screen, w, line, n), w, line, n) == screen[..|screen| - n] + BlankLines(w, n)
  {
    var i := Inserted(screen, w, line, n);
    assert i[..line] == screen[..line];
    assert i[line + n..] == screen[line..|screen| - n];
    assert screen[..line] + screen[line..|screen| - n] == screen[..|screen| - n];
  }

  lemma CopyThenClearInserts(screen: seq<Line>, copied: seq<Line>, w: nat, line: nat, n: nat)
    requires line + n <= |screen| && Copied(screen, copied, line + n, line, |screen| - line - n)
    ensures Cleared(copied, w, line, n) == Inserted(screen, w, line, n)
  {
    forall k: nat | k < |screen|
      ensures Cleared(copied, w, line, n)[k] == Inserted(screen, w, line, n)[k]
    {
      CopiedAt(screen, copied, line + n, line, |screen| - line - n, k);
    }
  }

  lemma CopyThenClearDeletes(screen: seq<Line>, copied: seq<Line>, w: nat, line: nat, n: nat)
    requires line + n <= |screen| && Copied(screen, copied, line, line + n, |screen| - n - line)
    ensures Cleared(copied, w, |screen| - n, n) == Deleted(screen, w, line, n)
  {
    forall k: nat | k < |screen|
      ensures Cleared(copied, w, |screen| - n, n)[k] == Deleted(screen, w, line, n)[k]
    {
      CopiedAt(screen, copied, line, line + n, |screen| - n - line, k);
    }
  }

  lemma ZeroBytesIsClear(plane: seq<byte>, plane': seq<byte>, w: nat, height: nat, r: nat, n: nat)
    requires |plane| == |plane'| == PlaneSize(w, height) && r + n <= height
    requires r * w + n * w <= |plane|
    requires forall k :: 0 <= k < |plane| ==> plane'[k] == if r * w <= k < r * w + n * w then 0 else plane[k]
    ensures Rows(plane', w, height) == Cleared(Rows(plane, w, height), w, r, n)
  {
    forall q: nat | q < height
      ensures Rows(plane', w, height)[q] == Cleared(Rows(plane, w, height), w, r, n)[q]
    {
      RowsAt(plane, w, height, q);
      RowsAt(plane', w, height, q);
      ZeroedRow(plane, plane', w, r, n, q);
    }
  }

  lemma ZeroedRow(plane: seq<byte>, plane': seq<byte>, w: nat, r: nat, n: nat, q: nat)
    requires |plane| == |plane'| && r * w + n * w <= |plane| && q * w + w <= |plane|
    requires forall k :: 0 <= k < |plane| ==> plane'[k] == if r * w <= k < r * w + n * w then 0 else plane[k]
    ensures plane'[q * w..q * w + w] == if r <= q < r + n then BlankLine(w) else plane[q * w..q * w + w]
  {
    if 0 < w {
      RowOffsets(w, r, r, n, q, q);
    }
  }

  lemma ClearedAtOnce(rows: seq<Line>, offset: nat, w: nat, line: nat, r: nat, n: nat)
    requires offset < |rows| && line + n <= |rows| && r + n <= |rows|
    requires Holds(r, line, offset, |rows|)
    ensures Screen(Cleared(rows, w, r, n), offset) == Cleared(Screen(rows, offset), w, line, n)
  {
    var h := |rows|;
    forall v: nat | v < h
      ensures Screen(Cleared(rows, w, r, n), offset)[v] == Cleared(Screen(rows, offset), w, line, n)[v]
    {
      var p := if v + offset >= h then v + offset - h else v + offset;
      ScreenAt(Cleared(rows, w, r, n), offset, v, p);
      ScreenAt(rows, offset, v, p);
    }
  }

  lemma ClearedInParts(rows: seq<Line>, offset: nat, w: nat, line: nat, r: nat, first: nat, n: nat)
    requires offset < |rows| && line + n <= |rows| && first <= n && r + first == |rows|
    requires Holds(r, line, offset, |rows|)
    ensures Screen(Cleared(Cleared(rows, w, r, first), w, 0, n - first), offset)
         == Cleared(Screen(rows, offset), w, line, n)
  {
    var h := |rows|;
    var once := Cleared(rows, w, r, first);
    var twice := Cleared(once, w, 0, n - first);
    forall v: nat | v < h
      ensures Screen(twice, offset)[v] == Cleared(Screen(rows, offset), w, line, n)[v]
    {
      var p := if v + offset >= h then v + offset - h else v + offset;
      ScreenAt(twice, offset, v, p);
      ScreenAt(rows, offset, v, p);
      assert twice[p] == if p < n - first then BlankLine(w) else once[p];
    }
  }

  /** Moving the offset back by n brings the last n lines to the top. */
  lemma RotateBackInserts(rows: seq<Line>, offset: nat, offset': nat, w: nat, n: nat)
    requires offset < |rows| && offset' < |rows| && n <= |rows|
    requires offset' == if offset < n then offset + |rows| - n else offset - n
    ensures Cleared(Screen(rows, offset'), w, 0, n) == Inserted(Screen(rows, offset), w, 0, n)
  {
    var h := |rows|;
    forall k: nat | k < h
      ensures Cleared(Screen(rows, offset'), w, 0, n)[k] == Inserted(Screen(rows, offset), w, 0, n)[k]
    {
      if k >= n {
        var p := if k + offset' >= h then k + offset' - h else k + offset';
        ScreenAt(rows, offset', k, p);
        ScreenAt(rows, offset, k - n, p);
      }
    }
  }

  /** Moving the offset on by n takes the first n lines to the bottom. */
  lemma RotateOnDeletes(rows: seq<Line>, offset: nat, offset': nat, w: nat, n: nat)
    requires offset < |rows| && offset' < |rows| && n <= |rows|
    requires offset' == if offset + n >= |rows| then offset + n - |rows| else offset + n
    ensures Cleared(Screen(rows, offset'), w, |rows| - n, n) == Deleted(Screen(rows, offset), w, 0, n)
  {
    var h := |rows|;
    forall k: nat | k < h
      ensures Cleared(Screen(rows, offset'), w, h - n, n)[k] == Deleted(Screen(rows, offset), w, 0, n)[k]
    {
      if k < h - n {
        var p := if k + offset' >= h then k + offset' - h else k + offset';
        ScreenAt(rows, offset', k, p);
        ScreenAt(rows, offset, k + n, p);
      }
    }
  }

  // ----- the bitmap

  class Bitmap {
    const width: nat     // bytes per line
    const height: nat
    const base: nat      // address of the bit plane
    const bpl: array<byte>
    var offset: nat

    ghost predicate Valid()
      reads this
    {
      offset < height && bpl.Length == PlaneSize(width, height)
    }

    ghost function Lines(): (rows: seq<Line>)
      reads this, bpl
      requires Valid()
      ensures |rows| == height
    {
      Rows(bpl[..], width, height)
    }

    ghost function View(): (screen: seq<Line>)
      reads this, bpl
      requires Valid()
      ensures |screen| == height
    {
      Screen(Lines(), offset)
    }

    constructor (plane: array<byte>, w: nat, h: nat, address: nat)
      requires 0 < h && plane.Length == PlaneSize(w, h)
      ensures Valid() && bpl == plane && width == w && height == h && base == address && offset == 0
    {
      width, height, base, bpl, offset := w, h, address, plane, 0;
    }

    /** bcopy as moveu uses it: bytes copied in ascending order. */
    method MoveUp(to: nat, from: nat, len: nat)
      requires to + len <= bpl.Length && from + len <= bpl.Length
      requires to <= from || from + len <= to
      modifies bpl
      ensures Copied(old(bpl[..]), bpl[..], to, from, len)
    {
      for i := 0 to len
        invariant forall k :: 0 <= k < bpl.Length ==>
          bpl[k] == if to <= k < to + i then old(bpl[from + (k - to)]) else old(bpl[k])
      {
        bpl[to + i] := bpl[from + i];
      }
    }

    /** A four-byte load and store, which may overlap. */
    method MoveInt(to: nat, from: nat)
      requires to + 4 <= bpl.Length && from + 4 <= bpl.Length
      modifies bpl
      ensures forall k :: 0 <= k < bpl.Length ==>
        bpl[k] == if to <= k < to + 4 then old(bpl[from + (k - to)]) else old(bpl[k])
    {
      var b0, b1, b2, b3 := bpl[from], bpl[from + 1], bpl[from + 2], bpl[from + 3];
      bpl[to], bpl[to + 1], bpl[to + 2], bpl[to + 3] := b0, b1, b2, b3;
    }

    /** Bytes hi - 1 down to lo of a block, copied one at a time. */
    method MoveBytes(to: nat, from: nat, hi: nat, lo: nat)
      requires lo <= hi && to + hi <= bpl.Length && from + hi <= bpl.Length
      requires from <= to || to + hi <= from
      modifies bpl
      ensures Copied(old(bpl[..]), bpl[..], to + lo, from + lo, hi - lo)
    {
      var n := hi;
      while n > lo
        invariant lo <= n <= hi
        invariant forall k :: 0 <= k < bpl.Length ==>
          bpl[k] == if to + n <= k < to + hi then old(bpl[from + (k - to)]) else old(bpl[k])
      {
        n := n - 1;
        bpl[to + n] := bpl[from + n];
      }
    }

    /** Four bytes at a time, as long as four are left; the number left over. */
    method MoveInts(to: nat, from: nat, hi: nat) returns (lo: nat)
      requires to + hi <= bpl.Length && from + hi <= bpl.Length
      requires from <= to || to + hi <= from
      modifies bpl
      ensures lo == hi % 4
      ensures Copied(old(bpl[..]), bpl[..], to + lo, from + lo, hi - lo)
    {
      lo := hi;
      while lo >= 4
        invariant lo <= hi && lo % 4 == hi % 4
        invariant forall k :: 0 <= k < bpl.Length ==>
          bpl[k] == if to + lo <= k < to + hi then old(bpl[from + (k - to)]) else old(bpl[k])
      {
        lo := lo - 4;
        MoveInt(to + lo, from + lo);
      }
    }

    /** moved: bytes copied in descending order, four at a time where the alignment allows. */
    method MoveDown(to: nat, from: nat, len: nat)
      requires to + len <= bpl.Length && from + len <= bpl.Length
      requires from <= to || to + len <= from
      modifies bpl
      ensures Copied(old(bpl[..]), bpl[..], to, from, len)
    {
      if (base + from + len) % ALIGN != (base + to + len) % ALIGN || len < 8 {
        MoveBytes(to, from, len, 0);
        return;
      }
      ghost var b0 := bpl[..];
      var n := len - (base + from + len) % ALIGN;
      MoveBytes(to, from, len, n);
      ghost var b1 := bpl[..];
      var m := MoveInts(to, from, n);
      ghost var b2 := bpl[..];
      DownwardParts(b0, b1, b2, to, from, m, n, len);
      MoveBytes(to, from, m, 0);
      DownwardParts(b0, b2, bpl[..], to, from, 0, m, len);
    }

    static lemma BlockOffsets(w: nat, height: nat, d: nat, s: nat, n: nat)
      requires d + n <= height && s + n <= height
      ensures 0 <= d * w && 0 <= s * w && 0 <= n * w
      ensures d * w + n * w <= PlaneSize(w, height) && s * w + n * w <= PlaneSize(w, height)
      ensures d <= s ==> d * w <= s * w
      ensures s <= d ==> s * w <= d * w
      ensures s + n <= d ==> s * w + n * w <= d * w
      ensures d + n <= s ==> d * w + n * w <= s * w
    {
      PlaneSizeIsProduct(w, height);
      BlockFits(w, height, s, n);
      BlockFits(w, height, d, n);
      Apart(w, s, d, n);
      Apart(w, d, s, n);
    }

    /** A block of lines copied with one memory move, in either direction. */
    method MoveLines(dst: nat, src: nat, n: nat, up: bool)
      requires Valid()
      requires dst + n <= height && src + n <= height
      requires if up then dst <= src || src + n <= dst else src <= dst || dst + n <= src
      modifies bpl
      ensures Copied(old(Lines()), Lines(), dst, src, n)
    {
      BlockOffsets(width, height, dst, src, n);
      var to, from, len := dst * width, src * width, n * width;
      if up {
        MoveUp(to, from, len);
      } else {
        MoveDown(to, from, len);
      }
      CopyBytesIsCopyRows(old(bpl[..]), bpl[..], width, height, dst, src, n);
    }

    /** The same, as seen on the screen. */
    method MoveChunk(ghost vdst: nat, ghost vsrc: nat, dst: nat, src: nat, n: nat, up: bool)
      requires Valid() && vdst + n <= height && vsrc + n <= height
      requires dst + n <= height && src + n <= height
      requires Holds(dst, vdst, offset, height) && Holds(src, vsrc, offset, height)
      requires if up then dst <= src || src + n <= dst else src <= dst || dst + n <= src
      modifies bpl
      ensures Copied(old(View()), View(), vdst, vsrc, n)
    {
      MoveLines(dst, src, n, up);
      ChunkIsVirtual(old(Lines()), Lines(), offset, vdst, vsrc, n, dst, src);
    }

    /** A chunk of the upward copy: it makes progress, fits, and overlaps only in the safe direction. */
    static lemma UpChunkFits(height: nat, offset: nat, vdst: nat, vsrc: nat, left: nat, src: nat, dst: nat, tmp: int)
      requires offset < height && vdst < vsrc && 0 < left && vsrc + left <= height
      requires Holds(src, vsrc, offset, height) && Holds(dst, vdst, offset, height)
      requires var room := height - (if src > dst then src else dst); tmp == if room > left then left else room
      ensures 0 < tmp <= left && dst + tmp <= height && src + tmp <= height
      ensures dst <= src || src + tmp <= dst
    {
    }

    /** The next chunk of an upward copy: up to where source or destination meets the end of the plane. */
    method CopyUpChunk(ghost screen: seq<Line>, ghost vdst: nat, ghost vsrc: nat, ghost nlines: nat,
                       src: nat, dst: nat, left: nat) returns (tmp: nat)
      requires Valid() && vdst < vsrc && 0 < left <= nlines && vsrc + nlines <= height == |screen|
      requires Holds(src, vsrc + (nlines - left), offset, height) && Holds(dst, vdst + (nlines - left), offset, height)
      requires Copied(screen, View(), vdst, vsrc, nlines - left)
      modifies bpl
      ensures 0 < tmp <= left && src + tmp <= height && dst + tmp <= height
      ensures Copied(screen, View(), vdst, vsrc, nlines - (left - tmp))
    {
      tmp := height - (if src > dst then src else dst);
      if tmp > left {
        tmp := left;
      }
      ghost var done := nlines - left;
      UpChunkFits(height, offset, vdst + done, vsrc + done, left, src, dst, tmp);
      MoveChunk(vdst + done, vsrc + done, dst, src, tmp, true);
      UpwardParts(screen, old(View()), View(), vdst, vsrc, done, tmp);
    }

    /** The chunk of the downward copy: the lines that wrapped, first of the source, then of the destination,
        or else all the lines that are left. */
    static lemma DownChunkFits(height: nat, offset: nat, vdst: nat, vsrc: nat, nlines: nat, src: nat, dst: nat,
                               tmp: nat, d: nat, s: nat)
      requires offset < height && vsrc <= vdst && 0 < nlines && vdst + nlines <= height
      requires Holds(src, vsrc, offset, height) && Holds(dst, vdst, offset, height)
      requires tmp == if src + nlines - height >= 1 then src + nlines - height
                      else if dst + nlines - height > 0 then dst + nlines - height
                      else nlines
      requires tmp <= nlines ==> d == Wrap(height, dst + (nlines - tmp)) && s == Wrap(height, src + (nlines - tmp))
      ensures 0 < tmp <= nlines
      ensures Holds(d, vdst + (nlines - tmp), offset, height) && Holds(s, vsrc + (nlines - tmp), offset, height)
      ensures d + tmp <= height && s + tmp <= height && (s <= d || d + tmp <= s)
    {
    }

    static function Wrap(height: nat, p: nat): (q: int)
    {
      if p < height then p else p - height
    }

    static lemma WrapIsRemainder(height: nat, p: nat)
      requires 0 < height && p < 2 * height
      ensures p % height == Wrap(height, p)
    {
      if p >= height {
        assert p == 1 * height + (p - height);
      }
    }

    /** Where the next chunk of a downward copy lies, and how many lines remain after it. */
    static method PickDownChunk(height: nat, nlines: nat, src: nat, dst: nat)
      returns (tmp: int, left: int, d: nat, s: nat)
      requires 0 < nlines && src < height && dst < height && nlines <= height
      ensures tmp == if src + nlines - height >= 1 then src + nlines - height
                     else if dst + nlines - height > 0 then dst + nlines - height
                     else nlines
      ensures left == nlines - tmp && 0 <= left < nlines
      ensures d == Wrap(height, dst + left) && s == Wrap(height, src + left)
    {
      tmp := src + nlines - height;
      if tmp < 1 {
        tmp := dst + nlines - height;
      }
      if tmp > 0 {
        left := nlines - tmp;
        WrapIsRemainder(height, dst + left);
        WrapIsRemainder(height, src + left);
        d, s := (dst + left) % height, (src + left) % height;
      } else {
        d, s, tmp, left := dst, src, nlines, 0;
      }
    }

    /** The next chunk of a downward copy, taken from the end; the number of lines still to copy. */
    method CopyDownChunk(ghost screen: seq<Line>, ghost vdst: nat, ghost vsrc: nat, ghost nlines: nat,
                         src: nat, dst: nat, left: nat) returns (rest: nat)
      requires Valid() && vsrc <= vdst && 0 < left <= nlines && vdst + nlines <= height == |screen|
      requires Holds(src, vsrc, offset, height) && Holds(dst, vdst, offset, height)
      requires Copied(screen, View(), vdst + left, vsrc + left, nlines - left)
      modifies bpl
      ensures rest < left && Copied(screen, View(), vdst + rest, vsrc + rest, nlines - rest)
    {
      var tmp, r, d, s := PickDownChunk(height, left, src, dst);
      rest := r;
      DownChunkFits(height, offset, vdst, vsrc, left, src, dst, tmp, d, s);
      MoveChunk(vdst + rest, vsrc + rest, d, s, tmp, false);
      DownwardParts(screen, old(View()), View(), vdst, vsrc, rest, left, nlines);
    }

    /** Copying lines within the circular bitmap is a simultaneous copy of virtual lines, for every offset,
        direction and wrap. */
    method CopyLines(vdst: nat, vsrc: nat, nlines: nat)
      requires Valid()
      requires vdst + nlines <= height && vsrc + nlines <= height
      modifies bpl
      ensures Copied(old(View()), View(), vdst, vsrc, nlines)
    {
      var src: nat := vsrc + offset;
      var dst: nat := vdst + offset;
      var left: nat := nlines;
      ghost var screen := View();
      while left > 0
        invariant left <= nlines
        invariant left > 0 ==> var done := if vsrc > vdst then nlines - left else 0;
          && (src == vsrc + done + offset || (src + height == vsrc + done + offset && src <= height))
          && (dst == vdst + done + offset || (dst + height == vdst + done + offset && dst <= height))
        invariant vsrc > vdst ==> Copied(screen, View(), vdst, vsrc, nlines - left)
        invariant vsrc <= vdst ==> Copied(screen, View(), vdst + left, vsrc + left, nlines - left)
      {
        if src >= height {
          src := src - height;
        }
        if dst >= height {
          dst := dst - height;
        }
        if vsrc > vdst {
          var tmp := CopyUpChunk(screen, vdst, vsrc, nlines, src, dst, left);
          left := left - tmp;
          src := src + tmp;
          dst := dst + tmp;
        } else {
          left := CopyDownChunk(screen, vdst, vsrc, nlines, src, dst, left);
        }
      }
    }

    /** bzero over n lines starting at physical line r. */
    method Zero(r: nat, n: nat)
      requires Valid() && r + n <= height
      modifies bpl
      ensures Lines() == Cleared(old(Lines()), width, r, n)
    {
      BlockOffsets(width, height, r, r, n);
      var from, len := r * width, n * width;
      for i := 0 to len
        invariant forall k :: 0 <= k < bpl.Length ==>
          bpl[k] == if from <= k < from + i then 0 else old(bpl[k])
      {
        bpl[from + i] := 0;
      }
      ZeroBytesIsClear(old(bpl[..]), bpl[..], width, height, r, n);
    }

    /** clear_lines: the lines [line, line + n) of the screen become blank, across the wrap if need be. */
    method ClearLines(line: nat, n: nat)
      requires Valid() && line + n <= height
      modifies bpl
      ensures View() == Cleared(old(View()), width, line, n)
    {
      var r := line + offset;
      if r >= height {
        r := r - height;
      }
      if r + n > height {
        var first := height - r;
        Zero(r, first);
        Zero(0, n - first);
        ClearedInParts(old(Lines()), offset, width, line, r, first, n);
      } else {
        Zero(r, n);
        ClearedAtOnce(old(Lines()), offset, width, line, r, n);
      }
    }

    /** insert_lines: at the top of the screen only the offset moves; below, the lines are copied down. */
    method InsertLines(line: nat, n: nat)
      requires Valid() && line + n <= height
      modifies this`offset, bpl
      ensures Valid() && View() == Inserted(old(View()), width, line, n)
    {
      if line != 0 {
        CopyLines(line + n, line, height - line - n);
        CopyThenClearInserts(old(View()), View(), width, line, n);
      } else {
        offset := if offset < n then offset - n + height else offset - n;
        RotateBackInserts(Lines(), old(offset), offset, width, n);
      }
      ClearLines(line, n);
    }

    /** delete_lines: the counterpart. */
    method DeleteLines(line: nat, n: nat)
      requires Valid() && line + n <= height
      modifies this`offset, bpl
      ensures Valid() && View() == Deleted(old(View()), width, line, n)
    {
      if line != 0 {
        CopyLines(line, line + n, height - n - line);
        CopyThenClearDeletes(old(View()), View(), width, line, n);
      } else {
        offset := if offset + n >= height then offset + n - height else offset + n;
        RotateOnDeletes(Lines(), old(offset), offset, width, n);
      }
      ClearLines(height - n, n);
    }
  }
}
