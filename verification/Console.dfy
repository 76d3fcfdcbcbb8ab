/** common/console.c, kernel/monitor.c: the console's cell buffer, one row-major array, against a grid of rows. The
    screen is the last `y` rows of the buffer. */
module Console {
  import opened Bytes

  datatype Cell = Cell(ch: byte, attr: byte)
  datatype Cursor = Cursor(x: int, y: int, height: int)
  type Row = seq<Cell>

  const ZERO: Cell := Cell(0, 0)

  // ---- sequences

  function Fill<T>(n: nat, v: T): (r: seq<T>)
    ensures |r| == n && forall i :: 0 <= i < n ==> r[i] == v
  {
    seq(n, _ => v)
  }

  lemma BlitNext<T>(s: seq<T>, p: nat, b: seq<T>, v: T)
    requires p + |b| < |s|
    ensures Blit(s, p, b)[p + |b| := v] == Blit(s, p, b + [v])
  {
  }

  lemma BlitPrev<T>(s: seq<T>, p: nat, v: T, b: seq<T>)
    requires p + 1 + |b| <= |s|
    ensures Blit(s, p + 1, b)[p := v] == Blit(s, p, [v] + b)
  {
  }

  /** n cells copied from place s to place d. */
  function Copied<T>(a: seq<T>, d: nat, s: nat, n: nat): (r: seq<T>)
    requires d + n <= |a| && s + n <= |a|
  {
    Blit(a, d, a[s..s + n])
  }

  lemma CopiedNone<T>(a: seq<T>, d: nat, s: nat)
    requires d <= |a| && s <= |a|
    ensures Copied(a, d, s, 0) == a
  {
  }

  lemma CopyNext<T>(a: seq<T>, d: nat, s: nat, i: nat)
    requires d <= s && s + i < |a|
    ensures Blit(a, d, a[s..s + i])[s + i] == a[s + i]
    ensures Blit(a, d, a[s..s + i])[d + i := a[s + i]] == Blit(a, d, a[s..s + i + 1])
  {
    BlitNext(a, d, a[s..s + i], a[s + i]);
    assert a[s..s + i] + [a[s + i]] == a[s..s + i + 1];
  }

  lemma CopyPrev<T>(a: seq<T>, d: nat, s: nat, n: nat, i: nat)
    requires s < d && d + n <= |a| && i < n
    ensures Blit(a, d + i + 1, a[s + i + 1..s + n])[s + i] == a[s + i]
    ensures Blit(a, d + i + 1, a[s + i + 1..s + n])[d + i := a[s + i]] == Blit(a, d + i, a[s + i..s + n])
  {
    BlitPrev(a, d + i, a[s + i], a[s + i + 1..s + n]);
    assert [a[s + i]] + a[s + i + 1..s + n] == a[s + i..s + n];
  }

  lemma BlitMiddle<T>(p: seq<T>, m: seq<T>, s: seq<T>, b: seq<T>)
    requires |m| == |b|
    ensures Blit(p + m + s, |p|, b) == p + b + s
  {
  }

  lemma BlitInside<T>(p: seq<T>, m: seq<T>, s: seq<T>, c: nat, b: seq<T>)
    requires c + |b| <= |m|
    ensures Blit(p + m + s, |p| + c, b) == p + Blit(m, c, b) + s
  {
  }

  // ---- rows of a row-major buffer

  /** The offset of row r in a buffer of x columns. */
  function Offset(x: nat, r: nat): (o: nat) { if r == 0 then 0 else x + Offset(x, r - 1) }

  lemma {:induction false} OffsetIsProduct(x: nat, r: nat)
    ensures Offset(x, r) == x * r
  {
    if r > 0 {
      OffsetIsProduct(x, r - 1);
      assert x * r == x + x * (r - 1);
    }
  }

  lemma {:induction false} OffsetAdd(x: nat, a: nat, b: nat)
    ensures Offset(x, a + b) == Offset(x, a) + Offset(x, b)
  {
    if a > 0 {
      OffsetAdd(x, a - 1, b);
    }
  }

  predicate Wide(g: seq<Row>, x: nat) { forall r :: 0 <= r < |g| ==> |g[r]| == x }

  /** The row-major form of a grid. */
  function Flat(g: seq<Row>): (a: seq<Cell>) { if g == [] then [] else g[0] + Flat(g[1..]) }

  lemma {:induction false} FlatLen(g: seq<Row>, x: nat)
    requires Wide(g, x)
    ensures |Flat(g)| == Offset(x, |g|)
  {
    if g != [] {
      FlatLen(g[1..], x);
      assert Offset(x, |g|) == x + Offset(x, |g| - 1);
    }
  }

  lemma {:induction false} FlatAppend(g: seq<Row>, h: seq<Row>)
    ensures Flat(g + h) == Flat(g) + Flat(h)
  {
    if g == [] {
      assert g + h == h;
    } else {
      assert (g + h)[1..] == g[1..] + h;
      FlatAppend(g[1..], h);
      assert g[0] + (Flat(g[1..]) + Flat(h)) == g[0] + Flat(g[1..]) + Flat(h);
    }
  }

  lemma FlatThree(p: seq<Row>, m: seq<Row>, s: seq<Row>)
    ensures Flat(p + m + s) == Flat(p) + Flat(m) + Flat(s)
  {
    FlatAppend(p + m, s);
    FlatAppend(p, m);
  }

  /** Whole rows written into the row-major form: their place in the grid changes, and nothing else. */
  lemma BlitRows(g: seq<Row>, x: nat, d: nat, h: seq<Row>)
    requires Wide(g, x) && Wide(h, x) && d + |h| <= |g|
    ensures Offset(x, d) + |Flat(h)| <= |Flat(g)| && Wide(Blit(g, d, h), x)
    ensures Flat(Blit(g, d, h)) == Blit(Flat(g), Offset(x, d), Flat(h))
  {
    var p, m, s := g[..d], g[d..d + |h|], g[d + |h|..];
    assert g == p + m + s;
    FlatThree(p, m, s);
    FlatThree(p, h, s);
    FlatLen(p, x);
    FlatLen(m, x);
    FlatLen(h, x);
    BlitMiddle(Flat(p), Flat(m), Flat(s), Flat(h));
  }

  lemma {:induction false} SliceRows(g: seq<Row>, x: nat, d: nat, k: nat)
    requires Wide(g, x) && d + k <= |g|
    ensures Offset(x, d) + Offset(x, k) <= |Flat(g)|
    ensures Flat(g)[Offset(x, d)..Offset(x, d) + Offset(x, k)] == Flat(g[d..d + k])
  {
    var p, m, s := g[..d], g[d..d + k], g[d + k..];
    assert g == p + m + s;
    FlatThree(p, m, s);
    FlatLen(p, x);
    FlatLen(m, x);
    Middle(Flat(p), Flat(m), Flat(s));
  }

  lemma Middle<T>(p: seq<T>, m: seq<T>, s: seq<T>)
    ensures (p + m + s)[|p|..|p| + |m|] == m
  {
  }

  lemma {:induction false} FillRows(x: nat, k: nat, v: Cell)
    ensures Flat(Fill(k, Fill(x, v))) == Fill(Offset(x, k), v)
  {
    if k > 0 {
      FillRows(x, k - 1, v);
      FillTail(k, Fill(x, v));
      assert Offset(x, k) == x + Offset(x, k - 1);
      FillMore(x, Offset(x, k - 1), v);
    }
  }

  lemma FillTail<T>(k: nat, v: T)
    requires k > 0
    ensures Fill(k, v)[0] == v && Fill(k, v)[1..] == Fill(k - 1, v)
  {
  }

  lemma FillMore(m: nat, n: nat, v: Cell)
    ensures Fill(m, v) + Fill(n, v) == Fill(m + n, v)
  {
  }

  /** Cells written inside one row: the other rows keep theirs. */
  lemma {:induction false} BlitInRow(g: seq<Row>, x: nat, row: nat, c: nat, b: seq<Cell>)
    requires Wide(g, x) && row < |g| && c + |b| <= x
    ensures Offset(x, row) + c + |b| <= |Flat(g)|
    ensures Flat(g[row := Blit(g[row], c, b)]) == Blit(Flat(g), Offset(x, row) + c, b)
  {
    var p, s := g[..row], g[row + 1..];
    var h := Blit(g[row], c, b);
    assert g == p + [g[row]] + s && g[row := h] == p + [h] + s;
    FlatThree(p, [g[row]], s);
    FlatThree(p, [h], s);
    One(g[row]);
    One(h);
    FlatLen(p, x);
    BlitInside(Flat(p), g[row], Flat(s), c, b);
  }

  lemma One(r: Row)
    ensures Flat([r]) == r
  {
    assert [r][1..] == [];
  }

  lemma {:induction false} SliceInRow(g: seq<Row>, x: nat, row: nat, c: nat, n: nat)
    requires Wide(g, x) && row < |g| && c + n <= x
    ensures Offset(x, row) + c + n <= |Flat(g)|
    ensures Flat(g)[Offset(x, row) + c..Offset(x, row) + c + n] == g[row][c..c + n]
  {
    var p, s := g[..row], g[row + 1..];
    assert g == p + [g[row]] + s;
    FlatThree(p, [g[row]], s);
    One(g[row]);
    FlatLen(p, x);
    Inside(Flat(p), g[row], Flat(s), c, n);
  }

  lemma Inside<T>(p: seq<T>, m: seq<T>, s: seq<T>, c: nat, n: nat)
    requires c + n <= |m|
    ensures (p + m + s)[|p| + c..|p| + c + n] == m[c..c + n]
  {
  }

  lemma {:induction false} RowMoves(g: seq<Row>, x: nat, d: nat, c: nat, s: nat, l: nat, n: nat, p: nat, q: nat,
                                    h: seq<Row>)
    requires Wide(g, x) && d < |g| && s < |g| && c + n <= x && l + n <= x && p == Offset(x, d) + c &&
      q == Offset(x, s) + l
    requires h == g[d := Blit(g[d], c, g[s][l..l + n])]
    ensures Wide(h, x) && p + n <= |Flat(g)| && q + n <= |Flat(g)|
    ensures Flat(h) == Blit(Flat(g), p, Flat(g)[q..q + n])
  {
    var b := g[s][l..l + n];
    SliceAt(g, x, s, l, n, q);
    RowPuts(g, x, d, c, b, p, h);
  }

  lemma SliceAt(g: seq<Row>, x: nat, s: nat, l: nat, n: nat, q: nat)
    requires Wide(g, x) && s < |g| && l + n <= x && q == Offset(x, s) + l
    ensures q + n <= |Flat(g)| && Flat(g)[q..q + n] == g[s][l..l + n]
  {
    SliceInRow(g, x, s, l, n);
  }

  lemma RowPuts(g: seq<Row>, x: nat, d: nat, c: nat, b: seq<Cell>, p: nat, h: seq<Row>)
    requires Wide(g, x) && d < |g| && c + |b| <= x && p == Offset(x, d) + c && h == g[d := Blit(g[d], c, b)]
    ensures Wide(h, x) && p + |b| <= |Flat(g)| && Flat(h) == Blit(Flat(g), p, b)
  {
    BlitInRow(g, x, d, c, b);
  }

  lemma SliceRowsAt(g: seq<Row>, x: nat, s: nat, k: nat, q: nat, n: nat, b: seq<Row>)
    requires Wide(g, x) && s + k <= |g| && b == g[s..s + k] && q == Offset(x, s) && n == Offset(x, k)
    ensures Wide(b, x) && q + n <= |Flat(g)| && Flat(g)[q..q + n] == Flat(b)
  {
    SliceRows(g, x, s, k);
  }

  lemma RowsPut(g: seq<Row>, x: nat, d: nat, b: seq<Row>, p: nat, n: nat, h: seq<Row>)
    requires Wide(g, x) && Wide(b, x) && d + |b| <= |g| && h == Blit(g, d, b)
    requires p == Offset(x, d) && n == Offset(x, |b|)
    ensures |h| == |g| && Wide(h, x) && |Flat(b)| == n && p + n <= |Flat(g)| && Flat(h) == Blit(Flat(g), p, Flat(b))
  {
    FlatLen(b, x);
    BlitRows(g, x, d, b);
  }

  // ---- what the messages mean on the grid

  /** Rows from..to move up; the last `lines` of them are blank. */
  function ScrolledUp(g: seq<Row>, from: nat, to: nat, lines: nat, blank: Row): (r: seq<Row>)
    requires from + lines <= to <= |g|
  {
    g[..from] + g[from + lines..to] + Fill(lines, blank) + g[to..]
  }

  /** Rows from..to move down; the first `lines` of them are blank. */
  function ScrolledDown(g: seq<Row>, from: nat, to: nat, lines: nat, blank: Row): (r: seq<Row>)
    requires from + lines <= to <= |g|
  {
    g[..from] + Fill(lines, blank) + g[from..to - lines] + g[to..]
  }

  /** Rows lo..hi of a rectangle of h rows and w columns at (top, left) are copied to (row, col), all of them read
      from g. */
  ghost function Moved(g: seq<Row>, b: Rect, lo: nat, hi: nat): (r: seq<Row>)
    requires Spans(g, b) && lo <= hi <= b.h
  {
    Blit(g, b.row + lo, MovedRows(g, b, lo, hi))
  }

  ghost function MovedRows(g: seq<Row>, b: Rect, lo: nat, hi: nat): (r: seq<Row>)
    requires Spans(g, b) && lo <= hi <= b.h
    ensures |r| == hi - lo && forall i :: 0 <= i < hi - lo ==> r[i] == MovedRow(g, b, lo + i)
  {
    seq(hi - lo, i requires 0 <= i < hi - lo => MovedRow(g, b, lo + i))
  }

  datatype Rect = Rect(row: nat, col: nat, top: nat, left: nat, h: nat, w: nat)

  ghost predicate Spans(g: seq<Row>, b: Rect) {
    && b.row + b.h <= |g| && b.top + b.h <= |g|
    && (forall i :: b.row <= i < b.row + b.h ==> b.col + b.w <= |g[i]|)
    && (forall i :: b.top <= i < b.top + b.h ==> b.left + b.w <= |g[i]|)
  }

  ghost function MovedRow(g: seq<Row>, b: Rect, i: nat): (r: Row)
    requires Spans(g, b) && i < b.h
  {
    Blit(g[b.row + i], b.col, g[b.top + i][b.left..b.left + b.w])
  }

  lemma UpInTwo(g: seq<Row>, from: nat, to: nat, lines: nat, blank: Row)
    requires from + lines <= to <= |g|
    ensures Blit(Blit(g, from, g[from + lines..to]), to - lines, Fill(lines, blank)) ==
      ScrolledUp(g, from, to, lines, blank)
  {
  }

  lemma DownInTwo(g: seq<Row>, from: nat, to: nat, lines: nat, blank: Row)
    requires from + lines <= to <= |g|
    ensures Blit(Blit(g, from + lines, g[from..to - lines]), from, Fill(lines, blank)) ==
      ScrolledDown(g, from, to, lines, blank)
  {
  }

  lemma MovedNone(g: seq<Row>, x: nat, b: Rect, i: nat)
    requires Wide(g, x) && b.row + b.h <= |g| && b.top + b.h <= |g| && b.col + b.w <= x && b.left + b.w <= x && i <= b.h
    ensures Spans(g, b) && Moved(g, b, i, i) == g
  {
  }

  lemma RowsBelow(g: seq<Row>, b: Rect, i: nat)
    requires Spans(g, b) && i < b.h
    ensures MovedRows(g, b, 0, i) + [MovedRow(g, b, i)] == MovedRows(g, b, 0, i + 1)
  {
    var l, r := MovedRows(g, b, 0, i) + [MovedRow(g, b, i)], MovedRows(g, b, 0, i + 1);
    forall k | 0 <= k < i + 1 ensures l[k] == r[k] {
      assert r[k] == MovedRow(g, b, 0 + k);
    }
  }

  lemma RowsAbove(g: seq<Row>, b: Rect, i: nat)
    requires Spans(g, b) && i < b.h
    ensures [MovedRow(g, b, i)] + MovedRows(g, b, i + 1, b.h) == MovedRows(g, b, i, b.h)
  {
    var l, r := [MovedRow(g, b, i)] + MovedRows(g, b, i + 1, b.h), MovedRows(g, b, i, b.h);
    forall k | 0 <= k < b.h - i ensures l[k] == r[k] {
      assert r[k] == MovedRow(g, b, i + k);
      if k > 0 {
        assert l[k] == MovedRows(g, b, i + 1, b.h)[k - 1] == MovedRow(g, b, i + 1 + (k - 1));
      }
    }
  }

  /** One more row below those already moved, when the rectangle moves up or sideways. */
  lemma MovedBelow(g: seq<Row>, b: Rect, i: nat, p: nat, q: nat, m: seq<Row>)
    requires Spans(g, b) && i < b.h && b.row <= b.top && p == b.row + i && q == b.top + i && m == Moved(g, b, 0, i)
    ensures |m| == |g| && b.left + b.w <= |m[q]| && b.col + b.w <= |m[p]|
    ensures m[p := Blit(m[p], b.col, m[q][b.left..b.left + b.w])] == Moved(g, b, 0, i + 1)
  {
    BelowLeft(g, b, i, p, q);
    BelowNext(g, b, i);
  }

  lemma BelowLeft(g: seq<Row>, b: Rect, i: nat, p: nat, q: nat)
    requires Spans(g, b) && i < b.h && b.row <= b.top && p == b.row + i && q == b.top + i
    ensures var m := Moved(g, b, 0, i);
      && |m| == |g| && b.left + b.w <= |m[q]| && b.col + b.w <= |m[p]|
      && Blit(m[p], b.col, m[q][b.left..b.left + b.w]) == MovedRow(g, b, i)
  {
    assert Moved(g, b, 0, i)[p] == g[p] && Moved(g, b, 0, i)[q] == g[q];
  }

  lemma BelowNext(g: seq<Row>, b: Rect, i: nat)
    requires Spans(g, b) && i < b.h
    ensures Moved(g, b, 0, i)[b.row + i := MovedRow(g, b, i)] == Moved(g, b, 0, i + 1)
  {
    RowsBelow(g, b, i);
    BlitNext(g, b.row, MovedRows(g, b, 0, i), MovedRow(g, b, i));
  }

  /** One more row above those already moved, when the rectangle moves down or sideways. */
  lemma MovedAbove(g: seq<Row>, b: Rect, i: nat, p: nat, q: nat, m: seq<Row>)
    requires Spans(g, b) && i < b.h && b.row >= b.top && p == b.row + i && q == b.top + i &&
      m == Moved(g, b, i + 1, b.h)
    ensures |m| == |g| && b.left + b.w <= |m[q]| && b.col + b.w <= |m[p]|
    ensures m[p := Blit(m[p], b.col, m[q][b.left..b.left + b.w])] == Moved(g, b, i, b.h)
  {
    AboveLeft(g, b, i, p, q);
    AboveNext(g, b, i);
  }

  lemma AboveLeft(g: seq<Row>, b: Rect, i: nat, p: nat, q: nat)
    requires Spans(g, b) && i < b.h && b.row >= b.top && p == b.row + i && q == b.top + i
    ensures var m := Moved(g, b, i + 1, b.h);
      && |m| == |g| && b.left + b.w <= |m[q]| && b.col + b.w <= |m[p]|
      && Blit(m[p], b.col, m[q][b.left..b.left + b.w]) == MovedRow(g, b, i)
  {
    assert Moved(g, b, i + 1, b.h)[p] == g[p] && Moved(g, b, i + 1, b.h)[q] == g[q];
  }

  lemma AboveNext(g: seq<Row>, b: Rect, i: nat)
    requires Spans(g, b) && i < b.h
    ensures Moved(g, b, i + 1, b.h)[b.row + i := MovedRow(g, b, i)] == Moved(g, b, i, b.h)
  {
    RowsAbove(g, b, i);
    BlitPrev(g, b.row + i, MovedRow(g, b, i), MovedRows(g, b, i + 1, b.h));
  }

  /** Cells written at column c of a row, as far as they fit. */
  function PutAt(g: seq<Row>, row: nat, c: nat, bs: seq<Cell>, x: nat): (r: seq<Row>)
    requires row < |g| && |g[row]| == x && c < x
  {
    g[row := Blit(g[row], c, bs[..if |bs| > x - c then x - c else |bs|])]
  }

  /** Offsets are linear in rows. */
  lemma Spread(x: nat, base: nat, t: nat, l: nat, b: nat)
    requires t + l <= b
    ensures Offset(x, base + t) == Offset(x, base) + Offset(x, t)
    ensures Offset(x, base + t + l) == Offset(x, base) + Offset(x, t) + Offset(x, l)
    ensures Offset(x, b - l - t) == Offset(x, b) - Offset(x, l) - Offset(x, t)
    ensures Offset(x, base + (b - l)) == Offset(x, base) + Offset(x, b) - Offset(x, l)
  {
    OffsetAdd(x, base, t);
    OffsetAdd(x, base + t, l);
    OffsetAdd(x, b - l - t, t);
    OffsetAdd(x, b - l, l);
    OffsetAdd(x, base, b - l);
  }

  // ---- what the scroll messages touch

  datatype Outcome = Refused | Overrun | Scrolled

  /** A memmove of n cells from s to d, and k blank cells at e. A negative n is a huge one for memmove. */
  datatype Ranges = Ranges(d: int, s: int, n: int, e: int, k: int)

  predicate InBlock(r: Ranges, size: nat) {
    && 0 <= r.n && (r.n > 0 ==> 0 <= r.d && 0 <= r.s && r.d + r.n <= size && r.s + r.n <= size)
    && (r.k > 0 ==> 0 <= r.e && r.e + r.k <= size)
  }

  /** b is message->scroll.bottom + 1. */
  predicate WholeScreen(y: nat, top: nat, b: nat) { top == 0 && b == y }

  /** The bounds tests of both scrolls. */
  predicate Passes(y: nat, maxY: nat, top: nat, b: nat, lines: nat) {
    WholeScreen(y, top, b) || (b <= maxY && top + lines < maxY)
  }

  function UpRanges(x: nat, y: nat, maxY: nat, top: nat, b: nat, lines: nat): (r: Ranges)
    requires y <= maxY
  {
    var tCount, sCount := Offset(x, top), Offset(x, lines);
    if WholeScreen(y, top, b) then
      var offs := Offset(x, maxY) - sCount;
      Ranges(0, sCount, offs, offs, sCount)
    else
      var screen, offs := Offset(x, maxY - y), Offset(x, b) - sCount;
      Ranges(screen + tCount, screen + tCount + sCount, offs - tCount, screen + offs, sCount)
  }

  function DownRanges(x: nat, y: nat, maxY: nat, top: nat, b: nat, lines: nat): (r: Ranges)
    requires y <= maxY
  {
    var screen, tCount, sCount := Offset(x, maxY - y), Offset(x, top), Offset(x, lines);
    if WholeScreen(y, top, b) then Ranges(screen + sCount, screen, Offset(x, y) - sCount, screen, sCount)
    else Ranges(screen + tCount + sCount, screen + tCount, Offset(x, b) - tCount - sCount, screen + tCount, sCount)
  }

  /** The region fits the lines and ends on the screen; or there is nothing to do. */
  predicate PartFits(y: nat, top: nat, b: nat, lines: nat) {
    top + lines <= b && (b <= y || (b == top && lines == 0))
  }

  /** A scroll up that passes the tests stays in the block. */
  predicate UpFits(y: nat, maxY: nat, top: nat, b: nat, lines: nat) {
    if WholeScreen(y, top, b) then lines <= maxY else PartFits(y, top, b, lines)
  }

  predicate DownFits(y: nat, top: nat, b: nat, lines: nat) {
    if WholeScreen(y, top, b) then lines <= y else PartFits(y, top, b, lines)
  }

  lemma {:induction false} OffsetOrder(x: nat, a: nat, b: nat)
    requires x > 0
    ensures Offset(x, a) <= Offset(x, b) <==> a <= b
  {
    OffsetIsProduct(x, a);
    OffsetIsProduct(x, b);
    if a <= b {
      OffsetAdd(x, a, b - a);
    } else {
      OffsetAdd(x, b, a - b);
      OffsetIsProduct(x, a - b);
      assert x * (a - b) > 0;
    }
  }

  lemma {:induction false} PartInBlockIff(x: nat, y: nat, maxY: nat, top: nat, b: nat, lines: nat)
    requires x > 0 && y <= maxY && !WholeScreen(y, top, b)
    ensures InBlock(UpRanges(x, y, maxY, top, b, lines), Offset(x, maxY)) <==> PartFits(y, top, b, lines)
    ensures InBlock(DownRanges(x, y, maxY, top, b, lines), Offset(x, maxY)) <==> PartFits(y, top, b, lines)
  {
    OffsetAdd(x, maxY - y, y);
    OffsetAdd(x, top, lines);
    OffsetOrder(x, top + lines, b);
    OffsetOrder(x, b, top + lines);
    OffsetOrder(x, b, y);
    OffsetOrder(x, lines, 0);
  }

  lemma {:induction false} WholeInBlockIff(x: nat, y: nat, maxY: nat, lines: nat)
    requires x > 0 && y <= maxY
    ensures InBlock(UpRanges(x, y, maxY, 0, y, lines), Offset(x, maxY)) <==> lines <= maxY
    ensures InBlock(DownRanges(x, y, maxY, 0, y, lines), Offset(x, maxY)) <==> lines <= y
  {
    OffsetAdd(x, maxY - y, y);
    OffsetOrder(x, lines, maxY);
    OffsetOrder(x, lines, y);
  }

  /** A message that passes the tests of SCROLL_UP stays inside the block exactly if its region fits its lines and ends
      on the screen, or it is about nothing; a scroll of the whole screen, if the buffer has that many rows. */
  lemma UpInBlockIff(x: nat, y: nat, maxY: nat, top: nat, b: nat, lines: nat)
    requires x > 0 && y <= maxY && Passes(y, maxY, top, b, lines)
    ensures InBlock(UpRanges(x, y, maxY, top, b, lines), Offset(x, maxY)) <==> UpFits(y, maxY, top, b, lines)
  {
    if WholeScreen(y, top, b) {
      WholeInBlockIff(x, y, maxY, lines);
    } else {
      PartInBlockIff(x, y, maxY, top, b, lines);
    }
  }

  /** ... and of SCROLL_DOWN likewise, except that a scroll of the whole screen stays on the screen. */
  lemma DownInBlockIff(x: nat, y: nat, maxY: nat, top: nat, b: nat, lines: nat)
    requires x > 0 && y <= maxY && Passes(y, maxY, top, b, lines)
    ensures InBlock(DownRanges(x, y, maxY, top, b, lines), Offset(x, maxY)) <==> DownFits(y, top, b, lines)
  {
    if WholeScreen(y, top, b) {
      WholeInBlockIff(x, y, maxY, lines);
    } else {
      PartInBlockIff(x, y, maxY, top, b, lines);
    }
  }

  /** Rows 1 to 29 of a screen of 25 rows in a buffer of 50: the tests pass, the memmove leaves the block. */
  lemma ScrollPastTheScreen(x: nat)
    requires x > 0
    ensures Passes(25, 50, 1, 30, 1)
    ensures !InBlock(UpRanges(x, 25, 50, 1, 30, 1), Offset(x, 50)) &&
      !InBlock(DownRanges(x, 25, 50, 1, 30, 1), Offset(x, 50))
  {
    PartInBlockIff(x, 25, 50, 1, 30, 1);
  }

  /** More lines than the region has: the count of the memmove is negative. */
  lemma ScrollMoreThanTheRegion(x: nat)
    requires x > 0
    ensures Passes(25, 50, 1, 3, 4) && UpRanges(x, 25, 50, 1, 3, 4).n < 0 && DownRanges(x, 25, 50, 1, 3, 4).n < 0
  {
    OffsetAdd(x, 1, 4);
    OffsetOrder(x, 5, 3);
  }

  /** The cells that CLEAR and BMOVE address in row t of the screen lie in that row of the buffer. */
  predicate InRow(x: nat, y: nat, maxY: nat, t: nat, left: nat, n: nat)
    requires y <= maxY
  {
    var start, row := Offset(x, maxY - y) + Offset(x, t) + left, maxY - y + t;
    row < maxY && Offset(x, row) <= start && start + n <= Offset(x, row) + x
  }

  /** CLEAR and BMOVE test nothing: they stay in the rows of a rectangle of w columns exactly if it is on the screen. */
  lemma RectInRowsIff(x: nat, y: nat, maxY: nat, top: nat, left: nat, bottom: nat, w: nat)
    requires y <= maxY && top <= bottom
    ensures bottom < y && left + w <= x <==> forall t :: top <= t <= bottom ==> InRow(x, y, maxY, t, left, w)
  {
    if bottom < y && left + w <= x {
      forall t | top <= t <= bottom ensures InRow(x, y, maxY, t, left, w) {
        OffsetAdd(x, maxY - y, t);
      }
    } else {
      OffsetAdd(x, maxY - y, bottom);
      assert !InRow(x, y, maxY, bottom, left, w);
    }
  }

  // ---- CLEAR and BMOVE, on the screen or off it

  /** The offset of column l of row t of the screen, which begins at base; t and l are any numbers. */
  function Place(x: nat, base: int, t: int, l: int): (p: int) { base + x * t + l }

  lemma PlaceOrder(x: nat, base: int, t: int, u: int, l: int)
    requires t <= u
    ensures Place(x, base, t, l) <= Place(x, base, u, l)
  {
    assert x * u == x * t + x * (u - t);
  }

  /** On the screen it is in its row of the grid. */
  lemma PlaceInRow(x: nat, first: nat, t: nat, l: nat)
    ensures Place(x, Offset(x, first), t, l) == Offset(x, first + t) + l
  {
    OffsetAdd(x, first, t);
    OffsetIsProduct(x, t);
  }

  /** n cells v at d; false if that leaves the buffer. */
  function FillAt(s: seq<Cell>, d: int, n: int, v: Cell): (r: (seq<Cell>, bool))
    ensures |r.0| == |s|
  {
    if n <= 0 then (s, true) else if 0 <= d && d + n <= |s| then (Blit(s, d, Fill(n, v)), true) else (s, false)
  }

  /** Rows t to b of a CLEAR of n columns, up to the first that leaves the buffer. */
  function ClearFrom(s: seq<Cell>, x: nat, base: int, t: int, b: int, l: int, n: int, v: Cell): (r: (seq<Cell>, bool))
    ensures |r.0| == |s|
    decreases b - t
  {
    if t > b then (s, true) else
      var (m, ok) := FillAt(s, Place(x, base, t, l), n, v);
      if ok then ClearFrom(m, x, base, t + 1, b, l, n, v) else (m, false)
  }

  /** A CLEAR, which tests nothing, stays in the buffer if and only if the first cell of its first row and the last cell
      of its last row are there, or it is of no cell. */
  lemma {:induction false} ClearIff(s: seq<Cell>, x: nat, base: int, t: int, b: int, l: int, n: int, v: Cell)
    ensures ClearFrom(s, x, base, t, b, l, n, v).1 <==>
      t > b || n <= 0 || (0 <= Place(x, base, t, l) && Place(x, base, b, l) + n <= |s|)
    decreases b - t
  {
    if t <= b {
      PlaceOrder(x, base, t, b, l);
      PlaceOrder(x, base, t, t + 1, l);
      ClearIff(FillAt(s, Place(x, base, t, l), n, v).0, x, base, t + 1, b, l, n, v);
    }
  }

  /** Cell k lies in columns l..l+n of one of the rows t to b. */
  ghost predicate InRows(x: nat, base: int, t: int, b: int, l: int, n: int, k: int) {
    exists u :: t <= u <= b && Place(x, base, u, l) <= k < Place(x, base, u, l) + n
  }

  /** It then clears exactly the cells of its rows. */
  lemma {:induction false} ClearedCells(s: seq<Cell>, x: nat, base: int, t: int, b: int, l: int, n: int, v: Cell,
                                        k: nat)
    requires k < |s| && ClearFrom(s, x, base, t, b, l, n, v).1
    ensures ClearFrom(s, x, base, t, b, l, n, v).0[k] == if InRows(x, base, t, b, l, n, k) then v else s[k]
    decreases b - t
  {
    if t <= b {
      var m := FillAt(s, Place(x, base, t, l), n, v).0;
      ClearedCells(m, x, base, t + 1, b, l, n, v, k);
      RowsNext(x, base, t, b, l, n, k);
    }
  }

  lemma RowsNext(x: nat, base: int, t: int, b: int, l: int, n: int, k: int)
    requires t <= b
    ensures InRows(x, base, t, b, l, n, k) <==>
      (Place(x, base, t, l) <= k < Place(x, base, t, l) + n) || InRows(x, base, t + 1, b, l, n, k)
  {
  }

  /** v in w columns of a row of a grid of x columns, from left on. */
  function OneCleared(m: seq<Row>, x: nat, row: nat, left: nat, w: nat, v: Cell): (r: seq<Row>)
    requires Wide(m, x) && row < |m| && left + w <= x
    ensures Wide(r, x) && |r| == |m|
  {
    m[row := Blit(m[row], left, Fill(w, v))]
  }

  /** ... and of n rows. */
  function Cleared(m: seq<Row>, x: nat, row: nat, n: nat, left: nat, w: nat, v: Cell): (r: seq<Row>)
    requires Wide(m, x) && row + n <= |m| && left + w <= x
    ensures Wide(r, x) && |r| == |m|
    decreases n
  {
    if n == 0 then m else Cleared(OneCleared(m, x, row, left, w, v), x, row + 1, n - 1, left, w, v)
  }

  /** Row i of the grid after it. */
  lemma {:induction false} ClearedRow(m: seq<Row>, x: nat, row: nat, n: nat, left: nat, w: nat, v: Cell, i: nat)
    requires Wide(m, x) && row + n <= |m| && left + w <= x && i < |m|
    ensures Cleared(m, x, row, n, left, w, v)[i] ==
      if row <= i < row + n then Blit(m[i], left, Fill(w, v)) else m[i]
    decreases n
  {
    if n > 0 {
      ClearedRow(OneCleared(m, x, row, left, w, v), x, row + 1, n - 1, left, w, v, i);
    }
  }

  lemma FillInRow(m: seq<Row>, x: nat, row: nat, left: nat, w: nat, v: Cell, d: int)
    requires Wide(m, x) && row < |m| && 0 < w && left + w <= x && d == Offset(x, row) + left
    ensures FillAt(Flat(m), d, w, v) == (Flat(OneCleared(m, x, row, left, w, v)), true)
  {
    RowPuts(m, x, row, left, Fill(w, v), d, OneCleared(m, x, row, left, w, v));
  }

  /** On the screen CLEAR does this to the grid. */
  lemma {:induction false} ClearOnScreen(m: seq<Row>, x: nat, first: nat, t: nat, n: nat, left: nat, w: nat, v: Cell)
    requires Wide(m, x) && first + t + n <= |m| && 0 < w && left + w <= x
    ensures ClearFrom(Flat(m), x, Offset(x, first), t, t + n - 1, left, w, v) ==
      (Flat(Cleared(m, x, first + t, n, left, w, v)), true)
    decreases n
  {
    if n > 0 {
      PlaceInRow(x, first, t, left);
      FillInRow(m, x, first + t, left, w, v, Place(x, Offset(x, first), t, left));
      ClearOnScreen(OneCleared(m, x, first + t, left, w, v), x, first, t + 1, n - 1, left, w, v);
    }
  }

  /** A memmove of n cells from q to p, a negative n being a huge one. */
  function MoveAt(s: seq<Cell>, p: int, q: int, n: int): (r: (seq<Cell>, bool))
    ensures |r.0| == |s|
  {
    if n == 0 then (s, true)
    else if n > 0 && 0 <= p && p + n <= |s| && 0 <= q && q + n <= |s| then (Blit(s, p, s[q..q + n]), true)
    else (s, false)
  }

  /** A BMOVE to (row, col) of n columns from (top, left) on. */
  datatype Move = Move(row: int, col: int, top: int, left: int, n: int)

  /** Row i of it. */
  function MoveRow(s: seq<Cell>, x: nat, base: int, k: Move, i: int): (r: (seq<Cell>, bool))
    ensures |r.0| == |s|
  {
    MoveAt(s, Place(x, base, k.row + i, k.col), Place(x, base, k.top + i, k.left), k.n)
  }

  /** Rows i to h - 1 of it, downwards, up to the first that leaves the buffer. */
  function MoveDown(s: seq<Cell>, x: nat, base: int, k: Move, i: nat, h: nat): (r: (seq<Cell>, bool))
    ensures |r.0| == |s|
    decreases h - i
  {
    if i >= h then (s, true) else
      var (m, ok) := MoveRow(s, x, base, k, i);
      if ok then MoveDown(m, x, base, k, i + 1, h) else (m, false)
  }

  /** Rows h - 1 to 0 of it, upwards. */
  function MoveUp(s: seq<Cell>, x: nat, base: int, k: Move, h: nat): (r: (seq<Cell>, bool))
    ensures |r.0| == |s|
    decreases h
  {
    if h == 0 then (s, true) else
      var (m, ok) := MoveRow(s, x, base, k, h - 1);
      if ok then MoveUp(m, x, base, k, h - 1) else (m, false)
  }

  /** The cells that rows i to h - 1 move, from (t, l) on or to there, are in the buffer. */
  predicate RowsInside(size: nat, x: nat, base: int, t: int, l: int, n: int, i: nat, h: nat) {
    i >= h || (0 <= Place(x, base, t + i, l) && Place(x, base, t + h - 1, l) + n <= size)
  }

  predicate MoveInside(size: nat, x: nat, base: int, k: Move, i: nat, h: nat) {
    i >= h || k.n == 0 || (k.n > 0 && RowsInside(size, x, base, k.row, k.col, k.n, i, h) &&
      RowsInside(size, x, base, k.top, k.left, k.n, i, h))
  }

  lemma RowsInsideNext(size: nat, x: nat, base: int, t: int, l: int, n: int, i: nat, h: nat)
    requires i < h
    ensures RowsInside(size, x, base, t, l, n, i, h) <==>
      0 <= Place(x, base, t + i, l) && Place(x, base, t + i, l) + n <= size &&
      RowsInside(size, x, base, t, l, n, i + 1, h)
  {
    PlaceOrder(x, base, t + i, t + h - 1, l);
    PlaceOrder(x, base, t + i, t + i + 1, l);
  }

  lemma RowsInsideLast(size: nat, x: nat, base: int, t: int, l: int, n: int, h: nat)
    requires h > 0
    ensures RowsInside(size, x, base, t, l, n, 0, h) <==>
      0 <= Place(x, base, t + h - 1, l) && Place(x, base, t + h - 1, l) + n <= size &&
      RowsInside(size, x, base, t, l, n, 0, h - 1)
  {
    PlaceOrder(x, base, t, t + h - 1, l);
    if h > 1 {
      PlaceOrder(x, base, t + h - 2, t + h - 1, l);
    }
  }

  lemma {:induction false} MoveDownIff(s: seq<Cell>, x: nat, base: int, k: Move, i: nat, h: nat)
    ensures MoveDown(s, x, base, k, i, h).1 <==> MoveInside(|s|, x, base, k, i, h)
    decreases h - i
  {
    if i < h {
      RowsInsideNext(|s|, x, base, k.row, k.col, k.n, i, h);
      RowsInsideNext(|s|, x, base, k.top, k.left, k.n, i, h);
      MoveDownIff(MoveRow(s, x, base, k, i).0, x, base, k, i + 1, h);
    }
  }

  lemma {:induction false} MoveUpIff(s: seq<Cell>, x: nat, base: int, k: Move, h: nat)
    ensures MoveUp(s, x, base, k, h).1 <==> MoveInside(|s|, x, base, k, 0, h)
    decreases h
  {
    if h > 0 {
      RowsInsideLast(|s|, x, base, k.row, k.col, k.n, h);
      RowsInsideLast(|s|, x, base, k.top, k.left, k.n, h);
      MoveUpIff(MoveRow(s, x, base, k, h - 1).0, x, base, k, h - 1);
    }
  }

  /** Row i of it, in a grid. */
  function OneMoved(m: seq<Row>, x: nat, b: Rect, i: nat): (r: seq<Row>)
    requires Wide(m, x) && Fits(|m|, x, b) && i < b.h
    ensures Wide(r, x) && |r| == |m|
  {
    m[b.row + i := Blit(m[b.row + i], b.col, m[b.top + i][b.left..b.left + b.w])]
  }

  predicate Fits(rows: nat, x: nat, b: Rect) {
    b.row + b.h <= rows && b.top + b.h <= rows && b.col + b.w <= x && b.left + b.w <= x && 0 < b.w
  }

  function RowsDown(m: seq<Row>, x: nat, b: Rect, i: nat): (r: seq<Row>)
    requires Wide(m, x) && Fits(|m|, x, b) && i <= b.h
    decreases b.h - i
  {
    if i == b.h then m else RowsDown(OneMoved(m, x, b, i), x, b, i + 1)
  }

  function RowsUp(m: seq<Row>, x: nat, b: Rect, i: nat): (r: seq<Row>)
    requires Wide(m, x) && Fits(|m|, x, b) && i <= b.h
    decreases i
  {
    if i == 0 then m else RowsUp(OneMoved(m, x, b, i - 1), x, b, i - 1)
  }

  lemma {:induction false} DownInTurn(g: seq<Row>, x: nat, b: Rect, i: nat, m: seq<Row>)
    requires Wide(m, x) && |m| == |g| && Fits(|m|, x, b) && Spans(g, b)
    requires b.row <= b.top && i <= b.h && m == Moved(g, b, 0, i)
    ensures RowsDown(m, x, b, i) == Moved(g, b, 0, b.h)
    decreases b.h - i
  {
    if i < b.h {
      OneBelow(g, x, b, i, m);
      DownInTurn(g, x, b, i + 1, OneMoved(m, x, b, i));
    }
  }

  lemma OneBelow(g: seq<Row>, x: nat, b: Rect, i: nat, m: seq<Row>)
    requires Wide(m, x) && |m| == |g| && Fits(|m|, x, b) && Spans(g, b)
    requires b.row <= b.top && i < b.h && m == Moved(g, b, 0, i)
    ensures OneMoved(m, x, b, i) == Moved(g, b, 0, i + 1)
  {
    MovedBelow(g, b, i, b.row + i, b.top + i, m);
  }

  lemma {:induction false} UpInTurn(g: seq<Row>, x: nat, b: Rect, i: nat, m: seq<Row>)
    requires Wide(m, x) && |m| == |g| && Fits(|m|, x, b) && Spans(g, b)
    requires b.row >= b.top && i <= b.h && m == Moved(g, b, i, b.h)
    ensures RowsUp(m, x, b, i) == Moved(g, b, 0, b.h)
    decreases i
  {
    if i > 0 {
      var j := i - 1;
      OneAbove(g, x, b, j, m);
      UpInTurn(g, x, b, j, OneMoved(m, x, b, j));
    }
  }

  lemma OneAbove(g: seq<Row>, x: nat, b: Rect, j: nat, m: seq<Row>)
    requires Wide(m, x) && |m| == |g| && Fits(|m|, x, b) && Spans(g, b)
    requires b.row >= b.top && j < b.h && m == Moved(g, b, j + 1, b.h)
    ensures OneMoved(m, x, b, j) == Moved(g, b, j, b.h)
  {
    MovedAbove(g, b, j, b.row + j, b.top + j, m);
  }

  /** The rectangle b of the grid is that of the BMOVE on the screen, which begins at row `first`. */
  predicate Lies(first: nat, k: Move, b: Rect) {
    && 0 <= k.row && b.row == first + k.row && b.col == k.col
    && 0 <= k.top && b.top == first + k.top && b.left == k.left && b.w == k.n
  }

  lemma RowOnScreen(m: seq<Row>, x: nat, first: nat, k: Move, b: Rect, i: nat)
    requires Wide(m, x) && Fits(|m|, x, b) && Lies(first, k, b) && i < b.h
    ensures MoveRow(Flat(m), x, Offset(x, first), k, i) == (Flat(OneMoved(m, x, b, i)), true)
  {
    var p, q := Offset(x, b.row + i) + b.col, Offset(x, b.top + i) + b.left;
    RowPlaces(Flat(m), x, first, k, b, i, p, q);
    RowInGrid(m, x, b, i, p, q);
  }

  lemma RowPlaces(s: seq<Cell>, x: nat, first: nat, k: Move, b: Rect, i: nat, p: nat, q: nat)
    requires Lies(first, k, b) && p == Offset(x, b.row + i) + b.col && q == Offset(x, b.top + i) + b.left
    ensures MoveRow(s, x, Offset(x, first), k, i) == MoveAt(s, p, q, b.w)
  {
    PlaceInRow(x, first, k.row + i, k.col);
    PlaceInRow(x, first, k.top + i, k.left);
  }

  lemma RowInGrid(m: seq<Row>, x: nat, b: Rect, i: nat, p: int, q: int)
    requires Wide(m, x) && Fits(|m|, x, b) && i < b.h
    requires p == Offset(x, b.row + i) + b.col && q == Offset(x, b.top + i) + b.left
    ensures MoveAt(Flat(m), p, q, b.w) == (Flat(OneMoved(m, x, b, i)), true)
  {
    RowMoves(m, x, b.row + i, b.col, b.top + i, b.left, b.w, p, q, OneMoved(m, x, b, i));
  }

  /** On the screen a BMOVE does this to the grid. */
  lemma {:induction false} DownOnScreen(m: seq<Row>, x: nat, first: nat, k: Move, b: Rect, i: nat)
    requires Wide(m, x) && Fits(|m|, x, b) && Lies(first, k, b) && i <= b.h
    ensures MoveDown(Flat(m), x, Offset(x, first), k, i, b.h) == (Flat(RowsDown(m, x, b, i)), true)
    decreases b.h - i
  {
    if i < b.h {
      RowOnScreen(m, x, first, k, b, i);
      DownOnScreen(OneMoved(m, x, b, i), x, first, k, b, i + 1);
    }
  }

  lemma {:induction false} UpOnScreen(m: seq<Row>, x: nat, first: nat, k: Move, b: Rect, i: nat)
    requires Wide(m, x) && Fits(|m|, x, b) && Lies(first, k, b) && i <= b.h
    ensures MoveUp(Flat(m), x, Offset(x, first), k, i) == (Flat(RowsUp(m, x, b, i)), true)
    decreases i
  {
    if i > 0 {
      RowOnScreen(m, x, first, k, b, i - 1);
      UpOnScreen(OneMoved(m, x, b, i - 1), x, first, k, b, i - 1);
    }
  }

  lemma MovedWide(g: seq<Row>, x: nat, b: Rect, lo: nat, hi: nat)
    requires Wide(g, x) && Spans(g, b) && lo <= hi <= b.h
    ensures Wide(Moved(g, b, lo, hi), x)
  {
  }

  // ---- the buffer as a grid

  function Rows(s: seq<Cell>, x: nat, n: nat): (g: seq<Row>)
    requires |s| == Offset(x, n)
  {
    if n == 0 then [] else [s[..x]] + Rows(s[x..], x, n - 1)
  }

  lemma {:induction false} FlatRows(s: seq<Cell>, x: nat, n: nat)
    requires |s| == Offset(x, n)
    ensures var g := Rows(s, x, n); |g| == n && Wide(g, x) && Flat(g) == s
  {
    if n > 0 {
      FlatRows(s[x..], x, n - 1);
      assert Rows(s, x, n)[1..] == Rows(s[x..], x, n - 1);
    }
  }

  // ---- CLEAR and BMOVE on the grid

  function Height(t: int, b: int): (h: nat) { if t > b then 0 else b + 1 - t }

  /** h rows and w columns from (t, l) on are on the screen. */
  predicate OnScreen(x: nat, y: nat, t: int, l: int, h: nat, w: int) {
    0 <= t && t + h <= y && 0 <= l && 0 < w && l + w <= x
  }

  lemma {:induction false} ClearNothing(s: seq<Cell>, x: nat, base: int, t: int, b: int, l: int, n: int, v: Cell)
    requires t > b || n <= 0
    ensures ClearFrom(s, x, base, t, b, l, n, v) == (s, true)
    decreases b - t
  {
    if t <= b {
      ClearNothing(s, x, base, t + 1, b, l, n, v);
    }
  }

  lemma {:induction false} MoveNothing(s: seq<Cell>, x: nat, base: int, k: Move, i: nat, h: nat)
    requires h == 0 || k.n == 0
    ensures MoveDown(s, x, base, k, i, h) == (s, true) && MoveUp(s, x, base, k, h) == (s, true)
    decreases h + (if i < h then h - i else 0)
  {
    if i < h {
      MoveNothing(s, x, base, k, i + 1, h);
    }
    if h > 0 {
      MoveNothing(s, x, base, k, h, h - 1);
    }
  }

  /** The grid after a CLEAR of h rows and w columns. */
  lemma GridCleared(g: seq<Row>, x: nat, y: nat, top: int, bottom: int, left: int, w: int, v: Cell, s: seq<Cell>)
    returns (r: seq<Row>)
    requires Wide(g, x) && y <= |g| && s == ClearFrom(Flat(g), x, Offset(x, |g| - y), top, bottom, left, w, v).0
    ensures |r| == |g| && Wide(r, x) && Flat(r) == s
    ensures top > bottom || w <= 0 ==> r == g
    ensures top <= bottom && OnScreen(x, y, top, left, Height(top, bottom), w) ==>
      r == Cleared(g, x, |g| - y + top, Height(top, bottom), left, w, v)
  {
    var first, h := |g| - y, Height(top, bottom);
    if top > bottom || w <= 0 {
      ClearNothing(Flat(g), x, Offset(x, first), top, bottom, left, w, v);
      r := g;
    } else if OnScreen(x, y, top, left, h, w) {
      ClearOnScreen(g, x, first, top, h, left, w, v);
      r := Cleared(g, x, first + top, h, left, w, v);
    } else {
      r := GridOf(g, x, s);
    }
  }

  lemma GridOf(g: seq<Row>, x: nat, s: seq<Cell>) returns (r: seq<Row>)
    requires Wide(g, x) && |s| == |Flat(g)|
    ensures |r| == |g| && Wide(r, x) && Flat(r) == s
  {
    FlatLen(g, x);
    FlatRows(s, x, |g|);
    r := Rows(s, x, |g|);
  }

  /** A BMOVE runs down when it moves up, and up otherwise. */
  function MoveAll(s: seq<Cell>, x: nat, base: int, k: Move, h: nat): (r: (seq<Cell>, bool))
    ensures |r.0| == |s|
  {
    if k.row < k.top then MoveDown(s, x, base, k, 0, h) else MoveUp(s, x, base, k, h)
  }

  /** A BMOVE, which tests nothing, stays in the buffer if and only if the first cell of its first row and the last cell
      of its last row are there, where it reads and where it writes, or it is of no rows or no columns. A negative
      number of columns never does. */
  lemma MoveIff(s: seq<Cell>, x: nat, base: int, k: Move, h: nat)
    ensures MoveAll(s, x, base, k, h).1 <==> MoveInside(|s|, x, base, k, 0, h)
  {
    MoveDownIff(s, x, base, k, 0, h);
    MoveUpIff(s, x, base, k, h);
  }

  predicate BothOnScreen(x: nat, y: nat, k: Move, h: nat) {
    OnScreen(x, y, k.top, k.left, h, k.n) && OnScreen(x, y, k.row, k.col, h, k.n)
  }

  /** The rectangle of such a BMOVE in a grid. */
  function RectOf(rows: nat, x: nat, y: nat, k: Move, h: nat): (b: Rect)
    requires y <= rows && BothOnScreen(x, y, k, h)
    ensures Fits(rows, x, b) && Lies(rows - y, k, b) && b.h == h
  {
    Rect(rows - y + k.row, k.col, rows - y + k.top, k.left, h, k.n)
  }

  lemma GridMoved(g: seq<Row>, x: nat, y: nat, k: Move, h: nat, s: seq<Cell>) returns (r: seq<Row>)
    requires Wide(g, x) && y <= |g| && s == MoveAll(Flat(g), x, Offset(x, |g| - y), k, h).0
    ensures |r| == |g| && Wide(r, x) && Flat(r) == s
    ensures h == 0 || k.n == 0 ==> r == g
    ensures BothOnScreen(x, y, k, h) ==>
      var b := RectOf(|g|, x, y, k, h); Spans(g, b) && r == Moved(g, b, 0, h)
  {
    if h == 0 || k.n == 0 {
      MoveNothing(Flat(g), x, Offset(x, |g| - y), k, 0, h);
      r := g;
      if BothOnScreen(x, y, k, h) {
        MovedNone(g, x, RectOf(|g|, x, y, k, h), 0);
      }
    } else if BothOnScreen(x, y, k, h) {
      var b := RectOf(|g|, x, y, k, h);
      r := MovedOnScreen(g, x, |g| - y, k, b);
    } else {
      r := GridOf(g, x, s);
    }
  }

  lemma MovedOnScreen(g: seq<Row>, x: nat, first: nat, k: Move, b: Rect) returns (r: seq<Row>)
    requires Wide(g, x) && Fits(|g|, x, b) && Lies(first, k, b)
    ensures Wide(r, x) && |r| == |g| && Flat(r) == MoveAll(Flat(g), x, Offset(x, first), k, b.h).0
    ensures Spans(g, b) && r == Moved(g, b, 0, b.h)
  {
    if k.row < k.top {
      r := MovedDown(g, x, first, k, b);
    } else {
      r := MovedUp(g, x, first, k, b);
    }
  }

  lemma MovedDown(g: seq<Row>, x: nat, first: nat, k: Move, b: Rect) returns (r: seq<Row>)
    requires Wide(g, x) && Fits(|g|, x, b) && Lies(first, k, b) && b.row <= b.top
    ensures Wide(r, x) && |r| == |g| && Flat(r) == MoveDown(Flat(g), x, Offset(x, first), k, 0, b.h).0
    ensures Spans(g, b) && r == Moved(g, b, 0, b.h)
  {
    MovedNone(g, x, b, 0);
    DownOnScreen(g, x, first, k, b, 0);
    DownInTurn(g, x, b, 0, g);
    MovedWide(g, x, b, 0, b.h);
    r := RowsDown(g, x, b, 0);
  }

  lemma MovedUp(g: seq<Row>, x: nat, first: nat, k: Move, b: Rect) returns (r: seq<Row>)
    requires Wide(g, x) && Fits(|g|, x, b) && Lies(first, k, b) && b.row >= b.top
    ensures Wide(r, x) && |r| == |g| && Flat(r) == MoveUp(Flat(g), x, Offset(x, first), k, b.h).0
    ensures Spans(g, b) && r == Moved(g, b, 0, b.h)
  {
    MovedNone(g, x, b, b.h);
    UpOnScreen(g, x, first, k, b, b.h);
    UpInTurn(g, x, b, b.h, g);
    MovedWide(g, x, b, 0, b.h);
    r := RowsUp(g, x, b, b.h);
  }

  // ---- replay

  /** What co_monitor_user_get_console leaves in a fresh console: the buffer from row y on, and the screen. */
  function Replayed(g: seq<Row>, x: nat, y: nat): (r: seq<Row>)
    requires y <= |g|
  {
    var lost := if y < |g| - y then y else |g| - y;
    Fill(lost, Fill(x, ZERO)) + g[lost..]
  }

  /** The screen and the rows from y on are reproduced; the whole buffer is, exactly when the rows before both are
      still empty. */
  lemma ReplayExact(g: seq<Row>, x: nat, y: nat)
    requires y <= |g| && Wide(g, x)
    ensures var r := Replayed(g, x, y);
      && |r| == |g| && r[|g| - y..] == g[|g| - y..] && r[y..] == g[y..]
      && (r == g <==> forall i :: 0 <= i < y && i < |g| - y ==> g[i] == Fill(x, ZERO))
  {
    var lost := if y < |g| - y then y else |g| - y;
    var r := Replayed(g, x, y);
    if r == g {
      forall i | 0 <= i < y && i < |g| - y ensures g[i] == Fill(x, ZERO) {
        assert r[i] == Fill(x, ZERO);
      }
    }
    if forall i :: 0 <= i < y && i < |g| - y ==> g[i] == Fill(x, ZERO) {
      assert r == g;
    }
  }

  // ---- in place

  class Screen {
    const x: nat
    const y: nat
    const maxY: nat
    const cells: array<Cell>
    var cursor: Cursor
    ghost var grid: seq<Row>

    ghost predicate Valid()
      reads this, cells
    {
      x > 0 && |grid| == maxY && y <= maxY && Wide(grid, x) && cells[..] == Flat(grid)
    }

    /** co_console_create. */
    constructor (x: nat, y: nat, maxY: nat)
      requires 0 < x && y <= maxY
      ensures Valid() && this.x == x && this.y == y && this.maxY == maxY && fresh(cells)
      ensures grid == Fill(maxY, Fill(x, ZERO)) && cursor == Cursor(0, 0, 0)
    {
      this.x, this.y, this.maxY := x, y, maxY;
      FillRows(x, maxY, ZERO);
      var a := new Cell[Offset(x, maxY)](_ => ZERO);
      assert a[..] == Fill(Offset(x, maxY), ZERO);
      cells := a;
      cursor := Cursor(0, 0, 0);
      grid := Fill(maxY, Fill(x, ZERO));
    }

    method Memmove(d: nat, s: nat, n: nat)
      requires d + n <= cells.Length && s + n <= cells.Length
      modifies cells
      ensures cells[..] == Blit(old(cells[..]), d, old(cells[..])[s..s + n])
    {
      if d <= s {
        Forward(d, s, n);
      } else {
        Backward(d, s, n);
      }
    }

    method CopyCell(d: nat, s: nat)
      requires d < cells.Length && s < cells.Length
      modifies cells
      ensures cells[..] == old(cells[..])[d := old(cells[s])]
    {
      cells[d] := cells[s];
    }

    /** One round of the memmove to a lower address. */
    method CopyUp(d: nat, s: nat, i: nat, ghost a: seq<Cell>)
      requires d <= s && s + i < cells.Length == |a| && cells[..] == Copied(a, d, s, i)
      modifies cells
      ensures cells[..] == Copied(a, d, s, i + 1)
    {
      CopyNext(a, d, s, i);
      CopyCell(d + i, s + i);
    }

    /** ... and to a higher one. */
    method CopyDown(d: nat, s: nat, n: nat, i: nat, ghost a: seq<Cell>)
      requires s < d && d + n <= cells.Length == |a| && 0 < i <= n && cells[..] == Copied(a, d + i, s + i, n - i)
      modifies cells
      ensures cells[..] == Copied(a, d + i - 1, s + i - 1, n - i + 1)
    {
      CopyPrev(a, d, s, n, i - 1);
      CopyCell(d + i - 1, s + i - 1);
    }

    method Forward(d: nat, s: nat, n: nat)
      requires d <= s && s + n <= cells.Length
      modifies cells
      ensures cells[..] == Blit(old(cells[..]), d, old(cells[..])[s..s + n])
    {
      ghost var a := cells[..];
      var i := 0;
      CopiedNone(a, d, s);
      while i < n
        invariant 0 <= i <= n
        invariant cells[..] == Copied(a, d, s, i)
      {
        CopyUp(d, s, i, a);
        i := i + 1;
      }
    }

    method Backward(d: nat, s: nat, n: nat)
      requires s < d && d + n <= cells.Length
      modifies cells
      ensures cells[..] == Blit(old(cells[..]), d, old(cells[..])[s..s + n])
    {
      ghost var a := cells[..];
      var i := n;
      CopiedNone(a, d + n, s + n);
      while i > 0
        invariant 0 <= i <= n
        invariant cells[..] == Copied(a, d + i, s + i, n - i)
      {
        CopyDown(d, s, n, i, a);
        i := i - 1;
      }
    }

    method Put(d: nat, bs: seq<Cell>)
      requires d + |bs| <= cells.Length
      modifies cells
      ensures cells[..] == Blit(old(cells[..]), d, bs)
    {
      var i := 0;
      while i < |bs|
        invariant 0 <= i <= |bs|
        invariant forall k :: 0 <= k < cells.Length ==> cells[k] == if d <= k < d + i then bs[k - d] else old(cells[k])
      {
        cells[d + i] := bs[i];
        i := i + 1;
      }
    }

    method Blank(d: nat, n: nat, v: Cell)
      requires d + n <= cells.Length
      modifies cells
      ensures cells[..] == Blit(old(cells[..]), d, Fill(n, v))
    {
      var i := 0;
      while i < n
        invariant 0 <= i <= n
        invariant forall k :: 0 <= k < cells.Length ==> cells[k] == if d <= k < d + i then v else old(cells[k])
      {
        cells[d + i] := v;
        i := i + 1;
      }
    }

    /** A memmove of k whole rows from row s to row d. */
    method MoveRows(flatD: nat, flatS: nat, n: nat, ghost d: nat, ghost s: nat, ghost k: nat)
      requires Valid() && d + k <= maxY && s + k <= maxY && flatD == Offset(x, d) && flatS == Offset(x, s) &&
        n == Offset(x, k)
      modifies cells, this`grid
      ensures Valid() && grid == Blit(old(grid), d, old(grid)[s..s + k])
    {
      ghost var b := grid[s..s + k];
      ghost var h := Blit(grid, d, b);
      SliceRowsAt(grid, x, s, k, flatS, n, b);
      RowsPut(grid, x, d, b, flatD, n, h);
      Memmove(flatD, flatS, n);
      grid := h;
    }

    method BlankRows(flatD: nat, n: nat, v: Cell, ghost d: nat, ghost k: nat)
      requires Valid() && d + k <= maxY && flatD == Offset(x, d) && n == Offset(x, k)
      modifies cells, this`grid
      ensures Valid() && grid == Blit(old(grid), d, Fill(k, Fill(x, v)))
    {
      FillRows(x, k, v);
      BlitRows(grid, x, d, Fill(k, Fill(x, v)));
      Blank(flatD, n, v);
      grid := Blit(grid, d, Fill(k, Fill(x, v)));
    }

    /** Cells written at column c of row r. */
    method PutInRow(flat: nat, bs: seq<Cell>, ghost r: nat, ghost c: nat)
      requires Valid() && r < maxY && c + |bs| <= x && flat == Offset(x, r) + c
      modifies cells, this`grid
      ensures Valid() && grid == old(grid)[r := Blit(old(grid)[r], c, bs)]
    {
      BlitInRow(grid, x, r, c, bs);
      Put(flat, bs);
      grid := grid[r := Blit(grid[r], c, bs)];
    }

    /** Rows from..to shifted up: a memmove of the rows that stay, and blanks in the rest. */
    method ShiftUp(d: nat, s: nat, n: nat, e: nat, blank: Cell, ghost from: nat, ghost to: nat, ghost lines: nat)
      requires Valid() && from + lines <= to <= maxY && d == Offset(x, from) && d + s == Offset(x, from + lines)
      requires n == Offset(x, to - lines - from) && e == Offset(x, to - lines) && s == Offset(x, lines)
      modifies cells, this`grid
      ensures Valid() && grid == ScrolledUp(old(grid), from, to, lines, Fill(x, blank))
    {
      ghost var g := grid;
      MoveRows(d, d + s, n, from, from + lines, to - lines - from);
      BlankRows(e, s, blank, to - lines, lines);
      UpInTwo(g, from, to, lines, Fill(x, blank));
    }

    /** Rows from..to shifted down. */
    method ShiftDown(d: nat, s: nat, n: nat, blank: Cell, ghost from: nat, ghost to: nat, ghost lines: nat)
      requires Valid() && from + lines <= to <= maxY && d == Offset(x, from) && d + s == Offset(x, from + lines)
      requires n == Offset(x, to - lines - from) && s == Offset(x, lines)
      modifies cells, this`grid
      ensures Valid() && grid == ScrolledDown(old(grid), from, to, lines, Fill(x, blank))
    {
      ghost var g := grid;
      MoveRows(d + s, d, n, from + lines, from, to - lines - from);
      BlankRows(d, s, blank, from, lines);
      DownInTwo(g, from, to, lines, Fill(x, blank));
    }

    lemma BlockSize()
      requires Valid()
      ensures cells.Length == Offset(x, maxY)
    {
      FlatLen(grid, x);
    }

    /** CO_OPERATION_CONSOLE_SCROLL_UP with top..bottom: it scrolls a part of the screen, or the whole buffer when it
        names the whole screen. After an overrun the memory outside the block is not modelled, so the model stops. */
    method ScrollUp(top: nat, bottom: nat, lines: nat, blank: Cell) returns (o: Outcome)
      requires Valid()
      modifies cells, this`grid
      ensures Valid()
      ensures o == if !Passes(y, maxY, top, bottom + 1, lines) then Refused
                   else if UpFits(y, maxY, top, bottom + 1, lines) then Scrolled else Overrun
      ensures o == Refused <==> (top > 0 || bottom + 1 != y) && (bottom >= maxY || top + lines >= maxY)
      ensures o.Overrun? ==> !InBlock(UpRanges(x, y, maxY, top, bottom + 1, lines), cells.Length)
      ensures grid ==
        if o != Scrolled || (bottom + 1 > y && !WholeScreen(y, top, bottom + 1)) then old(grid)
        else if WholeScreen(y, top, bottom + 1) then ScrolledUp(old(grid), 0, maxY, lines, Fill(x, blank))
        else ScrolledUp(old(grid), maxY - y + top, maxY - y + bottom + 1, lines, Fill(x, blank))
    {
      var b := bottom + 1;
      if top != 0 || b != y {
        if b > maxY || top + lines >= maxY {
          return Refused;
        }
      }
      var inside := UpInside(top, b, lines);
      if !inside {
        return Overrun;
      }
      DoUp(top, b, lines, blank);
      o := Scrolled;
    }

    method UpInside(top: nat, b: nat, lines: nat) returns (inside: bool)
      requires Valid() && Passes(y, maxY, top, b, lines)
      ensures inside <==> InBlock(UpRanges(x, y, maxY, top, b, lines), cells.Length)
      ensures inside <==> UpFits(y, maxY, top, b, lines)
    {
      BlockSize();
      UpInBlockIff(x, y, maxY, top, b, lines);
      inside := InBlock(UpRanges(x, y, maxY, top, b, lines), cells.Length);
    }

    /** The memmove and the fill of SCROLL_UP. */
    method DoUp(top: nat, b: nat, lines: nat, blank: Cell)
      requires Valid() && UpFits(y, maxY, top, b, lines)
      modifies cells, this`grid
      ensures Valid()
      ensures grid ==
        if WholeScreen(y, top, b) then ScrolledUp(old(grid), 0, maxY, lines, Fill(x, blank))
        else if b > y then old(grid) else ScrolledUp(old(grid), maxY - y + top, maxY - y + b, lines, Fill(x, blank))
    {
      if top == 0 && b == y {
        UpAll(lines, blank);
      } else if b <= y {
        UpPart(top, b, lines, blank);
      }
    }

    method UpPart(top: nat, b: nat, lines: nat, blank: Cell)
      requires Valid() && b <= y && top + lines <= b
      modifies cells, this`grid
      ensures Valid() && grid == ScrolledUp(old(grid), maxY - y + top, maxY - y + b, lines, Fill(x, blank))
    {
      var tCount, sCount, screen := Offset(x, top), Offset(x, lines), Offset(x, maxY - y);
      Spread(x, maxY - y, top, lines, b);
      var offs := Offset(x, b) - sCount;
      ShiftUp(screen + tCount, sCount, offs - tCount, screen + offs, blank, maxY - y + top, maxY - y + b, lines);
    }

    method UpAll(lines: nat, blank: Cell)
      requires Valid() && lines <= maxY
      modifies cells, this`grid
      ensures Valid() && grid == ScrolledUp(old(grid), 0, maxY, lines, Fill(x, blank))
    {
      var sCount := Offset(x, lines);
      Spread(x, 0, 0, lines, maxY);
      var offs := Offset(x, maxY) - sCount;
      ShiftUp(0, sCount, offs, offs, blank, 0, maxY, lines);
    }

    /** CO_OPERATION_CONSOLE_SCROLL_DOWN. */
    method ScrollDown(top: nat, bottom: nat, lines: nat, blank: Cell) returns (o: Outcome)
      requires Valid()
      modifies cells, this`grid
      ensures Valid()
      ensures o == if !Passes(y, maxY, top, bottom + 1, lines) then Refused
                   else if DownFits(y, top, bottom + 1, lines) then Scrolled else Overrun
      ensures o == Refused <==> (top > 0 || bottom + 1 != y) && (bottom >= maxY || top + lines >= maxY)
      ensures o.Overrun? ==> !InBlock(DownRanges(x, y, maxY, top, bottom + 1, lines), cells.Length)
      ensures grid ==
        if o != Scrolled || bottom + 1 > y then old(grid)
        else ScrolledDown(old(grid), maxY - y + top, maxY - y + bottom + 1, lines, Fill(x, blank))
    {
      var b := bottom + 1;
      if top != 0 || b != y {
        if b > maxY || top + lines >= maxY {
          return Refused;
        }
      }
      o := TryDown(top, b, lines, blank);
    }

    method TryDown(top: nat, b: nat, lines: nat, blank: Cell) returns (o: Outcome)
      requires Valid() && Passes(y, maxY, top, b, lines)
      modifies cells, this`grid
      ensures Valid() && o == if DownFits(y, top, b, lines) then Scrolled else Overrun
      ensures o.Overrun? ==> !InBlock(DownRanges(x, y, maxY, top, b, lines), cells.Length)
      ensures grid ==
        if o != Scrolled || b > y then old(grid)
        else ScrolledDown(old(grid), maxY - y + top, maxY - y + b, lines, Fill(x, blank))
    {
      var inside := DownInside(top, b, lines);
      if !inside {
        return Overrun;
      }
      DoDown(top, b, lines, blank);
      o := Scrolled;
    }

    method DownInside(top: nat, b: nat, lines: nat) returns (inside: bool)
      requires Valid() && Passes(y, maxY, top, b, lines)
      ensures inside <==> InBlock(DownRanges(x, y, maxY, top, b, lines), cells.Length)
      ensures inside <==> DownFits(y, top, b, lines)
    {
      BlockSize();
      DownInBlockIff(x, y, maxY, top, b, lines);
      inside := InBlock(DownRanges(x, y, maxY, top, b, lines), cells.Length);
    }

    /** The memmove and the fill of SCROLL_DOWN. */
    method DoDown(top: nat, b: nat, lines: nat, blank: Cell)
      requires Valid() && DownFits(y, top, b, lines)
      modifies cells, this`grid
      ensures Valid()
      ensures grid ==
        if b > y then old(grid) else ScrolledDown(old(grid), maxY - y + top, maxY - y + b, lines, Fill(x, blank))
    {
      if top == 0 && b == y {
        DownAll(lines, blank);
      } else if b <= y {
        DownPart(top, b, lines, blank);
      }
    }

    method DownPart(top: nat, b: nat, lines: nat, blank: Cell)
      requires Valid() && b <= y && top + lines <= b
      modifies cells, this`grid
      ensures Valid() && grid == ScrolledDown(old(grid), maxY - y + top, maxY - y + b, lines, Fill(x, blank))
    {
      var tCount, sCount, screen := Offset(x, top), Offset(x, lines), Offset(x, maxY - y);
      Spread(x, maxY - y, top, lines, b);
      ShiftDown(screen + tCount, sCount, Offset(x, b) - tCount - sCount, blank, maxY - y + top, maxY - y + b, lines);
    }

    method DownAll(lines: nat, blank: Cell)
      requires Valid() && lines <= y
      modifies cells, this`grid
      ensures Valid() && grid == ScrolledDown(old(grid), maxY - y, maxY, lines, Fill(x, blank))
    {
      var sCount, screen := Offset(x, lines), Offset(x, maxY - y);
      Spread(x, maxY - y, 0, lines, y);
      ShiftDown(screen, sCount, Offset(x, y) - sCount, blank, maxY - y, maxY, lines);
    }

    /** CO_OPERATION_CONSOLE_PUTCS: row 0 is the first of the screen; cells past the right edge are dropped. */
    method PutCs(col: nat, row: nat, bs: seq<Cell>) returns (ok: bool)
      requires Valid()
      modifies cells, this`grid
      ensures Valid() && (ok <==> row < y && col < x)
      ensures grid == if ok then PutAt(old(grid), maxY - y + row, col, bs, x) else old(grid)
    {
      if row >= y || col >= x {
        return false;
      }
      var count := if |bs| > x - col then x - col else |bs|;
      OffsetAdd(x, maxY - y, row);
      PutInRow(Offset(x, maxY - y) + Offset(x, row) + col, bs[..count], maxY - y + row, col);
      ok := true;
    }

    /** CO_OPERATION_CONSOLE_INIT_SCROLLBUFFER: row 0 is the first of the buffer. */
    method InitScrollBuffer(col: nat, row: nat, bs: seq<Cell>) returns (ok: bool)
      requires Valid()
      modifies cells, this`grid
      ensures Valid() && (ok <==> row < maxY && col < x)
      ensures grid == if ok then PutAt(old(grid), row, col, bs, x) else old(grid)
    {
      if row >= maxY || col >= x {
        return false;
      }
      var count := if |bs| > x - col then x - col else |bs|;
      PutInRow(Offset(x, row) + col, bs[..count], row, col);
      ok := true;
    }

    /** CO_OPERATION_CONSOLE_CURSOR_MOVE. */
    method CursorMove(c: Cursor)
      requires Valid()
      modifies this`cursor
      ensures Valid() && cursor == c
    {
      cursor := c;
    }

    /** CO_OPERATION_CONSOLE_SWITCH: clear what has scrolled off the screen. */
    method Switch()
      requires Valid()
      modifies cells, this`grid
      ensures Valid() && grid == Fill(maxY - y, Fill(x, ZERO)) + old(grid)[maxY - y..]
    {
      BlankRows(0, Offset(x, maxY - y), ZERO, 0, maxY - y);
    }

    /** n cells v from d on, whatever d and n are. */
    method FillCells(d: int, n: int, v: Cell) returns (ok: bool)
      modifies cells
      ensures (cells[..], ok) == FillAt(old(cells[..]), d, n, v)
    {
      if n <= 0 {
        return true;
      }
      ok := 0 <= d && d + n <= cells.Length;
      if ok {
        Blank(d, n, v);
      }
    }

    /** Row t of a CLEAR. */
    method ClearRow(t: int, left: int, n: int, blank: Cell) returns (ok: bool)
      requires y <= maxY
      modifies cells
      ensures (cells[..], ok) == FillAt(old(cells[..]), Place(x, Offset(x, maxY - y), t, left), n, blank)
    {
      ok := FillCells(Place(x, Offset(x, maxY - y), t, left), n, blank);
    }

    method ClearLoop(top: int, left: int, bottom: int, n: int, blank: Cell) returns (ok: bool)
      requires y <= maxY
      modifies cells
      ensures (cells[..], ok) == ClearFrom(old(cells[..]), x, Offset(x, maxY - y), top, bottom, left, n, blank)
    {
      ghost var s, base := cells[..], Offset(x, maxY - y);
      var t := top;
      ok := true;
      while t <= bottom
        invariant ok
        invariant ClearFrom(cells[..], x, base, t, bottom, left, n, blank) ==
          ClearFrom(s, x, base, top, bottom, left, n, blank)
      {
        ok := ClearRow(t, left, n, blank);
        if !ok {
          break;
        }
        t := t + 1;
      }
    }

    /** CO_OPERATION_CONSOLE_CLEAR of the rectangle top..bottom, left..right, on the screen or off it, up to the first
        row that leaves the buffer; it may be empty. */
    method Clear(top: int, left: int, bottom: int, right: int, blank: Cell) returns (ok: bool)
      requires Valid()
      modifies cells, this`grid
      ensures Valid()
      ensures (cells[..], ok) ==
        ClearFrom(old(cells[..]), x, Offset(x, maxY - y), top, bottom, left, right + 1 - left, blank)
      ensures top > bottom || left > right ==> grid == old(grid)
      ensures top <= bottom && OnScreen(x, y, top, left, Height(top, bottom), right + 1 - left) ==>
        grid == Cleared(old(grid), x, maxY - y + top, Height(top, bottom), left, right + 1 - left, blank)
    {
      ok := ClearLoop(top, left, bottom, right + 1 - left, blank);
      ghost var g := GridCleared(grid, x, y, top, bottom, left, right + 1 - left, blank, cells[..]);
      grid := g;
    }

    /** A memmove of n cells from q to p, whatever these are. */
    method MoveCells(p: int, q: int, n: int) returns (ok: bool)
      modifies cells
      ensures (cells[..], ok) == MoveAt(old(cells[..]), p, q, n)
    {
      if n == 0 {
        return true;
      }
      ok := n > 0 && 0 <= p && p + n <= cells.Length && 0 <= q && q + n <= cells.Length;
      if ok {
        Memmove(p, q, n);
      }
    }

    /** CO_OPERATION_CONSOLE_BMOVE of the rectangle top..bottom, left..right to (row, col), on the screen or off it, up
        to the first row that leaves the buffer. */
    method BMove(row: int, col: int, top: int, left: int, bottom: int, right: int) returns (ok: bool)
      requires Valid()
      modifies cells, this`grid
      ensures Valid()
      ensures var k, h := Move(row, col, top, left, right - left + 1), Height(top, bottom);
        && (cells[..], ok) == MoveAll(old(cells[..]), x, Offset(x, maxY - y), k, h)
        && (h == 0 || k.n == 0 ==> grid == old(grid))
        && (BothOnScreen(x, y, k, h) ==> var b := RectOf(maxY, x, y, k, h);
            Spans(old(grid), b) && grid == Moved(old(grid), b, 0, h))
    {
      ghost var k, h := Move(row, col, top, left, right - left + 1), Height(top, bottom);
      ok := BMoveAll(row, col, top, left, bottom, right - left + 1, k);
      ghost var g := GridMoved(grid, x, y, k, h, cells[..]);
      grid := g;
    }

    method BMoveAll(row: int, col: int, top: int, left: int, bottom: int, n: int, ghost k: Move) returns (ok: bool)
      requires y <= maxY && k == Move(row, col, top, left, n)
      modifies cells
      ensures (cells[..], ok) == MoveAll(old(cells[..]), x, Offset(x, maxY - y), k, Height(top, bottom))
    {
      if row < top {
        ok := BMoveDown(row, col, top, left, bottom, n, k);
      } else {
        ok := BMoveUp(row, col, top, left, bottom, n, k);
      }
    }

    /** Row i of a BMOVE. */
    method BMoveRow(d: int, col: int, t: int, left: int, n: int, ghost k: Move, ghost i: int) returns (ok: bool)
      requires y <= maxY && k.col == col && k.left == left && k.n == n && d == k.row + i && t == k.top + i
      modifies cells
      ensures (cells[..], ok) == MoveRow(old(cells[..]), x, Offset(x, maxY - y), k, i)
    {
      ok := MoveCells(Place(x, Offset(x, maxY - y), d, col), Place(x, Offset(x, maxY - y), t, left), n);
    }

    /** The loop that runs down. */
    method BMoveDown(row: int, col: int, top: int, left: int, bottom: int, n: int, ghost k: Move) returns (ok: bool)
      requires y <= maxY && k == Move(row, col, top, left, n)
      modifies cells
      ensures (cells[..], ok) == MoveDown(old(cells[..]), x, Offset(x, maxY - y), k, 0, Height(top, bottom))
    {
      ghost var s, h, base := cells[..], Height(top, bottom), Offset(x, maxY - y);
      var d, t := row, top;
      ghost var i: nat := 0;
      ok := true;
      while t <= bottom
        invariant i <= h && t == top + i && d == row + i
        invariant ok && MoveDown(cells[..], x, base, k, i, h) == MoveDown(s, x, base, k, 0, h)
      {
        ok := BMoveRow(d, col, t, left, n, k, i);
        if !ok {
          break;
        }
        d, t, i := d + 1, t + 1, i + 1;
      }
    }

    /** The loop that runs up. */
    method BMoveUp(row: int, col: int, top: int, left: int, bottom: int, n: int, ghost k: Move) returns (ok: bool)
      requires y <= maxY && k == Move(row, col, top, left, n)
      modifies cells
      ensures (cells[..], ok) == MoveUp(old(cells[..]), x, Offset(x, maxY - y), k, Height(top, bottom))
    {
      ghost var s, h, base := cells[..], Height(top, bottom), Offset(x, maxY - y);
      var d, b := row + (bottom - top), bottom;
      ghost var i := h;
      ok := true;
      while top <= b
        invariant i <= h && if h == 0 then b < top else b == top + i - 1 && d == row + i - 1
        invariant ok && MoveUp(cells[..], x, base, k, i) == MoveUp(s, x, base, k, h)
      {
        ok := BMoveRow(d, col, b, left, n, k, i - 1);
        if !ok {
          break;
        }
        d, b, i := d - 1, b - 1, i - 1;
      }
    }
  }

  // ---- co_monitor_user_get_console

  /** A row of the buffer, as the cells of a message. */
  method RowCells(c: Screen, row: nat) returns (bs: seq<Cell>)
    requires c.Valid() && row < c.maxY
    ensures bs == c.grid[row]
  {
    SliceInRow(c.grid, c.x, row, 0, c.x);
    bs := c.cells[Offset(c.x, row)..Offset(c.x, row) + c.x];
  }

  lemma PutWhole(g: seq<Row>, row: nat, bs: Row, x: nat)
    requires row < |g| && |g[row]| == x == |bs| && x > 0
    ensures PutAt(g, row, 0, bs, x) == g[row := bs]
  {
    assert bs[..x] == bs;
    assert Blit(g[row], 0, bs) == bs;
  }

  ghost predicate Pair(c: Screen, user: Screen)
    reads c, c.cells, user, user.cells
  {
    && c.Valid() && user.Valid() && c != user && c.cells != user.cells && c.x > 0
    && user.x == c.x && user.y == c.y && user.maxY == c.maxY
  }

  /** One row of the buffer. */
  method SendBufferRow(c: Screen, user: Screen, row: nat)
    requires Pair(c, user) && row < c.maxY
    modifies user`grid, user.cells
    ensures Pair(c, user) && user.grid == old(user.grid)[row := c.grid[row]]
  {
    var bs := RowCells(c, row);
    PutWhole(user.grid, row, bs, c.x);
    var ok := user.InitScrollBuffer(0, row, bs);
  }

  /** The rows of the buffer from y on. */
  method SendScrollback(c: Screen, user: Screen)
    requires Pair(c, user)
    modifies user`grid, user.cells
    ensures Pair(c, user) && user.grid == old(user.grid)[..c.y] + c.grid[c.y..]
  {
    ghost var g, h := user.grid, c.grid;
    var row := c.y;
    assert g == g[..c.y] + h[c.y..c.y] + g[c.y..];
    while row < c.maxY
      invariant c.y <= row <= c.maxY && Pair(c, user) && c.grid == h
      invariant user.grid == g[..c.y] + h[c.y..row] + g[row..]
    {
      SendBufferRow(c, user, row);
      NextRow(g, h, c.y, row);
      row := row + 1;
    }
    assert h[c.y..row] == h[c.y..];
  }

  /** One row of the screen. */
  method SendRow(c: Screen, user: Screen, row: nat)
    requires Pair(c, user) && row < c.y
    modifies user`grid, user.cells
    ensures Pair(c, user) && user.grid == old(user.grid)[c.maxY - c.y + row := c.grid[c.maxY - c.y + row]]
  {
    var bs := RowCells(c, c.maxY - c.y + row);
    PutWhole(user.grid, c.maxY - c.y + row, bs, c.x);
    var ok := user.PutCs(0, row, bs);
  }

  /** The rows of the screen. */
  method SendScreen(c: Screen, user: Screen)
    requires Pair(c, user)
    modifies user`grid, user.cells
    ensures Pair(c, user) && user.grid == old(user.grid)[..c.maxY - c.y] + c.grid[c.maxY - c.y..]
  {
    ghost var g, h, from := user.grid, c.grid, c.maxY - c.y;
    var row := 0;
    assert g == g[..from] + h[from..from] + g[from..];
    while row < c.y
      invariant 0 <= row <= c.y && Pair(c, user) && c.grid == h
      invariant user.grid == g[..from] + h[from..from + row] + g[from + row..]
    {
      SendRow(c, user, row);
      NextRow(g, h, from, from + row);
      row := row + 1;
    }
    assert h[from..from + row] == h[from..];
  }

  lemma NextRow(g: seq<Row>, s: seq<Row>, lo: nat, i: nat)
    requires lo <= i < |g| == |s|
    ensures (g[..lo] + s[lo..i] + g[i..])[i := s[i]] == g[..lo] + s[lo..i + 1] + g[i + 1..]
  {
  }

  lemma ReplayInTwo(s: seq<Row>, x: nat, y: nat)
    requires y <= |s|
    ensures var z := Fill(|s|, Fill(x, ZERO));
      var t := z[..y] + s[y..];
      t[..|s| - y] + s[|s| - y..] == Replayed(s, x, y)
  {
  }

  /** Replay the console of the monitor into a console that has just been created. */
  method GetConsole(c: Screen, user: Screen)
    requires Pair(c, user) && user.grid == Fill(c.maxY, Fill(c.x, ZERO))
    modifies user, user.cells
    ensures Pair(c, user) && user.grid == Replayed(c.grid, c.x, c.y) && user.cursor == c.cursor
  {
    ReplayInTwo(c.grid, c.x, c.y);
    SendScrollback(c, user);
    SendScreen(c, user);
    user.CursorMove(c.cursor);
  }
}
