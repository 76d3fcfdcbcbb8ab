/** common/console.c: what each message leaves in each cell of the buffer, seen as a grid of rows. */
module ConsoleCells {
  import opened Bytes
  import opened Console

  /** PUTCS puts its cells side by side from column c of the row on, up to the right edge, and changes no other cell. */
  lemma PutCell(g: seq<Row>, row: nat, c: nat, bs: seq<Cell>, x: nat, i: nat, j: nat)
    requires Wide(g, x) && row < |g| && c < x && i < |g| && j < x
    ensures var r := PutAt(g, row, c, bs, x);
      Wide(r, x) && |r| == |g| && r[i][j] == if i == row && c <= j < c + |bs| then bs[j - c] else g[i][j]
  {
  }

  /** SCROLL_UP: a row of the region is the one `lines` below it, or blank; all other rows stay. */
  lemma UpRow(g: seq<Row>, from: nat, to: nat, lines: nat, blank: Row, i: nat)
    requires from + lines <= to <= |g| && i < |g|
    ensures var r := ScrolledUp(g, from, to, lines, blank);
      |r| == |g| && r[i] == if !(from <= i < to) then g[i] else if i + lines < to then g[i + lines] else blank
  {
  }

  /** SCROLL_DOWN: a row of the region is the one `lines` above it, or blank; all other rows stay. */
  lemma DownRow(g: seq<Row>, from: nat, to: nat, lines: nat, blank: Row, i: nat)
    requires from + lines <= to <= |g| && i < |g|
    ensures var r := ScrolledDown(g, from, to, lines, blank);
      |r| == |g| && r[i] == if !(from <= i < to) then g[i] else if i >= from + lines then g[i - lines] else blank
  {
  }

  /** BMOVE: a cell of the target rectangle is the cell at its place in the source rectangle, as it was before; all
      other cells stay. */
  lemma MovedCell(g: seq<Row>, x: nat, b: Rect, i: nat, j: nat)
    requires Wide(g, x) && Spans(g, b) && b.col + b.w <= x && b.left + b.w <= x && i < |g| && j < x
    ensures var r := Moved(g, b, 0, b.h);
      Wide(r, x) && |r| == |g| &&
      r[i][j] == if b.row <= i < b.row + b.h && b.col <= j < b.col + b.w
                 then g[b.top + (i - b.row)][b.left + (j - b.col)] else g[i][j]
  {
    MovedWide(g, x, b, 0, b.h);
    MovedCellAt(g, b, i, j);
  }

  lemma MovedCellAt(g: seq<Row>, b: Rect, i: nat, j: nat)
    requires Spans(g, b) && i < |g| && j < |g[i]|
    ensures var r := Moved(g, b, 0, b.h);
      |r| == |g| && |r[i]| == |g[i]| &&
      r[i][j] == if b.row <= i < b.row + b.h && b.col <= j < b.col + b.w
                 then g[b.top + (i - b.row)][b.left + (j - b.col)] else g[i][j]
  {
    MovedAt(g, b, i);
    if b.row <= i < b.row + b.h {
      MovedInside(g, b, i, j);
    }
  }

  lemma MovedInside(g: seq<Row>, b: Rect, i: nat, j: nat)
    requires Spans(g, b) && b.row <= i < b.row + b.h && i < |g| && j < |g[i]|
    ensures var r := MovedRow(g, b, i - b.row);
      |r| == |g[i]| &&
      r[j] == if b.col <= j < b.col + b.w then g[b.top + (i - b.row)][b.left + (j - b.col)] else g[i][j]
  {
    MovedRowCell(g, b, i - b.row, j);
  }

  lemma MovedAt(g: seq<Row>, b: Rect, i: nat)
    requires Spans(g, b) && i < |g|
    ensures |Moved(g, b, 0, b.h)| == |g|
    ensures Moved(g, b, 0, b.h)[i] == if b.row <= i < b.row + b.h then MovedRow(g, b, i - b.row) else g[i]
  {
    MovedIs(g, b, MovedRows(g, b, 0, b.h), Moved(g, b, 0, b.h), i);
    if b.row <= i < b.row + b.h {
      RowAt(g, b, i - b.row);
    }
  }

  lemma MovedIs(g: seq<Row>, b: Rect, rows: seq<Row>, r: seq<Row>, i: nat)
    requires Spans(g, b) && rows == MovedRows(g, b, 0, b.h) && r == Moved(g, b, 0, b.h) && i < |g|
    ensures |rows| == b.h && |r| == |g| && r[i] == if b.row <= i < b.row + b.h then rows[i - b.row] else g[i]
  {
    BlitAt(g, b.row, rows, i);
  }

  lemma RowAt(g: seq<Row>, b: Rect, k: nat)
    requires Spans(g, b) && k < b.h
    ensures |MovedRows(g, b, 0, b.h)| == b.h && MovedRows(g, b, 0, b.h)[k] == MovedRow(g, b, k)
  {
    assert MovedRows(g, b, 0, b.h)[k] == MovedRow(g, b, 0 + k);
  }

  lemma BlitAt<T>(s: seq<T>, p: nat, bs: seq<T>, i: nat)
    requires p + |bs| <= |s| && i < |s|
    ensures |Blit(s, p, bs)| == |s| && Blit(s, p, bs)[i] == if p <= i < p + |bs| then bs[i - p] else s[i]
  {
  }

  lemma MovedRowCell(g: seq<Row>, b: Rect, k: nat, j: nat)
    requires Spans(g, b) && k < b.h && j < |g[b.row + k]|
    ensures |MovedRow(g, b, k)| == |g[b.row + k]|
    ensures MovedRow(g, b, k)[j] ==
      if b.col <= j < b.col + b.w then g[b.top + k][b.left + (j - b.col)] else g[b.row + k][j]
  {
  }

  /** CLEAR: a cell of the rectangle is blank; all other cells stay. */
  lemma ClearedCell(g: seq<Row>, x: nat, row: nat, n: nat, left: nat, w: nat, v: Cell, i: nat, j: nat)
    requires Wide(g, x) && row + n <= |g| && left + w <= x && i < |g| && j < x
    ensures var r := Cleared(g, x, row, n, left, w, v);
      Wide(r, x) && |r| == |g| && r[i][j] == if row <= i < row + n && left <= j < left + w then v else g[i][j]
  {
    ClearedRow(g, x, row, n, left, w, v, i);
  }
}
