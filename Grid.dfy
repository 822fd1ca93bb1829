/** Near-square grid layout of `square_like_concatenation` (image_blender.py).
    An image is reduced to its size; pasting an image onto the canvas is
    reduced to the top-left offset at which it is pasted. */
module Grid {

  datatype Size = Size(width: nat, height: nat)

  datatype Point = Point(x: nat, y: nat)

  /** What the layout produces: the grid shape, the per-column and per-row
      maxima, the canvas size and one paste offset per input image. */
  datatype Layout = Layout(cols: nat, rows: nat, colWidths: seq<nat>, rowHeights: seq<nat>,
                           canvas: Size, offsets: seq<Point>)

  /** The two directions of the grid: columns are indexed by `idx % cols` and
      measured by width, rows by `idx / cols` and measured by height. */
  datatype Axis = Cols | Rows

  // ---------------------------------------------------------------------
  // Grid shape: cols = ceil(sqrt(n)), rows = ceil(n / cols)
  // ---------------------------------------------------------------------

  /** The least c >= start with c * c >= n, given that every smaller
      candidate already failed. */
  function CeilSqrtFrom(n: nat, start: nat): (c: nat)
    requires start == 0 || (start - 1) * (start - 1) < n
    ensures c * c >= n
    ensures c == 0 || (c - 1) * (c - 1) < n
    decreases n - start
  {
    if start * start >= n then start
    else
      assert start <= start * start;
      CeilSqrtFrom(n, start + 1)
  }

  /** ceil(sqrt(n)), computed exactly on integers. */
  function CeilSqrt(n: nat): (c: nat)
    ensures c * c >= n
    ensures c == 0 || (c - 1) * (c - 1) < n
  {
    CeilSqrtFrom(n, 0)
  }

  /** ceil(a / d) for a positive divisor. */
  function CeilDiv(a: nat, d: nat): (q: nat)
    requires d > 0
    ensures q * d >= a
    ensures q * d < a + d
  {
    (a + d - 1) / d
  }

  function NumRows(n: nat): nat
    requires n > 0
  {
    CeilSqrtPositive(n);
    CeilDiv(n, CeilSqrt(n))
  }

  lemma CeilSqrtPositive(n: nat)
    requires n > 0
    ensures CeilSqrt(n) >= 1
  {
  }

  lemma MulMono(a: nat, b: nat, k: nat)
    requires a <= b
    ensures a * k <= b * k
  {
  }

  /** `ceil(sqrt(n))` is the least c with c * c >= n. */
  lemma ColsLeast(n: nat, d: nat)
    requires d * d >= n
    ensures CeilSqrt(n) <= d
  {
    var c := CeilSqrt(n);
    if d < c {
      MulMono(d, c - 1, d);
      MulMono(d, c - 1, c - 1);
      assert false;
    }
  }

  /** The grid has at least one cell per image and no empty row; it is
      near-square: it has either as many rows as columns or one fewer. */
  lemma GridShape(n: nat)
    requires n > 0
    ensures CeilSqrt(n) >= 1 && NumRows(n) >= 1
    ensures NumRows(n) * CeilSqrt(n) >= n
    ensures (NumRows(n) - 1) * CeilSqrt(n) < n
    ensures CeilSqrt(n) - 1 <= NumRows(n) <= CeilSqrt(n)
  {
    CeilSqrtPositive(n);
    NearSquare(n, CeilSqrt(n), NumRows(n));
  }

  /** The arithmetic behind `GridShape`, on plain numbers: c is the least
      value whose square reaches n and r is ceil(n / c). */
  lemma NearSquare(n: nat, c: nat, r: nat)
    requires n > 0 && c >= 1
    requires c * c >= n && (c - 1) * (c - 1) < n
    requires r * c >= n && r * c < n + c
    ensures r >= 1 && (r - 1) * c < n
    ensures c - 1 <= r <= c
  {
    assert (r - 1) * c == r * c - c;
    assert (c + 1) * c == c * c + c;
    assert (c - 1) * (c - 1) == c * c - 2 * c + 1;
    if r > c {
      MulMono(c + 1, r, c);
    }
    if r + 2 <= c {
      assert (c - 2) * c == c * c - 2 * c;
      MulMono(r, c - 2, c);
    }
  }

  /** Image `idx` falls inside the grid: its row and column are in range. */
  lemma CellInGrid(n: nat, idx: nat)
    requires idx < n
    ensures CeilSqrt(n) > 0
    ensures idx / CeilSqrt(n) < NumRows(n)
    ensures idx % CeilSqrt(n) < CeilSqrt(n)
  {
    GridShape(n);
    RowBound(idx, CeilSqrt(n), NumRows(n));
  }

  lemma DivModUnique(a: nat, d: nat, q: nat, m: nat)
    requires 0 <= m < d
    requires a == q * d + m
    ensures a / d == q && a % d == m
  {
    var q0, m0 := a / d, a % d;
    assert q0 * d + m0 == a;
    if q0 > q {
      MulMono(q + 1, q0, d);
      assert false;
    }
    if q0 < q {
      MulMono(q0 + 1, q, d);
      assert false;
    }
  }

  /** Stepping from image idx to image idx + 1 either moves one column to the
      right in the same row, or, after the last column, wraps to column 0 of
      the next row; the wrap happens exactly when (idx + 1) % cols == 0. */
  lemma NextCell(idx: nat, cols: nat)
    requires cols > 0
    ensures (idx + 1) % cols == 0 ==>
              idx % cols == cols - 1 && (idx + 1) / cols == idx / cols + 1
    ensures (idx + 1) % cols != 0 ==>
              (idx + 1) % cols == idx % cols + 1 && (idx + 1) / cols == idx / cols
  {
    var q, m := idx / cols, idx % cols;
    assert idx == q * cols + m;
    if m + 1 == cols {
      DivModUnique(idx + 1, cols, q + 1, 0);
    } else {
      DivModUnique(idx + 1, cols, q, m + 1);
    }
  }

  // ---------------------------------------------------------------------
  // Per-column widths and per-row heights
  // ---------------------------------------------------------------------

  /** The grid line (column or row) that image idx falls in. */
  function Cell(axis: Axis, cols: nat, idx: nat): nat
    requires cols > 0
  {
    match axis
    case Cols => idx % cols
    case Rows => idx / cols
  }

  /** The extent of an image along an axis: width for columns, height for rows. */
  function Extent(axis: Axis, s: Size): nat
  {
    match axis
    case Cols => s.width
    case Rows => s.height
  }

  /** The running maximum kept for grid line g after the first k images:
      it starts at 0 and takes the max with every image of that line. */
  function LineMax(images: seq<Size>, cols: nat, axis: Axis, g: nat, k: nat): (m: nat)
    requires cols > 0 && k <= |images|
    ensures k == 0 ==> m == 0
    ensures k > 0 && Cell(axis, cols, k - 1) == g ==> Extent(axis, images[k - 1]) <= m
  {
    if k == 0 then 0
    else
      var m := LineMax(images, cols, axis, g, k - 1);
      if Cell(axis, cols, k - 1) == g && Extent(axis, images[k - 1]) > m
      then Extent(axis, images[k - 1]) else m
  }

  /** Visiting image k updates the maximum of its own line only. */
  lemma LineMaxStep(images: seq<Size>, cols: nat, axis: Axis, g: nat, k: nat)
    requires cols > 0 && k < |images|
    ensures LineMax(images, cols, axis, g, k + 1) ==
            if Cell(axis, cols, k) == g then Max(LineMax(images, cols, axis, g, k), Extent(axis, images[k]))
            else LineMax(images, cols, axis, g, k)
  {
  }

  /** Every image of line g among the first k is no larger than the line's maximum. */
  lemma {:induction false} LineMaxUpper(images: seq<Size>, cols: nat, axis: Axis, g: nat, k: nat, i: nat)
    requires cols > 0 && i < k <= |images|
    requires Cell(axis, cols, i) == g
    ensures Extent(axis, images[i]) <= LineMax(images, cols, axis, g, k)
  {
    if i < k - 1 {
      LineMaxUpper(images, cols, axis, g, k - 1, i);
    }
  }

  /** The line's maximum is 0 only if no image reaches more, and otherwise is
      the extent of one of the line's images. */
  lemma {:induction false} LineMaxAttained(images: seq<Size>, cols: nat, axis: Axis, g: nat, k: nat)
    requires cols > 0 && k <= |images|
    ensures LineMax(images, cols, axis, g, k) == 0 ||
            exists i :: 0 <= i < k && Cell(axis, cols, i) == g &&
                        Extent(axis, images[i]) == LineMax(images, cols, axis, g, k)
  {
    if k > 0 {
      LineMaxAttained(images, cols, axis, g, k - 1);
    }
  }

  /** The kept maxima never decrease as more images are visited. */
  lemma {:induction false} LineMaxMonotone(images: seq<Size>, cols: nat, axis: Axis, g: nat, j: nat, k: nat)
    requires cols > 0 && j <= k <= |images|
    ensures LineMax(images, cols, axis, g, j) <= LineMax(images, cols, axis, g, k)
  {
    if j < k {
      LineMaxMonotone(images, cols, axis, g, j, k - 1);
    }
  }

  /** The maxima of the first `count` lines after the first k images. */
  function LineMaxima(images: seq<Size>, cols: nat, axis: Axis, count: nat, k: nat): (s: seq<nat>)
    requires cols > 0 && k <= |images|
    ensures |s| == count
  {
    seq(count, g requires 0 <= g < count => LineMax(images, cols, axis, g, k))
  }

  /** Visiting image k raises the entry of its own line, in place, to the
      image's extent if that is larger, and leaves every other entry alone. */
  lemma LineMaximaStep(images: seq<Size>, cols: nat, axis: Axis, count: nat, k: nat)
    requires cols > 0 && k < |images|
    requires Cell(axis, cols, k) < count
    ensures var before, g := LineMaxima(images, cols, axis, count, k), Cell(axis, cols, k);
            LineMaxima(images, cols, axis, count, k + 1) ==
            before[g := Max(before[g], Extent(axis, images[k]))]
  {
    var before, g := LineMaxima(images, cols, axis, count, k), Cell(axis, cols, k);
    var after := LineMaxima(images, cols, axis, count, k + 1);
    forall h | 0 <= h < count
      ensures after[h] == before[g := Max(before[g], Extent(axis, images[k]))][h]
    {
      LineMaxStep(images, cols, axis, h, k);
    }
  }

  // ---------------------------------------------------------------------
  // Sums and prefix sums
  // ---------------------------------------------------------------------

  /** Left-to-right sum, as Python's `sum`. */
  function Sum(s: seq<nat>): (total: nat)
    ensures s == [] ==> total == 0
    ensures s != [] ==> s[|s| - 1] <= total
  {
    if s == [] then 0 else Sum(s[..|s| - 1]) + s[|s| - 1]
  }

  lemma PrefixSumStep(s: seq<nat>, k: nat)
    requires k < |s|
    ensures Sum(s[..k + 1]) == Sum(s[..k]) + s[k]
  {
    assert s[..k + 1][..k] == s[..k];
  }

  lemma {:induction false} PrefixSumMono(s: seq<nat>, j: nat, k: nat)
    requires j <= k <= |s|
    ensures Sum(s[..j]) <= Sum(s[..k])
  {
    if j < k {
      PrefixSumMono(s, j, k - 1);
      PrefixSumStep(s, k - 1);
    }
  }

  // ---------------------------------------------------------------------
  // The layout of n images
  // ---------------------------------------------------------------------

  /** Number of grid lines along an axis: columns or rows. */
  function LineCount(n: nat, axis: Axis): nat
    requires n > 0
  {
    match axis
    case Cols => CeilSqrt(n)
    case Rows => NumRows(n)
  }

  /** `max_width_per_col` (axis Cols) or `max_height_per_row` (axis Rows) once
      every image has been visited. */
  function Lines(images: seq<Size>, axis: Axis): (s: seq<nat>)
    requires |images| > 0
    ensures |s| == LineCount(|images|, axis)
  {
    CeilSqrtPositive(|images|);
    LineMaxima(images, CeilSqrt(|images|), axis, LineCount(|images|, axis), |images|)
  }

  /** The canvas: the sum of the column widths by the sum of the row heights. */
  function Canvas(images: seq<Size>): Size
    requires |images| > 0
  {
    Size(Sum(Lines(images, Cols)), Sum(Lines(images, Rows)))
  }

  /** The top-left corner of the cell of image idx: the widths of the columns
      to its left and the heights of the rows above it. */
  function Origin(images: seq<Size>, idx: nat): Point
    requires idx < |images|
  {
    GridShape(|images|);
    CellCorner(Lines(images, Cols), Lines(images, Rows), idx)
  }

  /** The corner of cell idx of a row-major grid with |colWidths| columns:
      the widths of the columns left of it and the heights of the rows above. */
  function CellCorner(colWidths: seq<nat>, rowHeights: seq<nat>, idx: nat): Point
    requires |colWidths| > 0 && idx <= |rowHeights| * |colWidths|
  {
    RowBound(idx, |colWidths|, |rowHeights|);
    Point(Sum(colWidths[..idx % |colWidths|]), Sum(rowHeights[..idx / |colWidths|]))
  }

  /** The layout of `images` as a value: the grid shape, the line maxima, the
      canvas and the cell origin of every image. */
  function Composite(images: seq<Size>): Layout
    requires |images| > 0
  {
    Layout(CeilSqrt(|images|), NumRows(|images|), Lines(images, Cols), Lines(images, Rows),
           Canvas(images), seq(|images|, idx requires 0 <= idx < |images| => Origin(images, idx)))
  }

  /** Image idx lies within its grid line: the line exists, and the image
      starts at the line's start and ends no later than the line's end,
      which is no later than the end of the canvas. */
  lemma WithinLine(images: seq<Size>, axis: Axis, idx: nat)
    requires idx < |images|
    ensures CeilSqrt(|images|) > 0
    ensures Cell(axis, CeilSqrt(|images|), idx) < LineCount(|images|, axis)
    ensures var g, m := Cell(axis, CeilSqrt(|images|), idx), Lines(images, axis);
            Sum(m[..g]) + Extent(axis, images[idx]) <= Sum(m[..g + 1]) <= Sum(m)
  {
    var n := |images|;
    CellInGrid(n, idx);
    var cols := CeilSqrt(n);
    var g, m := Cell(axis, cols, idx), Lines(images, axis);
    assert m[g] == LineMax(images, cols, axis, g, n);
    LineMaxUpper(images, cols, axis, g, n, idx);
    PrefixSumStep(m, g);
    PrefixSumMono(m, g + 1, |m|);
    assert m[..|m|] == m;
  }

  /** Every image lies entirely inside the canvas. */
  lemma InsideCanvas(images: seq<Size>, idx: nat)
    requires idx < |images|
    ensures Origin(images, idx).x + images[idx].width <= Canvas(images).width
    ensures Origin(images, idx).y + images[idx].height <= Canvas(images).height
  {
    WithinLine(images, Cols, idx);
    WithinLine(images, Rows, idx);
  }

  /** Two different images are pasted onto disjoint rectangles of the canvas. */
  lemma NoOverlap(images: seq<Size>, i: nat, j: nat)
    requires i < |images| && j < |images| && i != j
    ensures var p, q := Origin(images, i), Origin(images, j);
            p.x + images[i].width <= q.x || q.x + images[j].width <= p.x ||
            p.y + images[i].height <= q.y || q.y + images[j].height <= p.y
  {
    var n := |images|;
    CellInGrid(n, i);
    var cols := CeilSqrt(n);
    assert i == (i / cols) * cols + i % cols;
    assert j == (j / cols) * cols + j % cols;
    if i % cols != j % cols {
      SeparateCells(images, Cols, i, j);
    } else {
      SeparateCells(images, Rows, i, j);
    }
  }

  /** Images in different lines of one axis do not overlap along that axis. */
  lemma SeparateCells(images: seq<Size>, axis: Axis, i: nat, j: nat)
    requires i < |images| && j < |images|
    requires CeilSqrt(|images|) > 0
    requires Cell(axis, CeilSqrt(|images|), i) != Cell(axis, CeilSqrt(|images|), j)
    ensures var m := Lines(images, axis);
            var gi, gj := Cell(axis, CeilSqrt(|images|), i), Cell(axis, CeilSqrt(|images|), j);
            gi < |m| && gj < |m| &&
            (Sum(m[..gi]) + Extent(axis, images[i]) <= Sum(m[..gj]) ||
             Sum(m[..gj]) + Extent(axis, images[j]) <= Sum(m[..gi]))
  {
    var cols := CeilSqrt(|images|);
    var m := Lines(images, axis);
    var gi, gj := Cell(axis, cols, i), Cell(axis, cols, j);
    var ei, ej := Extent(axis, images[i]), Extent(axis, images[j]);
    assert gi < |m| && Sum(m[..gi]) + ei <= Sum(m[..gi + 1]) by {
      WithinLine(images, axis, i);
    }
    assert gj < |m| && Sum(m[..gj]) + ej <= Sum(m[..gj + 1]) by {
      WithinLine(images, axis, j);
    }
    DisjointSpans(m, gi, gj, ei, ej);
  }

  /** Spans that fit in two different lines of a row of lines are disjoint. */
  lemma DisjointSpans(m: seq<nat>, gi: nat, gj: nat, ei: nat, ej: nat)
    requires gi < |m| && gj < |m| && gi != gj
    requires Sum(m[..gi]) + ei <= Sum(m[..gi + 1])
    requires Sum(m[..gj]) + ej <= Sum(m[..gj + 1])
    ensures Sum(m[..gi]) + ei <= Sum(m[..gj]) || Sum(m[..gj]) + ej <= Sum(m[..gi])
  {
    if gi < gj {
      PrefixSumMono(m, gi + 1, gj);
    } else {
      PrefixSumMono(m, gj + 1, gi);
    }
  }

  /** A single image is laid out on a 1 x 1 grid whose canvas is that image's
      size, pasted at the origin. */
  lemma SingleImage(image: Size)
    ensures CeilSqrt(1) == 1 && NumRows(1) == 1
    ensures Lines([image], Cols) == [image.width]
    ensures Lines([image], Rows) == [image.height]
    ensures Canvas([image]) == image
    ensures Origin([image], 0) == Point(0, 0)
  {
    assert CeilSqrt(1) == 1 by {
      assert CeilSqrtFrom(1, 0) == CeilSqrtFrom(1, 1);
    }
    assert NumRows(1) == 1;
    assert LineMax([image], 1, Cols, 0, 1) == image.width;
    assert LineMax([image], 1, Rows, 0, 1) == image.height;
    assert [image.width][..0] == [];
    assert Sum([image.width]) == image.width;
    assert Sum([image.height]) == image.height;
  }

  // ---------------------------------------------------------------------
  // square_like_concatenation
  // ---------------------------------------------------------------------

  /** Lays out `images` as `square_like_concatenation` does: the grid shape,
      the per-line maxima, the canvas size and the paste offset of every image. */
  method SquareLikeConcatenation(images: seq<Size>) returns (layout: Layout)
    requires |images| > 0
    ensures layout == Composite(images)
    ensures layout.cols == CeilSqrt(|images|) && layout.rows == NumRows(|images|)
    ensures layout.colWidths == Lines(images, Cols)
    ensures layout.rowHeights == Lines(images, Rows)
    ensures layout.canvas == Canvas(images)
    ensures |layout.offsets| == |images|
    ensures forall idx :: 0 <= idx < |images| ==> layout.offsets[idx] == Origin(images, idx)
    ensures forall idx :: 0 <= idx < |images| ==>
              layout.offsets[idx].x + images[idx].width <= layout.canvas.width &&
              layout.offsets[idx].y + images[idx].height <= layout.canvas.height
  {
    var n := |images|;
    GridShape(n);
    var numCols := CeilSqrt(n);
    var numRows := CeilDiv(n, numCols);
    assert numCols == CeilSqrt(n) && numRows == NumRows(n);

    var colWidths, rowHeights := MeasureLines(images, numCols, numRows);
    var totalWidth := Sum(colWidths);
    var totalHeight := Sum(rowHeights);
    var offsets := PasteOffsets(images, colWidths, rowHeights);
    assert forall idx :: 0 <= idx < n ==> offsets[idx] == Origin(images, idx);

    layout := Layout(numCols, numRows, colWidths, rowHeights, Size(totalWidth, totalHeight), offsets);
    forall idx | 0 <= idx < n
      ensures layout.offsets[idx].x + images[idx].width <= layout.canvas.width
      ensures layout.offsets[idx].y + images[idx].height <= layout.canvas.height
    {
      InsideCanvas(images, idx);
    }
  }

  /** The first loop of `square_like_concatenation`: one array entry per
      column and per row, starting at 0, raised in place to the width (height)
      of every image of that column (row). */
  method MeasureLines(images: seq<Size>, numCols: nat, numRows: nat)
      returns (colWidths: seq<nat>, rowHeights: seq<nat>)
    requires |images| > 0
    requires numCols == CeilSqrt(|images|) && numRows == NumRows(|images|)
    ensures colWidths == Lines(images, Cols)
    ensures rowHeights == Lines(images, Rows)
  {
    var n := |images|;
    GridShape(n);
    var maxWidthPerCol := new nat[numCols](_ => 0);
    var maxHeightPerRow := new nat[numRows](_ => 0);
    for idx := 0 to n
      invariant maxWidthPerCol[..] == LineMaxima(images, numCols, Cols, numCols, idx)
      invariant maxHeightPerRow[..] == LineMaxima(images, numCols, Rows, numRows, idx)
    {
      CellInGrid(n, idx);
      var row := idx / numCols;
      var col := idx % numCols;
      LineMaximaStep(images, numCols, Cols, numCols, idx);
      LineMaximaStep(images, numCols, Rows, numRows, idx);
      maxWidthPerCol[col] := Max(maxWidthPerCol[col], images[idx].width);
      maxHeightPerRow[row] := Max(maxHeightPerRow[row], images[idx].height);
    }
    colWidths, rowHeights := maxWidthPerCol[..], maxHeightPerRow[..];
  }

  /** The second loop of `square_like_concatenation`: pastes each image at
      the running offsets, then moves them on. */
  method PasteOffsets(images: seq<Size>, colWidths: seq<nat>, rowHeights: seq<nat>)
      returns (offsets: seq<Point>)
    requires |colWidths| > 0 && |images| <= |rowHeights| * |colWidths|
    ensures |offsets| == |images|
    ensures forall idx :: 0 <= idx < |images| ==> offsets[idx] == CellCorner(colWidths, rowHeights, idx)
  {
    var xOffset, yOffset := 0, 0;
    offsets := [];
    FirstCell(colWidths, rowHeights);
    for idx := 0 to |images|
      invariant |offsets| == idx
      invariant forall j :: 0 <= j < idx ==> offsets[j] == CellCorner(colWidths, rowHeights, j)
      invariant Point(xOffset, yOffset) == CellCorner(colWidths, rowHeights, idx)
    {
      offsets := offsets + [Point(xOffset, yOffset)];
      xOffset, yOffset := MoveOffsets(colWidths, rowHeights, idx, xOffset, yOffset);
    }
  }

  /** The offset update after pasting image idx: x advances by the image's
      column width, or, after the last column of a row, returns to 0 while y
      advances by the row's height. Either way the offsets become the corner
      of cell idx + 1. */
  method MoveOffsets(colWidths: seq<nat>, rowHeights: seq<nat>, idx: nat, xOffset: nat, yOffset: nat)
      returns (x: nat, y: nat)
    requires |colWidths| > 0 && idx < |rowHeights| * |colWidths|
    requires Point(xOffset, yOffset) == CellCorner(colWidths, rowHeights, idx)
    ensures Point(x, y) == CellCorner(colWidths, rowHeights, idx + 1)
  {
    var numCols := |colWidths|;
    RowBound(idx, numCols, |rowHeights|);
    RowBound(idx + 1, numCols, |rowHeights|);
    var row := idx / numCols;
    var col := idx % numCols;
    NextCell(idx, numCols);
    x, y := xOffset + colWidths[col], yOffset;
    if (idx + 1) % numCols == 0 {
      x := 0;
      y := y + rowHeights[row];
      PrefixSumStep(rowHeights, row);
    } else {
      PrefixSumStep(colWidths, col);
    }
  }

  /** The first image is pasted at (0, 0). */
  lemma FirstCell(colWidths: seq<nat>, rowHeights: seq<nat>)
    requires |colWidths| > 0
    ensures CellCorner(colWidths, rowHeights, 0) == Point(0, 0)
  {
    assert 0 / |colWidths| == 0 && 0 % |colWidths| == 0;
  }

  /** A cell index within rows * cols cells lies in one of the rows. */
  lemma RowBound(k: nat, cols: nat, rows: nat)
    requires cols > 0 && k <= rows * cols
    ensures k / cols <= rows
    ensures k < rows * cols ==> k / cols < rows
  {
    var q := k / cols;
    assert q * cols <= k;
    if q > rows {
      MulMono(rows + 1, q, cols);
    } else if k < rows * cols && q == rows {
      assert false;
    }
  }

  function Max(a: nat, b: nat): (m: nat)
    ensures m >= a && m >= b && (m == a || m == b)
  {
    if a >= b then a else b
  }
}
