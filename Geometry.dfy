/** Grid geometry of the virtualizing wrap panel: every item occupies one
    fixed-size cell, cells are filled row by row, and the number of cells in a
    row follows from the viewport width. Sizes and offsets are the panel's
    doubles, taken here as exact reals (no rounding). */
module WrapGeometry {

  /** A width/height pair, compared component by component. */
  datatype Size = Size(width: real, height: real)

  /** A point; the panel's scroll offset is one. */
  datatype Point = Point(x: real, y: real)

  /** An arrange rectangle: left edge, top edge, width and height. */
  datatype Rect = Rect(x: real, y: real, width: real, height: real)

  /** The pair of item indices reported as visible; (-1, -1) means none. */
  datatype IndexRange = IndexRange(first: int, last: int)

  function Max(a: int, b: int): int { if a < b then b else a }

  function RealMax(a: real, b: real): real { if a < b then b else a }

  function RealMin(a: real, b: real): real { if a < b then a else b }

  /** The largest integer not above x. */
  function Floor(x: real): (k: int)
    ensures k as real <= x < k as real + 1.0
  {
    x.Floor
  }

  /** The smallest integer not below x. */
  function Ceil(x: real): (k: int)
    ensures k as real - 1.0 < x <= k as real
  {
    -((-x).Floor)
  }

  /** Ceil is determined by its defining inequalities. */
  lemma CeilUnique(x: real, k: int)
    requires k as real - 1.0 < x <= k as real
    ensures Ceil(x) == k
  {
  }

  /** Floor is determined by its defining inequalities. */
  lemma FloorUnique(x: real, k: int)
    requires k as real <= x < k as real + 1.0
    ensures Floor(x) == k
  {
  }

  /** `n` lengths of `len`: an item count or a row number times a cell
      size. */
  function Scale(n: int, len: real): real
  {
    n as real * len
  }

  /** More cells cover at least as much length. */
  lemma ScaleMonotone(a: int, b: int, len: real)
    requires a <= b && len >= 0.0
    ensures Scale(a, len) <= Scale(b, len)
  {
    assert (b - a) as real * len >= 0.0;
  }

  /** One more cell adds one cell length. */
  lemma ScaleNext(a: int, len: real)
    ensures Scale(a + 1, len) == Scale(a, len) + len
  {
  }

  /** Comparing an integer with a quotient is comparing its multiple with the
      dividend. */
  lemma ScaleQuotient(k: int, a: real, b: real)
    requires b > 0.0
    ensures k as real <= a / b <==> Scale(k, b) <= a
    ensures k as real < a / b <==> Scale(k, b) < a
  {
    var q := k as real;
    assert a / b * b == a;
    if q <= a / b {
      assert q * b <= a / b * b;
    }
    if q * b <= a {
      assert q * b / b <= a / b;
    }
    if q < a / b {
      assert q * b < a / b * b;
    }
    if q * b < a {
      assert q * b / b < a / b;
    }
  }

  /** Integer products seen as real products. */
  lemma MulAsReal(a: int, b: int)
    ensures (a * b) as real == a as real * b as real
  {
  }

  /** Scaling integers by a non-negative factor keeps their order. */
  lemma MulMonotone(a: int, b: int, d: int)
    requires a <= b && d >= 0
    ensures a * d <= b * d
  {
    MulAsReal(a, d);
    MulAsReal(b, d);
    ScaleMonotone(a, b, d as real);
  }

  /** Integer division and remainder are the only quotient and remainder. */
  lemma DivModUnique(a: int, d: int, q: int, r: int)
    requires d >= 1 && a == q * d + r && 0 <= r < d
    ensures a / d == q && a % d == r
  {
    var q0 := a / d;
    if q0 < q {
      MulMonotone(q0 + 1, q, d);
      assert false;
    } else if q0 > q {
      MulMonotone(q + 1, q0, d);
      assert false;
    }
  }

  /** The ceiling of a quotient of integers is the rounded-up integer
      division. */
  lemma CeilOfQuotient(n: int, d: int)
    requires d >= 1
    ensures Ceil(n as real / d as real) == (n + d - 1) / d
  {
    var k := (n + d - 1) / d;
    assert (k - 1) * d < n <= k * d;
    MulAsReal(k - 1, d);
    MulAsReal(k, d);
    ScaleQuotient(k - 1, n as real, d as real);
    ScaleQuotient(k, n as real, d as real);
    CeilUnique(n as real / d as real, k);
  }

  /** How many cells fit in a row: the viewport width over the item width,
      rounded down, but never fewer than one. */
  function ItemsPerRow(viewportWidth: real, itemWidth: real): (ipr: int)
    requires itemWidth > 0.0
    ensures ipr >= 1
    ensures viewportWidth < itemWidth ==> ipr == 1
    ensures viewportWidth >= itemWidth ==>
      Scale(ipr, itemWidth) <= viewportWidth < Scale(ipr + 1, itemWidth)
  {
    var cells := Floor(viewportWidth / itemWidth);
    ScaleQuotient(cells, viewportWidth, itemWidth);
    ScaleQuotient(cells + 1, viewportWidth, itemWidth);
    ScaleQuotient(1, viewportWidth, itemWidth);
    if cells < 1 then 1 else cells
  }

  /** The 1-based row holding the item at `index`: the row `r` whose cells,
      numbered from 1, run from `(r-1)·ipr + 1` to `r·ipr`. */
  function ItemRow(index: int, ipr: int): (r: int)
    requires ipr >= 1
    ensures Scale(r - 1, ipr as real) < (index + 1) as real <= Scale(r, ipr as real)
    ensures index >= 0 ==> r >= 1
  {
    var r := Ceil((index + 1) as real / ipr as real);
    ScaleQuotient(r - 1, (index + 1) as real, ipr as real);
    ScaleQuotient(r, (index + 1) as real, ipr as real);
    r
  }

  /** The row of an item, counted from zero, is the integer quotient of its
      index by the row length. */
  lemma ItemRowIsQuotient(index: nat, ipr: int)
    requires ipr >= 1
    ensures ItemRow(index, ipr) - 1 == index / ipr
  {
    CeilOfQuotient(index + 1, ipr);
    DivModUnique(index + ipr, ipr, index / ipr + 1, index % ipr);
  }

  /** The number of rows needed for `itemCount` items. */
  function RowCount(itemCount: nat, ipr: int): (rows: int)
    requires ipr >= 1
    ensures rows >= 0
    ensures rows == 0 <==> itemCount == 0
    ensures Scale(rows - 1, ipr as real) < itemCount as real <= Scale(rows, ipr as real)
  {
    var rows := Ceil(itemCount as real / ipr as real);
    ScaleQuotient(rows - 1, itemCount as real, ipr as real);
    ScaleQuotient(rows, itemCount as real, ipr as real);
    rows
  }

  /** The rows are exactly enough for all items: the last row is not empty,
      and there are none when there are no items. */
  lemma RowCountCoversItems(itemCount: nat, ipr: int)
    requires ipr >= 1
    ensures RowCount(itemCount, ipr) == (itemCount + ipr - 1) / ipr
    ensures RowCount(itemCount, ipr) >= 0
    ensures RowCount(itemCount, ipr) * ipr >= itemCount
    ensures (RowCount(itemCount, ipr) - 1) * ipr < itemCount || itemCount == 0
    ensures RowCount(itemCount, ipr) == 0 <==> itemCount == 0
  {
    CeilOfQuotient(itemCount, ipr);
  }

  /** The extent height: the number of rows times the item height. */
  function GridHeight(itemCount: nat, ipr: int, itemHeight: real): (e: real)
    requires ipr >= 1
    ensures itemHeight >= 0.0 ==> e >= 0.0
    ensures itemCount == 0 ==> e == 0.0
    ensures itemHeight > 0.0 && itemCount > 0 ==> e >= itemHeight
  {
    var rows := RowCount(itemCount, ipr);
    if itemHeight < 0.0 || itemCount == 0 then Scale(rows, itemHeight)
    else
      ScaleMonotone(1, rows, itemHeight);
      Scale(rows, itemHeight)
  }

  /** The extent computed by a layout pass: as wide as the offered size and as
      tall as the rows of items. */
  function ExtentFor(size: Size, itemCount: nat, ipr: int, itemHeight: real): (e: Size)
    requires ipr >= 1
    ensures e.width == size.width
    ensures itemHeight >= 0.0 ==> e.height >= 0.0
    ensures itemCount == 0 ==> e.height == 0.0
  {
    Size(size.width, GridHeight(itemCount, ipr, itemHeight))
  }

  /** The arrange rectangle of the child at position `index`. */
  function SlotRect(index: nat, ipr: int, itemWidth: real, itemHeight: real): (r: Rect)
    requires ipr >= 1
    ensures r.width == itemWidth && r.height == itemHeight
    ensures itemWidth >= 0.0 ==> r.x >= 0.0
    ensures itemHeight >= 0.0 ==> r.y >= 0.0
  {
    Rect(Scale(index % ipr, itemWidth), Scale(ItemRow(index, ipr) - 1, itemHeight),
         itemWidth, itemHeight)
  }

  /** Child `index` sits in column `index mod ipr` and row `index div ipr`,
      has the cell size, and never starts right of the last column. */
  lemma SlotRectPlacement(index: nat, ipr: int, itemWidth: real, itemHeight: real)
    requires ipr >= 1 && itemWidth > 0.0
    ensures SlotRect(index, ipr, itemWidth, itemHeight) ==
      Rect(Scale(index % ipr, itemWidth), Scale(index / ipr, itemHeight), itemWidth, itemHeight)
    ensures 0.0 <= SlotRect(index, ipr, itemWidth, itemHeight).x <= Scale(ipr - 1, itemWidth)
  {
    ItemRowIsQuotient(index, ipr);
    ScaleMonotone(0, index % ipr, itemWidth);
    ScaleMonotone(index % ipr, ipr - 1, itemWidth);
  }

  /** Whether two rectangles are at least their width apart horizontally or
      their height apart vertically, so that their interiors do not meet. */
  predicate Disjoint(a: Rect, b: Rect)
  {
    a.x + a.width <= b.x || b.x + b.width <= a.x ||
    a.y + a.height <= b.y || b.y + b.height <= a.y
  }

  /** Cells at different grid coordinates do not overlap. */
  lemma CellsDisjoint(ci: int, ri: int, cj: int, rj: int, itemWidth: real, itemHeight: real)
    requires itemWidth > 0.0 && itemHeight > 0.0
    requires ci != cj || ri != rj
    ensures Disjoint(Rect(Scale(ci, itemWidth), Scale(ri, itemHeight), itemWidth, itemHeight),
                     Rect(Scale(cj, itemWidth), Scale(rj, itemHeight), itemWidth, itemHeight))
  {
    if ci < cj {
      ScaleMonotone(ci + 1, cj, itemWidth);
      ScaleNext(ci, itemWidth);
    } else if cj < ci {
      ScaleMonotone(cj + 1, ci, itemWidth);
      ScaleNext(cj, itemWidth);
    } else if ri < rj {
      ScaleMonotone(ri + 1, rj, itemHeight);
      ScaleNext(ri, itemHeight);
    } else {
      ScaleMonotone(rj + 1, ri, itemHeight);
      ScaleNext(rj, itemHeight);
    }
  }

  /** Two different children get cells that do not overlap. */
  lemma SlotsDisjoint(i: nat, j: nat, ipr: int, itemWidth: real, itemHeight: real)
    requires ipr >= 1 && itemWidth > 0.0 && itemHeight > 0.0
    requires i != j
    ensures Disjoint(SlotRect(i, ipr, itemWidth, itemHeight), SlotRect(j, ipr, itemWidth, itemHeight))
  {
    SlotRectPlacement(i, ipr, itemWidth, itemHeight);
    SlotRectPlacement(j, ipr, itemWidth, itemHeight);
    assert i % ipr != j % ipr || i / ipr != j / ipr by {
      assert i == i / ipr * ipr + i % ipr && j == j / ipr * ipr + j % ipr;
    }
    CellsDisjoint(i % ipr, i / ipr, j % ipr, j / ipr, itemWidth, itemHeight);
  }

  /** The cell of every item lies inside the extent computed with the same
      row length, and inside a viewport at least one cell wide. */
  lemma SlotWithinExtent(index: nat, itemCount: nat, viewportWidth: real,
                         itemWidth: real, itemHeight: real)
    requires itemWidth > 0.0 && itemHeight > 0.0
    requires index < itemCount
    ensures var ipr := ItemsPerRow(viewportWidth, itemWidth);
      var s := SlotRect(index, ipr, itemWidth, itemHeight);
      0.0 <= s.y && s.y + s.height <= GridHeight(itemCount, ipr, itemHeight) &&
      (viewportWidth >= itemWidth ==> s.x + s.width <= viewportWidth)
  {
    var ipr := ItemsPerRow(viewportWidth, itemWidth);
    var rows, q, c := RowCount(itemCount, ipr), index / ipr, index % ipr;
    assert q < rows by {
      RowCountCoversItems(itemCount, ipr);
      if rows < q + 1 {
        MulMonotone(rows, q, ipr);
        assert false;
      }
    }
    SlotRectPlacement(index, ipr, itemWidth, itemHeight);
    ScaleMonotone(0, q, itemHeight);
    ScaleMonotone(q + 1, rows, itemHeight);
    ScaleNext(q, itemHeight);
    ScaleMonotone(c + 1, ipr, itemWidth);
    ScaleNext(c, itemWidth);
  }

  /** The first index of row `row` (counted from zero). */
  lemma RowStart(row: int, ipr: int)
    requires ipr >= 1
    ensures (row * ipr) / ipr == row && (row * ipr) % ipr == 0
    ensures row >= 0 ==> row * ipr >= 0
  {
    DivModUnique(row * ipr, ipr, row, 0);
    if row >= 0 {
      MulMonotone(0, row, ipr);
    }
  }

  /** The pair of indices the panel reports as visible, as the panel computes
      it: the empty sentinel without children, otherwise the first item of the
      row at the top edge and the last item of the row reaching the bottom
      edge, the latter never below zero. */
  function VisibleIndexes(childCount: nat, offset: real, viewportHeight: real,
                          itemHeight: real, ipr: int): (r: IndexRange)
    requires itemHeight > 0.0 && ipr >= 1
    ensures childCount == 0 <==> r == IndexRange(-1, -1)
    ensures childCount > 0 ==> r.last >= 0 && r.first % ipr == 0
    ensures childCount > 0 && offset >= 0.0 ==> r.first >= 0
    ensures childCount > 0 && offset + viewportHeight <= 0.0 ==> r.last == 0
  {
    if childCount == 0 then IndexRange(-1, -1)
    else
      var k := Floor(offset / itemHeight);
      RowStart(k, ipr);
      ScaleQuotient(0, offset, itemHeight);
      ScaleQuotient(0, offset + viewportHeight, itemHeight);
      var c := Ceil((offset + viewportHeight) / itemHeight);
      MulMonotone(c, Max(c, 0), ipr);
      IndexRange(k * ipr,
                 Max(Ceil((offset + viewportHeight) / itemHeight) * ipr - 1, 0))
  }

  /** The first visible index starts the row whose cell contains the top edge
      of the viewport. */
  lemma VisibleFirstRowHoldsTop(childCount: nat, offset: real, viewportHeight: real,
                                itemHeight: real, ipr: int)
    requires itemHeight > 0.0 && ipr >= 1 && childCount > 0
    ensures var r := VisibleIndexes(childCount, offset, viewportHeight, itemHeight, ipr);
      var row := r.first / ipr;
      r.first % ipr == 0 &&
      Scale(row, itemHeight) <= offset < Scale(row + 1, itemHeight)
  {
    var k := Floor(offset / itemHeight);
    RowStart(k, ipr);
    ScaleQuotient(k, offset, itemHeight);
    ScaleQuotient(k + 1, offset, itemHeight);
  }

  /** When the viewport reaches below the top of the content, the last
      visible index ends the row whose cell contains the bottom edge. */
  lemma VisibleLastRowHoldsBottom(childCount: nat, offset: real, viewportHeight: real,
                                  itemHeight: real, ipr: int)
    requires itemHeight > 0.0 && ipr >= 1 && childCount > 0
    requires offset + viewportHeight > 0.0
    ensures var r := VisibleIndexes(childCount, offset, viewportHeight, itemHeight, ipr);
      var row := r.last / ipr;
      (r.last + 1) % ipr == 0 &&
      Scale(row, itemHeight) < offset + viewportHeight <= Scale(row + 1, itemHeight)
  {
    var bottom := offset + viewportHeight;
    var k := Ceil(bottom / itemHeight);
    ScaleQuotient(0, bottom, itemHeight);
    assert k >= 1;
    MulMonotone(1, k, ipr);
    var last := k * ipr - 1;
    assert last == (k - 1) * ipr + (ipr - 1);
    DivModUnique(last, ipr, k - 1, ipr - 1);
    RowStart(k, ipr);
    ScaleQuotient(k, bottom, itemHeight);
    ScaleQuotient(k - 1, bottom, itemHeight);
  }

  /** The contract the panel states for the pair: with a viewport of
      positive height the last visible index is never below the first, at any
      offset, negative ones included. */
  lemma VisibleIndexesOrdered(childCount: nat, offset: real, viewportHeight: real,
                              itemHeight: real, ipr: int)
    requires itemHeight > 0.0 && ipr >= 1 && childCount > 0
    requires viewportHeight > 0.0
    ensures var r := VisibleIndexes(childCount, offset, viewportHeight, itemHeight, ipr);
      r.last >= r.first
  {
    var k := Floor(offset / itemHeight);
    var c := Ceil((offset + viewportHeight) / itemHeight);
    ScaleQuotient(k, offset, itemHeight);
    ScaleQuotient(k, offset + viewportHeight, itemHeight);
    assert c >= k + 1;
    MulMonotone(k + 1, c, ipr);
  }

  /** The same promise fails for a viewport of zero height scrolled to a whole
      row: item height 50, offset 50, one item per row gives (1, 0). */
  lemma VisibleIndexesUnorderedAtZeroHeight()
    ensures var r := VisibleIndexes(1, 50.0, 0.0, 50.0, 1);
      r == IndexRange(1, 0) && r.last < r.first
  {
    FloorUnique(50.0 / 50.0, 1);
    CeilUnique(50.0 / 50.0, 1);
  }

  /** The visible pair with the last index raised to the first when it would
      fall below it. */
  function VisibleIndexesFixed(childCount: nat, offset: real, viewportHeight: real,
                               itemHeight: real, ipr: int): (r: IndexRange)
    requires itemHeight > 0.0 && ipr >= 1
    ensures childCount == 0 <==> r == IndexRange(-1, -1)
    ensures childCount > 0 ==> r.last >= r.first && r.last >= 0
  {
    var v := VisibleIndexes(childCount, offset, viewportHeight, itemHeight, ipr);
    if childCount == 0 then v else IndexRange(v.first, Max(v.last, v.first))
  }

  /** The corrected pair differs from the panel's only where the panel's
      breaks its promise; in particular never when the viewport has height. */
  lemma VisibleIndexesFixedAgrees(childCount: nat, offset: real, viewportHeight: real,
                                  itemHeight: real, ipr: int)
    requires itemHeight > 0.0 && ipr >= 1
    ensures var v := VisibleIndexes(childCount, offset, viewportHeight, itemHeight, ipr);
      var f := VisibleIndexesFixed(childCount, offset, viewportHeight, itemHeight, ipr);
      f == v <==> v.last >= v.first
    ensures childCount > 0 && viewportHeight > 0.0 ==>
      VisibleIndexesFixed(childCount, offset, viewportHeight, itemHeight, ipr)
        == VisibleIndexes(childCount, offset, viewportHeight, itemHeight, ipr)
  {
    if childCount > 0 && viewportHeight > 0.0 {
      VisibleIndexesOrdered(childCount, offset, viewportHeight, itemHeight, ipr);
    }
  }

  /** The vertical offset SetVerticalOffset stores for a requested value:
      negative requests become zero, requests that would show past the end of
      the extent become extent minus viewport (which is itself negative when
      the extent is shorter than the viewport), others are kept. */
  function ClampOffset(requested: real, extentHeight: real, viewportHeight: real): (stored: real)
    ensures stored == requested || stored == 0.0 || stored == extentHeight - viewportHeight
    ensures requested < 0.0 ==> stored == 0.0
    ensures 0.0 <= requested && requested + viewportHeight < extentHeight ==> stored == requested
    ensures 0.0 <= requested && requested + viewportHeight >= extentHeight ==>
      stored == extentHeight - viewportHeight
    ensures requested + viewportHeight >= extentHeight ==> stored <= requested || stored == 0.0
    ensures extentHeight >= viewportHeight ==> 0.0 <= stored <= extentHeight - viewportHeight
  {
    if requested < 0.0 then 0.0
    else if requested + viewportHeight >= extentHeight then extentHeight - viewportHeight
    else requested
  }

  /** While the extent is at least as tall as the viewport, the stored offset
      is the request clamped to the interval `[0, extent - viewport]`. */
  lemma ClampOffsetIsIntervalClamp(requested: real, extentHeight: real, viewportHeight: real)
    requires extentHeight >= viewportHeight
    ensures ClampOffset(requested, extentHeight, viewportHeight)
      == RealMax(0.0, RealMin(requested, extentHeight - viewportHeight))
  {
  }

  /** Clamping twice is clamping once while the extent is at least as tall as
      the viewport. */
  lemma ClampOffsetIdempotent(requested: real, extentHeight: real, viewportHeight: real)
    requires extentHeight >= viewportHeight
    ensures var o := ClampOffset(requested, extentHeight, viewportHeight);
      ClampOffset(o, extentHeight, viewportHeight) == o
  {
  }

  /** With an extent shorter than the viewport every non-negative request is
      stored as a negative offset, and clamping that again gives zero. */
  lemma ClampOffsetNegative(requested: real, extentHeight: real, viewportHeight: real)
    requires extentHeight < viewportHeight && requested >= 0.0
    ensures ClampOffset(requested, extentHeight, viewportHeight) == extentHeight - viewportHeight < 0.0
    ensures ClampOffset(ClampOffset(requested, extentHeight, viewportHeight), extentHeight, viewportHeight) == 0.0
  {
  }

  /** Clamping keeps the order of requests while the extent is at least as
      tall as the viewport. */
  lemma ClampOffsetMonotone(a: real, b: real, extentHeight: real, viewportHeight: real)
    requires extentHeight >= viewportHeight && a <= b
    ensures ClampOffset(a, extentHeight, viewportHeight) <= ClampOffset(b, extentHeight, viewportHeight)
  {
  }

  /** The clamping of the two examples: extent 1000 and viewport 300 store
      700 for 5000 and 0 for -50. */
  lemma ClampOffsetExamples()
    ensures ClampOffset(5000.0, 1000.0, 300.0) == 700.0
    ensures ClampOffset(-50.0, 1000.0, 300.0) == 0.0
  {
  }

  /** A row is taken as visible when its top edge lies within the viewport,
      both ends included. */
  predicate RowTopInView(offset: real, rowTop: real, viewportHeight: real)
  {
    !(offset > rowTop || offset + viewportHeight < rowTop)
  }

  /** The offset MakeVisible leaves for a row whose top edge is `rowTop`:
      unchanged when the row is in view, otherwise the clamped row top. */
  function RevealOffset(offset: real, rowTop: real, extentHeight: real, viewportHeight: real): (o: real)
    ensures RowTopInView(offset, rowTop, viewportHeight) ==> o == offset
    ensures !RowTopInView(offset, rowTop, viewportHeight) && rowTop < 0.0 ==> o == 0.0
    ensures (!RowTopInView(offset, rowTop, viewportHeight) &&
             0.0 <= rowTop && rowTop + viewportHeight < extentHeight) ==> o == rowTop
    ensures (!RowTopInView(offset, rowTop, viewportHeight) &&
             0.0 <= rowTop && rowTop + viewportHeight >= extentHeight) ==>
      o == extentHeight - viewportHeight
  {
    if RowTopInView(offset, rowTop, viewportHeight) then offset
    else ClampOffset(rowTop, extentHeight, viewportHeight)
  }

  /** Scrolling a row into view puts its top edge in view whenever it lies
      within the extent, so asking again does nothing. This includes an extent
      shorter than the viewport, where the offset becomes negative. */
  lemma RevealOffsetShowsRow(offset: real, rowTop: real, extentHeight: real, viewportHeight: real)
    requires 0.0 <= viewportHeight
    requires 0.0 <= rowTop <= extentHeight
    ensures var o := RevealOffset(offset, rowTop, extentHeight, viewportHeight);
      RowTopInView(o, rowTop, viewportHeight) &&
      RevealOffset(o, rowTop, extentHeight, viewportHeight) == o
  {
  }

  /** A row above the viewport scrolls the view up and a row below scrolls it
      down, and either way the new offset is never past the row top: the row
      ends up at the top edge, or as near it as the end of the extent allows. */
  lemma RevealOffsetDirection(offset: real, rowTop: real, extentHeight: real, viewportHeight: real)
    requires 0.0 <= viewportHeight
    requires 0.0 <= rowTop <= extentHeight
    ensures var o := RevealOffset(offset, rowTop, extentHeight, viewportHeight);
      offset > rowTop ==> o <= rowTop < offset
    ensures var o := RevealOffset(offset, rowTop, extentHeight, viewportHeight);
      offset + viewportHeight < rowTop ==> offset < o <= rowTop
  {
  }

  /** The cached extent and viewport of the panel. */
  datatype Caches = Caches(extent: Size, viewport: Size)

  /** What a measure or arrange pass does to the caches: the new caches, the
      extent it computed and how many scroll-info invalidations it raised. */
  datatype PassResult = PassResult(caches: Caches, extent: Size, invalidations: nat)

  /** A measure or arrange pass offered `size`: the extent is computed with the
      row length of the viewport cached BEFORE the pass, then each cache that
      changes is replaced and raises one invalidation. */
  function LayoutPass(cached: Caches, size: Size, itemCount: nat,
                      itemWidth: real, itemHeight: real): (p: PassResult)
    requires itemWidth > 0.0
    ensures p.caches == Caches(p.extent, size)
    ensures p.invalidations <= 2
    ensures p.invalidations == 0 <==> p.caches == cached
    ensures p.invalidations == 2 <==> cached.extent != p.extent && cached.viewport != size
  {
    var ipr := ItemsPerRow(cached.viewport.width, itemWidth);
    var extent := ExtentFor(size, itemCount, ipr, itemHeight);
    PassResult(Caches(extent, size),
               extent, (if extent != cached.extent then 1 else 0) + (if size != cached.viewport then 1 else 0))
  }

  /** The extent height of a pass counts the rows of the row length of the
      previously cached viewport. */
  lemma LayoutPassExtent(cached: Caches, size: Size, itemCount: nat,
                         itemWidth: real, itemHeight: real)
    requires itemWidth > 0.0
    ensures var p := LayoutPass(cached, size, itemCount, itemWidth, itemHeight);
      var ipr := ItemsPerRow(cached.viewport.width, itemWidth);
      p.extent.width == size.width &&
      p.extent.height == Scale((itemCount + ipr - 1) / ipr, itemHeight)
  {
    RowCountCoversItems(itemCount, ItemsPerRow(cached.viewport.width, itemWidth));
  }

  /** Passes repeated with the same size and item count settle: a second pass
      raises at most one invalidation (only the extent can still change), and
      a third raises none and changes nothing. */
  lemma LayoutPassSettles(cached: Caches, size: Size, itemCount: nat,
                          itemWidth: real, itemHeight: real)
    requires itemWidth > 0.0
    ensures var p1 := LayoutPass(cached, size, itemCount, itemWidth, itemHeight);
      var p2 := LayoutPass(p1.caches, size, itemCount, itemWidth, itemHeight);
      var p3 := LayoutPass(p2.caches, size, itemCount, itemWidth, itemHeight);
      p2.invalidations <= 1 && p3.invalidations == 0 && p3.caches == p2.caches
  {
  }

  /** Because the row length comes from the stale viewport, a pass can report
      an extent that does not match the size it was offered: with a cached
      width of 0, items 100 wide and 50 tall, six items laid out in a width of
      300 get a 300-tall extent (one per row) instead of 100 (three per row),
      and the repeated pass then corrects it. */
  lemma LayoutPassStaleRowLength()
    ensures var p1 := LayoutPass(Caches(Size(0.0, 0.0), Size(0.0, 0.0)), Size(300.0, 200.0), 6, 100.0, 50.0);
      var p2 := LayoutPass(p1.caches, Size(300.0, 200.0), 6, 100.0, 50.0);
      p1.extent == Size(300.0, 300.0) && p2.extent == Size(300.0, 100.0) && p2.invalidations == 1
  {
    assert ItemsPerRow(0.0, 100.0) == 1;
    assert ItemsPerRow(300.0, 100.0) == 3 by {
      FloorUnique(300.0 / 100.0, 3);
    }
    CeilOfQuotient(6, 1);
    CeilOfQuotient(6, 3);
  }
}
