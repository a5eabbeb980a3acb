# VirtualizingWrapPanel: layout and scroll arithmetic

This project is a Dafny model of `VirtualizingWrapPanel`, a WPF panel. The panel puts its
items in a grid of fixed-size cells, filled row by row. It implements the `IScrollInfo`
scroll contract for vertical scrolling.

The model has two modules:

- `WrapGeometry` (`Geometry.dfy`) holds the pure arithmetic:
  - items per row, and the 1-based row of an item;
  - the extent height and the arrange rectangle of a child;
  - the visible index pair and the offset clamping;
  - the scroll-into-view rule;
  - what one measure or arrange pass does to the cached extent and viewport (`LayoutPass`).
- `WrapPanel` (`Panel.dfy`) holds the class `VirtualizingWrapPanel`. Its fields are the
  panel's state:
  - the cached `extent` and `viewport`, the scroll `offset`, and `translateY` (the vertical
    part of the render translation);
  - `hasScrollOwner`, and `scrollInfoInvalidations`, which counts the calls to
    `ScrollOwner.InvalidateScrollInfo()`;
  - `measureInvalidated`, set by `InvalidateMeasure()`;
  - `children`, the realized containers in child order. Each container is given by the
    index of the item it holds.

  Its methods are the measure and arrange passes and the scroll entry points. Each method's
  `ensures` ties the new state to the geometry functions. The invariant `Valid()` says:
  - the cells have positive size;
  - the horizontal offset stays 0;
  - the rendering is shifted by exactly minus the vertical offset;
  - no item is realized twice.

The accessors `ExtentWidth`, `ExtentHeight`, `ViewportWidth`, `ViewportHeight`,
`HorizontalOffset` and `VerticalOffset` are plain reads of the cached fields
(VirtualizingWrapPanel.cs:303-331). The height of a grid of rows, which the passes
compute, is the separate geometry function `GridHeight`.

Sizes and offsets are WPF doubles. The model takes them as exact `real`s. `Math.Floor` is
`Floor`, `Math.Ceiling` is `Ceil`, and an integer times a length is `Scale`.

The model keeps these behaviours of the code:

- **Stale row length.** `MeasureOverride` and `ArrangeOverride` compute the extent from the
  row length of the viewport cached *before* the pass. `ArrangeOverride` places the children
  with the row length of the *new* viewport. `LayoutPassStaleRowLength` shows the two
  disagreeing.
- **Measure realizes everything.** `MeasureOverride` walks the generator over every item from
  index 0. The visible range it computes is never used.
- **Negative offsets.** When the extent is shorter than the viewport, `SetVerticalOffset`
  stores extent − viewport for any non-negative request, and that offset is negative
  (`ClampOffsetNegative`). A reader might expect the offset to stay within
  `[0, extent − viewport]` and fall back to 0 when that interval is empty. The code does not
  do that, and the model follows the code. Only a negative request is stored as 0.
- **Unbounded last index.** One might expect both visible indices to lie in
  `[0, itemCount-1]`. The code's last index can pass the last item, so that is not claimed.

## Model

| member | source | states |
|---|---|---|
| `WrapGeometry.ItemsPerRow` | BugFreeBoo/Controls/VirtualizingWrapPanel.cs:294-297 | The row length is always at least 1. It is 1 for a viewport narrower than a cell. Otherwise it is the largest count whose cells fit in the viewport width. |
| `WrapGeometry.ItemRow` | BugFreeBoo/Controls/VirtualizingWrapPanel.cs:287-292 | The 1-based row `r` of item `i` is the row whose cells `(r−1)·ipr + 1 … r·ipr` contain `i + 1`, and it is at least 1 for every item. |
| `WrapGeometry.ItemRowIsQuotient` | BugFreeBoo/Controls/VirtualizingWrapPanel.cs:287-292 | The 1-based row of item `i`, minus one, is `i div itemsPerRow`. |
| `WrapGeometry.RowCount` | BugFreeBoo/Controls/VirtualizingWrapPanel.cs:57-58 | The row count is non-negative and 0 exactly when there are no items. It is the fewest rows of `ipr` cells that hold all items: `(rows−1)·ipr < n ≤ rows·ipr`. |
| `WrapGeometry.GridHeight` | BugFreeBoo/Controls/VirtualizingWrapPanel.cs:57-58 | The extent height is non-negative for a non-negative cell height. It is 0 without items, and at least one cell height when there are items and the cell height is positive. |
| `WrapGeometry.ExtentFor` | BugFreeBoo/Controls/VirtualizingWrapPanel.cs:57-58 | The extent is as wide as the offered size. Its height is non-negative for a non-negative cell height, and 0 without items. |
| `WrapGeometry.SlotRect` | BugFreeBoo/Controls/VirtualizingWrapPanel.cs:155-157 | The arrange rectangle has the cell size. Its left and top edges are non-negative for non-negative cell sizes. |
| `WrapGeometry.RowCountCoversItems` | BugFreeBoo/Controls/VirtualizingWrapPanel.cs:57-58 | The extent's row count is `ceil(n / ipr)`. Those rows hold all `n` items, the last row is not empty, and there are no rows exactly when there are no items. |
| `WrapGeometry.SlotRectPlacement` | BugFreeBoo/Controls/VirtualizingWrapPanel.cs:151-158 | Child `i` is arranged at `((i mod ipr)·w, (i div ipr)·h)` with size `w × h`. Its x is never beyond `(ipr−1)·w`. |
| `WrapGeometry.CellsDisjoint` | BugFreeBoo/Controls/VirtualizingWrapPanel.cs:157 | Cells at different column/row coordinates do not overlap. |
| `WrapGeometry.SlotsDisjoint` | BugFreeBoo/Controls/VirtualizingWrapPanel.cs:151-158 | Two different child positions get non-overlapping rectangles, so they get distinct slots. |
| `WrapGeometry.SlotWithinExtent` | BugFreeBoo/Controls/VirtualizingWrapPanel.cs:129-158 | With one row length, every item's slot lies within the extent height. When the viewport is at least one cell wide, the slot also lies within the viewport width. |
| `WrapGeometry.VisibleIndexes` | BugFreeBoo/Controls/VirtualizingWrapPanel.cs:112-124 | The pair is (−1, −1) exactly when there are no children. Otherwise the last index is ≥ 0, the first starts a row, and the first is ≥ 0 for a non-negative offset. When the viewport's bottom edge is at or above 0, the last index is 0. |
| `WrapGeometry.VisibleFirstRowHoldsTop` | BugFreeBoo/Controls/VirtualizingWrapPanel.cs:122 | The first visible index starts the row whose cell contains the top edge of the viewport. |
| `WrapGeometry.VisibleLastRowHoldsBottom` | BugFreeBoo/Controls/VirtualizingWrapPanel.cs:123 | When the viewport's bottom edge is below 0, the last visible index ends the row whose cell contains that bottom edge. |
| `WrapGeometry.VisibleIndexesOrdered` | BugFreeBoo/Controls/VirtualizingWrapPanel.cs:121-126 | For a viewport of positive height, last ≥ first at every offset, negative ones included. |
| `WrapGeometry.VisibleIndexesUnorderedAtZeroHeight` | BugFreeBoo/Controls/VirtualizingWrapPanel.cs:121-126 | With viewport height 0, offset 50, item height 50 and one item per row, the code yields (1, 0). This breaks its own `last ≥ first` contract. |
| `WrapGeometry.VisibleIndexesFixed` | BugFreeBoo/Controls/VirtualizingWrapPanel.cs:112-126 | The corrected pair: (−1, −1) exactly when there are no children, and otherwise last ≥ first and last ≥ 0. |
| `WrapGeometry.VisibleIndexesFixedAgrees` | BugFreeBoo/Controls/VirtualizingWrapPanel.cs:121-126 | The corrected pair equals the code's pair exactly when the code's pair is ordered. In particular they are equal whenever the viewport has positive height. |
| `WrapGeometry.ClampOffset` | BugFreeBoo/Controls/VirtualizingWrapPanel.cs:248-255 | A negative request is stored as 0. A non-negative request whose bottom edge stays above the extent's end is kept. A non-negative request reaching the end is stored as extent − viewport, even when that is negative. The result lies in `[0, extent − viewport]` whenever extent ≥ viewport. |
| `WrapGeometry.ClampOffsetIsIntervalClamp` | BugFreeBoo/Controls/VirtualizingWrapPanel.cs:248-255 | While extent ≥ viewport, the stored offset is `max(0, min(request, extent − viewport))`. |
| `WrapGeometry.ClampOffsetIdempotent` | BugFreeBoo/Controls/VirtualizingWrapPanel.cs:248-255 | Clamping twice is clamping once while extent ≥ viewport. |
| `WrapGeometry.ClampOffsetNegative` | BugFreeBoo/Controls/VirtualizingWrapPanel.cs:252-255 | With extent < viewport, every non-negative request is stored as the negative extent − viewport. Setting that value again gives 0. |
| `WrapGeometry.ClampOffsetMonotone` | BugFreeBoo/Controls/VirtualizingWrapPanel.cs:248-255 | Clamping keeps the order of requests while extent ≥ viewport. |
| `WrapGeometry.ClampOffsetExamples` | BugFreeBoo/Controls/VirtualizingWrapPanel.cs:248-256 | With extent 1000 and viewport 300, a request of 5000 stores 700 and a request of −50 stores 0. |
| `WrapGeometry.RevealOffset` | BugFreeBoo/Controls/VirtualizingWrapPanel.cs:272-280 | When the row's top edge is within `[offset, offset + viewport height]`, the offset is left as it is. Otherwise the offset becomes the row top when the row top is ≥ 0 and the viewport's bottom stays above the extent's end. It becomes extent − viewport when the row top is ≥ 0 and the viewport would reach the end. It becomes 0 for a negative row top. |
| `WrapGeometry.RevealOffsetShowsRow` | BugFreeBoo/Controls/VirtualizingWrapPanel.cs:272-276 | Take a row top inside the extent, which may be shorter than the viewport. After scrolling it into view, its top is in view, and scrolling to it again changes nothing. |
| `WrapGeometry.RevealOffsetDirection` | BugFreeBoo/Controls/VirtualizingWrapPanel.cs:272-276 | Take a row top inside the extent, which may be shorter than the viewport. A row above the viewport scrolls the view up and a row below scrolls it down. Either way the new offset is never past the row top. |
| `WrapGeometry.LayoutPass` | BugFreeBoo/Controls/VirtualizingWrapPanel.cs:56-73 | After a pass both caches hold the new extent and size. It raises at most 2 invalidations. It raises none exactly when both caches were already equal to the new values, and then nothing changes. It raises exactly 2 when both differed. |
| `WrapGeometry.LayoutPassExtent` | BugFreeBoo/Controls/VirtualizingWrapPanel.cs:56-58 | The pass's extent is (offered width, `ceil(n / ipr)·h`), with `ipr` taken from the viewport cached before the pass. |
| `WrapGeometry.LayoutPassSettles` | BugFreeBoo/Controls/VirtualizingWrapPanel.cs:131-147 | Repeat a pass with the same size and item count. The second pass raises at most one invalidation. The third raises none and leaves the caches unchanged. |
| `WrapGeometry.LayoutPassStaleRowLength` | BugFreeBoo/Controls/VirtualizingWrapPanel.cs:56-58 | Start from a cached width of 0. Six 100×50 items offered a width of 300 get an extent height of 300, one item per row. The next pass corrects this to 100, three per row, with one invalidation. |
| `WrapPanel.Realize` | BugFreeBoo/Controls/VirtualizingWrapPanel.cs:81-95 | Walking the generator keeps the existing children as a prefix and adds at most one container per walked item. With nothing left to walk, the children are unchanged. |
| `WrapPanel.RealizeSpec` | BugFreeBoo/Controls/VirtualizingWrapPanel.cs:81-95 | Walking the generator keeps the existing children in front. It realizes every item of the range exactly once and adds nothing else. |
| `WrapPanel.ArrangeSlots` | BugFreeBoo/Controls/VirtualizingWrapPanel.cs:151-158 | One rectangle per child, in order. Child `i` gets `((i mod ipr)·w, (i div ipr)·h, w, h)`. |
| `WrapPanel.VirtualizingWrapPanel.constructor` | BugFreeBoo/Controls/VirtualizingWrapPanel.cs:47-51 | A new panel has zero caches, zero offset and zero translation. Its scroll unit is 500, there are no invalidations and no children, and `Valid()` holds. |
| `WrapPanel.VirtualizingWrapPanel.ExtentWidth` | BugFreeBoo/Controls/VirtualizingWrapPanel.cs:303-306 | Returns the cached extent width. |
| `WrapPanel.VirtualizingWrapPanel.ExtentHeight` | BugFreeBoo/Controls/VirtualizingWrapPanel.cs:308-311 | Returns the cached extent height. |
| `WrapPanel.VirtualizingWrapPanel.ViewportWidth` | BugFreeBoo/Controls/VirtualizingWrapPanel.cs:313-316 | Returns the cached viewport width. |
| `WrapPanel.VirtualizingWrapPanel.ViewportHeight` | BugFreeBoo/Controls/VirtualizingWrapPanel.cs:318-321 | Returns the cached viewport height. |
| `WrapPanel.VirtualizingWrapPanel.HorizontalOffset` | BugFreeBoo/Controls/VirtualizingWrapPanel.cs:323-326 | Returns the horizontal offset, which is always 0 on a valid panel. |
| `WrapPanel.VirtualizingWrapPanel.VerticalOffset` | BugFreeBoo/Controls/VirtualizingWrapPanel.cs:328-331 | Returns the vertical offset, which on a valid panel is exactly minus the render translation. |
| `WrapPanel.VirtualizingWrapPanel.MeasureOverride` | BugFreeBoo/Controls/VirtualizingWrapPanel.cs:53-110 | Returns the pass's extent. The caches and the invalidation count change as `LayoutPass` says, with nothing delivered without a scroll owner. Afterwards every item in `[0, itemCount)` is realized exactly once, after the old children. |
| `WrapPanel.VirtualizingWrapPanel.ArrangeOverride` | BugFreeBoo/Controls/VirtualizingWrapPanel.cs:129-160 | Returns `finalSize` unchanged. The caches change as `LayoutPass` says. Every child gets its slot under the row length of the new viewport. |
| `WrapPanel.VirtualizingWrapPanel.SetVerticalOffset` | BugFreeBoo/Controls/VirtualizingWrapPanel.cs:246-261 | Stores `ClampOffset` of the request, sets the translation to −offset and raises the measure flag. The horizontal offset, caches and children are untouched. |
| `WrapPanel.VirtualizingWrapPanel.LineUp` | BugFreeBoo/Controls/VirtualizingWrapPanel.cs:173-176 | The offset becomes the clamp of offset − scroll unit. |
| `WrapPanel.VirtualizingWrapPanel.LineDown` | BugFreeBoo/Controls/VirtualizingWrapPanel.cs:178-181 | The offset becomes the clamp of offset + scroll unit. |
| `WrapPanel.VirtualizingWrapPanel.MouseWheelUp` | BugFreeBoo/Controls/VirtualizingWrapPanel.cs:213-220 | As `LineUp`, and the scroll owner gets one more invalidation, whether or not the offset changed. |
| `WrapPanel.VirtualizingWrapPanel.MouseWheelDown` | BugFreeBoo/Controls/VirtualizingWrapPanel.cs:222-229 | As `LineDown`, and the scroll owner gets one more invalidation, whether or not the offset changed. |
| `WrapPanel.VirtualizingWrapPanel.SetHorizontalOffset` | BugFreeBoo/Controls/VirtualizingWrapPanel.cs:241-244 | Fails with not-implemented and changes nothing. |
| `WrapPanel.VirtualizingWrapPanel.LineLeft` | BugFreeBoo/Controls/VirtualizingWrapPanel.cs:183-186 | Fails with not-implemented (through `SetHorizontalOffset`) and changes nothing. |
| `WrapPanel.VirtualizingWrapPanel.LineRight` | BugFreeBoo/Controls/VirtualizingWrapPanel.cs:188-191 | Fails with not-implemented and changes nothing. |
| `WrapPanel.VirtualizingWrapPanel.MouseWheelLeft` | BugFreeBoo/Controls/VirtualizingWrapPanel.cs:231-234 | Fails with not-implemented and changes nothing. |
| `WrapPanel.VirtualizingWrapPanel.MouseWheelRight` | BugFreeBoo/Controls/VirtualizingWrapPanel.cs:236-239 | Fails with not-implemented and changes nothing. |
| `WrapPanel.VirtualizingWrapPanel.PageUp` | BugFreeBoo/Controls/VirtualizingWrapPanel.cs:193-196 | Fails with not-implemented and changes nothing. |
| `WrapPanel.VirtualizingWrapPanel.PageDown` | BugFreeBoo/Controls/VirtualizingWrapPanel.cs:198-201 | Fails with not-implemented and changes nothing. |
| `WrapPanel.VirtualizingWrapPanel.PageLeft` | BugFreeBoo/Controls/VirtualizingWrapPanel.cs:203-206 | Fails with not-implemented and changes nothing. |
| `WrapPanel.VirtualizingWrapPanel.PageRight` | BugFreeBoo/Controls/VirtualizingWrapPanel.cs:208-211 | Fails with not-implemented and changes nothing. |
| `WrapPanel.VirtualizingWrapPanel.MakeVisible` | BugFreeBoo/Controls/VirtualizingWrapPanel.cs:263-285 | Returns the rectangle unchanged. For the child holding the item, the offset becomes `RevealOffset` of its slot's top edge. The measure flag is raised only if the offset was set. With no matching child, nothing changes. |

## Left out

- Dependency-property registration and `GetValue`/`SetValue` (lines 14-33, 39-43) are left out. `ItemWidth`, `ItemHeight` and `ScrollUnitLength` are plain fields, and the cell sizes are required to be positive. With the panel's default width of 0, `ItemsPerRow` would divide a double by zero. That yields +∞ or NaN, and the `(int)` cast of either is an unspecified value rather than an exception. The model does not follow that path.
- The container generator session (`GeneratorPositionFromIndex`, `StartAt`, `GenerateNext`, `PrepareItemContainer`) and `AddInternalChild` are host services. They are abstracted as `Realize`: an item with no container gets one, appended to the children. Removing or recycling containers is left to the host and not modelled.
- `child.Measure` at the cell size has no effect on the panel's state and is left out. `child.Arrange` is modelled as the returned sequence of slot rectangles.
- `ItemsCount` (`ItemsControl.GetItemsOwner(this).Items.Count`) is an input parameter of the passes.
- `ScrollViewer` is the `hasScrollOwner` flag plus an invalidation counter. `TranslateTransform` is the `translateY` field.
- The `visual.Equals(child)` test in `MakeVisible`: a visual is identified by the index of the item its container holds.
- MeasureOverride: the visible range is computed with the corrected `VisibleIndexesFixed`. The result is unused, as in the code, so this changes no state.
- `Debug.WriteLine`, `CanVerticallyScroll`, `CanHorizontallyScroll` and the `ItemsControl` property have no logic and are not modelled.
- IEEE-754 is not modelled (rounding, infinite available sizes, NaN), nor is the 32-bit overflow of the `(int)` casts of very large doubles. The 32-bit `int` products `(int)Math.Floor(...) * itemsPerRow` and `(int)Math.Ceiling(...) * itemsPerRow` (lines 122-123) can wrap even when the cast does not. Dafny's unbounded `int` does not model that wrap. Sizes and offsets are exact reals.
- BugFreeBoo/UIApp/ViewModel.cs (a fixed list of three strings) is not part of this model.

## Findings

| source | as written | input that shows it | evidently intended | confidence | as-written member | corrected member |
|---|---|---|---|---|---|---|
| BugFreeBoo/Controls/VirtualizingWrapPanel.cs:123-126 | `last = max(ceil((offset + viewportHeight)/h)·ipr − 1, 0)` under `Contract.Ensures(last >= first)` | viewport height 0, vertical offset 50 = item height, 1 item per row, one child: first = 1, last = 0 | last ≥ first for every non-empty panel (here by raising last to first) | medium, not executed; the offset is reachable by `SetVerticalOffset(50)` on an extent of 100 before a zero-height measure | `WrapGeometry.VisibleIndexesUnorderedAtZeroHeight` | `WrapGeometry.VisibleIndexesFixed` |
