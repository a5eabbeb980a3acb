/** The wrap panel itself: the cached extent, viewport and scroll offset, the
    render translation, the realized children, and the layout and scrolling
    entry points that update them. */
module WrapPanel {
  import opened WrapGeometry

  /** What a scroll operation reports; the horizontal and page operations
      always report that they are not implemented. */
  datatype Outcome = Done | NotImplemented

  /** No item is bound to two containers. */
  predicate Distinct(s: seq<nat>)
  {
    forall i, j :: 0 <= i < j < |s| ==> s[i] != s[j]
  }

  /** The children after the container generator has been walked forward
      from item `from` to the last item: every item that has no container yet
      gets a new one, added after the existing children, so at most one
      container is added per walked item. */
  function Realize(children: seq<nat>, from: nat, itemCount: nat): (r: seq<nat>)
    decreases itemCount - from
    ensures children <= r
    ensures from <= itemCount ==> |r| <= |children| + (itemCount - from)
    ensures from >= itemCount ==> r == children
  {
    if from >= itemCount then children
    else Realize(if from in children then children else children + [from], from + 1, itemCount)
  }

  /** Walking the generator keeps the existing children in front, realizes
      every item of the walked range exactly once, and adds nothing else. */
  lemma {:induction false} RealizeSpec(children: seq<nat>, from: nat, itemCount: nat)
    requires Distinct(children)
    decreases itemCount - from
    ensures var r := Realize(children, from, itemCount);
      Distinct(r) && children <= r &&
      (forall k :: from <= k < itemCount ==> k in r) &&
      (forall x :: x in r ==> x in children || from <= x < itemCount)
  {
    if from < itemCount {
      var next := if from in children then children else children + [from];
      RealizeSpec(next, from + 1, itemCount);
      var r := Realize(next, from + 1, itemCount);
      assert from in next;
      assert next == r[..|next|];
      assert from in r;
      forall x | x in r
        ensures x in children || from <= x < itemCount
      {
        if x in next {
          assert x in children || x == from;
        }
      }
    }
  }

  /** The arrange loop: the slot of every child position, in order. */
  method ArrangeSlots(count: nat, ipr: int, itemWidth: real, itemHeight: real)
    returns (slots: seq<Rect>)
    requires ipr >= 1 && itemWidth > 0.0
    ensures |slots| == count
    ensures forall i :: 0 <= i < count ==> slots[i] == SlotRect(i, ipr, itemWidth, itemHeight)
    ensures forall i :: 0 <= i < count ==>
      slots[i] == Rect(Scale(i % ipr, itemWidth), Scale(i / ipr, itemHeight), itemWidth, itemHeight)
  {
    slots := [];
    var i := 0;
    while i < count
      invariant 0 <= i <= count && |slots| == i
      invariant forall k :: 0 <= k < i ==> slots[k] == SlotRect(k, ipr, itemWidth, itemHeight)
      invariant forall k :: 0 <= k < i ==>
        slots[k] == Rect(Scale(k % ipr, itemWidth), Scale(k / ipr, itemHeight), itemWidth, itemHeight)
    {
      var itemRow := ItemRow(i, ipr);
      SlotRectPlacement(i, ipr, itemWidth, itemHeight);
      slots := slots + [Rect(Scale(i % ipr, itemWidth), Scale(itemRow - 1, itemHeight), itemWidth, itemHeight)];
      i := i + 1;
    }
  }

  class VirtualizingWrapPanel {
    /** The cell size and the line-scroll step (host-settable properties). */
    var itemWidth: real
    var itemHeight: real
    var scrollUnitLength: real

    /** The cached extent, viewport and scroll offset. */
    var extent: Size
    var viewport: Size
    var offset: Point

    /** The vertical component of the render translation. */
    var translateY: real

    /** Whether a scroll owner is attached, and how often the panel has told
        it that its scroll information is stale. */
    var hasScrollOwner: bool
    var scrollInfoInvalidations: nat

    /** Whether the panel has asked for a new measure pass at some point since
        it was created. Nothing in the panel clears it: the host's layout
        system consumes the request, which this model does not follow. */
    var measureInvalidated: bool

    /** The realized children, in child order, each given by the index of the
        item its container holds. */
    var children: seq<nat>

    /** The panel's invariant: positive cells, no horizontal offset, the
        rendering shifted by exactly the vertical offset, and one container
        per realized item. */
    ghost predicate Valid()
      reads this
    {
      itemWidth > 0.0 && itemHeight > 0.0 &&
      offset.x == 0.0 && translateY == -offset.y &&
      Distinct(children)
    }

    constructor (itemWidth: real, itemHeight: real, hasScrollOwner: bool)
      requires itemWidth > 0.0 && itemHeight > 0.0
      ensures Valid()
      ensures this.itemWidth == itemWidth && this.itemHeight == itemHeight
      ensures scrollUnitLength == 500.0
      ensures extent == Size(0.0, 0.0) && viewport == Size(0.0, 0.0) && offset == Point(0.0, 0.0)
      ensures translateY == 0.0
      ensures this.hasScrollOwner == hasScrollOwner && scrollInfoInvalidations == 0
      ensures !measureInvalidated && children == []
    {
      this.itemWidth := itemWidth;
      this.itemHeight := itemHeight;
      scrollUnitLength := 500.0;
      extent := Size(0.0, 0.0);
      viewport := Size(0.0, 0.0);
      offset := Point(0.0, 0.0);
      translateY := 0.0;
      this.hasScrollOwner := hasScrollOwner;
      scrollInfoInvalidations := 0;
      measureInvalidated := false;
      children := [];
    }

    /** The scroll information the panel reports: the cached extent and
        viewport and the current offset. */
    function ExtentWidth(): (w: real) reads this
      ensures w == extent.width
    {
      extent.width
    }

    function ExtentHeight(): (h: real) reads this
      ensures h == extent.height
    {
      extent.height
    }

    function ViewportWidth(): (w: real) reads this
      ensures w == viewport.width
    {
      viewport.width
    }

    function ViewportHeight(): (h: real) reads this
      ensures h == viewport.height
    {
      viewport.height
    }

    /** Always 0 on a valid panel: it never scrolls horizontally. */
    function HorizontalOffset(): (x: real) reads this
      ensures x == offset.x
      ensures Valid() ==> x == 0.0
    {
      offset.x
    }

    /** On a valid panel, exactly the amount the rendering is shifted up. */
    function VerticalOffset(): (y: real) reads this
      ensures y == offset.y
      ensures Valid() ==> y == -translateY
    {
      offset.y
    }

    /** The two caches a layout pass refreshes. */
    function CachedLayout(): Caches reads this { Caches(extent, viewport) }

    /** The number of invalidations a scroll owner receives for `raised`
        requests: none without an owner. */
    function Delivered(raised: nat): nat reads this
    {
      if hasScrollOwner then raised else 0
    }

    /** The measure pass. The extent uses the row length of the viewport
        cached before the pass; every item is then realized, not only the
        visible ones, and the visible range is computed but not used. */
    method MeasureOverride(availableSize: Size, itemCount: nat) returns (desired: Size)
      requires Valid()
      modifies this`extent, this`viewport, this`scrollInfoInvalidations, this`children
      ensures Valid()
      ensures var p := LayoutPass(old(CachedLayout()), availableSize, itemCount, itemWidth, itemHeight);
        desired == p.extent && CachedLayout() == p.caches &&
        scrollInfoInvalidations == old(scrollInfoInvalidations) + Delivered(p.invalidations)
      ensures children == Realize(old(children), 0, itemCount)
      ensures old(children) <= children
      ensures forall k :: 0 <= k < itemCount ==> k in children
    {
      var itemsPerRow := ItemsPerRow(ViewportWidth(), itemWidth);
      var newExtent := ExtentFor(availableSize, itemCount, itemsPerRow, itemHeight);
      if newExtent != extent {
        extent := newExtent;
        if hasScrollOwner {
          scrollInfoInvalidations := scrollInfoInvalidations + 1;
        }
      }
      if availableSize != viewport {
        viewport := availableSize;
        if hasScrollOwner {
          scrollInfoInvalidations := scrollInfoInvalidations + 1;
        }
      }
      var visible := VisibleIndexesFixed(|children|, VerticalOffset(), ViewportHeight(), itemHeight,
                                         ItemsPerRow(ViewportWidth(), itemWidth));
      var i := 0;
      while i < itemCount
        modifies this`children
        invariant 0 <= i <= itemCount
        invariant Distinct(children)
        invariant Realize(children, i, itemCount) == Realize(old(children), 0, itemCount)
      {
        if i !in children {
          children := children + [i];
        }
        i := i + 1;
      }
      RealizeSpec(old(children), 0, itemCount);
      desired := newExtent;
    }

    /** The arrange pass: the caches are refreshed as in measure, then every
        child is given its grid slot under the row length of the new viewport;
        the offered size is returned unchanged. */
    method ArrangeOverride(finalSize: Size, itemCount: nat) returns (arranged: Size, slots: seq<Rect>)
      requires Valid()
      modifies this`extent, this`viewport, this`scrollInfoInvalidations
      ensures Valid()
      ensures arranged == finalSize
      ensures var p := LayoutPass(old(CachedLayout()), finalSize, itemCount, itemWidth, itemHeight);
        CachedLayout() == p.caches &&
        scrollInfoInvalidations == old(scrollInfoInvalidations) + Delivered(p.invalidations)
      ensures |slots| == |children|
      ensures forall i :: 0 <= i < |slots| ==>
        slots[i] == SlotRect(i, ItemsPerRow(finalSize.width, itemWidth), itemWidth, itemHeight)
    {
      var newExtent := ExtentFor(finalSize, itemCount, ItemsPerRow(ViewportWidth(), itemWidth), itemHeight);
      if newExtent != extent {
        extent := newExtent;
        if hasScrollOwner {
          scrollInfoInvalidations := scrollInfoInvalidations + 1;
        }
      }
      if finalSize != viewport {
        viewport := finalSize;
        if hasScrollOwner {
          scrollInfoInvalidations := scrollInfoInvalidations + 1;
        }
      }
      var itemsPerRow := ItemsPerRow(ViewportWidth(), itemWidth);
      slots := ArrangeSlots(|children|, itemsPerRow, itemWidth, itemHeight);
      arranged := finalSize;
    }

    /** Stores the clamped offset, shifts the rendering by it and asks for a
        new measure pass. */
    method SetVerticalOffset(requested: real)
      requires Valid()
      modifies this`offset, this`translateY, this`measureInvalidated
      ensures Valid()
      ensures offset == Point(old(offset.x), ClampOffset(requested, extent.height, viewport.height))
      ensures translateY == -offset.y && measureInvalidated
    {
      var stored := requested;
      if stored < 0.0 {
        stored := 0.0;
      } else if stored + ViewportHeight() >= ExtentHeight() {
        stored := ExtentHeight() - ViewportHeight();
      }
      offset := offset.(y := stored);
      translateY := -stored;
      measureInvalidated := true;
    }

    method LineUp()
      requires Valid()
      modifies this`offset, this`translateY, this`measureInvalidated
      ensures Valid()
      ensures offset == Point(old(offset.x),
        ClampOffset(old(offset.y) - scrollUnitLength, extent.height, viewport.height))
      ensures measureInvalidated
    {
      SetVerticalOffset(VerticalOffset() - scrollUnitLength);
    }

    method LineDown()
      requires Valid()
      modifies this`offset, this`translateY, this`measureInvalidated
      ensures Valid()
      ensures offset == Point(old(offset.x),
        ClampOffset(old(offset.y) + scrollUnitLength, extent.height, viewport.height))
      ensures measureInvalidated
    {
      SetVerticalOffset(VerticalOffset() + scrollUnitLength);
    }

    /** As LineUp, then the scroll owner is told unconditionally that its
        scroll information is stale. */
    method MouseWheelUp()
      requires Valid()
      modifies this`offset, this`translateY, this`measureInvalidated, this`scrollInfoInvalidations
      ensures Valid()
      ensures offset == Point(old(offset.x),
        ClampOffset(old(offset.y) - scrollUnitLength, extent.height, viewport.height))
      ensures measureInvalidated
      ensures scrollInfoInvalidations == old(scrollInfoInvalidations) + Delivered(1)
    {
      SetVerticalOffset(VerticalOffset() - scrollUnitLength);
      if hasScrollOwner {
        scrollInfoInvalidations := scrollInfoInvalidations + 1;
      }
    }

    /** As LineDown, then the scroll owner is told unconditionally that its
        scroll information is stale. */
    method MouseWheelDown()
      requires Valid()
      modifies this`offset, this`translateY, this`measureInvalidated, this`scrollInfoInvalidations
      ensures Valid()
      ensures offset == Point(old(offset.x),
        ClampOffset(old(offset.y) + scrollUnitLength, extent.height, viewport.height))
      ensures measureInvalidated
      ensures scrollInfoInvalidations == old(scrollInfoInvalidations) + Delivered(1)
    {
      SetVerticalOffset(VerticalOffset() + scrollUnitLength);
      if hasScrollOwner {
        scrollInfoInvalidations := scrollInfoInvalidations + 1;
      }
    }

    /** Horizontal scrolling is not implemented; nothing changes. */
    method SetHorizontalOffset(requested: real) returns (r: Outcome)
      ensures r == NotImplemented
    {
      r := NotImplemented;
    }

    method LineLeft() returns (r: Outcome)
      ensures r == NotImplemented
    {
      r := SetHorizontalOffset(HorizontalOffset() + scrollUnitLength);
    }

    method LineRight() returns (r: Outcome)
      ensures r == NotImplemented
    {
      r := SetHorizontalOffset(HorizontalOffset() - scrollUnitLength);
    }

    method MouseWheelLeft() returns (r: Outcome)
      ensures r == NotImplemented
    {
      r := SetHorizontalOffset(HorizontalOffset() + scrollUnitLength);
    }

    method MouseWheelRight() returns (r: Outcome)
      ensures r == NotImplemented
    {
      r := SetHorizontalOffset(HorizontalOffset() - scrollUnitLength);
    }

    /** Page scrolling is not implemented; nothing changes. */
    method PageUp() returns (r: Outcome)
      ensures r == NotImplemented
    {
      r := NotImplemented;
    }

    method PageDown() returns (r: Outcome)
      ensures r == NotImplemented
    {
      r := NotImplemented;
    }

    method PageLeft() returns (r: Outcome)
      ensures r == NotImplemented
    {
      r := NotImplemented;
    }

    method PageRight() returns (r: Outcome)
      ensures r == NotImplemented
    {
      r := NotImplemented;
    }

    /** Scrolls the child holding item `visual` into view: when the top edge
        of its slot lies above the viewport or below its bottom edge, the
        offset is set to that top edge; the rectangle is returned unchanged. */
    method MakeVisible(visual: nat, rectangle: Rect) returns (r: Rect)
      requires Valid()
      modifies this`offset, this`translateY, this`measureInvalidated
      ensures Valid()
      ensures r == rectangle
      ensures visual !in children ==>
        offset == old(offset) && measureInvalidated == old(measureInvalidated)
      ensures forall p :: 0 <= p < |children| && children[p] == visual ==>
        var top := SlotRect(p, ItemsPerRow(viewport.width, itemWidth), itemWidth, itemHeight).y;
        offset.y == RevealOffset(old(offset.y), top, extent.height, viewport.height) &&
        measureInvalidated == (old(measureInvalidated) || !RowTopInView(old(offset.y), top, viewport.height))
    {
      var i := 0;
      while i < |children|
        invariant 0 <= i <= |children|
        invariant Valid()
        invariant visual !in children[..i] ==>
          offset == old(offset) && measureInvalidated == old(measureInvalidated)
        invariant forall p :: 0 <= p < i && children[p] == visual ==>
          var top := SlotRect(p, ItemsPerRow(viewport.width, itemWidth), itemWidth, itemHeight).y;
          offset.y == RevealOffset(old(offset.y), top, extent.height, viewport.height) &&
          measureInvalidated == (old(measureInvalidated) || !RowTopInView(old(offset.y), top, viewport.height))
      {
        if children[i] == visual {
          var itemRow := ItemRow(i, ItemsPerRow(ViewportWidth(), itemWidth));
          var rowTop := Scale(itemRow - 1, itemHeight);
          if offset.y > rowTop || offset.y + viewport.height < rowTop {
            SetVerticalOffset(rowTop);
          }
        }
        assert children[..i + 1] == children[..i] + [children[i]];
        i := i + 1;
      }
      assert children[..|children|] == children;
      r := rectangle;
    }
  }
}
