/**
 * The frame geometry of decorations.h: the hard dimensions, the constants
 * derived from them, and the rectangles of the title bar and its controls as
 * functions of the decoration window's size. The hit test pointIsInRect of
 * decorations.c lives here too, because every statement about the controls
 * is a statement about which points it accepts.
 */
module Layout {
  import opened X11

  // Hard dimensions (decorations.h:33-46).
  const TitleBarThickness: int := 19
  const TitleBarTextOffset: int := 14
  const TitleBarTextureStart: int := 4
  const TitleBarTextureSpace: int := TitleBarThickness / 10 + 1
  const TitleBarControlSize: int := TitleBarThickness - 8
  const TitleBarTextMargin: int := 7
  const ResizeControlSize: int := 15
  const FrameLeftThickness: int := 1
  const FrameRightThickness: int := 2
  const FrameBottomThickness: int := 2
  const CollapsedThickness: int := TitleBarThickness - 1 + FrameBottomThickness
  const FrameVerticalThickness: int := TitleBarThickness + FrameBottomThickness
  const FrameHorizontalThickness: int := FrameLeftThickness + FrameRightThickness
  const FrameTuckInset: int := 1

  /**
   * COLLAPSE_BUTTON_ENABLED is never defined by the build, so the
   * preprocessor's `#if` reads it as 0 and the collapse control does not
   * exist. The rectangle functions take the switch as a parameter so that both
   * configurations are covered.
   */
  const CollapseButtonEnabled: bool := false

  /** The values the derived constants take (TITLEBAR_TEXTURE_SPACE uses integer division). */
  lemma DerivedConstants()
    ensures TitleBarControlSize == 11 && TitleBarTextureSpace == 2
    ensures FrameHorizontalThickness == 3 && FrameVerticalThickness == 21
    ensures CollapsedThickness == 20
  {
  }

  /**
   * pointIsInRect: the C function increments its copies of rw and rh before
   * comparing, so both edges are inclusive and the accepted area reaches one
   * pixel beyond the width and height on the right and at the bottom.
   */
  function PointIsInRect(px: int, py: int, r: Rect): (hit: bool)
    ensures hit <==> r.x <= px <= r.x + r.w + 1 && r.y <= py <= r.y + r.h + 1
  {
    var rw := r.w + 1;
    var rh := r.h + 1;
    (px >= r.x && px <= r.x + rw) && (py >= r.y && py <= r.y + rh)
  }

  /**
   * RECT_TITLEBAR for a decoration window `width` pixels wide: its hit area
   * runs from the top-left corner to the window's last column, and down to
   * the first row below the title bar.
   */
  function TitleBarRect(width: int): (r: Rect)
    ensures r.x == 0 && r.y == 0
    ensures r.x + r.w + 1 == width - 1 && r.y + r.h + 1 == TitleBarThickness
  {
    Rect(0, 0, width - 2, TitleBarThickness - 1)
  }

  /**
   * RECT_CLOSE_BTN: fixed at the left of the title bar; its hit area is a
   * square of TITLEBAR_CONTROL_SIZE + 1 pixels from column 9, row 4.
   */
  function CloseButtonRect(): (r: Rect)
    ensures r.x == 9 && r.y == 4
    ensures r.w + 2 == TitleBarControlSize + 1 && r.h + 2 == TitleBarControlSize + 1
  {
    Rect(9, 4, TitleBarControlSize - 1, TitleBarControlSize - 1)
  }

  /**
   * RECT_RESIZE_BTN for a window of the given size: a RESIZE_CONTROL_SIZE
   * square whose window ends one column right of `width` and on row `height`.
   */
  function ResizeButtonRect(width: int, height: int): (r: Rect)
    ensures r.w == ResizeControlSize && r.h == ResizeControlSize
    ensures r.x + r.w == width + 1 && r.y + r.h == height
  {
    Rect(width - ResizeControlSize + 1, height - ResizeControlSize, ResizeControlSize, ResizeControlSize)
  }

  /**
   * FIRST_RIGHTMOST_BTN: a slot the size of the close box, on its rows,
   * whose hit area ends ten columns before the decoration's right edge.
   */
  function FirstRightmostButton(width: int): (r: Rect)
    ensures r.y == CloseButtonRect().y && r.w == CloseButtonRect().w && r.h == CloseButtonRect().h
    ensures r.x + r.w + 1 == width - 10
  {
    Rect(width - (10 + TitleBarControlSize), 4, TitleBarControlSize - 1, TitleBarControlSize - 1)
  }

  /**
   * SECOND_RIGHTMOST_BTN: a slot the size of the close box, on its rows,
   * whose hit area ends six columns before the rightmost slot begins.
   */
  function SecondRightmostButton(width: int): (r: Rect)
    ensures r.y == CloseButtonRect().y && r.w == CloseButtonRect().w && r.h == CloseButtonRect().h
    ensures r.x + r.w + 1 + 6 == FirstRightmostButton(width).x
  {
    Rect(width - (7 + TitleBarControlSize) * 2 - 2, 4, TitleBarControlSize - 1, TitleBarControlSize - 1)
  }

  /** RECT_MAX_BTN: the second slot when the collapse control exists, the rightmost otherwise. */
  function MaximizeButtonRect(width: int, collapseEnabled: bool): (r: Rect)
    ensures r.y == CloseButtonRect().y && r.w == CloseButtonRect().w && r.h == CloseButtonRect().h
    ensures r.x + r.w + 1 == width - (if collapseEnabled then 27 else 10)
  {
    if collapseEnabled then SecondRightmostButton(width) else FirstRightmostButton(width)
  }

  /**
   * RECT_COLLAPSE_BTN (defined only when the collapse control exists): it
   * takes the slot maximize has when there is no collapse control.
   */
  function CollapseButtonRect(width: int): (r: Rect)
    ensures r == MaximizeButtonRect(width, false)
    ensures r.x + r.w + 1 == width - 10
  {
    FirstRightmostButton(width)
  }

  /** Where the macros put each control, written out. */
  lemma ControlRects(width: int, height: int)
    ensures TitleBarRect(width) == Rect(0, 0, width - 2, 18)
    ensures CloseButtonRect() == Rect(9, 4, 10, 10)
    ensures FirstRightmostButton(width) == Rect(width - 21, 4, 10, 10)
    ensures SecondRightmostButton(width) == Rect(width - 38, 4, 10, 10)
    ensures ResizeButtonRect(width, height) == Rect(width - 14, height - 15, 15, 15)
    ensures MaximizeButtonRect(width, false) == FirstRightmostButton(width)
    ensures MaximizeButtonRect(width, true) == SecondRightmostButton(width)
    ensures CollapseButtonRect(width) == FirstRightmostButton(width)
  {
  }

  /** A rectangle whose hit area holds at least one point. */
  predicate HitAreaNonEmpty(r: Rect) {
    r.w >= -1 && r.h >= -1
  }

  /** Every point the hit test accepts for `inner` it also accepts for `outer`. */
  ghost predicate Covers(outer: Rect, inner: Rect) {
    forall px, py :: PointIsInRect(px, py, inner) ==> PointIsInRect(px, py, outer)
  }

  /** Some point is accepted by the hit tests of both rectangles. */
  ghost predicate Overlap(a: Rect, b: Rect) {
    exists px, py :: PointIsInRect(px, py, a) && PointIsInRect(px, py, b)
  }

  /** Containment of hit areas is containment of the one-pixel-extended boxes. */
  lemma CoversIff(outer: Rect, inner: Rect)
    requires HitAreaNonEmpty(inner)
    ensures Covers(outer, inner) <==>
      outer.x <= inner.x && inner.x + inner.w <= outer.x + outer.w &&
      outer.y <= inner.y && inner.y + inner.h <= outer.y + outer.h
  {
    if Covers(outer, inner) {
      assert PointIsInRect(inner.x, inner.y, inner);
      assert PointIsInRect(inner.x + inner.w + 1, inner.y + inner.h + 1, inner);
    }
  }

  /** Two hit areas meet exactly when their extended spans meet on both axes. */
  lemma OverlapIff(a: Rect, b: Rect)
    requires HitAreaNonEmpty(a) && HitAreaNonEmpty(b)
    ensures Overlap(a, b) <==>
      a.x <= b.x + b.w + 1 && b.x <= a.x + a.w + 1 &&
      a.y <= b.y + b.h + 1 && b.y <= a.y + a.h + 1
  {
    if a.x <= b.x + b.w + 1 && b.x <= a.x + a.w + 1 && a.y <= b.y + b.h + 1 && b.y <= a.y + a.h + 1 {
      var px := if a.x < b.x then b.x else a.x;
      var py := if a.y < b.y then b.y else a.y;
      assert PointIsInRect(px, py, a) && PointIsInRect(px, py, b);
    }
  }

  /**
   * Every title-bar control lies inside the title bar's hit area (rows 4..15
   * inside rows 0..19) once the decoration is wide enough for that control's
   * slot: the close box and the rightmost slot need 21 pixels, the second slot
   * 38.
   */
  lemma ControlsInsideTitleBar(width: int)
    ensures Covers(TitleBarRect(width), CloseButtonRect()) <==> width >= 21
    ensures Covers(TitleBarRect(width), FirstRightmostButton(width)) <==> width >= 21
    ensures Covers(TitleBarRect(width), SecondRightmostButton(width)) <==> width >= 38
  {
    CoversIff(TitleBarRect(width), CloseButtonRect());
    CoversIff(TitleBarRect(width), FirstRightmostButton(width));
    CoversIff(TitleBarRect(width), SecondRightmostButton(width));
  }

  /**
   * The controls do not share a single pixel: the two right-hand slots never
   * meet (columns width-38..width-27 and width-21..width-10); the close box
   * (columns 9..20) is clear of the rightmost slot exactly when width >= 42
   * and of the second slot exactly when width >= 59, for every width at which
   * the slot lies inside the title bar (narrower frames push the slots past
   * the close box to the left).
   */
  lemma ControlsDisjoint(width: int)
    ensures !Overlap(FirstRightmostButton(width), SecondRightmostButton(width))
    ensures width >= 21 ==> (!Overlap(CloseButtonRect(), FirstRightmostButton(width)) <==> width >= 42)
    ensures width >= 38 ==> (!Overlap(CloseButtonRect(), SecondRightmostButton(width)) <==> width >= 59)
  {
    OverlapIff(FirstRightmostButton(width), SecondRightmostButton(width));
    OverlapIff(CloseButtonRect(), FirstRightmostButton(width));
    OverlapIff(CloseButtonRect(), SecondRightmostButton(width));
  }

  /**
   * In the shipped configuration the maximize control is clear of the close
   * box from 42 pixels on, and with the collapse control the collapse and
   * maximize controls never meet.
   */
  lemma MaximizeClearOfOtherControls(width: int)
    ensures width >= 42 ==> !Overlap(CloseButtonRect(), MaximizeButtonRect(width, false))
    ensures !Overlap(CollapseButtonRect(width), MaximizeButtonRect(width, true))
  {
    ControlsDisjoint(width);
  }
}
