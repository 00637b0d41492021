/**
 * The arithmetic of decorations.c: where decorateWindow puts the frame, the
 * client and the resize control, which requests it sends, how drawTitle fits
 * and centres the title, and the texture lines drawDecorations paints across
 * a focused title bar. The pixel drawing itself belongs to Xlib and is
 * reduced to requests in the trace.
 */
module Decorations {
  import opened X11
  import opened Layout
  import opened Wrappers

  /** What decorateWindow computes for a client of the given position, size and border. */
  datatype DecorationLayout = DecorationLayout(
    frame: Rect,          // the new decoration window, in root coordinates
    clientX: int,         // where the client is reparented inside the frame
    clientY: int,
    resizer: Rect,        // the resize-control window, in frame coordinates
    drawnWidth: int,      // the geometry handed to drawDecorations
    drawnHeight: int)

  /** decorateWindow (decorations.c:39-83), its size and offset arithmetic. */
  function DecorateLayout(x: int, y: int, width: int, height: int, borderWidth: int): (l: DecorationLayout)
    ensures l.frame.x == x && l.frame.y == y
    ensures l.clientX + borderWidth == FrameLeftThickness && l.clientY + borderWidth == TitleBarThickness
    ensures l.resizer.x + l.resizer.w == l.frame.w - FrameRightThickness
    ensures l.drawnWidth == l.frame.w
  {
    // attr as set up at decorations.c:50-51, before the frame is created
    var attrWidth := width;
    var attrHeight := height + TitleBarThickness;
    DecorationLayout(
      Rect(x, y, width + FrameHorizontalThickness, height + FrameVerticalThickness),
      FrameLeftThickness - borderWidth,
      TitleBarThickness - borderWidth,
      ResizeButtonRect(attrWidth, attrHeight),
      // attr readjusted at decorations.c:69-70 to describe the decoration window
      attrWidth + FrameHorizontalThickness,
      attrHeight + FrameBottomThickness)
  }

  /** The requests decorateWindow sends, in order (the cursor and name fetch are left out). */
  function DecorateRequests(client: Window, root: Window, x: int, y: int, width: int, height: int,
                            borderWidth: int, decoration: Window, resizer: Window): seq<XRequest>
  {
    var l := DecorateLayout(x, y, width, height, borderWidth);
    [ CreateWindow(decoration, root, l.frame),
      ReparentWindow(client, decoration, l.clientX, l.clientY),
      CreateWindow(resizer, decoration, l.resizer),
      MapRaised(resizer),
      MapWindow(decoration),
      DrawDecorations(decoration, l.drawnWidth, l.drawnHeight, true),
      DrawResizeButton(resizer) ]
  }

  /**
   * The order of decorateWindow's requests: the decoration is created under
   * the root at the frame geometry, the client is reparented into it and the
   * resize control created inside it before anything is mapped; the resize
   * control is mapped raised before the decoration, and the drawing comes
   * last, the decoration drawn focused and then the resize control.
   */
  lemma DecorateRequestOrder(client: Window, root: Window, x: int, y: int, width: int, height: int,
                             borderWidth: int, decoration: Window, resizer: Window)
    ensures var rs := DecorateRequests(client, root, x, y, width, height, borderWidth, decoration, resizer);
      && |rs| == 7
      && rs[0] == CreateWindow(decoration, root, DecorateLayout(x, y, width, height, borderWidth).frame)
      && rs[1].ReparentWindow? && rs[1].window == client && rs[1].parent == decoration
      && rs[2].CreateWindow? && rs[2].window == resizer && rs[2].parent == decoration
      && (forall i | 0 <= i < 3 :: !rs[i].MapWindow? && !rs[i].MapRaised?)
      && rs[3] == MapRaised(resizer) && rs[4] == MapWindow(decoration)
      && rs[5].DrawDecorations? && rs[5].window == decoration && rs[5].focused
      && rs[6] == DrawResizeButton(resizer)
  {
  }

  /** The decoration is the client's size plus the frame insets on every side. */
  lemma FrameIsClientPlusInsets(x: int, y: int, width: int, height: int, borderWidth: int)
    ensures DecorateLayout(x, y, width, height, borderWidth).frame ==
      Rect(x, y, FrameLeftThickness + width + FrameRightThickness,
           TitleBarThickness + height + FrameBottomThickness)
  {
  }

  /**
   * The geometry drawDecorations is given (width + FRAME_HORIZONTAL_THICKNESS
   * by height + TITLEBAR_THICKNESS + FRAME_BOTTOM_THICKNESS) is the size of
   * the window that was created, although the two are computed separately.
   */
  lemma DrawnSizeMatchesFrame(x: int, y: int, width: int, height: int, borderWidth: int)
    ensures var l := DecorateLayout(x, y, width, height, borderWidth);
      l.drawnWidth == l.frame.w && l.drawnHeight == l.frame.h
  {
  }

  /**
   * Whatever its border, the client's content starts right under the title
   * bar and right of the left frame edge; the client together with its border
   * stays inside the frame exactly when the border is at most FRAME_TUCK_INSET
   * (one pixel) wide, the limit the source's border compensation admits.
   */
  lemma ClientPlacement(x: int, y: int, width: int, height: int, borderWidth: int)
    requires width >= 0 && height >= 0 && borderWidth >= 0
    ensures var l := DecorateLayout(x, y, width, height, borderWidth);
      l.clientX + borderWidth == FrameLeftThickness && l.clientY + borderWidth == TitleBarThickness
    ensures var l := DecorateLayout(x, y, width, height, borderWidth);
      (0 <= l.clientX && l.clientX + width + 2 * borderWidth <= l.frame.w &&
       0 <= l.clientY && l.clientY + height + 2 * borderWidth <= l.frame.h)
      <==> borderWidth <= FrameTuckInset
  {
  }

  /**
   * The resize control is a ResizeControlSize square whose window ends flush
   * with the inner edge of the frame's right and bottom borders, so that its
   * one-pixel-extended hit area ends on the frame's last column and row.
   */
  lemma ResizerInCorner(x: int, y: int, width: int, height: int, borderWidth: int)
    ensures var l := DecorateLayout(x, y, width, height, borderWidth);
      l.resizer.w == ResizeControlSize && l.resizer.h == ResizeControlSize &&
      l.resizer.x + l.resizer.w == l.frame.w - FrameRightThickness &&
      l.resizer.y + l.resizer.h == l.frame.h - FrameBottomThickness &&
      PointIsInRect(l.frame.w - 1, l.frame.h - 1, l.resizer) &&
      !PointIsInRect(l.frame.w, l.frame.h - 1, l.resizer) &&
      !PointIsInRect(l.frame.w - 1, l.frame.h, l.resizer)
  {
  }

  /** Where drawTitle puts the white box and the text of a title. */
  datatype TitlePlacement = TitlePlacement(box: Rect, textX: int, textY: int)

  /**
   * drawTitle (decorations.c:160-194) for a decoration `width` pixels wide and
   * a title whose text measures `textWidth` pixels (None: the client has no
   * name). A title that does not leave room for the controls is not drawn.
   */
  function PlaceTitle(width: int, textWidth: Option<nat>): (p: Option<TitlePlacement>)
    ensures p.Some? <==> textWidth.Some? && width >= textWidth.value + 56
    ensures p.Some? ==> p.value.textY == TitleBarTextOffset
  {
    match textWidth
    case None => None
    case Some(tw) =>
      if width < tw + 42 + 2 * TitleBarTextMargin then None
      else
        // width - tw is at least 56 here, so C's truncating division agrees with Dafny's
        var x := (width - tw) / 2;
        Some(TitlePlacement(Rect(x - TitleBarTextMargin, 4, tw + 2 * TitleBarTextMargin, TitleBarControlSize),
                            x, TitleBarTextOffset))
  }

  /**
   * A drawn title is centred to within a pixel, sits TITLEBAR_TEXT_MARGIN
   * inside its white box on both sides, and the box's pixels lie strictly
   * between the close box and the rightmost control slot, inside the title
   * bar's outline.
   */
  lemma TitleLayout(width: int, tw: nat)
    requires PlaceTitle(width, Some(tw)).Some?
    ensures var p := PlaceTitle(width, Some(tw)).value;
      var rightGap := width - (p.textX + tw);
      0 <= rightGap - p.textX <= 1 &&
      p.box.x + TitleBarTextMargin == p.textX &&
      p.box.x + p.box.w == p.textX + tw + TitleBarTextMargin
    ensures var p := PlaceTitle(width, Some(tw)).value;
      var close := CloseButtonRect();
      var slot := FirstRightmostButton(width);
      close.x + close.w + 1 < p.box.x &&
      p.box.x + p.box.w - 1 < slot.x &&
      0 < p.box.y && p.box.y + p.box.h - 1 < TitleBarThickness - 1
  {
  }

  /** One line the texture loop draws. */
  datatype Segment = Segment(x1: int, y1: int, x2: int, y2: int)

  /**
   * The texture loop of drawDecorations (decorations.c:108-114): on a focused
   * title bar, horizontal lines from x = 2 to width - 4, starting at
   * TITLEBAR_TEXTURE_START and stepping by TITLEBAR_TEXTURE_SPACE while below
   * TITLEBAR_TEXTURE_START + TITLEBAR_CONTROL_SIZE: y = 4, 6, ..., 14.
   */
  method TextureLines(width: int, focused: bool) returns (lines: seq<Segment>)
    ensures !focused ==> lines == []
    ensures focused ==> |lines| == 6
    ensures forall i | 0 <= i < |lines| ::
      lines[i] == Segment(2, TitleBarTextureStart + i * TitleBarTextureSpace,
                          width - 4, TitleBarTextureStart + i * TitleBarTextureSpace)
    ensures forall i | 0 <= i < |lines| ::
      TitleBarTextureStart <= lines[i].y1 < TitleBarTextureStart + TitleBarControlSize
    ensures forall i | 0 <= i < |lines| :: 0 < lines[i].y1 < TitleBarThickness - 1
  {
    lines := [];
    if focused {
      var y := TitleBarTextureStart;
      while y < TitleBarTextureStart + TitleBarControlSize
        invariant y == TitleBarTextureStart + |lines| * TitleBarTextureSpace
        invariant |lines| <= 6
        invariant forall i | 0 <= i < |lines| ::
          lines[i] == Segment(2, TitleBarTextureStart + i * TitleBarTextureSpace,
                              width - 4, TitleBarTextureStart + i * TitleBarTextureSpace)
        decreases TitleBarTextureStart + TitleBarControlSize - y
      {
        lines := lines + [Segment(2, y, width - 4, y)];
        y := y + TitleBarTextureSpace;
      }
    }
  }
}
