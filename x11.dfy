/**
 * The slice of the X11 protocol the window manager talks to, reduced to
 * values. Window and back-buffer identifiers are opaque numbers handed out by
 * the server; events are the few kinds the event loop dispatches on, and every
 * request the loop sends is recorded as an XRequest in a trace, so that the
 * drawing and window-management calls become observable data.
 */
module X11 {

  /** An X resource identifier (XID) of a window. */
  type Window = nat

  /** The X11 constant None: "no window". */
  const NoWindow: Window := 0

  /** An Xdbe back-buffer name; the window manager never looks inside it. */
  type BackBuffer = nat

  /** A rectangle as the decoration macros spell it: origin, width, height. */
  datatype Rect = Rect(x: int, y: int, w: int, h: int)

  /** The geometry part of XWindowAttributes (and of XSizeHints). */
  datatype Attr = Attr(x: int, y: int, width: int, height: int)

  /**
   * The fields of XButtonEvent that the loop reads. XMotionEvent has the same
   * layout for these fields, and the loop reads motion events through the
   * button-event view, so one record serves press, release and motion.
   */
  datatype ButtonEvent = ButtonEvent(window: Window, subwindow: Window, xRoot: int, yRoot: int, button: int)

  /** The event kinds the loop distinguishes; every other kind is Unhandled. */
  datatype XEvent =
    | ButtonPress(press: ButtonEvent)
    | ButtonRelease(release: ButtonEvent)
    | MotionNotify(motion: ButtonEvent)
    | MapNotify(mapped: Window)
    | DestroyNotify(destroyed: Window)
    | Expose(exposed: Window)
    | Unhandled(kind: int)

  /** Which of the button-drawing routines is asked to paint a control. */
  datatype ButtonLook =
    | CloseButton        // drawCloseButton: the normal close box
    | CloseButtonDown    // drawCloseButtonDown: the pressed look (used for every pressed control)
    | MaximizeButton     // drawMaximizeButton: the normal zoom box

  /** A request sent to the X server, in the order the window manager sends it. */
  datatype XRequest =
    | RaiseWindow(window: Window)
    | GrabPointer(window: Window)
    | UngrabPointer
    | MoveWindow(window: Window, x: int, y: int)
    | ResizeWindow(window: Window, width: int, height: int)
    | MoveResizeWindow(window: Window, x: int, y: int, width: int, height: int)
    | CreateWindow(window: Window, parent: Window, frame: Rect)
    | ReparentWindow(window: Window, parent: Window, x: int, y: int)
    | MapWindow(window: Window)
    | MapRaised(window: Window)
    | UnmapWindow(window: Window)
    | DestroyWindow(window: Window)
    | DeallocateBackBuffer(buffer: BackBuffer)
    | DrawDecorations(window: Window, width: int, height: int, focused: bool)
    | DrawResizeButton(window: Window)
    | DrawButton(window: Window, look: ButtonLook, at: Rect)
    | RedrawExposed(window: Window)
}
