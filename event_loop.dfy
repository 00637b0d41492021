/**
 * The event loop of main.c as a function on values. A Session holds what the
 * loop keeps between events: the root window, the handle records of the pool
 * (head first), the MouseDownState together with the press anchor `start`
 * and the decoration geometry `attr` read at the press, the events still
 * queued, and the trace of requests sent to the server so far. Every answer
 * the server gives while one event is handled is a field of Replies.
 * The class WindowManager (manager.dfy) runs the same loop imperatively over
 * the linked pool and is proved to follow these functions step by step.
 */
module EventLoop {
  import opened X11
  import opened Layout
  import opened Decorations
  import opened Pool

  /** MouseDownState (main.c:16-21): what the last accepted press landed on. */
  datatype MouseDownState = Unknown | Move | Close | Maximize

  /** The server's answers during one event. */
  datatype Replies = Replies(
    decorationAttr: Attr,  // XGetWindowAttributes of the pressed decoration (main.c:128)
    hints: Attr,           // XGetWMNormalHints of a window being claimed (main.c:46)
    borderWidth: int,      // the client's border width, read by decorateWindow (decorations.c:48)
    decoration: Window,    // the XID of the new decoration window (decorations.c:57)
    resizer: Window,       // the XID of the new resize control (decorations.c:61)
    buffer: BackBuffer,    // the back buffer allocated for the decoration (pool.c:51)
    allocOk: bool)         // whether malloc of the pool record succeeded (pool.c:36-40)

  /** The loop's state between two events. */
  datatype Session = Session(
    root: Window,
    pool: seq<Record>,
    downState: MouseDownState,
    start: ButtonEvent,
    attr: Attr,
    queue: seq<XEvent>,
    requests: seq<XRequest>)

  /**
   * The state before the first event. The C locals downState, start and attr
   * are uninitialised until the first accepted press; they are given neutral
   * values here.
   */
  function Initial(root: Window, queue: seq<XEvent>): (s: Session)
    ensures s.pool == [] && s.requests == [] && s.queue == queue && s.downState == Unknown
  {
    Session(root, [], Unknown, ButtonEvent(NoWindow, NoWindow, 0, 0, 0), Attr(0, 0, 0, 0), queue, [])
  }

  /** RECT_MAX_BTN in the configuration the program is built with. */
  function MaxRect(width: int): Rect {
    MaximizeButtonRect(width, CollapseButtonEnabled)
  }

  /**
   * The hit classification of a press (main.c:135-148): the state is reset
   * to Unknown, then the title bar, the close box and the maximize box are
   * tested in that order and every hit overrides the earlier ones. The
   * contract states the outcome as a priority: maximize beats close beats
   * the title bar.
   */
  function Classify(x: int, y: int, width: int): (d: MouseDownState)
    ensures d == Maximize <==> PointIsInRect(x, y, MaxRect(width))
    ensures d == Close <==> PointIsInRect(x, y, CloseButtonRect()) && !PointIsInRect(x, y, MaxRect(width))
    ensures d == Move <==>
      PointIsInRect(x, y, TitleBarRect(width)) &&
      !PointIsInRect(x, y, CloseButtonRect()) && !PointIsInRect(x, y, MaxRect(width))
    ensures d == Unknown <==>
      !PointIsInRect(x, y, TitleBarRect(width)) &&
      !PointIsInRect(x, y, CloseButtonRect()) && !PointIsInRect(x, y, MaxRect(width))
  {
    var d0 := Unknown;
    var d1 := if PointIsInRect(x, y, TitleBarRect(width)) then Move else d0;
    var d2 := if PointIsInRect(x, y, CloseButtonRect()) then Close else d1;
    if PointIsInRect(x, y, MaxRect(width)) then Maximize else d2
  }

  /**
   * On a decoration at least 42 pixels wide the overriding order never
   * matters: a press in the close box is a close, a press in the maximize box
   * a maximize, and a press is Unknown exactly when it misses the title bar.
   */
  lemma PressOnWideFrame(x: int, y: int, width: int)
    requires width >= 42
    ensures PointIsInRect(x, y, CloseButtonRect()) ==> Classify(x, y, width) == Close
    ensures PointIsInRect(x, y, MaxRect(width)) ==> Classify(x, y, width) == Maximize
    ensures Classify(x, y, width) == Unknown <==> !PointIsInRect(x, y, TitleBarRect(width))
  {
    MaximizeClearOfOtherControls(width);
    ControlsInsideTitleBar(width);
  }

  /** The pressed-look redraws of a press (main.c:140-148), close box first. */
  function PressDraws(deco: Window, x: int, y: int, width: int): (r: seq<XRequest>)
    ensures |r| == (if PointIsInRect(x, y, CloseButtonRect()) then 1 else 0) +
                   (if PointIsInRect(x, y, MaxRect(width)) then 1 else 0)
    ensures PointIsInRect(x, y, CloseButtonRect()) ==> r[0] == DrawButton(deco, CloseButtonDown, CloseButtonRect())
    ensures PointIsInRect(x, y, MaxRect(width)) ==> r[|r| - 1] == DrawButton(deco, CloseButtonDown, MaxRect(width))
  {
    (if PointIsInRect(x, y, CloseButtonRect()) then [DrawButton(deco, CloseButtonDown, CloseButtonRect())] else []) +
    (if PointIsInRect(x, y, MaxRect(width)) then [DrawButton(deco, CloseButtonDown, MaxRect(width))] else [])
  }

  /**
   * ButtonPress (main.c:122-158) with `a` the geometry the server reports for
   * the decoration. A press with no subwindow or on a window the pool does
   * not know changes nothing. Any other press raises the decoration, draws the
   * pressed controls, grabs the pointer for the subwindow, and keeps the
   * press as the anchor together with `a`, whatever state it classifies to.
   */
  function AfterPress(s: Session, ev: ButtonEvent, a: Attr): (t: Session)
    ensures ev.subwindow == NoWindow || !Tracked(s.pool, ev.subwindow) ==> t == s
    ensures ev.subwindow != NoWindow && Tracked(s.pool, ev.subwindow) ==>
      && t.root == s.root && t.pool == s.pool && t.queue == s.queue
      && t.start == ev && t.attr == a
      && t.downState == Classify(ev.xRoot - a.x, ev.yRoot - a.y, a.width)
      && |s.requests| + 2 <= |t.requests| <= |s.requests| + 4
      && t.requests[..|s.requests|] == s.requests
      && t.requests[|s.requests|] == RaiseWindow(s.pool[FindIndex(s.pool, ev.subwindow)].decorationWindow)
      && t.requests[|t.requests| - 1] == GrabPointer(ev.subwindow)
      && (forall i | |s.requests| < i < |t.requests| - 1 ::
            t.requests[i].DrawButton? && t.requests[i].look == CloseButtonDown)
  {
    if ev.subwindow == NoWindow || !Tracked(s.pool, ev.subwindow) then s
    else
      var deco := s.pool[FindIndex(s.pool, ev.subwindow)].decorationWindow;
      var x := ev.xRoot - a.x;
      var y := ev.yRoot - a.y;
      s.(attr := a, start := ev, downState := Classify(x, y, a.width),
         requests := s.requests + [RaiseWindow(deco)] + PressDraws(deco, x, y, a.width) + [GrabPointer(ev.subwindow)])
  }

  /** The MAX macro (main.c:9). */
  function Max(a: int, b: int): int {
    if a > b then a else b
  }

  /**
   * The geometry a Move motion asks for (main.c:165-171): with button 1 the
   * decoration keeps its press-time size and moves by the pointer's
   * cumulative travel since the press; with button 3 it keeps its press-time
   * position and grows by that travel, never below one pixel; with any other
   * button it stays where it was at the press.
   */
  function MoveGeometry(a: Attr, start: ButtonEvent, ev: ButtonEvent): (g: Attr)
    ensures g.width >= 1 && g.height >= 1
    ensures start.button == 1 ==>
      g.x - a.x == ev.xRoot - start.xRoot && g.y - a.y == ev.yRoot - start.yRoot &&
      g.width == Max(1, a.width) && g.height == Max(1, a.height)
    ensures start.button == 3 ==>
      g.x == a.x && g.y == a.y &&
      g.width == Max(1, a.width + (ev.xRoot - start.xRoot)) &&
      g.height == Max(1, a.height + (ev.yRoot - start.yRoot))
    ensures start.button != 1 && start.button != 3 ==>
      g.x == a.x && g.y == a.y && g.width == Max(1, a.width) && g.height == Max(1, a.height)
    ensures ev.xRoot == start.xRoot && ev.yRoot == start.yRoot && a.width >= 1 && a.height >= 1 ==> g == a
  {
    var xdiff := ev.xRoot - start.xRoot;
    var ydiff := ev.yRoot - start.yRoot;
    Attr(a.x + (if start.button == 1 then xdiff else 0),
         a.y + (if start.button == 1 then ydiff else 0),
         Max(1, a.width + (if start.button == 3 then xdiff else 0)),
         Max(1, a.height + (if start.button == 3 then ydiff else 0)))
  }

  /**
   * The requests one (coalesced) motion sample sends, by state
   * (main.c:163-197): nothing while the press state is Unknown, that is
   * before any accepted press or after one that missed the title bar and
   * both controls; otherwise one request, a move or resize to MoveGeometry
   * while moving, or a redraw of the held control that looks pressed exactly
   * while the pointer is inside it.
   */
  function MotionRequests(s: Session, ev: ButtonEvent): (r: seq<XRequest>)
    ensures |r| <= 1 && (r == [] <==> s.downState == Unknown)
    ensures s.downState == Move ==> var g := MoveGeometry(s.attr, s.start, ev);
      r == [MoveResizeWindow(ev.window, g.x, g.y, g.width, g.height)]
    ensures s.downState == Close ==>
      var inside := PointIsInRect(ev.xRoot - s.attr.x, ev.yRoot - s.attr.y, CloseButtonRect());
      r[0].DrawButton? && r[0].window == ev.window && r[0].at == CloseButtonRect() &&
      (r[0].look == CloseButtonDown <==> inside) && (r[0].look == CloseButton <==> !inside)
    ensures s.downState == Maximize ==>
      var inside := PointIsInRect(ev.xRoot - s.attr.x, ev.yRoot - s.attr.y, MaxRect(s.attr.width));
      r[0].DrawButton? && r[0].window == ev.window && r[0].at == MaxRect(s.attr.width) &&
      (r[0].look == CloseButtonDown <==> inside) && (r[0].look == MaximizeButton <==> !inside)
  {
    var x := ev.xRoot - s.attr.x;
    var y := ev.yRoot - s.attr.y;
    match s.downState
    case Move =>
      var g := MoveGeometry(s.attr, s.start, ev);
      [MoveResizeWindow(ev.window, g.x, g.y, g.width, g.height)]
    case Close =>
      [DrawButton(ev.window, if PointIsInRect(x, y, CloseButtonRect()) then CloseButtonDown else CloseButton,
                  CloseButtonRect())]
    case Maximize =>
      [DrawButton(ev.window, if PointIsInRect(x, y, MaxRect(s.attr.width)) then CloseButtonDown else MaximizeButton,
                  MaxRect(s.attr.width))]
    case Unknown => []
  }

  /** The motion handler for the sample `ev`: only requests are added. */
  function AfterMotion(s: Session, ev: ButtonEvent): (t: Session)
    ensures t.(requests := s.requests) == s
    ensures |s.requests| <= |t.requests| <= |s.requests| + 1 && t.requests[..|s.requests|] == s.requests
    ensures s.downState == Unknown ==> t == s
    ensures s.downState == Move ==> var g := MoveGeometry(s.attr, s.start, ev);
      t.requests == s.requests + [MoveResizeWindow(ev.window, g.x, g.y, g.width, g.height)]
    ensures s.downState == Close ==>
      t.requests == s.requests +
        [DrawButton(ev.window,
                    if PointIsInRect(ev.xRoot - s.attr.x, ev.yRoot - s.attr.y, CloseButtonRect())
                    then CloseButtonDown else CloseButton,
                    CloseButtonRect())]
  {
    s.(requests := s.requests + MotionRequests(s, ev))
  }

  /** The queue with every motion event taken out, the other events in their order. */
  function Drained(q: seq<XEvent>): (r: seq<XEvent>)
    ensures |r| <= |q|
    ensures forall i | 0 <= i < |r| :: !r[i].MotionNotify?
  {
    if q == [] then []
    else if q[0].MotionNotify? then Drained(q[1..])
    else [q[0]] + Drained(q[1..])
  }

  /** The event the drain loop leaves in `ev`: the last queued motion sample, or `current` if none is queued. */
  function LastMotion(q: seq<XEvent>, current: ButtonEvent): (m: ButtonEvent)
    ensures m == current || exists i | 0 <= i < |q| :: q[i] == MotionNotify(m)
  {
    if q == [] then current
    else LastMotion(q[1..], if q[0].MotionNotify? then q[0].motion else current)
  }

  /** A queue without motion events passes through the drain unchanged. */
  lemma {:induction false} DrainWithoutMotion(q: seq<XEvent>)
    requires forall i | 0 <= i < |q| :: !q[i].MotionNotify?
    ensures Drained(q) == q
  {
    if q != [] {
      var rest := q[1..];
      assert forall i | 0 <= i < |rest| :: !rest[i].MotionNotify? by {
        assert forall i | 0 <= i < |rest| :: rest[i] == q[i + 1];
      }
      DrainWithoutMotion(rest);
      assert q == [q[0]] + rest;
    }
  }

  /** Motion coalescing discards motion events only: every other queued event survives the drain. */
  lemma {:induction false} DrainedKeepsOthers(q: seq<XEvent>)
    ensures forall e | e in q && !e.MotionNotify? :: e in Drained(q)
  {
    if q != [] {
      var rest := q[1..];
      DrainedKeepsOthers(rest);
      forall e | e in q && !e.MotionNotify? ensures e in Drained(q) {
        if e == q[0] {
          assert Drained(q)[0] == e;
        } else {
          assert e in rest;
        }
      }
    }
  }

  /** With no motion event queued, the drain keeps the current sample. */
  lemma {:induction false} LastMotionWithoutMotion(q: seq<XEvent>, current: ButtonEvent)
    requires forall i | 0 <= i < |q| :: !q[i].MotionNotify?
    ensures LastMotion(q, current) == current
  {
    if q != [] {
      assert forall i | 0 <= i < |q| - 1 :: q[1..][i] == q[i + 1];
      LastMotionWithoutMotion(q[1..], current);
    }
  }

  /** The drain keeps the last motion sample of the queue. */
  lemma {:induction false} LastMotionIsLast(q: seq<XEvent>, current: ButtonEvent, j: nat)
    requires j < |q| && q[j].MotionNotify?
    requires forall i | j < i < |q| :: !q[i].MotionNotify?
    ensures LastMotion(q, current) == q[j].motion
  {
    var next := if q[0].MotionNotify? then q[0].motion else current;
    if j > 0 {
      assert q[1..][j - 1] == q[j];
      assert forall i | j - 1 < i < |q| - 1 :: q[1..][i] == q[i + 1];
      LastMotionIsLast(q[1..], next, j - 1);
    } else {
      assert forall i | 0 <= i < |q| - 1 :: q[1..][i] == q[i + 1];
      LastMotionWithoutMotion(q[1..], next);
    }
  }

  /** The position of the first queued motion event; |q| if there is none. */
  function FirstMotion(q: seq<XEvent>): (k: nat)
    ensures k <= |q|
    ensures forall i | 0 <= i < k :: !q[i].MotionNotify?
    ensures k < |q| ==> q[k].MotionNotify?
  {
    if q == [] then 0
    else if q[0].MotionNotify? then 0
    else 1 + FirstMotion(q[1..])
  }

  /** The number of queued motion events. */
  function MotionCount(q: seq<XEvent>): nat {
    if q == [] then 0
    else (if q[0].MotionNotify? then 1 else 0) + MotionCount(q[1..])
  }

  /**
   * Taking the first queued motion event out, and making it the current
   * sample, is one step of the drain: what the whole drain leaves is the
   * same, and one motion event fewer is queued.
   */
  lemma {:induction false} DrainStep(q: seq<XEvent>, current: ButtonEvent)
    requires FirstMotion(q) < |q|
    ensures var k := FirstMotion(q);
      var r := q[..k] + q[k + 1..];
      Drained(r) == Drained(q) &&
      LastMotion(r, q[k].motion) == LastMotion(q, current) &&
      MotionCount(r) + 1 == MotionCount(q)
  {
    var k := FirstMotion(q);
    var r := q[..k] + q[k + 1..];
    if k == 0 {
      assert r == q[1..];
    } else {
      assert FirstMotion(q[1..]) == k - 1;
      DrainStep(q[1..], current);
      assert r[0] == q[0];
      assert r[1..] == q[1..][..k - 1] + q[1..][k..];
    }
  }

  /** With no motion event queued, the drain takes nothing and keeps the current sample. */
  lemma NoMotionQueued(q: seq<XEvent>, current: ButtonEvent)
    requires FirstMotion(q) == |q|
    ensures Drained(q) == q && LastMotion(q, current) == current
  {
    DrainWithoutMotion(q);
    LastMotionWithoutMotion(q, current);
  }

  /** The motion handler applied to every sample of a burst, one after the other. */
  function AfterMotions(s: Session, ms: seq<ButtonEvent>): Session
    decreases |ms|
  {
    if ms == [] then s else AfterMotions(AfterMotion(s, ms[0]), ms[1..])
  }

  /** What a motion sample sends does not depend on the requests already sent. */
  lemma SameMotionRequests(s: Session, s1: Session, ev: ButtonEvent)
    requires s1.(requests := s.requests) == s
    ensures MotionRequests(s1, ev) == MotionRequests(s, ev)
  {
    assert s1.attr == s.attr && s1.start == s.start && s1.downState == s.downState;
  }

  /**
   * Coalescing a burst is sound: handling every sample leaves the same state
   * as handling only the last one, except for earlier requests, and the
   * final request is the one the last sample alone sends. Every motion
   * request names an absolute geometry or look, because MoveGeometry measures
   * from the press anchor, so the samples in between add nothing.
   */
  lemma {:induction false} CoalescingIsSound(s: Session, ms: seq<ButtonEvent>)
    requires ms != []
    decreases |ms|
    ensures var t, d := AfterMotions(s, ms), MotionRequests(s, ms[|ms| - 1]);
      t.(requests := s.requests) == s &&
      |s.requests| + |d| <= |t.requests| && t.requests[|t.requests| - |d|..] == d
  {
    var s1 := AfterMotion(s, ms[0]);
    var t := AfterMotions(s, ms);
    assert t == AfterMotions(s1, ms[1..]);
    if |ms| == 1 {
      assert t == s1;
      assert t.requests == s.requests + MotionRequests(s, ms[0]);
    } else {
      CoalescingIsSound(s1, ms[1..]);
      assert ms[1..][|ms[1..]| - 1] == ms[|ms| - 1];
      assert t.(requests := s.requests) == s1.(requests := s.requests);
      SameMotionRequests(s, s1, ms[|ms| - 1]);
    }
  }

  /** ButtonRelease (main.c:201-224): the pointer is always let go first; only Close can unclaim. */
  function AfterRelease(s: Session, ev: ButtonEvent): (t: Session)
    ensures |t.requests| > |s.requests| && t.requests[..|s.requests|] == s.requests
    ensures t.requests[|s.requests|] == UngrabPointer
    ensures t.root == s.root && t.downState == s.downState && t.start == s.start
    ensures t.attr == s.attr && t.queue == s.queue
    ensures s.downState != Close ==> t.pool == s.pool
    ensures s.downState == Move || s.downState == Unknown ==> t == s.(requests := s.requests + [UngrabPointer])
    ensures s.downState == Close ==>
      |t.requests| >= |s.requests| + 2 &&
      t.requests[|s.requests| + 1] == DrawButton(ev.window, CloseButton, CloseButtonRect())
  {
    ControlReleased(s.(requests := s.requests + [UngrabPointer]), ev)
  }

  /**
   * The switch on the held control once the pointer is let go
   * (main.c:205-222): the control is drawn in its normal look, and a close
   * is committed only if the pointer is still in the close box. The press
   * state, anchor and geometry are kept.
   */
  function ControlReleased(s: Session, ev: ButtonEvent): (t: Session)
    ensures t.root == s.root && t.downState == s.downState && t.start == s.start
    ensures t.attr == s.attr && t.queue == s.queue
  {
    var x := ev.xRoot - s.attr.x;
    var y := ev.yRoot - s.attr.y;
    match s.downState
    case Close =>
      var s1 := s.(requests := s.requests + [DrawButton(ev.window, CloseButton, CloseButtonRect())]);
      if PointIsInRect(x, y, CloseButtonRect()) then Unclaim(s1, ev.window) else s1
    case Maximize =>
      s.(requests := s.requests + [DrawButton(ev.window, MaximizeButton, MaxRect(s.attr.width))])
    case _ => s
  }

  /**
   * unclaimWindow (main.c:62-69) with removeWindowFromPool (pool.c:63-81):
   * the first record answering to the handle has its decoration unmapped
   * and destroyed and is unlinked; its back buffer is handed back only when
   * the record was the head. An unknown handle changes nothing.
   */
  function Unclaim(s: Session, w: Window): (t: Session)
    ensures t.root == s.root && t.downState == s.downState && t.start == s.start
    ensures t.attr == s.attr && t.queue == s.queue
    ensures |t.requests| >= |s.requests| && t.requests[..|s.requests|] == s.requests
    ensures !Tracked(s.pool, w) ==> t == s
    ensures Tracked(s.pool, w) ==> |t.pool| == |s.pool| - 1
  {
    var k := FindIndex(s.pool, w);
    if k == |s.pool| then s
    else
      var r := s.pool[k];
      s.(pool := Cut(s.pool, k),
         requests := s.requests + [UnmapWindow(r.decorationWindow), DestroyWindow(r.decorationWindow)] +
                     (if k == 0 then [DeallocateBackBuffer(r.decorationBuffer)] else []))
  }

  /**
   * The requests of claimWindow (main.c:42-60) for client `w`: move and size
   * the client to its hints, decorate it (decorations.c:39-83), move the
   * decoration to the hinted position and raise it.
   */
  function ClaimRequests(root: Window, w: Window, r: Replies): seq<XRequest> {
    var h := r.hints;
    [MoveWindow(w, h.x, h.y), ResizeWindow(w, h.width, h.height)] +
    DecorateRequests(w, root, h.x, h.y, h.width, h.height, r.borderWidth, r.decoration, r.resizer) +
    [MoveWindow(r.decoration, h.x, h.y), RaiseWindow(r.decoration)]
  }

  /**
   * The order of claimWindow's requests: the client is moved and sized to its
   * hints first, then decorated, and the decoration ends up at the hinted
   * position and on top: it is created there and moved there again, and the
   * last request raises it.
   */
  lemma ClaimRequestOrder(root: Window, w: Window, r: Replies)
    ensures var rs, h := ClaimRequests(root, w, r), r.hints;
      && |rs| == 11
      && rs[0] == MoveWindow(w, h.x, h.y) && rs[1] == ResizeWindow(w, h.width, h.height)
      && rs[2..9] == DecorateRequests(w, root, h.x, h.y, h.width, h.height, r.borderWidth, r.decoration, r.resizer)
      && rs[2] == CreateWindow(r.decoration, root, Rect(h.x, h.y, h.width + FrameHorizontalThickness,
                                                        h.height + FrameVerticalThickness))
      && rs[9] == MoveWindow(r.decoration, h.x, h.y) && rs[10] == RaiseWindow(r.decoration)
  {
  }

  /**
   * claimWindow: the requests are sent whether or not the record can be
   * allocated; a new record, when there is one, becomes the head of the pool.
   */
  function Claim(s: Session, w: Window, r: Replies): (t: Session)
    ensures r.allocOk ==> t.pool == [Record(r.decoration, r.buffer, w, r.resizer)] + s.pool
    ensures !r.allocOk ==> t.pool == s.pool
    ensures t.requests == s.requests + ClaimRequests(s.root, w, r)
    ensures t.root == s.root && t.downState == s.downState && t.start == s.start
    ensures t.attr == s.attr && t.queue == s.queue
  {
    s.(pool := if r.allocOk then [Record(r.decoration, r.buffer, w, r.resizer)] + s.pool else s.pool,
       requests := s.requests + ClaimRequests(s.root, w, r))
  }

  /** MapNotify (main.c:225-233): a window the pool already knows is left alone, any other is claimed. */
  function AfterMap(s: Session, w: Window, r: Replies): (t: Session)
    ensures Tracked(s.pool, w) ==> t == s
    ensures r.allocOk ==> Tracked(t.pool, w)
    ensures !r.allocOk ==> t.pool == s.pool
    ensures t.root == s.root && t.downState == s.downState && t.start == s.start
    ensures t.attr == s.attr && t.queue == s.queue
  {
    if Tracked(s.pool, w) then s else Claim(s, w, r)
  }

  /** Expose (main.c:237-241): a known window is redrawn, any other event is ignored. */
  function AfterExpose(s: Session, w: Window): (t: Session)
    ensures t.(requests := s.requests) == s
    ensures t.requests == s.requests + (if Tracked(s.pool, w) then [RedrawExposed(w)] else [])
  {
    if Tracked(s.pool, w) then s.(requests := s.requests + [RedrawExposed(w)]) else s
  }

  /**
   * One iteration of the loop (main.c:117-246): the next event is taken off
   * the queue and dispatched. A motion event first drains every queued
   * motion event (main.c:161) and is then handled with the last of them.
   */
  function AfterEvent(s: Session, r: Replies): (t: Session)
    requires s.queue != []
    ensures |t.queue| < |s.queue| && t.root == s.root
  {
    AfterDispatch(s.(queue := s.queue[1..]), s.queue[0], r)
  }

  /** The switch on the kind of the event `e` just taken off the queue (main.c:120-244). */
  function AfterDispatch(s: Session, e: XEvent, r: Replies): (t: Session)
    ensures |t.queue| <= |s.queue| && t.root == s.root
  {
    match e
    case ButtonPress(ev) => AfterPress(s, ev, r.decorationAttr)
    case MotionNotify(ev) => AfterMotion(s.(queue := Drained(s.queue)), LastMotion(s.queue, ev))
    case ButtonRelease(ev) => AfterRelease(s, ev)
    case MapNotify(w) => AfterMap(s, w, r)
    case DestroyNotify(w) => Unclaim(s, w)
    case Expose(w) => AfterExpose(s, w)
    case Unhandled(_) => s
  }

  /** The loop run for as many events as there are replies, or until the queue is empty. */
  function AfterEvents(s: Session, rs: seq<Replies>): (t: Session)
    ensures t.root == s.root && |t.queue| <= |s.queue|
    decreases |rs|
  {
    if rs == [] || s.queue == [] then s else AfterEvents(AfterEvent(s, rs[0]), rs[1..])
  }

  // ---------------------------------------------------------------------
  // The pool seen through its handles

  /** Two records share a handle the lookup answers to. */
  predicate SharesHandle(a: Record, b: Record) {
    Matches(b, a.decorationWindow) || Matches(b, a.actualWindow)
  }

  /** No decoration or client handle belongs to two records. */
  predicate UniqueHandles(p: seq<Record>) {
    forall i, j | 0 <= i < j < |p| :: !SharesHandle(p[i], p[j])
  }

  /** Every handle of a pool with unique handles resolves to exactly its own record. */
  lemma UniqueResolution(p: seq<Record>)
    requires UniqueHandles(p)
    ensures forall i | 0 <= i < |p| ::
      FindIndex(p, p[i].decorationWindow) == i && FindIndex(p, p[i].actualWindow) == i
  {
    forall i | 0 <= i < |p|
      ensures FindIndex(p, p[i].decorationWindow) == i && FindIndex(p, p[i].actualWindow) == i
    {
      OnlyMatch(p, i, p[i].decorationWindow);
      OnlyMatch(p, i, p[i].actualWindow);
    }
  }

  /** A handle of record i is matched by no other record. */
  lemma OnlyMatch(p: seq<Record>, i: nat, w: Window)
    requires UniqueHandles(p) && i < |p| && Matches(p[i], w)
    ensures FindIndex(p, w) == i
    ensures forall j | 0 <= j < |p| && j != i :: !Matches(p[j], w)
  {
    forall j | 0 <= j < |p| && j != i ensures !Matches(p[j], w) {
      if j < i {
        assert !SharesHandle(p[j], p[i]);
      } else {
        assert !SharesHandle(p[i], p[j]);
      }
    }
  }

  /**
   * With unique handles, unclaiming a handle leaves it unknown, keeps the
   * handles unique, and every other record goes on answering to its handles.
   */
  lemma UnclaimUntracks(s: Session, w: Window)
    requires UniqueHandles(s.pool)
    ensures UniqueHandles(Unclaim(s, w).pool)
    ensures !Tracked(Unclaim(s, w).pool, w)
    ensures forall v | Tracked(s.pool, v) && !(Tracked(s.pool, w) && Matches(s.pool[FindIndex(s.pool, w)], v)) ::
      Tracked(Unclaim(s, w).pool, v) &&
      Unclaim(s, w).pool[FindIndex(Unclaim(s, w).pool, v)] == s.pool[FindIndex(s.pool, v)]
  {
    var p := s.pool;
    var k := FindIndex(p, w);
    if k < |p| {
      var q := Unclaim(s, w).pool;
      assert q == Cut(p, k);
      UniqueCut(p, k);
      OnlyMatch(p, k, w);
      forall i | 0 <= i < |q| ensures !Matches(q[i], w) {
        assert q[i] == p[if i < k then i else i + 1];
      }
      forall v | Tracked(p, v) && !Matches(p[k], v)
        ensures Tracked(q, v) && q[FindIndex(q, v)] == p[FindIndex(p, v)]
      {
        CutKeepsOthers(p, k, v);
      }
    }
  }

  /** Cutting out a record the handle does not belong to leaves the handle resolving to the same record. */
  lemma CutKeepsOthers(p: seq<Record>, k: nat, v: Window)
    requires UniqueHandles(p) && k < |p| && Tracked(p, v) && !Matches(p[k], v)
    ensures Tracked(Cut(p, k), v) && Cut(p, k)[FindIndex(Cut(p, k), v)] == p[FindIndex(p, v)]
  {
    var q := Cut(p, k);
    var m := FindIndex(p, v);
    var n := if m < k then m else m - 1;
    assert q[n] == p[m];
    UniqueCut(p, k);
    OnlyMatch(q, n, v);
  }

  /** Cutting one record out keeps the handles unique. */
  lemma UniqueCut(p: seq<Record>, k: nat)
    requires UniqueHandles(p) && k < |p|
    ensures UniqueHandles(Cut(p, k))
  {
    var q := Cut(p, k);
    forall i, j | 0 <= i < j < |q| ensures !SharesHandle(q[i], q[j]) {
      assert q[i] == p[if i < k then i else i + 1];
      assert q[j] == p[if j < k then j else j + 1];
    }
  }

  /** unclaimWindow a second time with the same handle is a no-op. */
  lemma UnclaimTwice(s: Session, w: Window)
    requires UniqueHandles(s.pool)
    ensures Unclaim(Unclaim(s, w), w) == Unclaim(s, w)
  {
    UnclaimUntracks(s, w);
  }

  /**
   * Claiming an unknown client with a decoration XID the pool does not know
   * tracks the client and its decoration in the new head record and keeps
   * every earlier handle resolving to its record; the handles stay unique.
   */
  lemma ClaimTracks(s: Session, w: Window, r: Replies)
    requires UniqueHandles(s.pool) && !Tracked(s.pool, w) && !Tracked(s.pool, r.decoration) && r.allocOk
    ensures var p := Claim(s, w, r).pool;
      UniqueHandles(p) && FindIndex(p, w) == 0 && FindIndex(p, r.decoration) == 0 &&
      p[0].decorationWindow == r.decoration && p[0].actualWindow == w && p[0].resizer == r.resizer
    ensures var p := Claim(s, w, r).pool;
      forall v | Tracked(s.pool, v) :: FindIndex(p, v) == FindIndex(s.pool, v) + 1
  {
    var p := Claim(s, w, r).pool;
    var nr := Record(r.decoration, r.buffer, w, r.resizer);
    assert p == [nr] + s.pool;
    forall j | 0 <= j < |s.pool| ensures !SharesHandle(nr, s.pool[j]) {
      assert !Matches(s.pool[j], w);
      assert !Matches(s.pool[j], r.decoration);
    }
    forall i, j | 0 <= i < j < |p| ensures !SharesHandle(p[i], p[j]) {
      if i > 0 {
        assert p[i] == s.pool[i - 1] && p[j] == s.pool[j - 1];
      } else {
        assert p[j] == s.pool[j - 1];
      }
    }
    forall v | Tracked(s.pool, v) ensures FindIndex(p, v) == FindIndex(s.pool, v) + 1 {
      var m := FindIndex(s.pool, v);
      OnlyMatch(s.pool, m, v);
      assert p[1..] == s.pool;
    }
  }

  /** A server that hands out decoration XIDs the pool does not already know. */
  predicate FreshFor(s: Session, r: Replies) {
    !Tracked(s.pool, r.decoration)
  }

  /** Each event keeps the handles unique, given a fresh decoration XID. */
  lemma EventKeepsUnique(s: Session, r: Replies)
    requires s.queue != [] && UniqueHandles(s.pool) && FreshFor(s, r)
    ensures UniqueHandles(AfterEvent(s, r).pool)
  {
    var s1 := s.(queue := s.queue[1..]);
    match s.queue[0]
    case ButtonRelease(ev) =>
      var s2 := s1.(requests := s1.requests + [UngrabPointer]);
      var s3 := s2.(requests := s2.requests + [DrawButton(ev.window, CloseButton, CloseButtonRect())]);
      UnclaimUntracks(s3, ev.window);
    case MapNotify(w) =>
      if !Tracked(s1.pool, w) && r.allocOk {
        ClaimTracks(s1, w, r);
      }
    case DestroyNotify(w) =>
      UnclaimUntracks(s1, w);
    case _ =>
  }

  /** In every step of the run the server's new decoration XID is one the pool does not know. */
  predicate FreshRun(s: Session, rs: seq<Replies>)
    decreases |rs|
  {
    rs == [] || s.queue == [] || (FreshFor(s, rs[0]) && FreshRun(AfterEvent(s, rs[0]), rs[1..]))
  }

  /** Over any run every decoration and client handle keeps resolving to exactly one record. */
  lemma {:induction false} RunKeepsUnique(s: Session, rs: seq<Replies>)
    requires UniqueHandles(s.pool) && FreshRun(s, rs)
    ensures UniqueHandles(AfterEvents(s, rs).pool)
    decreases |rs|
  {
    if rs != [] && s.queue != [] {
      EventKeepsUnique(s, rs[0]);
      RunKeepsUnique(AfterEvent(s, rs[0]), rs[1..]);
    }
  }

  // ---------------------------------------------------------------------
  // The release

  /**
   * A release removes a record exactly when the press was on the close box,
   * the pointer is still inside the close box, and the release window is
   * known to the pool; it then removes one record, by unclaiming the release
   * window after the ungrab and the redraw (main.c:212-213).
   */
  lemma ReleaseCommitsIff(s: Session, ev: ButtonEvent)
    ensures var t := AfterRelease(s, ev);
      t.pool != s.pool <==>
        s.downState == Close &&
        PointIsInRect(ev.xRoot - s.attr.x, ev.yRoot - s.attr.y, CloseButtonRect()) &&
        Tracked(s.pool, ev.window)
    ensures var t := AfterRelease(s, ev);
      t.pool != s.pool ==> |t.pool| == |s.pool| - 1
    ensures var t := AfterRelease(s, ev);
      t.pool != s.pool ==>
        t == Unclaim(s.(requests := s.requests + [UngrabPointer, DrawButton(ev.window, CloseButton, CloseButtonRect())]), ev.window)
  {
    if s.downState == Close {
      var s1 := s.(requests := s.requests + [UngrabPointer]);
      var s2 := s1.(requests := s1.requests + [DrawButton(ev.window, CloseButton, CloseButtonRect())]);
      assert s2.pool == s.pool;
      assert s2 == s.(requests := s.requests + [UngrabPointer, DrawButton(ev.window, CloseButton, CloseButtonRect())]);
    }
  }

  /**
   * A committed close (main.c:206-214) closes the window the release was
   * on: with unique handles, the release window is no longer tracked, the
   * handles stay unique, and every other handle resolves to the same record
   * as before. When the window was tracked, the two requests after the
   * normal-look redraw unmap and destroy the decoration of the record it
   * resolves to (main.c:64-65).
   */
  lemma ReleaseClosesWindow(s: Session, ev: ButtonEvent)
    requires UniqueHandles(s.pool) && s.downState == Close
    requires PointIsInRect(ev.xRoot - s.attr.x, ev.yRoot - s.attr.y, CloseButtonRect())
    ensures var t := AfterRelease(s, ev);
      UniqueHandles(t.pool) && !Tracked(t.pool, ev.window)
    ensures var t := AfterRelease(s, ev);
      forall v | Tracked(s.pool, v) && !(Tracked(s.pool, ev.window) && Matches(s.pool[FindIndex(s.pool, ev.window)], v)) ::
        Tracked(t.pool, v) && t.pool[FindIndex(t.pool, v)] == s.pool[FindIndex(s.pool, v)]
    ensures var t := AfterRelease(s, ev);
      Tracked(s.pool, ev.window) ==>
        var d := s.pool[FindIndex(s.pool, ev.window)].decorationWindow;
        |t.requests| >= |s.requests| + 4 &&
        t.requests[|s.requests| + 2] == UnmapWindow(d) &&
        t.requests[|s.requests| + 3] == DestroyWindow(d)
  {
    var s3 := s.(requests := s.requests + [UngrabPointer, DrawButton(ev.window, CloseButton, CloseButtonRect())]);
    assert AfterRelease(s, ev) == Unclaim(s3, ev.window);
    UnclaimUntracks(s3, ev.window);
  }

  /**
   * The maximize control has no effect on geometry: while Maximize is held,
   * a motion only redraws the control and a release only lets the pointer
   * go and draws the control in its normal look, wherever the pointer is.
   */
  lemma MaximizeOnlyRedraws(s: Session, ev: ButtonEvent)
    requires s.downState == Maximize
    ensures AfterMotion(s, ev).requests == s.requests +
      [DrawButton(ev.window,
                  if PointIsInRect(ev.xRoot - s.attr.x, ev.yRoot - s.attr.y, MaxRect(s.attr.width))
                  then CloseButtonDown else MaximizeButton,
                  MaxRect(s.attr.width))]
    ensures AfterRelease(s, ev) ==
      s.(requests := s.requests + [UngrabPointer, DrawButton(ev.window, MaximizeButton, MaxRect(s.attr.width))])
  {
  }

  // ---------------------------------------------------------------------
  // A session from claim to release

  /** The session of the move scenario: root 1, client 2, decoration 3, resize control 4, back buffer 7. */
  function ScenarioPress(): ButtonEvent { ButtonEvent(1, 3, 50, 15, 1) }
  function ScenarioMotion(): ButtonEvent { ButtonEvent(3, NoWindow, 60, 25, 1) }
  function ScenarioRelease(): ButtonEvent { ButtonEvent(3, NoWindow, 60, 25, 1) }
  function ScenarioStart(): Session {
    Initial(1, [MapNotify(2), ButtonPress(ScenarioPress()), MotionNotify(ScenarioMotion()),
                ButtonRelease(ScenarioRelease())])
  }
  /** The server's answers: the claim's hints and new XIDs, then the decoration's geometry at the press. */
  function ClaimReplies(): Replies { Replies(Attr(0, 0, 0, 0), Attr(10, 10, 200, 150), 1, 3, 4, 7, true) }
  function PressReplies(): Replies { Replies(Attr(10, 10, 203, 171), Attr(0, 0, 0, 0), 0, 0, 0, 0, false) }

  /** The scenario's first event: the map of an unknown client claims it. */
  lemma ScenarioClaimStep()
    ensures AfterEvent(ScenarioStart(), ClaimReplies()) ==
      ScenarioStart().(pool := [Record(3, 7, 2, 4)], queue := ScenarioStart().queue[1..],
                       requests := ClaimRequests(1, 2, ClaimReplies()))
  {
    assert !Tracked([], 2);
  }

  /** The press at decoration coordinates (40,5) lands on the title bar only. */
  lemma ScenarioPressStep(s: Session)
    requires s.pool == [Record(3, 7, 2, 4)]
    requires s.queue == [ButtonPress(ScenarioPress()), MotionNotify(ScenarioMotion()), ButtonRelease(ScenarioRelease())]
    ensures AfterEvent(s, PressReplies()) ==
      s.(queue := s.queue[1..], attr := Attr(10, 10, 203, 171), start := ScenarioPress(), downState := Move,
         requests := s.requests + [RaiseWindow(3), GrabPointer(3)])
  {
    assert FindIndex(s.pool, 3) == 0;
    assert Classify(40, 5, 203) == Move;
    assert PressDraws(3, 40, 5, 203) == [];
  }

  /** The single motion sample moves the decoration by the pointer's travel (10,10). */
  lemma ScenarioMotionStep(s: Session)
    requires s.queue == [MotionNotify(ScenarioMotion()), ButtonRelease(ScenarioRelease())]
    requires s.attr == Attr(10, 10, 203, 171) && s.start == ScenarioPress() && s.downState == Move
    ensures AfterEvent(s, PressReplies()) ==
      s.(queue := [ButtonRelease(ScenarioRelease())],
         requests := s.requests + [MoveResizeWindow(3, 20, 20, 203, 171)])
  {
    var q := s.queue[1..];
    assert q == [ButtonRelease(ScenarioRelease())];
    assert q[1..] == [];
    assert Drained(q) == q;
    assert LastMotion(q, ScenarioMotion()) == ScenarioMotion();
  }

  /**
   * A 200x150 client hinted at (10,10) is claimed; its decoration, 203x171 at
   * (10,10), is pressed with button 1 at root (50,15), on the title bar; the
   * pointer moves to root (60,25); the decoration is asked to move to
   * (20,20) at its unchanged size. The release only lets the pointer go, and
   * the state stays Move: the loop never resets it.
   */
  lemma MoveScenario()
    ensures var t := AfterEvents(ScenarioStart(), [ClaimReplies(), PressReplies(), PressReplies()]);
      t.downState == Move && t.pool == [Record(3, 7, 2, 4)] &&
      t.queue == [ButtonRelease(ScenarioRelease())] &&
      |t.requests| > 0 && t.requests[|t.requests| - 1] == MoveResizeWindow(3, 20, 20, 203, 171)
    ensures var t := AfterEvents(ScenarioStart(), [ClaimReplies(), PressReplies(), PressReplies(), PressReplies()]);
      var u := AfterEvents(ScenarioStart(), [ClaimReplies(), PressReplies(), PressReplies()]);
      t == u.(queue := [], requests := u.requests + [UngrabPointer])
  {
    var s0 := ScenarioStart();
    ScenarioClaimStep();
    var s1 := AfterEvent(s0, ClaimReplies());
    ScenarioPressStep(s1);
    var s2 := AfterEvent(s1, PressReplies());
    ScenarioMotionStep(s2);
    var s3 := AfterEvent(s2, PressReplies());
    var s4 := AfterEvent(s3, PressReplies());
    assert s4 == s3.(queue := [], requests := s3.requests + [UngrabPointer]);
    assert AfterEvents(s3, []) == s3;
    assert AfterEvents(s4, []) == s4;
    assert AfterEvents(s0, [ClaimReplies(), PressReplies(), PressReplies()]) == s3 by {
      assert [ClaimReplies(), PressReplies(), PressReplies()][1..] == [PressReplies(), PressReplies()];
      assert [PressReplies(), PressReplies()][1..] == [PressReplies()];
      assert [PressReplies()][1..] == [];
    }
    assert AfterEvents(s0, [ClaimReplies(), PressReplies(), PressReplies(), PressReplies()]) == s4 by {
      assert [ClaimReplies(), PressReplies(), PressReplies(), PressReplies()][1..] == [PressReplies(), PressReplies(), PressReplies()];
      assert [PressReplies(), PressReplies(), PressReplies()][1..] == [PressReplies(), PressReplies()];
      assert [PressReplies(), PressReplies()][1..] == [PressReplies()];
      assert [PressReplies()][1..] == [];
    }
  }
}
