/**
 * The event loop of main.c as the program runs it: the locals downState,
 * start and attr that survive from one iteration to the next, the event
 * queue, the request trace and the linked pool, updated statement by
 * statement. Every handler is proved to leave the state that the matching
 * function of EventLoop describes, so all that is proved about those
 * functions holds of this loop.
 */
module Manager {
  import opened X11
  import opened Layout
  import opened Decorations
  import opened Pool
  import opened EventLoop

  class WindowManager {
    const pool: ManagedWindowPool
    const root: Window
    var downState: MouseDownState
    var start: ButtonEvent
    var attr: Attr
    var queue: seq<XEvent>
    var requests: seq<XRequest>

    /**
     * The pool's linked list is well formed, and no record is active: the
     * loop never calls activateWindowInPool.
     */
    ghost predicate Valid()
      reads this, pool, pool.Contents
    {
      pool.Valid() && pool.active == null
    }

    /** The loop's state as a value: the pool is read through its records' handles. */
    ghost function State(): Session
      reads this, pool
    {
      Session(root, RecordsOf(pool.Contents), downState, start, attr, queue, requests)
    }

    /** The set-up of main (main.c:79, main.c:93): an empty pool created for the root window. */
    constructor (root: Window, queue: seq<XEvent>)
      ensures Valid() && State() == Initial(root, queue) && fresh(pool)
    {
      this.root := root;
      this.queue := queue;
      pool := new ManagedWindowPool();
      downState := Unknown;
      start := ButtonEvent(NoWindow, NoWindow, 0, 0, 0);
      attr := Attr(0, 0, 0, 0);
      requests := [];
    }

    /** The ButtonPress case (main.c:122-158); `a` is the decoration geometry the server reports. */
    method HandleButtonPress(ev: ButtonEvent, a: Attr)
      requires Valid()
      modifies this
      ensures Valid() && State() == AfterPress(old(State()), ev, a)
    {
      if ev.subwindow != NoWindow {
        var mw := pool.Lookup(ev.subwindow);
        if mw == null {
          return;
        }
        attr := a;
        requests := requests + [RaiseWindow(mw.decorationWindow)];
        var x := ev.xRoot - attr.x;
        var y := ev.yRoot - attr.y;
        ClassifyPress(mw.decorationWindow, x, y);
        requests := requests + [GrabPointer(ev.subwindow)];
        start := ev;
      }
    }

    /**
     * The hit tests of a press (main.c:135-148) at (x, y) in the coordinates
     * of the decoration `deco`: the state is reset, then every control hit
     * overrides the earlier ones and is drawn pressed.
     */
    method ClassifyPress(deco: Window, x: int, y: int)
      modifies this`downState, this`requests
      ensures downState == Classify(x, y, attr.width)
      ensures requests == old(requests) + PressDraws(deco, x, y, attr.width)
    {
      downState := Unknown;
      if PointIsInRect(x, y, TitleBarRect(attr.width)) {
        downState := Move;
      }
      if PointIsInRect(x, y, CloseButtonRect()) {
        requests := requests + [DrawButton(deco, CloseButtonDown, CloseButtonRect())];
        downState := Close;
      }
      if PointIsInRect(x, y, MaxRect(attr.width)) {
        requests := requests + [DrawButton(deco, CloseButtonDown, MaxRect(attr.width))];
        downState := Maximize;
      }
    }

    /**
     * XCheckTypedEvent for MotionNotify: the first queued motion event is
     * taken out of the queue and becomes the current sample; with none
     * queued, the queue and the current sample stay as they are.
     */
    method CheckTypedMotion(current: ButtonEvent) returns (found: bool, ev: ButtonEvent)
      modifies this`queue
      ensures var k := FirstMotion(old(queue));
        && (found <==> k < |old(queue)|)
        && (found ==> ev == old(queue)[k].motion && queue == old(queue)[..k] + old(queue)[k + 1..])
        && (!found ==> ev == current && queue == old(queue))
    {
      var i := 0;
      while i < |queue| && !queue[i].MotionNotify?
        invariant 0 <= i <= |queue|
        invariant forall j | 0 <= j < i :: !queue[j].MotionNotify?
      {
        i := i + 1;
      }
      if i < |queue| {
        found, ev := true, queue[i].motion;
        queue := queue[..i] + queue[i + 1..];
      } else {
        found, ev := false, current;
      }
    }

    /** The drain loop (main.c:161): every queued motion event is taken out, the last one is kept. */
    method DrainMotion(current: ButtonEvent) returns (ev: ButtonEvent)
      modifies this`queue
      ensures queue == Drained(old(queue)) && ev == LastMotion(old(queue), current)
    {
      ev := current;
      var found := true;
      while found
        invariant Drained(queue) == Drained(old(queue))
        invariant LastMotion(queue, ev) == LastMotion(old(queue), current)
        invariant !found ==> FirstMotion(queue) == |queue|
        decreases MotionCount(queue) + (if found then 1 else 0)
      {
        if FirstMotion(queue) < |queue| {
          DrainStep(queue, ev);
        }
        found, ev := CheckTypedMotion(ev);
      }
      NoMotionQueued(queue, ev);
    }

    /** The MotionNotify case after the drain (main.c:162-199), for the sample `ev`. */
    method HandleMotion(ev: ButtonEvent)
      modifies this`requests
      ensures State() == AfterMotion(old(State()), ev)
    {
      match downState
      case Move =>
        var xdiff := ev.xRoot - start.xRoot;
        var ydiff := ev.yRoot - start.yRoot;
        requests := requests + [MoveResizeWindow(ev.window,
                                                 attr.x + (if start.button == 1 then xdiff else 0),
                                                 attr.y + (if start.button == 1 then ydiff else 0),
                                                 Max(1, attr.width + (if start.button == 3 then xdiff else 0)),
                                                 Max(1, attr.height + (if start.button == 3 then ydiff else 0)))];
      case Close =>
        var x := ev.xRoot - attr.x;
        var y := ev.yRoot - attr.y;
        if PointIsInRect(x, y, CloseButtonRect()) {
          requests := requests + [DrawButton(ev.window, CloseButtonDown, CloseButtonRect())];
        } else {
          requests := requests + [DrawButton(ev.window, CloseButton, CloseButtonRect())];
        }
      case Maximize =>
        var x := ev.xRoot - attr.x;
        var y := ev.yRoot - attr.y;
        if PointIsInRect(x, y, MaxRect(attr.width)) {
          requests := requests + [DrawButton(ev.window, CloseButtonDown, MaxRect(attr.width))];
        } else {
          requests := requests + [DrawButton(ev.window, MaximizeButton, MaxRect(attr.width))];
        }
      case Unknown =>
    }

    /** unclaimWindow (main.c:62-69). */
    method UnclaimWindow(w: Window)
      requires Valid()
      modifies this`requests, pool, pool.Contents`next
      ensures Valid() && State() == Unclaim(old(State()), w) && fresh(pool.Nodes() - old(pool.Nodes()))
    {
      var mw := pool.Lookup(w);
      if mw != null {
        Discard(mw, FindIndex(RecordsOf(pool.Contents), w));
      }
    }

    /**
     * The body of unclaimWindow for the record `mw` at position k
     * (main.c:64-67): its decoration is unmapped and destroyed, then it is
     * removed from the pool, which hands its back buffer back only when it
     * was the head.
     */
    method Discard(mw: ManagedWindow, ghost k: nat)
      requires Valid() && k < |pool.Contents| && pool.Contents[k] == mw
      modifies this`requests, pool, pool.Contents`next
      ensures Valid() && RecordsOf(pool.Contents) == Cut(old(RecordsOf(pool.Contents)), k)
      ensures requests == old(requests) + [UnmapWindow(mw.decorationWindow), DestroyWindow(mw.decorationWindow)] +
                          (if k == 0 then [DeallocateBackBuffer(mw.decorationBuffer)] else [])
      ensures pool.Nodes() <= old(pool.Nodes())
    {
      RecordsOfUnlinked(pool.Contents, k);
      requests := requests + [UnmapWindow(mw.decorationWindow), DestroyWindow(mw.decorationWindow)];
      var released := pool.RemoveWindow(mw);
      assert released <==> k == 0 by {
        IndexOfDistinct(old(pool.Contents), 0);
      }
      if released {
        requests := requests + [DeallocateBackBuffer(mw.decorationBuffer)];
      }
    }

    /** claimWindow (main.c:42-60), with decorateWindow and addWindowToPool as the headers declare them. */
    method ClaimWindow(w: Window, r: Replies)
      requires Valid()
      modifies this`requests, pool
      ensures Valid() && State() == Claim(old(State()), w, r) && fresh(pool.Nodes() - old(pool.Nodes()))
    {
      var h := r.hints;
      requests := requests + [MoveWindow(w, h.x, h.y), ResizeWindow(w, h.width, h.height)];
      requests := requests + DecorateRequests(w, root, h.x, h.y, h.width, h.height, r.borderWidth, r.decoration, r.resizer);
      requests := requests + [MoveWindow(r.decoration, h.x, h.y)];
      assert requests + [RaiseWindow(r.decoration)] == old(requests) + ClaimRequests(root, w, r);
      ghost var before := pool.Contents;
      var mw := pool.AddWindow(r.decoration, w, r.resizer, r.buffer, r.allocOk);
      if mw != null {
        RecordsOfPrepend(mw, before);
      }
      requests := requests + [RaiseWindow(r.decoration)];
    }

    /** The ButtonRelease case (main.c:201-224). */
    method HandleButtonRelease(ev: ButtonEvent)
      requires Valid()
      modifies this`requests, pool, pool.Contents`next
      ensures Valid() && State() == AfterRelease(old(State()), ev) && fresh(pool.Nodes() - old(pool.Nodes()))
    {
      requests := requests + [UngrabPointer];
      ReleaseControl(ev);
    }

    /** The switch on the held control after the ungrab (main.c:205-222). */
    method ReleaseControl(ev: ButtonEvent)
      requires Valid()
      modifies this`requests, pool, pool.Contents`next
      ensures Valid() && State() == ControlReleased(old(State()), ev) && fresh(pool.Nodes() - old(pool.Nodes()))
    {
      match downState
      case Close =>
        requests := requests + [DrawButton(ev.window, CloseButton, CloseButtonRect())];
        var x := ev.xRoot - attr.x;
        var y := ev.yRoot - attr.y;
        if PointIsInRect(x, y, CloseButtonRect()) {
          UnclaimWindow(ev.window);
        }
      case Maximize =>
        requests := requests + [DrawButton(ev.window, MaximizeButton, MaxRect(attr.width))];
      case _ =>
    }

    /** The MapNotify case (main.c:225-233): only a window the pool does not know is claimed. */
    method HandleMap(w: Window, r: Replies)
      requires Valid()
      modifies this`requests, pool
      ensures Valid() && State() == AfterMap(old(State()), w, r) && fresh(pool.Nodes() - old(pool.Nodes()))
    {
      var mw := pool.Lookup(w);
      if mw == null {
        ClaimWindow(w, r);
      }
    }

    /** The Expose case (main.c:237-241): a window the pool knows is redrawn. */
    method HandleExpose(w: Window)
      requires Valid()
      modifies this`requests
      ensures State() == AfterExpose(old(State()), w)
    {
      var mw := pool.Lookup(w);
      if mw != null {
        requests := requests + [RedrawExposed(w)];
      }
    }

    /** One iteration of the loop (main.c:119-245): XNextEvent, then the case for its kind. */
    method Step(r: Replies)
      requires Valid() && queue != []
      modifies this, pool, pool.Contents`next
      ensures Valid() && State() == AfterEvent(old(State()), r) && fresh(pool.Nodes() - old(pool.Nodes()))
    {
      var e := queue[0];
      queue := queue[1..];
      Dispatch(e, r);
    }

    /** The switch on the kind of the event `e` just taken off the queue (main.c:120-244). */
    method Dispatch(e: XEvent, r: Replies)
      requires Valid()
      modifies this, pool, pool.Contents`next
      ensures Valid() && State() == AfterDispatch(old(State()), e, r) && fresh(pool.Nodes() - old(pool.Nodes()))
    {
      match e
      case ButtonPress(ev) =>
        HandleButtonPress(ev, r.decorationAttr);
      case MotionNotify(ev) =>
        var last := DrainMotion(ev);
        HandleMotion(last);
      case ButtonRelease(ev) =>
        HandleButtonRelease(ev);
      case MapNotify(w) =>
        HandleMap(w, r);
      case DestroyNotify(w) =>
        UnclaimWindow(w);
      case Expose(w) =>
        HandleExpose(w);
      case Unhandled(_) =>
    }

    /** The loop (main.c:117-246), for one reply record per event while events are queued. */
    method Run(rs: seq<Replies>)
      requires Valid()
      modifies this, pool, pool.Contents`next
      ensures Valid() && State() == AfterEvents(old(State()), rs)
    {
      var i := 0;
      while i < |rs| && queue != []
        invariant 0 <= i <= |rs| && Valid()
        invariant AfterEvents(State(), rs[i..]) == AfterEvents(old(State()), rs)
        invariant fresh(pool.Nodes() - old(pool.Nodes()))
      {
        assert rs[i..][1..] == rs[i + 1..];
        Step(rs[i]);
        i := i + 1;
      }
    }
  }
}
