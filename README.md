# classic-wm core in Dafny

A model of the core of classic-wm, a small X11 window manager that frames
client windows in classic-Macintosh style decorations. The model has three parts.

- **The managed-window pool** (`pool.dfy`, module `Pool`; pool.h and pool.c).
  - It is a singly linked list of `ManagedWindow` records. Each record holds a decoration window, a back buffer, a client window, a resize control, the saved geometry `last_*` and `next`.
  - It has a non-owning `active` pointer into the list.
  - The list is modelled as real heap objects linked through `next`. A ghost sequence `Contents` lists the records from the head on.
  - Every pool operation is a method that keeps `Valid()` and states the new `Contents`. The specification is the pure functions `FindIndex` (lookup) and `Unlinked` (removal).
- **Frame geometry and hit testing** (`layout.dfy`, module `Layout`, for decorations.h and `pointIsInRect`; `decorations.dfy`, module `Decorations`, for the arithmetic of decorations.c).
  - The constants and rectangle macros become functions of the decoration's size.
  - Containment and disjointness of the controls are stated over the points that `pointIsInRect` accepts.
  - Also modelled: where `decorateWindow` puts the frame, the client and the resize control; how `drawTitle` fits and centres a title; and the texture-line loop of `drawDecorations`.
- **The event loop of main.c.**
  - `event_loop.dfy`, module `EventLoop`, describes one iteration as a function `AfterEvent` on a value `Session`. A Session holds:
    - the pool's handle records;
    - the `MouseDownState`;
    - the press anchor `start`, and `attr`, the decoration geometry read at the press;
    - the event queue;
    - the trace of requests sent to the server.
  - `manager.dfy`, module `Manager`, runs the same loop imperatively. Its class `WindowManager` uses the linked pool. Every handler is proved to produce exactly the state that the matching `EventLoop` function gives.
  - The lemmas about the loop are stated on the functions, so they hold of the imperative loop too. They cover:
    - hit classification;
    - motion coalescing;
    - the close commit;
    - unique handle resolution across any run;
    - idempotent unclaiming;
    - a claim-press-move-release scenario.

The X server is reduced to values. Window and back-buffer names are opaque numbers. Every request the loop sends is an `XRequest` appended to a trace. Whatever the server answers while one event is handled is a `Replies` record given with that event:

- the decoration's attributes at a press;
- a client's size hints and border width;
- the names of new windows and of the back buffer;
- whether `malloc` succeeded.

`COLLAPSE_BUTTON_ENABLED` is never defined, so the preprocessor reads it as 0. The rectangle lemmas cover both settings. The loop uses the shipped one (`CollapseButtonEnabled == false`: the maximize control takes the rightmost slot).

main.c calls `decorateWindow`, `addWindowToPool`, `removeWindowFromPool` and `drawDecorations` with fewer arguments than decorations.h and pool.h declare. The loop is modelled against the header signatures. The extra handles (display, graphics context, resizer, back buffer) are opaque values.

In these places the model follows what main.c does:

- **Release keeps the state.** A release does not reset `MouseDownState` (main.c:201-224). The state stays what the last accepted press made it.
- **No active record or maximize action.** A press does not mark a window active. main.c never calls `activateWindowInPool`, so `active` stays null during the loop. `Manager.WindowManager.Valid` includes this, and every handler keeps it. Releasing on the maximize control only redraws it; there is no maximize or restore.
- **Motion redraws every sample.** While a control is held, each motion sample redraws that control, not only when the pointer crosses the control's edge.
- **The drain reaches past a release.** The drain loop uses `XCheckTypedEvent` (main.c:161), which removes motion events from anywhere in the queue. Motion queued behind a release or any other event is coalesced too.
- **Lookup ignores the resizer.** The lookup matches a decoration or a client handle, never a resize control (pool.c:86).
- **Back buffers are freed only at the head.** `removeWindowFromPool` frees a record's back buffer only when the record is the head of the list (pool.c:68 against pool.c:76-77). `Pool.ManagedWindowPool.RemoveWindow` reports this as `released`, and `EventLoop.Unclaim` emits `DeallocateBackBuffer` only then.
- **A failed allocation still decorates.** When `addWindowToPool` cannot allocate a record, `claimWindow` has already sent every decoration request. The decoration exists but the pool does not track it (`EventLoop.Claim`).

## Model

| member | source | states |
|---|---|---|
| Pool.ManagedWindow.constructor | pool.c:42-49 | a new record stores the given decoration, client and resize-control handles and the back buffer, links to the given next record, and has all four saved geometry fields 0 |
| Pool.FindIndex | pool.c:83-92 | the position of the first record from the head whose decoration or client handle is the given one, or the list length; every earlier record matches neither handle |
| Pool.IndexOf | pool.c:64-80 | the position of the first occurrence of a record in the list, or the list length if it is absent |
| Pool.CutDistinct | pool.c:76 | cutting one position out of a list without repeated records leaves it without repeats |
| Pool.CutMembers | pool.c:76 | in a list without repeats, cutting position k out removes exactly the record found there and keeps every other one |
| Pool.Unlinked | pool.c:63-81 | removing a record that is not in the list leaves it unchanged; removing one that is shortens it by exactly one |
| Pool.UnlinkedMembers | pool.c:63-81 | in a list without repeated records, unlinking keeps the list free of repeats and keeps exactly the records other than the removed one |
| Pool.UnlinkTwice | pool.c:63-81 | removing the same record a second time is a no-op |
| Pool.IndexOfDistinct | pool.c:72-79 | in a list without repeats, the walk finds a record at its own position |
| Pool.RecordsOfUnlinked | pool.c:72-79 | unlinking the record at position k removes exactly the k-th handle record from the handle view of the list |
| Pool.RecordsOfCut | pool.c:76 | cutting position k out of the list cuts position k out of its handle view |
| Pool.RecordsOfPrepend | pool.c:45-53 | prepending a record prepends its handles to the handle view |
| Pool.ManagedWindowPool.constructor | pool.c:28-33 | a new pool is a valid empty list with a null head and no active record |
| Pool.ManagedWindowPool.AddWindow | pool.c:35-56 | when allocation fails, the result is null and the pool is unchanged; otherwise a fresh record with the given handles and zeroed geometry becomes the head, the old records follow in their order, and `active` is untouched |
| Pool.ManagedWindowPool.Activate | pool.c:58-61 | `active` becomes the lookup result for the handle (null if untracked) and the list is unchanged |
| Pool.ManagedWindowPool.RemoveWindow | pool.c:63-81 | on a non-empty valid list, the list becomes the old list with the record's first occurrence unlinked (unchanged if the record is absent); no record joins the list; `active` is untouched; the back buffer is released exactly when the record was the head |
| Pool.ManagedWindowPool.UnlinkHead | pool.c:66-70 | the second record becomes the head: the list loses exactly its first record and stays well formed |
| Pool.ManagedWindowPool.UnlinkBeyondHead | pool.c:72-80 | when the head is not the record, the walk unlinks the record's first occurrence further on, or leaves the list unchanged if it is absent; `active` is untouched |
| Pool.ManagedWindowPool.UnlinkAfter | pool.c:76 | pointing `last` past its successor cuts exactly that successor's position out of the list, which stays well formed |
| Pool.ManagedWindowPool.Lookup | pool.c:83-92 | the walk from the head returns the record at FindIndex of the handle, or null when no record matches |
| Pool.ManagedWindowPool.Destroy | pool.c:94-103 | on a non-empty list, every record is freed in list order; the model then empties the list in place of the head the C code leaves pointing at freed memory |
| Layout.DerivedConstants | decorations.h:33-45 | control size 11, texture spacing 2 (integer division), horizontal frame 3, vertical frame 21, collapsed height 20 |
| Layout.PointIsInRect | decorations.c:32-37 | a point hits a rectangle iff rx <= px <= rx+rw+1 and ry <= py <= ry+rh+1: both edges are inclusive and the area reaches one pixel past the width and height |
| Layout.TitleBarRect | decorations.h:49 | the title bar's hit area runs from the decoration's top-left corner to its last column, and down to the first row below the title bar |
| Layout.CloseButtonRect | decorations.h:50 | the close box's hit area is a square of TITLEBAR_CONTROL_SIZE + 1 pixels from column 9, row 4 |
| Layout.ResizeButtonRect | decorations.h:51 | the resize control is a RESIZE_CONTROL_SIZE square ending one column right of the given width and on the row of the given height |
| Layout.FirstRightmostButton | decorations.h:55 | the rightmost slot has the close box's size and rows, and its hit area ends ten columns before the decoration's right edge |
| Layout.SecondRightmostButton | decorations.h:56 | the second slot has the close box's size and rows, and its hit area ends six columns before the rightmost slot begins |
| Layout.MaximizeButtonRect | decorations.h:58-63 | maximize has the close box's size and rows; its hit area ends ten columns before the right edge, or 27 when the collapse control exists |
| Layout.CollapseButtonRect | decorations.h:58-59 | the collapse control takes the slot maximize has without it, ending ten columns before the right edge |
| Layout.ControlRects | decorations.h:49-63 | the title bar is (0,0,w-2,18), the close box is (9,4,10,10), the rightmost slot is (w-21,4,10,10), the second slot is (w-38,4,10,10), the resize control is (w-14,h-15,15,15); maximize takes the rightmost slot unless the collapse control exists |
| Layout.CoversIff | decorations.c:32-37 | one rectangle's hit area contains another's iff its one-pixel-extended box contains the other's |
| Layout.OverlapIff | decorations.c:32-37 | two hit areas share a point iff their extended spans meet on both axes |
| Layout.ControlsInsideTitleBar | decorations.h:49-56 | the close box and the rightmost slot lie inside the title bar's hit area iff the width is at least 21; the second slot iff it is at least 38 |
| Layout.ControlsDisjoint | decorations.h:50-56 | the two right-hand slots never share a pixel; once inside the title bar, the close box is clear of the rightmost slot iff width >= 42 and of the second slot iff width >= 59 |
| Layout.MaximizeClearOfOtherControls | decorations.h:58-63 | in the shipped configuration maximize is clear of close from width 42 on; with the collapse control, collapse and maximize never meet |
| Decorations.DecorateLayout | decorations.c:50-70 | the frame is created at the client's position; the client is reparented so that its content starts right of the left border and under the title bar whatever its border width; the resize control ends at the inner edge of the right border; the width handed to drawDecorations is the frame's |
| Decorations.DecorateRequestOrder | decorations.c:57-76 | the decoration is created under the root at the frame geometry, the client is reparented into it and the resize control created inside it before anything is mapped; the resize control is mapped raised, then the decoration mapped; the decoration is drawn focused and the resize control drawn last |
| Decorations.FrameIsClientPlusInsets | decorations.c:57 | the decoration is created at the client's position with the client's size plus the left, right, title-bar and bottom insets |
| Decorations.DrawnSizeMatchesFrame | decorations.c:50-70 | the geometry handed to drawDecorations equals the size of the window that was created |
| Decorations.ClientPlacement | decorations.c:58 | the client's content starts right under the title bar and right of the left edge whatever its border; the client with its border fits inside the frame iff the border is at most one pixel |
| Decorations.ResizerInCorner | decorations.c:61 | the resize control is a 15-pixel square ending flush with the inner right and bottom frame edges; its hit area ends on the frame's last column and row |
| Decorations.PlaceTitle | decorations.c:160-194 | a title is drawn iff the client has a name and the frame is at least 56 pixels wider than the text; the text sits on the baseline TITLEBAR_TEXT_OFFSET |
| Decorations.TitleLayout | decorations.c:181-192 | a drawn title is centred to within one pixel with a 7-pixel margin on each side inside its white box, and the box lies between the close box and the rightmost slot, inside the title bar |
| Decorations.TextureLines | decorations.c:108-114 | an unfocused title bar gets no lines; a focused one gets exactly six lines from x=2 to width-4 at y = 4, 6, ..., 14, all inside the control band and the title bar |
| EventLoop.Initial | main.c:76-79 | the loop starts with an empty pool, an empty trace and the given queue; the press state, uninitialised in the C code, is taken as Unknown |
| EventLoop.Classify | main.c:131-148 | the press state is Maximize iff the point is in the maximize box; Close iff it is in the close box and not the maximize box; Move iff it is on the title bar outside both; Unknown iff it misses all three |
| EventLoop.PressDraws | main.c:140-148 | a press draws one pressed-look control per box it hits: the close box first if hit, the maximize box last if hit, nothing else |
| EventLoop.PressOnWideFrame | main.c:137-148 | on a decoration at least 42 pixels wide, a press in the close box is Close, in the maximize box Maximize, and Unknown exactly off the title bar |
| EventLoop.AfterPress | main.c:122-158 | a press with no subwindow or on an untracked window changes nothing; otherwise it raises the decoration first and grabs the pointer last, with only pressed-look button draws between, keeps the press as anchor with the press-time geometry, classifies the hit, and leaves the pool and queue alone |
| EventLoop.MoveGeometry | main.c:164-171 | with button 1 the window moves by the pointer's cumulative travel since the press at its press-time size; with button 3 it stays put and its width and height are the press-time size plus that travel, or exactly 1 where that sum is below 1; with other buttons it stays at its press-time geometry; returning to the anchor restores the press-time geometry |
| EventLoop.MotionRequests | main.c:163-197 | a sample sends nothing iff the press state is Unknown (no press accepted yet, or the last accepted press missed the title bar and both controls), otherwise one request: while moving, a move-resize of the event's window to MoveGeometry; while close or maximize is held, a redraw of that control on the event's window that looks pressed exactly while the pointer is inside it |
| EventLoop.AfterMotion | main.c:162-199 | a motion sample only appends at most one request and changes nothing else; in the Unknown state it changes nothing; while moving it appends the move-resize to MoveGeometry; while close is held it appends the close box drawn pressed if the pointer is inside it and normal otherwise |
| EventLoop.Drained | main.c:161 | draining never lengthens the queue and leaves no motion event in it |
| EventLoop.DrainWithoutMotion | main.c:161 | a queue without motion events passes through the drain unchanged |
| EventLoop.DrainedKeepsOthers | main.c:161 | the drain discards only motion events: every other queued event survives |
| EventLoop.LastMotion | main.c:161 | the sample the drain leaves is the current one or one of the queued motion samples |
| EventLoop.LastMotionWithoutMotion | main.c:161 | with no motion event queued, the drain keeps the current sample |
| EventLoop.LastMotionIsLast | main.c:161 | the sample kept by the drain is the last queued motion event |
| EventLoop.FirstMotion | main.c:161 | the position of the first queued motion event, with no motion event before it, or the queue length |
| EventLoop.DrainStep | main.c:161 | taking out the first queued motion event leaves what the whole drain produces unchanged and lowers the motion count by one |
| EventLoop.NoMotionQueued | main.c:161 | with no motion event queued, the drain takes nothing and keeps the current sample |
| EventLoop.CoalescingIsSound | main.c:159-200 | handling every sample of a burst changes nothing but the request trace, and the trace ends with exactly the requests the last sample alone would send |
| EventLoop.AfterRelease | main.c:201-224 | a release always first ungrabs the pointer, keeps the press state, anchor and geometry, and leaves the pool alone unless the state is Close; in Move and Unknown the ungrab is the only request; in Close the close box is next drawn in its normal look, before the commit test |
| EventLoop.ControlReleased | main.c:205-222 | the switch on the held control never changes the press state, anchor, geometry or queue |
| EventLoop.Unclaim | main.c:62-69 | unclaiming an untracked handle is a no-op; a tracked one removes one record and only appends requests |
| EventLoop.ClaimRequestOrder | main.c:42-59 | the client is moved and sized to its hints first, then decorated; the decoration is created at the hinted position, moved there again, and raised by the last request |
| EventLoop.Claim | main.c:42-60 | the claim requests are always sent; the new record becomes the head only when allocation succeeds |
| EventLoop.AfterMap | main.c:225-233 | a map of a tracked window is ignored; otherwise the window ends up tracked when allocation succeeds, and the pool is unchanged when it fails |
| EventLoop.AfterExpose | main.c:237-241 | an expose only redraws a tracked window and changes nothing else |
| EventLoop.AfterEvent | main.c:117-246 | each iteration takes at least one event off the queue |
| EventLoop.AfterDispatch | main.c:120-244 | handling an event never lengthens the queue and keeps the root |
| EventLoop.AfterEvents | main.c:117-246 | running the loop never lengthens the queue and keeps the root |
| EventLoop.UniqueResolution | pool.c:83-92 | when no handle belongs to two records, every record's decoration and client handle resolve to exactly that record |
| EventLoop.OnlyMatch | pool.c:83-92 | with unique handles, a handle of record i matches no other record, and lookup returns i |
| EventLoop.UnclaimUntracks | main.c:62-69 | with unique handles, unclaiming leaves the handle untracked, keeps handles unique, and every other handle resolves to the same record as before |
| EventLoop.UniqueCut | pool.c:72-79 | removing one record keeps the handles unique |
| EventLoop.CutKeepsOthers | pool.c:83-92 | with unique handles, removing a record that a handle does not match leaves that handle resolving to the same record |
| EventLoop.UnclaimTwice | main.c:62-69 | unclaiming the same handle twice is the same as once |
| EventLoop.ClaimTracks | main.c:42-60 | claiming an untracked client with an unused decoration name tracks both in the new head record, keeps handles unique, and shifts every earlier handle's position by one |
| EventLoop.EventKeepsUnique | main.c:117-246 | every kind of event keeps the pool's handles unique when the server's new decoration name is unused |
| EventLoop.RunKeepsUnique | main.c:117-246 | over any run with unused decoration names, every handle keeps resolving to exactly one record |
| EventLoop.ReleaseCommitsIff | main.c:206-214 | a release changes the pool iff the state is Close, the pointer is still in the close box and the window is tracked; it then removes one record, and the result is exactly unclaiming the release window after the ungrab and the normal-look redraw |
| EventLoop.ReleaseClosesWindow | main.c:206-214 | with unique handles, a committed close leaves the release window untracked, keeps handles unique and every other handle resolving to its record; when the window was tracked, the requests after the redraw unmap and destroy the decoration of its record |
| EventLoop.MaximizeOnlyRedraws | main.c:184-218 | while maximize is held, a motion only draws the control pressed or normal, and a release only ungrabs and draws it normal: no geometry request is sent |
| EventLoop.ScenarioClaimStep | main.c:225-233 | mapping the scenario's client claims it as the only record |
| EventLoop.ScenarioPressStep | main.c:122-158 | the scenario's press hits the title bar only: it raises, grabs and enters Move |
| EventLoop.ScenarioMotionStep | main.c:159-172 | the scenario's motion sample asks for the decoration at (20,20) at unchanged size |
| EventLoop.MoveScenario | main.c:117-246 | claim a 200x150 client at (10,10), press at (50,15), move to (60,25): the decoration is moved to (20,20); the release only ungrabs and the state stays Move |
| Manager.WindowManager.constructor | main.c:76-79 | the loop starts from the initial session with a fresh, empty pool |
| Manager.WindowManager.HandleButtonPress | main.c:122-158 | the press case leaves exactly the state AfterPress describes |
| Manager.WindowManager.ClassifyPress | main.c:135-148 | the sequence of overriding hit tests yields Classify and draws the pressed controls in order |
| Manager.WindowManager.CheckTypedMotion | main.c:161 | the first queued motion event, if any, is removed and returned; otherwise the queue and the current sample are unchanged |
| Manager.WindowManager.DrainMotion | main.c:161 | the drain loop leaves the queue Drained and returns LastMotion |
| Manager.WindowManager.HandleMotion | main.c:162-199 | the motion case leaves exactly the state AfterMotion describes |
| Manager.WindowManager.UnclaimWindow | main.c:62-69 | the unclaim leaves the state Unclaim describes; no record is added |
| Manager.WindowManager.Discard | main.c:64-67 | for the record at position k, the decoration is unmapped and destroyed, the record's handles are cut out of the pool view at k, the back buffer is handed back exactly when k is 0, and no record is added |
| Manager.WindowManager.ClaimWindow | main.c:42-60 | the claim leaves the state Claim describes; only a fresh record is added |
| Manager.WindowManager.HandleButtonRelease | main.c:201-224 | the release case leaves exactly the state AfterRelease describes |
| Manager.WindowManager.ReleaseControl | main.c:205-222 | the switch on the held control leaves exactly the state ControlReleased describes; no record is added |
| Manager.WindowManager.HandleMap | main.c:225-233 | the map case leaves exactly the state AfterMap describes |
| Manager.WindowManager.HandleExpose | main.c:237-241 | the expose case leaves exactly the state AfterExpose describes |
| Manager.WindowManager.Step | main.c:119-245 | one iteration leaves exactly the state AfterEvent describes |
| Manager.WindowManager.Dispatch | main.c:120-244 | the switch on the event's kind leaves exactly the state AfterDispatch describes |
| Manager.WindowManager.Run | main.c:117-246 | the loop leaves exactly the state AfterEvents describes |

## Left out

- All pixel drawing is reduced to `DrawButton`, `DrawDecorations`, `DrawResizeButton` and `RedrawExposed` requests in the trace, because these are Xlib calls behind static colour and font caches. This covers decorations.c:92-158, 196-267 and the `DRAW_ACTION` double-buffering macro. Only the title placement and the texture loop are kept.
- `drawTitle`'s font loading and text measurement are reduced to an optional text width parameter of `PlaceTitle`, because XLoadQueryFont and XTextWidth are server and font calls.
- Decorations.DecorateRequests: the cursor (`XCreateFontCursor`, `XDefineCursor`) and `XFetchName` are left out, because they do not affect geometry or the pool.
- `undecorateWindow` is left out because nothing in the loop calls it.
- Graphics-context creation and release, `XFlush`, `printPool` and `logError` are left out, because they change no modelled state.
- The Expose case redraws through a `RedrawExposed` request, because its call in main.c:239 does not match any declared signature.
- Process startup (opening the display, the startup traversal that does nothing, event selection, the button grab) and the unreachable shutdown after the loop are left out. The loop starts from a given queue.
- Events that arrive while one is being handled are not modelled: the queue is given up front.
- EventLoop.Initial: `downState`, `start` and `attr` are uninitialised C locals until the first accepted press (main.c:75-77), so a motion or release before any press reads indeterminate values. The model starts them at Unknown and zero values, Unknown being the value every press starts from (main.c:135).
- Manager.WindowManager.Run: it covers a finite prefix of the endless loop, one `Replies` record per event.
- Pool.ManagedWindowPool.Destroy: frees are modelled as the returned sequence of released records, because Dafny has no explicit deallocation. Likewise `RemoveWindow` drops the unlinked record instead of freeing it.
- The Xdbe back-buffer allocation and release are opaque values: a `Replies` field, and a `DeallocateBackBuffer` request.
- EventLoop.MoveGeometry: does not model 32-bit `int` overflow of coordinates. Dafny integers are unbounded and no realistic screen coordinate overflows.
- Pool.ManagedWindow.constructor: the `unsigned int` saved geometry fields are a 32-bit newtype but are only ever zeroed, as in the source.
- The `supplied_return` flags of `XGetWMNormalHints` are ignored: the hints are used whatever the server supplied, as in main.c:46-49.
- The window-placement and resize helpers of window.c are not part of this model. They poll the server and have no self-contained logic.
- Double-click collapse, maximize/restore, collapse toggling, size clamping and a reconcile sweep do not exist in the code, so they are not modelled.
