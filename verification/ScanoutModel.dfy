/**
  The persistent-scanout state machine of the display adapter: one cached host resource and one
  cursor per screen, their backing segments, the id bitmap, and flush back-pressure.  What is sent
  to the host and which pages are locked or cleared is appended to `log`.  The screen mutex keeps
  the operations apart.  Only the DPC runs beside them, and of all it shares with them it touches
  the flush counter alone, which a mode request reads at its gate and writes afterwards: so a
  request is two steps, and every other operation is one.
 */
module ScanoutModel {
  import opened IdAllocator
  import opened HostTrace
  import opened Paging

  const FLUSH_STALL_LIMIT := 60
  const POINTER_SIZE := 128

  /** Address 0 is NULL. */
  datatype Request = Request(screen: nat, width: nat, height: nat, pitch: nat, stride: nat, format: nat, addr: nat,
                             setMode: bool)

  /** An open segment is over user pages at `addr`, or over system memory if `addr` is 0. */
  datatype Segment = Closed | Open(addr: nat, pages: nat)

  datatype Obj = NoObj | Obj(id: nat)

  datatype Screen = Screen(
    modes: seq<(nat, nat)>,
    front: Obj, segment: Segment, srcAddr: nat, width: nat, height: nat, stride: nat,
    cursor: Obj, cursorSegment: Segment,
    flushCount: int, stallCount: nat)

  datatype Adapter = Adapter(screens: seq<Screen>, bits: seq<bool>, log: seq<Cmd>)

  /** What became of a mode request. */
  datatype Verdict = Unlisted | Dropped | Failed | Rebuilt | Flushed

  function Size(r: Request): nat {
    Pages(r.pitch * r.height)
  }

  /** What request validation leaves: no frame is empty. */
  predicate Sane(r: Request) {
    0 < r.pitch && 0 < r.height
  }

  predicate Shape(s: Adapter) {
    |s.screens| == SCREENS && |s.bits| == ID_BITS
  }

  // ---------------------------------------------------------------- building blocks

  function Send(s: Adapter, c: Cmd): Adapter {
    s.(log := s.log + [c])
  }

  function SetScreen(s: Adapter, t: nat, scr: Screen): Adapter
    requires t < |s.screens|
  {
    s.(screens := s.screens[t := scr])
  }

  predicate OnScreen(s: Adapter, p: Place) {
    p.screen < |s.screens|
  }

  function At(s: Adapter, p: Place): Obj {
    if !OnScreen(s, p) then NoObj
    else match p case Frame(t) => s.screens[t].front case Cursor(t) => s.screens[t].cursor
  }

  function SegmentOf(s: Adapter, p: Place): Segment {
    if !OnScreen(s, p) then Closed
    else match p case Frame(t) => s.screens[t].segment case Cursor(t) => s.screens[t].cursorSegment
  }

  function WithObj(s: Adapter, p: Place, o: Obj): Adapter
    requires OnScreen(s, p)
  {
    match p
    case Frame(t) => SetScreen(s, t, s.screens[t].(front := o))
    case Cursor(t) => SetScreen(s, t, s.screens[t].(cursor := o))
  }

  function WithSegment(s: Adapter, p: Place, g: Segment): Adapter
    requires OnScreen(s, p)
  {
    match p
    case Frame(t) => SetScreen(s, t, s.screens[t].(segment := g))
    case Cursor(t) => SetScreen(s, t, s.screens[t].(cursorSegment := g))
  }

  function NextId(s: Adapter): nat {
    var i := FirstClear(s.bits, 0);
    if i < |s.bits| then i else NO_ID
  }

  function TakeId(s: Adapter): Adapter {
    var i := FirstClear(s.bits, 0);
    if i < |s.bits| then s.(bits := s.bits[i := true]) else s
  }

  /** Detach, unref, and only then give the id back. */
  function Destroy(s: Adapter, p: Place): Adapter
    requires OnScreen(s, p)
  {
    match At(s, p)
    case NoObj => s
    case Obj(id) =>
      var gone := Send(Send(WithObj(s, p, NoObj), Detach(id)), Unref(id));
      gone.(bits := if id < |s.bits| then s.bits[id := false] else s.bits)
  }

  function CloseSegment(s: Adapter, p: Place): Adapter
    requires OnScreen(s, p)
  {
    if SegmentOf(s, p).Open? then Send(WithSegment(s, p, Closed), Unlock(p)) else s
  }

  function OpenSegment(s: Adapter, p: Place, addr: nat, pages: nat): Adapter
    requires OnScreen(s, p)
  {
    Send(WithSegment(s, p, Open(addr, pages)), Lock(p))
  }

  // ---------------------------------------------------------------- mode requests

  predicate Listed(scr: Screen, r: Request) {
    (r.width, r.height) in scr.modes
  }

  function WithIdentity(s: Adapter, t: nat, addr: nat, width: nat, height: nat, stride: nat): Adapter
    requires t < |s.screens|
  {
    SetScreen(s, t, s.screens[t].(srcAddr := addr, width := width, height := height, stride := stride))
  }

  function WithFlush(s: Adapter, t: nat, count: int, stall: nat): Adapter
    requires t < |s.screens|
  {
    SetScreen(s, t, s.screens[t].(flushCount := count, stallCount := stall))
  }

  /** The segment under a new front resource: locked user pages, or large enough system memory. */
  function PrepareSegment(s: Adapter, r: Request, lockOk: bool): Adapter
    requires r.screen < |s.screens|
  {
    var p := Frame(r.screen);
    if r.addr != 0 then
      var closed := CloseSegment(s, p);
      if lockOk && Size(r) > 0 then OpenSegment(closed, p, r.addr, Size(r)) else closed
    else
      match s.screens[r.screen].segment
      case Open(_, pages) => if Size(r) > pages then OpenSegment(CloseSegment(s, p), p, 0, Size(r)) else s
      case Closed => s
  }

  predicate SegmentFits(g: Segment, r: Request) {
    g.Open? && Size(r) <= g.pages
  }

  /** The host is given the pages of the whole segment, which may be more than the request needs. */
  function ImageOf(g: Segment, r: Request): Image
    requires g.Open?
  {
    Image(g.addr, r.width, r.height, r.stride, g.pages)
  }

  function CreateFront(s: Adapter, r: Request, lockOk: bool): Adapter
    requires r.screen < |s.screens|
  {
    var t, s1 := r.screen, PrepareSegment(s, r, lockOk);
    if !SegmentFits(s1.screens[t].segment, r) then s1
    else Publish(s1, t, ImageOf(s1.screens[t].segment, r), r.format)
  }

  /** Create, clear the memory, scan out, flush, and only then remember the new front. */
  function Publish(s: Adapter, t: nat, image: Image, format: nat): Adapter
    requires t < |s.screens|
  {
    var id := NextId(s);
    var s0 := Send(Send(TakeId(s), Create(id, Frame(t), image)), Clear(Frame(t)));
    var s1 := Send(Send(s0, SetScanout(t, id, format)), Flush(id, t));
    SetScreen(s1, t, s.screens[t].(front := Obj(id), flushCount := s.screens[t].flushCount + 1))
  }

  /** `m_FlushCount++`. */
  function OneMoreFlush(s: Adapter, t: nat): Adapter
    requires t < |s.screens|
  {
    SetScreen(s, t, s.screens[t].(flushCount := s.screens[t].flushCount + 1))
  }

  function CountedFlush(s: Adapter, t: nat, id: nat): Adapter
    requires t < |s.screens|
  {
    Send(OneMoreFlush(s, t), Flush(id, t))
  }

  /** A flush of the front resource, if there is one. */
  function FlushFront(s: Adapter, t: nat): Adapter
    requires t < |s.screens|
  {
    match s.screens[t].front
    case NoObj => s
    case Obj(id) => CountedFlush(s, t, id)
  }

  function Rebuild(s: Adapter, r: Request, lockOk: bool): Adapter
    requires r.screen < |s.screens|
  {
    var t := r.screen;
    CreateFront(WithIdentity(Destroy(s, Frame(t)), t, r.addr, r.width, r.height, r.stride), r, lockOk)
  }

  predicate BackingChanged(scr: Screen, r: Request) {
    scr.front.NoObj? || scr.srcAddr != r.addr || scr.width != r.width || scr.height != r.height ||
      scr.stride != r.stride
  }

  /** Back-pressure: the screen to go on with, or none when this frame is dropped. */
  datatype Gate = Skip(scr: Screen) | Pass(scr: Screen)

  function Backpressure(scr: Screen, setMode: bool): Gate {
    var cleared := if setMode && scr.flushCount != 0 then scr.(flushCount := 0, stallCount := 0) else scr;
    if cleared.flushCount == 0 then Pass(cleared.(stallCount := 0))
    else if cleared.stallCount + 1 >= FLUSH_STALL_LIMIT then
      Pass(cleared.(flushCount := 0, stallCount := 0, srcAddr := 0))
    else Skip(cleared.(stallCount := cleared.stallCount + 1))
  }

  function SetCurrentMode(s: Adapter, r: Request, lockOk: bool): (Adapter, Verdict)
    requires r.screen < |s.screens|
  {
    var t := r.screen;
    if !Listed(s.screens[t], r) then (s, Unlisted)
    else
      match Backpressure(s.screens[t], r.setMode)
      case Skip(scr) => (SetScreen(s, t, scr), Dropped)
      case Pass(scr) => Work(SetScreen(s, t, scr), r, lockOk)
  }

  /** Past the gate: rebuild, or flush what is there. */
  function Work(s: Adapter, r: Request, lockOk: bool): (Adapter, Verdict)
    requires r.screen < |s.screens|
  {
    var t := r.screen;
    if BackingChanged(s.screens[t], r) then
      var s' := Rebuild(s, r, lockOk);
      (s', if s'.screens[t].front.NoObj? then Failed else Rebuilt)
    else (FlushFront(s, t), Flushed)
  }

  // ---------------------------------------------------------------- the other operations

  function BlackOut(s: Adapter, t: nat): Adapter
    requires t < |s.screens|
  {
    match s.screens[t].front
    case NoObj => s
    case Obj(id) => CountedFlush(Send(s, Transfer(id)), t, id)
  }

  function Release(s: Adapter, t: nat): Adapter
    requires t < |s.screens|
  {
    var closed := CloseSegment(Destroy(Send(s, SetScanout(t, 0, 0)), Frame(t)), Frame(t));
    WithFlush(WithIdentity(closed, t, 0, 0, 0, 0), t, 0, 0)
  }

  /** The DPC handles one completed flush. */
  function Complete(s: Adapter, t: nat): Adapter
    requires t < |s.screens|
  {
    if s.screens[t].flushCount > 0
    then SetScreen(s, t, s.screens[t].(flushCount := s.screens[t].flushCount - 1))
    else s
  }

  function CursorImage(): Image {
    Image(0, POINTER_SIZE, POINTER_SIZE, POINTER_SIZE, Pages(POINTER_SIZE * POINTER_SIZE * 4))
  }

  function SetCursor(s: Adapter, t: nat): Adapter
    requires t < |s.screens|
  {
    var p := Cursor(t);
    var s1 := Destroy(s, p);
    var s2 := if SegmentOf(s1, p).Closed? then OpenSegment(s1, p, 0, CursorImage().pages) else s1;
    var id := NextId(s2);
    Send(WithObj(Send(TakeId(s2), Create(id, p, CursorImage())), p, Obj(id)), MoveCursor(t, id))
  }

  function PointAt(s: Adapter, t: nat): Adapter
    requires t < |s.screens|
  {
    match s.screens[t].cursor
    case NoObj => s
    case Obj(id) => Send(s, MoveCursor(t, id))
  }

  /** Leaving D0: front and cursor of the first `n` screens go, each front followed by a scanout reset. */
  function DestroyAll(s: Adapter, n: nat): Adapter
    requires n <= |s.screens|
    ensures |DestroyAll(s, n).screens| == |s.screens|
  {
    if n == 0 then s
    else
      var s1, t := DestroyAll(s, n - 1), n - 1;
      var s2 := if s1.screens[t].front.NoObj? then s1 else Send(Destroy(s1, Frame(t)), SetScanout(0, 0, 0));
      Destroy(s2, Cursor(t))
  }

  function CloseAll(s: Adapter, n: nat): Adapter
    requires n <= |s.screens|
    ensures |CloseAll(s, n).screens| == |s.screens|
  {
    if n == 0 then s
    else CloseSegment(CloseSegment(CloseAll(s, n - 1), Frame(n - 1)), Cursor(n - 1))
  }

  function Shutdown(s: Adapter): Adapter {
    CloseAll(DestroyAll(s, |s.screens|), |s.screens|)
  }

  // ---------------------------------------------------------------- runs

  datatype Step =
    | Arrive(r: Request)
    | Proceed(lockOk: bool)
    | Blank(t: nat)
    | ReleaseFb(t: nat)
    | FlushDone(t: nat)
    | Pointer(t: nat)
    | Move(t: nat)
    | Hotplug(t: nat, modes: seq<(nat, nat)>)
    | Exit
    | Entry

  /** A request past the gate, under the screen mutex. */
  datatype Call = NoCall | Running(r: Request)

  /**
    The adapter with what is observed of a run, per screen: for each listed request whether it was
    dropped, and how many flushes were answered.
   */
  datatype Sys = Sys(a: Adapter, on: bool, call: Call, drops: seq<seq<bool>>, answered: seq<nat>)

  function ScreenOf(a: Step): nat {
    match a
    case Arrive(r) => r.screen
    case Proceed(_) => 0
    case Exit => 0
    case Entry => 0
    case _ => a.t
  }

  /** The screen mutex keeps the operations apart; the DPC does not take it. */
  predicate Enabled(s: Sys, a: Step)
    requires |s.answered| == SCREENS
  {
    && ScreenOf(a) < SCREENS
    && match a
       case Entry => !s.on
       case Arrive(r) => s.on && s.call.NoCall? && Sane(r)
       case Proceed(_) => s.call.Running?
       case FlushDone(t) => s.on && s.answered[t] < Sent(s.a.log, t)
       case _ => s.on && s.call.NoCall?
  }

  predicate Wide(s: Sys) {
    Shape(s.a) && |s.drops| == |s.answered| == SCREENS && (s.call.Running? ==> s.call.r.screen < SCREENS)
  }

  function DoArrive(s: Sys, r: Request): Sys
    requires Wide(s) && r.screen < SCREENS
  {
    var t := r.screen;
    if !Listed(s.a.screens[t], r) then s
    else
      var gate := Backpressure(s.a.screens[t], r.setMode);
      s.(a := SetScreen(s.a, t, gate.scr), call := if gate.Pass? then Running(r) else NoCall,
         drops := s.drops[t := s.drops[t] + [gate.Skip?]])
  }

  function Next(s: Sys, a: Step): Sys
    requires Wide(s) && Enabled(s, a)
  {
    match a
    case Arrive(r) => DoArrive(s, r)
    case Proceed(lockOk) => s.(a := Work(s.a, s.call.r, lockOk).0, call := NoCall)
    case Blank(t) => s.(a := BlackOut(s.a, t))
    case ReleaseFb(t) => s.(a := Release(s.a, t))
    case FlushDone(t) => s.(a := Complete(s.a, t), answered := s.answered[t := s.answered[t] + 1])
    case Pointer(t) => s.(a := SetCursor(s.a, t))
    case Move(t) => s.(a := PointAt(s.a, t))
    case Hotplug(t, modes) => s.(a := SetScreen(s.a, t, s.a.screens[t].(modes := modes)))
    case Exit => s.(a := Shutdown(s.a), on := false)
    case Entry => s.(on := true)
  }
}
