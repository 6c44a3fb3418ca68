/**
  What the scanout machine promises over every run: resource and page lifetimes the host accepts,
  a cached scanout that shows what a rebuild would, and back-pressure that never wedges.
 */
module ScanoutTheorems {
  import opened Common
  import opened IdAllocator
  import opened HostTrace
  import opened Paging
  import opened ScanoutModel
  import opened ScanoutProofs

  // ---------------------------------------------------------------- runs

  /** Frames dropped in a row at the end of a history. */
  function TrailingDrops(v: seq<bool>): nat {
    if v == [] || !v[|v| - 1] then 0 else 1 + TrailingDrops(v[..|v| - 1])
  }

  ghost predicate FlushOk(s: Sys, t: nat)
    requires Wide(s) && t < SCREENS
  {
    0 <= s.a.screens[t].flushCount <= Sent(s.a.log, t) - s.answered[t]
  }

  ghost predicate StallOk(scr: Screen, v: seq<bool>) {
    && scr.stallCount < FLUSH_STALL_LIMIT
    && (forall n | 0 <= n <= |v| :: TrailingDrops(v[..n]) < FLUSH_STALL_LIMIT)
    && (TrailingDrops(v) == scr.stallCount || (scr.flushCount == 0 && scr.front.NoObj?))
  }

  /** A request past the gate found nothing pending, or stopped waiting for it. */
  ghost predicate CallOk(s: Sys)
    requires Wide(s)
  {
    s.call.Running? ==>
      var t := s.call.r.screen;
      && s.a.screens[t].flushCount == s.a.screens[t].stallCount == TrailingDrops(s.drops[t]) == 0
      && s.on && Sane(s.call.r)
  }

  ghost predicate SysInv(s: Sys) {
    && Wide(s) && Inv(s.a) && CallOk(s)
    && (forall t | 0 <= t < SCREENS :: FlushOk(s, t) && StallOk(s.a.screens[t], s.drops[t]))
  }

  /** An adapter just started: all segments over locked system memory, nothing shown. */
  function Init(pages: nat, modes: seq<seq<(nat, nat)>>): Sys
    requires |modes| == SCREENS
  {
    Sys(Adapter(seq(SCREENS, t requires 0 <= t < SCREENS =>
                  Screen(modes[t], NoObj, Open(0, pages), 0, 0, 0, 0, NoObj, Open(0, CursorImage().pages), 0, 0)),
                seq(ID_BITS, i => i == 0), []),
        true, NoCall, seq(SCREENS, _ => []), seq(SCREENS, _ => 0))
  }

  lemma InitInv(pages: nat, modes: seq<seq<(nat, nat)>>)
    requires |modes| == SCREENS
    ensures SysInv(Init(pages, modes))
  {
    var s := Init(pages, modes);
    forall p
      ensures p in Places() <==> SegmentOf(s.a, p).Open?
    {
      match p case Frame(t) => case Cursor(t) =>
    }
  }

  // ---------------------------------------------------------------- counting flushes

  /** The counter grows by no more than the flushes sent, on every screen. */
  ghost predicate Counted(s: Adapter, s': Adapter) {
    && |s'.screens| == |s.screens|
    && forall x | 0 <= x < |s.screens| ::
         && Sent(s.log, x) <= Sent(s'.log, x)
         && (0 <= s.screens[x].flushCount ==>
               0 <= s'.screens[x].flushCount <= s.screens[x].flushCount + Sent(s'.log, x) - Sent(s.log, x))
  }

  /** Stall counters stay, and a screen with nothing shown and nothing pending stays so. */
  ghost predicate Calm(s: Adapter, s': Adapter) {
    && |s'.screens| == |s.screens|
    && forall x | 0 <= x < |s.screens| ::
         && s'.screens[x].stallCount == s.screens[x].stallCount
         && (s.screens[x].flushCount == 0 && s.screens[x].front.NoObj? ==>
               s'.screens[x].flushCount == 0 && s'.screens[x].front.NoObj?)
  }

  lemma SendCounts(s: Adapter, c: Cmd)
    ensures Counted(s, Send(s, c))
    ensures (c.Flush? ==> forall x :: Sent(Send(s, c).log, x) == Sent(s.log, x) + if x == c.screen then 1 else 0)
  {
    forall x
      ensures Sent(s.log + [c], x) == Sent(s.log, x) + if c.Flush? && c.screen == x then 1 else 0
    {
      SentSend(s.log, c, x);
    }
  }

  lemma DestroyCounts(s: Adapter, p: Place)
    requires OnScreen(s, p)
    ensures Counted(s, Destroy(s, p)) && Calm(s, Destroy(s, p))
  {
    if At(s, p).Obj? {
      var s1 := Send(WithObj(s, p, NoObj), Detach(At(s, p).id));
      SendCounts(WithObj(s, p, NoObj), Detach(At(s, p).id));
      SendCounts(s1, Unref(At(s, p).id));
    }
  }

  lemma Then(a: Adapter, b: Adapter, c: Adapter)
    requires Counted(a, b) && Counted(b, c)
    ensures Counted(a, c)
    ensures Calm(a, b) && Calm(b, c) ==> Calm(a, c)
  {
  }

  lemma SegmentCounts(s: Adapter, p: Place, g: Segment, c: Cmd)
    requires OnScreen(s, p) && !c.Flush?
    ensures Counted(s, Send(WithSegment(s, p, g), c)) && Calm(s, Send(WithSegment(s, p, g), c))
  {
    var s1 := WithSegment(s, p, g);
    assert s1.log == s.log && |s1.screens| == |s.screens|;
    assert forall x | 0 <= x < |s.screens| ::
        && s1.screens[x].flushCount == s.screens[x].flushCount && s1.screens[x].stallCount == s.screens[x].stallCount
        && s1.screens[x].front == s.screens[x].front;
    SendCounts(s1, c);
  }

  lemma CloseCounts(s: Adapter, p: Place)
    requires OnScreen(s, p)
    ensures Counted(s, CloseSegment(s, p)) && Calm(s, CloseSegment(s, p))
  {
    SegmentCounts(s, p, Closed, Unlock(p));
  }

  lemma OpenCounts(s: Adapter, p: Place, addr: nat, pages: nat)
    requires OnScreen(s, p)
    ensures Counted(s, OpenSegment(s, p, addr, pages)) && Calm(s, OpenSegment(s, p, addr, pages))
  {
    SegmentCounts(s, p, Open(addr, pages), Lock(p));
  }

  lemma FlushCounts(s: Adapter, t: nat, id: nat)
    requires t < |s.screens|
    ensures Counted(s, CountedFlush(s, t, id))
  {
    SendCounts(SetScreen(s, t, s.screens[t].(flushCount := s.screens[t].flushCount + 1)), Flush(id, t));
  }

  lemma PublishCounts(s: Adapter, t: nat, image: Image, format: nat)
    requires t < |s.screens|
    ensures Counted(s, Publish(s, t, image, format))
  {
    var id, s0 := NextId(s), TakeId(s);
    var s1 := Send(s0, Create(id, Frame(t), image));
    var s2 := Send(s1, Clear(Frame(t)));
    var s3 := Send(s2, SetScanout(t, id, format));
    SendCounts(s0, Create(id, Frame(t), image));
    SendCounts(s1, Clear(Frame(t)));
    SendCounts(s2, SetScanout(t, id, format));
    SendCounts(s3, Flush(id, t));
  }

  lemma ReopenCounts(s: Adapter, p: Place, addr: nat, pages: nat)
    requires OnScreen(s, p)
    ensures OnScreen(CloseSegment(s, p), p)
    ensures var s' := OpenSegment(CloseSegment(s, p), p, addr, pages); Counted(s, s') && Calm(s, s')
  {
    var closed := CloseSegment(s, p);
    CloseCounts(s, p);
    OpenCounts(closed, p, addr, pages);
    hide OpenSegment, CloseSegment;
    Then(s, closed, OpenSegment(closed, p, addr, pages));
  }

  lemma PrepareCounts(s: Adapter, r: Request, lockOk: bool)
    requires r.screen < |s.screens|
    ensures Counted(s, PrepareSegment(s, r, lockOk)) && Calm(s, PrepareSegment(s, r, lockOk))
  {
    var p := Frame(r.screen);
    CloseCounts(s, p);
    ReopenCounts(s, p, r.addr, Size(r));
    ReopenCounts(s, p, 0, Size(r));
    hide OpenSegment, CloseSegment;
  }

  lemma RebuildCounts(s: Adapter, r: Request, lockOk: bool)
    requires r.screen < |s.screens|
    ensures Counted(s, Rebuild(s, r, lockOk))
    ensures Rebuild(s, r, lockOk).screens[r.screen].stallCount == s.screens[r.screen].stallCount
  {
    var t := r.screen;
    var s1 := Destroy(s, Frame(t));
    var s2 := WithIdentity(s1, t, r.addr, r.width, r.height, r.stride);
    var s3 := PrepareSegment(s2, r, lockOk);
    DestroyCounts(s, Frame(t));
    PrepareCounts(s2, r, lockOk);
    if SegmentFits(s3.screens[t].segment, r) {
      PublishCounts(s3, t, ImageOf(s3.screens[t].segment, r), r.format);
    }
  }

  /** Only screen `t` changes. */
  ghost predicate Only(s: Adapter, s': Adapter, t: nat) {
    |s'.screens| == |s.screens| && forall x | 0 <= x < |s.screens| && x != t :: s'.screens[x] == s.screens[x]
  }

  lemma RebuildOnly(s: Adapter, r: Request, lockOk: bool)
    requires r.screen < |s.screens|
    ensures Only(s, Rebuild(s, r, lockOk), r.screen)
  {
    var t, p := r.screen, Frame(r.screen);
    var s1 := WithIdentity(Destroy(s, p), t, r.addr, r.width, r.height, r.stride);
    assert Only(s, s1, t) && OnScreen(s1, p);
    var s2 := PrepareSegment(s1, r, lockOk);
    assert Only(s1, s2, t) by {
      assert Only(s1, CloseSegment(s1, p), t);
    }
    assert Only(s2, CreateFront(s1, r, lockOk), t);
  }

  /** A request past the gate touches its own screen only, and leaves its stall counter alone. */
  lemma WorkCounts(s: Adapter, r: Request, lockOk: bool)
    requires r.screen < |s.screens|
    ensures var s' := Work(s, r, lockOk).0;
            && Counted(s, s') && Only(s, s', r.screen)
            && s'.screens[r.screen].stallCount == s.screens[r.screen].stallCount
  {
    if BackingChanged(s.screens[r.screen], r) {
      RebuildCounts(s, r, lockOk);
      RebuildOnly(s, r, lockOk);
    } else {
      FlushCounts(s, r.screen, s.screens[r.screen].front.id);
    }
  }

  lemma NewCursorCounts(s: Adapter, t: nat)
    requires t < |s.screens|
    ensures var id, p := NextId(s), Cursor(t);
            var s' := Send(WithObj(Send(TakeId(s), Create(id, p, CursorImage())), p, Obj(id)), MoveCursor(t, id));
            Counted(s, s') && Calm(s, s')
  {
    var id, p := NextId(s), Cursor(t);
    var s1 := Send(TakeId(s), Create(id, p, CursorImage()));
    SendCounts(TakeId(s), Create(id, p, CursorImage()));
    SendCounts(WithObj(s1, p, Obj(id)), MoveCursor(t, id));
  }

  lemma CursorCounts(s: Adapter, t: nat)
    requires t < |s.screens|
    ensures Counted(s, SetCursor(s, t)) && Calm(s, SetCursor(s, t))
  {
    var p := Cursor(t);
    var s1 := Destroy(s, p);
    DestroyCounts(s, p);
    OpenCounts(s1, p, 0, CursorImage().pages);
    var s2 := if SegmentOf(s1, p).Closed? then OpenSegment(s1, p, 0, CursorImage().pages) else s1;
    Then(s, s1, s2);
    NewCursorCounts(s2, t);
    Then(s, s2, SetCursor(s, t));
  }

  lemma {:induction false} ShutdownCounts(s: Adapter, n: nat)
    requires n <= |s.screens|
    ensures Counted(s, DestroyAll(s, n)) && Calm(s, DestroyAll(s, n))
    ensures Counted(s, CloseAll(s, n)) && Calm(s, CloseAll(s, n))
  {
    if n > 0 {
      ShutdownCounts(s, n - 1);
      var d := DestroyAll(s, n - 1);
      DestroyRoundCounts(d, n - 1);
      assert DestroyAll(s, n) == DestroyScreen(d, n - 1);
      Then(s, d, DestroyAll(s, n));
      var c := CloseAll(s, n - 1);
      CloseRoundCounts(c, n - 1);
      Then(s, c, CloseAll(s, n));
    }
  }

  lemma CloseRoundCounts(s: Adapter, t: nat)
    requires t < |s.screens|
    ensures var s' := CloseSegment(CloseSegment(s, Frame(t)), Cursor(t)); Counted(s, s') && Calm(s, s')
  {
    var s1 := CloseSegment(s, Frame(t));
    CloseCounts(s, Frame(t));
    CloseCounts(s1, Cursor(t));
    Then(s, s1, CloseSegment(s1, Cursor(t)));
  }

  lemma DestroyRoundCounts(s: Adapter, t: nat)
    requires t < |s.screens|
    ensures Counted(s, DestroyScreen(s, t)) && Calm(s, DestroyScreen(s, t))
  {
    DestroyCounts(s, Frame(t));
    SendCounts(Destroy(s, Frame(t)), SetScanout(0, 0, 0));
    DestroyCounts(if s.screens[t].front.NoObj? then s else Send(Destroy(s, Frame(t)), SetScanout(0, 0, 0)), Cursor(t));
  }

  lemma ReleaseCounts(s: Adapter, t: nat)
    requires t < |s.screens|
    ensures Counted(s, Release(s, t)) && Only(s, Release(s, t), t)
    ensures var n := Release(s, t).screens[t]; n.flushCount == 0 && n.stallCount == 0 && n.front.NoObj?
  {
    var p, s1 := Frame(t), Send(s, SetScanout(t, 0, 0));
    var s2 := Destroy(s1, p);
    var s3 := CloseSegment(s2, p);
    SendCounts(s, SetScanout(t, 0, 0));
    DestroyCounts(s1, p);
    CloseCounts(s2, p);
    assert Only(s, s1, t) && Only(s1, s2, t) && Only(s2, s3, t) && s2.screens[t].front.NoObj? &&
      s3.screens[t].front.NoObj?;
    hide Destroy, CloseSegment;
    Then(s, s1, s2);
    Then(s, s2, s3);
    ForgetCounts(s3, t);
    Then(s, s3, Release(s, t));
  }

  lemma ForgetCounts(s: Adapter, t: nat)
    requires t < |s.screens|
    ensures var s' := WithFlush(WithIdentity(s, t, 0, 0, 0, 0), t, 0, 0);
            && Counted(s, s') && Only(s, s', t)
            && s'.screens[t].flushCount == 0 && s'.screens[t].stallCount == 0 &&
              s'.screens[t].front == s.screens[t].front
  {
  }

  // ---------------------------------------------------------------- the invariant

  lemma DropAppend(v: seq<bool>, w: bool)
    requires forall n | 0 <= n <= |v| :: TrailingDrops(v[..n]) < FLUSH_STALL_LIMIT
    requires w ==> TrailingDrops(v) + 1 < FLUSH_STALL_LIMIT
    ensures TrailingDrops(v + [w]) == if w then TrailingDrops(v) + 1 else 0
    ensures forall n | 0 <= n <= |v| + 1 :: TrailingDrops((v + [w])[..n]) < FLUSH_STALL_LIMIT
  {
    assert (v + [w])[..|v|] == v && (v + [w])[..|v| + 1] == v + [w];
    forall n | 0 <= n <= |v|
      ensures TrailingDrops((v + [w])[..n]) < FLUSH_STALL_LIMIT
    {
      assert (v + [w])[..n] == v[..n];
    }
  }

  lemma GateStallOk(scr: Screen, setMode: bool, v: seq<bool>)
    requires StallOk(scr, v)
    ensures var gate := Backpressure(scr, setMode); StallOk(gate.scr, v + [gate.Skip?])
  {
    assert v[..|v|] == v;
    DropAppend(v, Backpressure(scr, setMode).Skip?);
  }

  lemma ArriveSys(s: Sys, r: Request)
    requires SysInv(s) && Enabled(s, Arrive(r))
    ensures SysInv(Next(s, Arrive(r)))
  {
    var t := r.screen;
    var gate := Backpressure(s.a.screens[t], r.setMode);
    ScreenKeeps(s.a, t, gate.scr);
    GateStallOk(s.a.screens[t], r.setMode, s.drops[t]);
    var s' := Next(s, Arrive(r));
    forall x | 0 <= x < SCREENS
      ensures FlushOk(s', x) && StallOk(s'.a.screens[x], s'.drops[x])
    {
      assert FlushOk(s, x) && StallOk(s.a.screens[x], s.drops[x]);
    }
  }

  lemma ProceedSys(s: Sys, lockOk: bool)
    requires SysInv(s) && Enabled(s, Proceed(lockOk))
    ensures SysInv(Next(s, Proceed(lockOk)))
  {
    var r, s' := s.call.r, Next(s, Proceed(lockOk));
    WorkKeeps(s.a, r, lockOk);
    WorkCounts(s.a, r, lockOk);
    forall x | 0 <= x < SCREENS
      ensures FlushOk(s', x) && StallOk(s'.a.screens[x], s'.drops[x])
    {
      assert FlushOk(s, x) && StallOk(s.a.screens[x], s.drops[x]);
    }
  }

  /** Any step that is calm and counted keeps the per-screen promises. */
  lemma CalmSys(s: Sys, s': Sys)
    requires SysInv(s) && s.call.NoCall? && s' == s.(a := s'.a, on := s'.on)
    requires Inv(s'.a) && Counted(s.a, s'.a) && Calm(s.a, s'.a)
    ensures SysInv(s')
  {
    forall x | 0 <= x < SCREENS
      ensures FlushOk(s', x) && StallOk(s'.a.screens[x], s'.drops[x])
    {
      assert FlushOk(s, x) && StallOk(s.a.screens[x], s.drops[x]);
    }
  }

  lemma ReleaseSys(s: Sys, t: nat)
    requires SysInv(s) && Enabled(s, ReleaseFb(t))
    ensures SysInv(Next(s, ReleaseFb(t)))
  {
    var s' := Next(s, ReleaseFb(t));
    ReleaseKeeps(s.a, t);
    ReleaseCounts(s.a, t);
    forall x | 0 <= x < SCREENS
      ensures FlushOk(s', x) && StallOk(s'.a.screens[x], s'.drops[x])
    {
      assert FlushOk(s, x) && StallOk(s.a.screens[x], s.drops[x]);
      assert s.drops[x][..|s.drops[x]|] == s.drops[x];
    }
  }

  lemma FlushDoneSys(s: Sys, t: nat)
    requires SysInv(s) && Enabled(s, FlushDone(t))
    ensures SysInv(Next(s, FlushDone(t)))
  {
    var s' := Next(s, FlushDone(t));
    if s.a.screens[t].flushCount > 0 {
      ScreenKeeps(s.a, t, s.a.screens[t].(flushCount := s.a.screens[t].flushCount - 1));
    }
    forall x | 0 <= x < SCREENS
      ensures FlushOk(s', x) && StallOk(s'.a.screens[x], s'.drops[x])
    {
      assert FlushOk(s, x) && StallOk(s.a.screens[x], s.drops[x]);
    }
  }

  lemma ExitSys(s: Sys)
    requires SysInv(s) && s.call.NoCall?
    ensures SysInv(s.(a := Shutdown(s.a), on := false))
  {
    ShutdownKeeps(s.a);
    ShutdownCounts(s.a, SCREENS);
    ShutdownCounts(DestroyAll(s.a, SCREENS), SCREENS);
    CalmSys(s, s.(a := Shutdown(s.a), on := false));
  }

  lemma BlankSys(s: Sys, t: nat)
    requires SysInv(s) && Enabled(s, Blank(t))
    ensures SysInv(Next(s, Blank(t)))
  {
    BlackOutKeeps(s.a, t);
    if s.a.screens[t].front.Obj? {
      var id := s.a.screens[t].front.id;
      SendCounts(s.a, Transfer(id));
      FlushCounts(Send(s.a, Transfer(id)), t, id);
    }
    CalmSys(s, Next(s, Blank(t)));
  }

  lemma StepKeepsInv(s: Sys, a: Step)
    requires SysInv(s) && Enabled(s, a)
    ensures SysInv(Next(s, a))
  {
    match a
    case Arrive(r) => ArriveSys(s, r);
    case Proceed(lockOk) => ProceedSys(s, lockOk);
    case Blank(t) => BlankSys(s, t);
    case ReleaseFb(t) => ReleaseSys(s, t);
    case FlushDone(t) => FlushDoneSys(s, t);
    case Pointer(t) =>
      SetCursorKeeps(s.a, t);
      CursorCounts(s.a, t);
      CalmSys(s, Next(s, a));
    case Move(t) =>
      PointAtKeeps(s.a, t);
      if s.a.screens[t].cursor.Obj? {
        SendCounts(s.a, MoveCursor(t, s.a.screens[t].cursor.id));
      }
      CalmSys(s, Next(s, a));
    case Hotplug(t, modes) =>
      ScreenKeeps(s.a, t, s.a.screens[t].(modes := modes));
      CalmSys(s, Next(s, a));
    case Exit => ExitSys(s);
    case Entry => CalmSys(s, Next(s, a));
  }

  ghost predicate Run(s: Sys, steps: seq<Step>, t: Sys)
    requires SysInv(s)
    decreases |steps|
  {
    if steps == [] then s == t
    else Enabled(s, steps[0]) && (StepKeepsInv(s, steps[0]); Run(Next(s, steps[0]), steps[1..], t))
  }

  lemma {:induction false} RunKeepsInv(s: Sys, steps: seq<Step>, t: Sys)
    requires SysInv(s) && Run(s, steps, t)
    ensures SysInv(t)
    decreases |steps|
  {
    if steps != [] {
      StepKeepsInv(s, steps[0]);
      RunKeepsInv(Next(s, steps[0]), steps[1..], t);
    }
  }

  ghost predicate Reachable(t: Sys) {
    exists pages: nat, modes: seq<seq<(nat, nat)>>, steps ::
      |modes| == SCREENS && (InitInv(pages, modes); Run(Init(pages, modes), steps, t))
  }

  lemma ReachableInv(t: Sys)
    requires Reachable(t)
    ensures SysInv(t)
  {
    var pages: nat, modes: seq<seq<(nat, nat)>>, steps :|
      |modes| == SCREENS && (InitInv(pages, modes); Run(Init(pages, modes), steps, t));
    InitInv(pages, modes);
    RunKeepsInv(Init(pages, modes), steps, t);
  }

  // ---------------------------------------------------------------- resources and pages

  /**
    In every run, at every instant, the host accepts the driver's traffic: each id follows
    (create, use*, detach, unref)*, is recycled only after unref, and no page is unlocked under a
    resource attached to it.
   */
  lemma TrafficAccepted(s: Sys, n: nat, id: nat)
    requires Reachable(s) && n <= |s.a.log| && id != 0
    ensures Replay(s.a.log[..n]).Fine? && Lifecycle(About(s.a.log[..n], id)).0
  {
    ReachableInv(s);
    ReplayPrefix(s.a.log, n);
    AcceptedLifecycle(s.a.log[..n], id);
  }

  /** Live objects have distinct non-zero ids, and each lies over locked pages. */
  lemma LiveObjects(s: Sys, p: Place, q: Place)
    requires Reachable(s) && At(s.a, p).Obj?
    ensures 0 < At(s.a, p).id < ID_BITS && SegmentOf(s.a, p).Open?
    ensures At(s.a, q) == At(s.a, p) ==> q == p
    ensures Replay(s.a.log).Fine? && p in Replay(s.a.log).h.locked && Usable(Replay(s.a.log).h, At(s.a, p).id)
  {
    ReachableInv(s);
    var h := Replay(s.a.log).h;
    assert Owns(s.a, p, At(s.a, p).id);
    if At(s.a, q) == At(s.a, p) {
      assert Owns(s.a, q, At(s.a, p).id);
    }
  }

  /** The allocator never runs out: the next id is at most nine. */
  lemma IdsSuffice(s: Sys)
    requires Reachable(s)
    ensures 0 < NextId(s.a) <= 9 && NextId(s.a) < |s.a.bits| && !s.a.bits[NextId(s.a)]
  {
    ReachableInv(s);
    IdAvailable(s.a, Replay(s.a.log).h);
  }

  /** Leaving D0 takes every resource back from the host and unlocks every page. */
  lemma ExitLeavesNothing(s: Sys)
    requires Reachable(s) && s.on && s.call.NoCall?
    ensures |s.answered| == SCREENS && Wide(s) && Enabled(s, Exit)
    ensures var log := Next(s, Exit).a.log;
            Replay(log).Fine? && Replay(log).h.res == map[] && Replay(log).h.locked == {}
  {
    ReachableInv(s);
    ShutdownKeeps(s.a);
  }

  // ---------------------------------------------------------------- the cached scanout

  lemma ShowsUnique(s: Adapter, t: nat, i: Image, f: nat, i': Image, f': nat)
    requires Shows(s, t, i, f)
    ensures Shows(s, t, i', f') <==> i' == i && f' == f
  {
  }

  lemma FlushShowsSame(s: Adapter, t: nat, i: Image, f: nat)
    requires t < |s.screens| && Shows(s, t, i, f) && s.screens[t].front.Obj?
    requires Usable(Replay(s.log).h, s.screens[t].front.id)
    ensures Shows(FlushFront(s, t), t, i, f)
  {
    ReplaySend(s.log, Flush(s.screens[t].front.id, t));
  }

  /** What a screen with a front resource shows. */
  lemma FrontShows(s: Adapter, t: nat) returns (i: Image, f: nat)
    requires Inv(s) && t < SCREENS && s.screens[t].front.Obj?
    ensures Shows(s, t, i, f) && Remembers(s.screens[t], i) && Backed(s.screens[t].segment, i)
    ensures Usable(Replay(s.log).h, s.screens[t].front.id)
  {
    var h, id := Replay(s.log).h, s.screens[t].front.id;
    assert FrontOk(s, h, t);
    assert Owns(s, Frame(t), id);
    i, f := h.res[id].image, h.shown[t].1;
  }

  /**
    Whenever a present reaches the host, what the host then shows on the screen was built from
    exactly the requested address, width, height and stride, rebuilt or reused.
   */
  lemma PresentShowsRequest(s: Sys, lockOk: bool) returns (i: Image, f: nat)
    requires Reachable(s) && Wide(s) && s.call.Running? && s.call.r.addr != 0
    requires !Work(s.a, s.call.r, lockOk).1.Failed?
    ensures var r, a := s.call.r, Next(s, Proceed(lockOk)).a;
            Shows(a, r.screen, i, f) && i == Image(r.addr, r.width, r.height, r.stride, i.pages)
    ensures Work(s.a, s.call.r, lockOk).1.Rebuilt? ==> i.pages == Size(s.call.r) && f == s.call.r.format
  {
    ReachableInv(s);
    var r, t := s.call.r, s.call.r.screen;
    if BackingChanged(s.a.screens[t], r) {
      RebuildKeeps(s.a, r, lockOk);
      i, f := Image(r.addr, r.width, r.height, r.stride, Size(r)), r.format;
    } else {
      i, f := FrontShows(s.a, t);
      FlushShowsSame(s.a, t, i, f);
    }
  }

  /** The segment a rebuild leaves. */
  function NewSegment(g: Segment, r: Request): Segment {
    if r.addr != 0 then Open(r.addr, Size(r))
    else if g.Open? && Size(r) > g.pages then Open(0, Size(r)) else g
  }

  /** A rebuild over user pages, or over the segment already there. */
  lemma RebuildShows(s: Adapter, r: Request)
    requires Inv(s) && r.screen < SCREENS && Sane(r) && (r.addr != 0 || s.screens[r.screen].segment.Open?)
    ensures var g := NewSegment(s.screens[r.screen].segment, r);
            g.Open? && Shows(Rebuild(s, r, true), r.screen, ImageOf(g, r), r.format)
  {
    var t, p := r.screen, Frame(r.screen);
    var s1 := Destroy(s, p);
    DestroyKeeps(s, p);
    assert s1.screens[t].front.NoObj? && s1.screens[t].segment == s.screens[t].segment;
    var s2 := WithIdentity(s1, t, r.addr, r.width, r.height, r.stride);
    ScreenKeeps(s1, t, s2.screens[t]);
    PrepareKeeps(s2, r, true);
    SizePositive(r);
    var s3 := PrepareSegment(s2, r, true);
    PublishKeeps(s3, t, ImageOf(s3.screens[t].segment, r), r.format);
  }

  lemma SizePositive(r: Request)
    requires Sane(r)
    ensures Size(r) > 0
  {
    assert r.pitch * r.height >= 1;
  }

  ghost predicate SameShown(a: Adapter, b: Adapter, t: nat) {
    forall i, f :: Shows(a, t, i, f) <==> Shows(b, t, i, f)
  }

  /** The memory a request shows is not the one the present resource was built from. */
  predicate NeedsPages(r: Request, was: Image) {
    if r.addr != 0 then Size(r) != was.pages else Size(r) > was.pages
  }

  /**
    Past the gate, reusing the resource has the host show the same memory, in the same way, as
    rebuilding would, if and only if this request is rebuilt anyway or neither pages nor pixel
    format changed, which are not compared.  A request without an address shows the segment as it
    is, unless that is too small.
   */
  lemma CachedAgreesIff(s: Adapter, r: Request, was: Image, wasFormat: nat)
    requires Inv(s) && r.screen < SCREENS && Sane(r)
    requires s.screens[r.screen].front.Obj? ==> Shows(s, r.screen, was, wasFormat)
    ensures SameShown(Work(s, r, true).0, Rebuild(s, r, true), r.screen) <==>
            BackingChanged(s.screens[r.screen], r) || (!NeedsPages(r, was) && wasFormat == r.format)
  {
    var t := r.screen;
    if !BackingChanged(s.screens[t], r) {
      var i, f := FrontShows(s, t);
      ShowsUnique(s, t, i, f, was, wasFormat);
      FlushShowsSame(s, t, i, f);
      RebuildShows(s, r);
      var i' := ImageOf(NewSegment(s.screens[t].segment, r), r);
      SameIff(FlushFront(s, t), Rebuild(s, r, true), t, i, f, i', r.format);
    }
  }

  lemma SameIff(a: Adapter, b: Adapter, t: nat, i: Image, f: nat, i': Image, f': nat)
    requires Shows(a, t, i, f) && Shows(b, t, i', f')
    ensures SameShown(a, b, t) <==> i == i' && f == f'
  {
    forall x, y
      ensures Shows(a, t, x, y) <==> x == i && y == f
      ensures Shows(b, t, x, y) <==> x == i' && y == f'
    {
      ShowsUnique(a, t, i, f, x, y);
      ShowsUnique(b, t, i', f', x, y);
    }
  }

  /** The frame's memory was cleared between two states. */
  ghost predicate ClearedIn(s: Adapter, s': Adapter, t: nat) {
    exists k :: |s.log| <= k < |s'.log| && s'.log[k] == Clear(Frame(t))
  }

  lemma PreparedLog(s: Adapter, r: Request, lockOk: bool)
    requires r.screen < |s.screens|
    ensures s.log <= PrepareSegment(s, r, lockOk).log
  {
  }

  /**
    A present that rebuilds has the driver clear the client's pixels before the host is flushed, one
    that reuses does not: so the pixels are as a rebuild would leave them iff this request is rebuilt.
   */
  lemma ClearedIff(s: Adapter, r: Request)
    requires Inv(s) && r.screen < SCREENS && Sane(r) && (r.addr != 0 || s.screens[r.screen].segment.Open?)
    ensures ClearedIn(s, Rebuild(s, r, true), r.screen)
    ensures ClearedIn(s, Work(s, r, true).0, r.screen) <==> BackingChanged(s.screens[r.screen], r)
  {
    var t, s1 := r.screen, Destroy(s, Frame(r.screen));
    var s2 := WithIdentity(s1, t, r.addr, r.width, r.height, r.stride);
    PreparedLog(s2, r, true);
    SizePositive(r);
    PreparedFields(s2, r);
    var s3, s' := PrepareSegment(s2, r, true), Rebuild(s, r, true);
    assert s.log <= s2.log && s'.log[|s3.log| + 1] == Clear(Frame(t));
  }

  lemma RebuildFields(s: Adapter, r: Request)
    requires Inv(s) && r.screen < SCREENS && Sane(r) && (r.addr != 0 || s.screens[r.screen].segment.Open?)
    ensures var a, b := s.screens[r.screen], Rebuild(s, r, true).screens;
            && |b| == SCREENS && b[r.screen].front.Obj? && b[r.screen].flushCount == a.flushCount + 1
            && b[r.screen].modes == a.modes && !BackingChanged(b[r.screen], r)
  {
    var t, p := r.screen, Frame(r.screen);
    var s1 := Destroy(s, p);
    assert s1.screens[t] == s.screens[t].(front := NoObj);
    var s2 := WithIdentity(s1, t, r.addr, r.width, r.height, r.stride);
    SizePositive(r);
    PreparedFields(s2, r);
  }

  lemma PreparedFields(s: Adapter, r: Request)
    requires |s.screens| == SCREENS && r.screen < SCREENS && Size(r) > 0
    requires r.addr != 0 || s.screens[r.screen].segment.Open?
    ensures var s' := PrepareSegment(s, r, true);
            && |s'.screens| == SCREENS && SegmentFits(s'.screens[r.screen].segment, r)
            && s'.screens[r.screen] == s.screens[r.screen].(segment := s'.screens[r.screen].segment)
  {
  }

  lemma {:induction false} RunSnoc(s: Sys, steps: seq<Step>, t: Sys, a: Step)
    requires SysInv(s) && Run(s, steps, t) && SysInv(t) && Enabled(t, a)
    ensures Run(s, steps + [a], Next(t, a))
    decreases |steps|
  {
    if steps == [] {
      StepKeepsInv(s, a);
      assert ([] + [a])[1..] == [] && ([] + [a])[0] == a;
      assert Run(Next(s, a), [], Next(s, a));
    } else {
      StepKeepsInv(s, steps[0]);
      RunSnoc(Next(s, steps[0]), steps[1..], t, a);
      assert (steps + [a])[1..] == steps[1..] + [a] && (steps + [a])[0] == steps[0];
    }
  }

  lemma ReachableStep(s: Sys, a: Step)
    requires Reachable(s) && SysInv(s) && Enabled(s, a)
    ensures Reachable(Next(s, a)) && SysInv(Next(s, a))
  {
    var pages: nat, modes: seq<seq<(nat, nat)>>, steps :|
      |modes| == SCREENS && (InitInv(pages, modes); Run(Init(pages, modes), steps, s));
    InitInv(pages, modes);
    RunSnoc(Init(pages, modes), steps, s, a);
    StepKeepsInv(s, a);
  }

  lemma InitReachable(pages: nat, modes: seq<seq<(nat, nat)>>)
    requires |modes| == SCREENS
    ensures SysInv(Init(pages, modes)) && Reachable(Init(pages, modes))
  {
    InitInv(pages, modes);
    assert Run(Init(pages, modes), [], Init(pages, modes));
  }

  /** The first mode set on a screen that shows nothing, up to its completed flush. */
  lemma FirstModeSet(s: Sys, r: Request) returns (t: Sys, i: Image)
    requires Reachable(s) && SysInv(s) && s.on && s.call.NoCall? && r.screen < SCREENS && Sane(r)
    requires Listed(s.a.screens[r.screen], r) && s.answered[r.screen] == Sent(s.a.log, r.screen)
    requires var scr := s.a.screens[r.screen];
             scr.front.NoObj? && scr.flushCount == 0 && scr.stallCount == 0 && scr.segment.Open?
    ensures Reachable(t) && SysInv(t) && t.on && t.call.NoCall?
    ensures var scr := t.a.screens[r.screen];
            && scr.front.Obj? && scr.flushCount == 0 && scr.stallCount == 0 && !BackingChanged(scr, r)
            && scr.modes == s.a.screens[r.screen].modes
            && i.pages >= Size(r) && Shows(t.a, r.screen, i, r.format)
            && (r.addr != 0 ==> i.pages == Size(r))
  {
    var x := r.screen;
    var s1 := Admitted(s, r);
    RebuildShows(s.a, r);
    RebuildFields(s.a, r);
    i := ImageOf(NewSegment(s.a.screens[x].segment, r), r);
    hide Reachable, Inv, Rebuild, Shows;
    ReachableStep(s1, Proceed(true));
    var s2 := Next(s1, Proceed(true));
    assert FlushOk(s2, x);
    ReachableStep(s2, FlushDone(x));
    t := Next(s2, FlushDone(x));
    SameLogShows(s2.a, t.a, x, i, r.format);
  }

  /** With nothing pending and nothing counted, a request passes the gate and changes nothing there. */
  lemma Admitted(s: Sys, r: Request) returns (t: Sys)
    requires Reachable(s) && SysInv(s) && s.on && s.call.NoCall? && r.screen < SCREENS && Sane(r)
    requires Listed(s.a.screens[r.screen], r)
    requires s.a.screens[r.screen].flushCount == 0 && s.a.screens[r.screen].stallCount == 0
    ensures Reachable(t) && SysInv(t) && t.a == s.a && t.call == Running(r) && t.on && t.answered == s.answered
  {
    assert SetScreen(s.a, r.screen, s.a.screens[r.screen]) == s.a;
    ReachableStep(s, Arrive(r));
    t := Next(s, Arrive(r));
  }

  /** A later present of the same frame in another format passes the gate. */
  lemma LaterPresent(s: Sys, r: Request, i: Image, was: nat) returns (t: Sys)
    requires Reachable(s) && SysInv(s) && s.on && s.call.NoCall? && r.screen < SCREENS && Sane(r)
    requires Listed(s.a.screens[r.screen], r) && Shows(s.a, r.screen, i, was) && !NeedsPages(r, i)
    requires var scr := s.a.screens[r.screen];
             scr.front.Obj? && scr.flushCount == 0 && scr.stallCount == 0 && !BackingChanged(scr, r)
    ensures Reachable(t) && Wide(t) && t.call == Running(r)
    ensures Work(t.a, r, true).1.Flushed? && Shows(Work(t.a, r, true).0, r.screen, i, was)
    ensures Shows(Rebuild(t.a, r, true), r.screen, i, r.format)
  {
    t := Admitted(s, r);
    hide Reachable;
    var image, f := FrontShows(s.a, r.screen);
    ShowsUnique(s.a, r.screen, i, was, image, f);
    FlushShowsSame(s.a, r.screen, i, was);
    RebuildShows(s.a, r);
  }

  /**
    A failing input, on every started adapter: set a mode in one format, let its flush complete,
    and present the same frame in another.  The host goes on showing the first format.
   */
  lemma StaleFormat(pages: nat, modes: seq<seq<(nat, nat)>>, r: Request, format: nat) returns (s: Sys, i: Image)
    requires |modes| == SCREENS && r.screen < SCREENS && (r.width, r.height) in modes[r.screen]
    requires Sane(r) && r.setMode && format != r.format
    ensures Reachable(s) && Wide(s) && s.call == Running(r.(setMode := false, format := format))
    ensures var (a, v) := Work(s.a, s.call.r, true); v.Flushed? && Shows(a, r.screen, i, r.format)
    ensures Shows(Rebuild(s.a, s.call.r, true), r.screen, i, format)
    ensures !SameShown(Work(s.a, s.call.r, true).0, Rebuild(s.a, s.call.r, true), r.screen)
  {
    hide Inv, Rebuild, Shows, Reachable;
    var s0 := Init(pages, modes);
    InitReachable(pages, modes);
    var s1;
    s1, i := FirstModeSet(s0, r);
    var later := r.(setMode := false, format := format);
    s := LaterPresent(s1, later, i, r.format);
    ShowsUnique(Work(s.a, later, true).0, r.screen, i, r.format, i, format);
  }

  lemma SameLogShows(s: Adapter, s': Adapter, t: nat, i: Image, f: nat)
    requires Shows(s, t, i, f) && s'.log == s.log
    ensures Shows(s', t, i, f)
  {
  }

  // ---------------------------------------------------------------- back-pressure

  /** With no completion in between, the two steps of a request are the operation as the adapter runs it. */
  lemma RequestIsTwoSteps(s: Sys, r: Request, lockOk: bool)
    requires Wide(s) && s.call.NoCall? && r.screen < SCREENS
    ensures var s1 := DoArrive(s, r);
            SetCurrentMode(s.a, r, lockOk).0 == if s1.call.Running? then Work(s1.a, s1.call.r, lockOk).0 else s1.a
  {
  }

  /**
    The flush counter never goes negative nor exceeds the flushes still unanswered, so it is zero
    once all are answered, late and lost completions included.
   */
  lemma CounterBounded(s: Sys, t: nat)
    requires Reachable(s) && t < SCREENS
    ensures Wide(s) && 0 <= s.a.screens[t].flushCount <= Sent(s.a.log, t) - s.answered[t]
    ensures Sent(s.a.log, t) == s.answered[t] ==> s.a.screens[t].flushCount == 0
  {
    ReachableInv(s);
    assert FlushOk(s, t);
  }

  lemma {:induction false} AllDropped(v: seq<bool>, i: nat)
    requires i <= |v| && forall j | i <= j < |v| :: v[j]
    ensures TrailingDrops(v) >= |v| - i
  {
    if i < |v| {
      AllDropped(v[..|v| - 1], i);
    }
  }

  /** Of any sixty listed requests in a row on a screen, at least one is not dropped. */
  lemma NeverSixtyDrops(s: Sys, t: nat, i: nat)
    requires Reachable(s) && t < SCREENS && |s.drops| == SCREENS && i + FLUSH_STALL_LIMIT <= |s.drops[t]|
    ensures exists j | i <= j < i + FLUSH_STALL_LIMIT :: !s.drops[t][j]
  {
    ReachableInv(s);
    assert StallOk(s.a.screens[t], s.drops[t]);
    var v := s.drops[t][..i + FLUSH_STALL_LIMIT];
    if forall j | i <= j < |v| :: v[j] {
      AllDropped(v, i);
    } else {
      var j :| i <= j < |v| && !v[j];
      assert !s.drops[t][j];
    }
  }

  /** While something is shown or pending, the stall counter is the number of frames just dropped. */
  lemma StallIsDrops(s: Sys, t: nat)
    requires Reachable(s) && t < SCREENS
    ensures Wide(s) && s.a.screens[t].stallCount < FLUSH_STALL_LIMIT
    ensures s.a.screens[t].flushCount > 0 || s.a.screens[t].front.Obj? ==>
              s.a.screens[t].stallCount == TrailingDrops(s.drops[t])
  {
    ReachableInv(s);
    assert StallOk(s.a.screens[t], s.drops[t]);
  }
}
