/**
  A host that lags behind.  Commands wait in the control queue and are served in order, some time
  after the driver sent them, and the cursor queue is served on its own; pages are unlocked at
  once.  When can pages be unlocked while the host still has a resource over them?
 */
module ScanoutLag {
  import opened IdAllocator
  import opened HostTrace
  import opened ScanoutModel
  import opened ScanoutProofs
  import opened ScanoutTheorems

  // ---------------------------------------------------------------- serving late

  /** A host that has served the control commands among the first `m` entries holds `id`, attached, over `p`. */
  predicate Attached(log: seq<Cmd>, m: nat, id: nat, p: Place)
    requires m <= |log|
  {
    && Replay(log[..m]).Fine?
    && var h := Replay(log[..m]).h;
       id in h.res && h.res[id].attached && h.res[id].place == p
  }

  /** Since then the driver has unlocked the pages of a resource such a host still has attached. */
  ghost predicate Exposed(log: seq<Cmd>, m: nat)
    requires m <= |log|
  {
    exists id, k :: m <= k < |log| && log[k].Unlock? && Attached(log, m, id, log[k].place)
  }

  lemma Served(log: seq<Cmd>, m: nat)
    requires Replay(log).Fine? && m < |log|
    ensures Replay(log[..m]).Fine? && Replay(log[..m + 1]).Fine?
    ensures Replay(log[..m + 1]) == HostStep(Replay(log[..m]).h, log[m])
  {
    ReplayPrefix(log, m);
    ReplayPrefix(log, m + 1);
    assert log[..m + 1] == log[..m] + [log[m]];
    ReplaySend(log[..m], log[m]);
  }

  lemma {:induction false} StaysAttached(log: seq<Cmd>, m: nat, k: nat, id: nat, p: Place)
    requires Replay(log).Fine? && m <= k <= |log| && Attached(log, m, id, p)
    requires forall j | m <= j < k :: log[j] != Detach(id)
    ensures Attached(log, k, id, p)
    decreases k
  {
    if m < k {
      StaysAttached(log, m, k - 1, id, p);
      Served(log, k - 1);
    }
  }

  /** Traffic a prompt host accepts is exposed to a late one only by an unlock that follows an unserved detach. */
  lemma ExposedNeedsDetach(log: seq<Cmd>, m: nat) returns (j: nat, k: nat)
    requires m <= |log| && Replay(log).Fine? && Exposed(log, m)
    ensures m <= j < k < |log| && log[j].Detach? && log[k].Unlock? && Attached(log, m, log[j].id, log[k].place)
  {
    var id;
    id, k :| m <= k < |log| && log[k].Unlock? && Attached(log, m, id, log[k].place);
    if forall i | m <= i < k :: log[i] != Detach(id) {
      StaysAttached(log, m, k, id, log[k].place);
      Served(log, k);
      assert false;
    }
    j :| m <= j < k && log[j] == Detach(id);
  }

  /** A host that has served every detach is never exposed, however far behind it is otherwise. */
  lemma DetachesServed(s: Sys, m: nat)
    requires Reachable(s) && m <= |s.a.log| && forall j | m <= j < |s.a.log| :: !s.a.log[j].Detach?
    ensures !Exposed(s.a.log, m)
  {
    ReachableInv(s);
    if Exposed(s.a.log, m) {
      var j, k := ExposedNeedsDetach(s.a.log, m);
    }
  }

  // ---------------------------------------------------------------- step by step

  /** A host that had served everything before may be exposed in between. */
  ghost predicate MayExpose(s: Adapter, s': Adapter) {
    exists m: nat :: |s.log| <= m <= |s'.log| && Exposed(s'.log, m)
  }

  /** `s'` is `s` after more traffic. */
  predicate Sends(s: Adapter, s': Adapter, w: seq<Cmd>) {
    s'.log == s.log + w
  }

  lemma SendsThen(a: Adapter, b: Adapter, c: Adapter, v: seq<Cmd>, w: seq<Cmd>)
    requires Sends(a, b, v) && Sends(b, c, w)
    ensures Sends(a, c, v + w)
  {
  }

  lemma SendsEntry(s: Adapter, s': Adapter, w: seq<Cmd>, k: nat)
    requires Sends(s, s', w) && |s.log| <= k < |s'.log|
    ensures k - |s.log| < |w| && s'.log[k] == w[k - |s.log|]
  {
  }

  predicate HasDetach(w: seq<Cmd>) {
    exists i :: 0 <= i < |w| && w[i].Detach?
  }

  predicate HasUnlock(w: seq<Cmd>) {
    exists i :: 0 <= i < |w| && w[i].Unlock?
  }

  /** Traffic without a detach, or without an unlock, exposes nothing. */
  lemma Harmless(s: Adapter, s': Adapter, w: seq<Cmd>)
    requires Sends(s, s', w) && Replay(s'.log).Fine? && (!HasDetach(w) || !HasUnlock(w))
    ensures !MayExpose(s, s')
  {
    if m: nat :| |s.log| <= m <= |s'.log| && Exposed(s'.log, m) {
      var j, k := ExposedNeedsDetach(s'.log, m);
      SendsEntry(s, s', w, j);
      SendsEntry(s, s', w, k);
    }
  }

  /** An unlock under an object that was there at the start exposes. */
  lemma Harmful(s: Adapter, s': Adapter, w: seq<Cmd>, p: Place, i: nat)
    requires Inv(s) && Sends(s, s', w) && At(s, p).Obj? && i < |w| && w[i] == Unlock(p)
    ensures MayExpose(s, s')
  {
    assert Owns(s, p, At(s, p).id);
    var m := |s.log|;
    assert s'.log[..m] == s.log && s'.log[m + i] == Unlock(p);
    assert Attached(s'.log, m, At(s, p).id, p);
    assert Exposed(s'.log, m);
  }

  // ---------------------------------------------------------------- what each step sends

  function DestroyCmds(o: Obj): seq<Cmd> {
    if o.Obj? then [Detach(o.id), Unref(o.id)] else []
  }

  function CloseCmds(g: Segment, p: Place): seq<Cmd> {
    if g.Open? then [Unlock(p)] else []
  }

  lemma ReleaseSends(s: Adapter, t: nat)
    requires t < |s.screens|
    ensures Sends(s, Release(s, t),
                  [SetScanout(t, 0, 0)] + DestroyCmds(s.screens[t].front) + CloseCmds(s.screens[t].segment, Frame(t)))
  {
  }

  lemma ReleaseExposes(s: Adapter, t: nat)
    requires Inv(s) && t < SCREENS
    ensures MayExpose(s, Release(s, t)) <==> s.screens[t].front.Obj?
  {
    var d, c := DestroyCmds(s.screens[t].front), CloseCmds(s.screens[t].segment, Frame(t));
    ReleaseSends(s, t);
    ReleaseKeeps(s, t);
    assert At(s, Frame(t)).Obj? ==> SegmentOf(s, Frame(t)).Open?;
    hide Inv, Release;
    if s.screens[t].front.Obj? {
      Harmful(s, Release(s, t), [SetScanout(t, 0, 0)] + d + c, Frame(t), 3);
    } else {
      Harmless(s, Release(s, t), [SetScanout(t, 0, 0)] + d + c);
    }
  }

  /** The present segment is closed under a rebuild. */
  predicate Closes(g: Segment, r: Request) {
    g.Open? && (r.addr != 0 || Size(r) > g.pages)
  }

  function PrepareCmds(g: Segment, r: Request, lockOk: bool): seq<Cmd> {
    (if Closes(g, r) then [Unlock(Frame(r.screen))] else []) +
    if (r.addr != 0 && lockOk && Size(r) > 0) || (r.addr == 0 && Closes(g, r)) then [Lock(Frame(r.screen))] else []
  }

  function PublishCmds(s: Adapter, r: Request): seq<Cmd>
    requires r.screen < |s.screens|
  {
    var t, g := r.screen, s.screens[r.screen].segment;
    if SegmentFits(g, r) then
      [Create(NextId(s), Frame(t), ImageOf(g, r)), Clear(Frame(t)), SetScanout(t, NextId(s), r.format),
       Flush(NextId(s), t)]
    else []
  }

  lemma PrepareSends(s: Adapter, r: Request, lockOk: bool)
    requires r.screen < |s.screens|
    ensures Sends(s, PrepareSegment(s, r, lockOk), PrepareCmds(s.screens[r.screen].segment, r, lockOk))
  {
  }

  lemma CreateSends(s: Adapter, r: Request, lockOk: bool)
    requires r.screen < |s.screens|
    ensures var s1 := PrepareSegment(s, r, lockOk);
            && r.screen < |s1.screens|
            && Sends(s, CreateFront(s, r, lockOk),
                     PrepareCmds(s.screens[r.screen].segment, r, lockOk) + PublishCmds(s1, r))
  {
    PrepareSends(s, r, lockOk);
    var s1 := PrepareSegment(s, r, lockOk);
    assert Sends(s1, CreateFront(s, r, lockOk), PublishCmds(s1, r));
  }

  lemma PublishQuiet(s: Adapter, r: Request)
    requires r.screen < |s.screens|
    ensures !HasDetach(PublishCmds(s, r)) && !HasUnlock(PublishCmds(s, r))
  {
  }

  /** The first half of a rebuild: the old front gone, the new identity taken. */
  function Cleaned(s: Adapter, r: Request): Adapter
    requires r.screen < |s.screens|
  {
    WithIdentity(Destroy(s, Frame(r.screen)), r.screen, r.addr, r.width, r.height, r.stride)
  }

  lemma CleanedSends(s: Adapter, r: Request)
    requires r.screen < |s.screens|
    ensures var s1 := Cleaned(s, r);
            && |s1.screens| == |s.screens| && s1.screens[r.screen].segment == s.screens[r.screen].segment
            && Sends(s, s1, DestroyCmds(s.screens[r.screen].front))
            && forall lockOk :: CreateFront(s1, r, lockOk) == Rebuild(s, r, lockOk)
  {
  }

  /** A rebuild: destroy, prepare, create. */
  lemma RebuildSends(s: Adapter, r: Request, lockOk: bool) returns (w: seq<Cmd>, rest: seq<Cmd>)
    requires r.screen < |s.screens|
    ensures w == DestroyCmds(s.screens[r.screen].front) + PrepareCmds(s.screens[r.screen].segment, r, lockOk) + rest
    ensures Sends(s, Rebuild(s, r, lockOk), w) && !HasDetach(rest) && !HasUnlock(rest)
  {
    var t, s1 := r.screen, Cleaned(s, r);
    CleanedSends(s, r);
    hide Cleaned, DestroyCmds, CreateFront, PrepareCmds;
    CreateSends(s1, r, lockOk);
    rest := PublishCmds(PrepareSegment(s1, r, lockOk), r);
    PublishQuiet(PrepareSegment(s1, r, lockOk), r);
    w := DestroyCmds(s.screens[t].front) + PrepareCmds(s.screens[t].segment, r, lockOk) + rest;
  }

  lemma RebuildExposes(s: Adapter, r: Request, lockOk: bool)
    requires Inv(s) && r.screen < SCREENS
    ensures MayExpose(s, Rebuild(s, r, lockOk)) <==>
            s.screens[r.screen].front.Obj? && Closes(s.screens[r.screen].segment, r)
  {
    var o, g := s.screens[r.screen].front, s.screens[r.screen].segment;
    var w, rest := RebuildSends(s, r, lockOk);
    RebuildKeeps(s, r, lockOk);
    assert At(s, Frame(r.screen)) == o;
    hide Inv, Rebuild, PrepareCmds, DestroyCmds;
    WorkCmds(o, g, r, lockOk, rest);
    if o.Obj? && Closes(g, r) {
      Harmful(s, Rebuild(s, r, lockOk), w, Frame(r.screen), 2);
    } else {
      Harmless(s, Rebuild(s, r, lockOk), w);
    }
  }

  lemma WorkCmds(o: Obj, g: Segment, r: Request, lockOk: bool, rest: seq<Cmd>)
    requires !HasDetach(rest) && !HasUnlock(rest)
    ensures var w := DestroyCmds(o) + PrepareCmds(g, r, lockOk) + rest;
            && (o.Obj? && Closes(g, r) ==> |w| > 2 && w[2] == Unlock(Frame(r.screen)))
            && (o.NoObj? ==> !HasDetach(w)) && (!Closes(g, r) ==> !HasUnlock(w))
  {
  }

  lemma WorkExposes(s: Adapter, r: Request, lockOk: bool)
    requires Inv(s) && r.screen < SCREENS
    ensures MayExpose(s, Work(s, r, lockOk).0) <==>
            var scr := s.screens[r.screen]; BackingChanged(scr, r) && scr.front.Obj? && Closes(scr.segment, r)
  {
    if BackingChanged(s.screens[r.screen], r) {
      RebuildExposes(s, r, lockOk);
    } else {
      WorkKeeps(s, r, lockOk);
      Harmless(s, FlushFront(s, r.screen), [Flush(s.screens[r.screen].front.id, r.screen)]);
    }
  }

  // ---------------------------------------------------------------- leaving D0

  /** Some object lives. */
  ghost predicate OwnsSome(s: Adapter) {
    exists p :: At(s, p).Obj?
  }

  lemma {:induction false} NothingToDestroy(s: Adapter, n: nat)
    requires n <= |s.screens| && !OwnsSome(s)
    ensures DestroyAll(s, n) == s
  {
    if n > 0 {
      NothingToDestroy(s, n - 1);
      assert At(s, Frame(n - 1)).NoObj? && At(s, Cursor(n - 1)).NoObj?;
    }
  }

  lemma {:induction false} ClosingSends(s: Adapter, n: nat) returns (w: seq<Cmd>)
    requires n <= |s.screens|
    ensures Sends(s, CloseAll(s, n), w) && !HasDetach(w)
  {
    if n == 0 {
      w := [];
    } else {
      var v := ClosingSends(s, n - 1);
      var s1 := CloseAll(s, n - 1);
      var c := CloseScreenSends(s1, n - 1);
      hide CloseSegment;
      SendsThen(s, s1, CloseAll(s, n), v, c);
      NoDetachThen(v, c);
      w := v + c;
    }
  }

  lemma CloseScreenSends(s: Adapter, t: nat) returns (w: seq<Cmd>)
    requires t < |s.screens|
    ensures Sends(s, CloseSegment(CloseSegment(s, Frame(t)), Cursor(t)), w) && !HasDetach(w)
  {
    w := CloseCmds(s.screens[t].segment, Frame(t)) + CloseCmds(s.screens[t].cursorSegment, Cursor(t));
  }

  lemma NoDetachThen(v: seq<Cmd>, w: seq<Cmd>)
    requires !HasDetach(v) && !HasDetach(w)
    ensures !HasDetach(v + w)
  {
  }

  lemma {:induction false} DestroyingSends(s: Adapter, n: nat) returns (w: seq<Cmd>)
    requires n <= |s.screens|
    ensures Sends(s, DestroyAll(s, n), w)
  {
    if n == 0 {
      w := [];
    } else {
      var v := DestroyingSends(s, n - 1);
      var s1 := DestroyAll(s, n - 1);
      assert DestroyAll(s, n) == DestroyScreen(s1, n - 1);
      hide DestroyAll, DestroyScreen;
      hide Sends, HasDetach;
      w := DestroyScreenSends(s1, n - 1);
      SendsThen(s, s1, DestroyAll(s, n), v, w);
      w := v + w;
    }
  }

  /** One round of the teardown: the front goes, the first scanout is reset, the cursor goes. */
  lemma DestroyScreenSends(s: Adapter, t: nat) returns (w: seq<Cmd>)
    requires t < |s.screens|
    ensures Sends(s, DestroyScreen(s, t), w)
    ensures w == DestroyCmds(s.screens[t].front) +
                 (if s.screens[t].front.Obj? then [SetScanout(0, 0, 0)] else []) + DestroyCmds(s.screens[t].cursor)
  {
    var reset := if s.screens[t].front.Obj? then [SetScanout(0, 0, 0)] else [];
    w := DestroyCmds(s.screens[t].front) + reset + DestroyCmds(s.screens[t].cursor);
  }

  /** Pages that were locked and are no longer were unlocked in between. */
  lemma {:induction false} UnlockedBetween(log: seq<Cmd>, m: nat, p: Place) returns (k: nat)
    requires Replay(log).Fine? && m <= |log| && Replay(log[..m]).Fine?
    requires p in Replay(log[..m]).h.locked && p !in Replay(log).h.locked
    ensures m <= k < |log| && log[k] == Unlock(p)
    decreases |log|
  {
    assert log[..|log|] == log;
    var n := |log| - 1;
    Served(log, n);
    if log[n] == Unlock(p) {
      k := n;
    } else {
      assert log[..n][..m] == log[..m];
      k := UnlockedBetween(log[..n], m, p);
    }
  }

  lemma ShutdownExposes(s: Adapter)
    requires Inv(s)
    ensures MayExpose(s, Shutdown(s)) <==> OwnsSome(s)
  {
    ShutdownKeeps(s);
    if OwnsSome(s) {
      var p :| At(s, p).Obj?;
      SomeExposed(s, p);
    } else {
      NothingToDestroy(s, |s.screens|);
      var w := ClosingSends(s, |s.screens|);
      Harmless(s, Shutdown(s), w);
    }
  }

  lemma SomeExposed(s: Adapter, p: Place)
    requires Inv(s) && At(s, p).Obj?
    ensures MayExpose(s, Shutdown(s))
  {
    hide Inv, Cleared, Sends, CloseAll, DestroyAll, Replay;
    var v := DestroyingSends(s, |s.screens|);
    var w := ClosingSends(DestroyAll(s, |s.screens|), |s.screens|);
    SendsThen(s, DestroyAll(s, |s.screens|), Shutdown(s), v, w);
    ShutdownKeeps(s);
    UnlockedExposes(s, Shutdown(s), v + w, p);
  }

  /** Where the host ends with nothing locked, the pages of every object were unlocked. */
  lemma UnlockedExposes(s: Adapter, s': Adapter, w: seq<Cmd>, p: Place)
    requires Inv(s) && Inv(s') && At(s, p).Obj? && Sends(s, s', w) && p !in Replay(s'.log).h.locked
    ensures MayExpose(s, s')
  {
    var m := |s.log|;
    assert s'.log[..m] == s.log && p in Replay(s.log).h.locked;
    var k := UnlockedBetween(s'.log, m, p);
    SendsEntry(s, s', w, k);
    hide Inv, Replay;
    Harmful(s, s', w, p, k - m);
  }

  // ---------------------------------------------------------------- exactly when

  /**
    A step may unlock pages under a resource that a late host still has attached, even one that had
    served everything before, exactly when it detaches and unlocks without waiting in between: a
    release of a screen that shows something, a rebuild that replaces the pages of one, and leaving
    D0 with any object alive.
   */
  lemma ExposedIff(s: Sys, a: Step)
    requires Reachable(s) && Wide(s) && Enabled(s, a)
    ensures MayExpose(s.a, Next(s, a).a) <==>
            match a
            case ReleaseFb(t) => s.a.screens[t].front.Obj?
            case Proceed(_) =>
              var scr := s.a.screens[s.call.r.screen];
              BackingChanged(scr, s.call.r) && scr.front.Obj? && Closes(scr.segment, s.call.r)
            case Exit => OwnsSome(s.a)
            case _ => false
  {
    ReachableInv(s);
    match a
    case ReleaseFb(t) => ReleaseExposes(s.a, t);
    case Proceed(lockOk) => WorkExposes(s.a, s.call.r, lockOk);
    case Exit => ShutdownExposes(s.a);
    case _ => OtherSteps(s, a);
  }

  /** A failing run, on every started adapter: set a mode, let its flush complete, release. */
  lemma ReleaseOutruns(pages: nat, modes: seq<seq<(nat, nat)>>, r: Request) returns (s: Sys)
    requires |modes| == SCREENS && r.screen < SCREENS && (r.width, r.height) in modes[r.screen] && Sane(r)
    ensures Reachable(s) && Wide(s) && Enabled(s, ReleaseFb(r.screen))
    ensures MayExpose(s.a, Next(s, ReleaseFb(r.screen)).a)
  {
    var i;
    InitReachable(pages, modes);
    s, i := FirstModeSet(Init(pages, modes), r);
    ReleaseExposes(s.a, r.screen);
  }

  lemma OtherSteps(s: Sys, a: Step)
    requires SysInv(s) && Enabled(s, a) && !a.ReleaseFb? && !a.Proceed? && !a.Exit?
    ensures !MayExpose(s.a, Next(s, a).a)
  {
    var w := QuietSends(s, a);
    StepKeepsInv(s, a);
    Harmless(s.a, Next(s, a).a, w);
  }

  lemma QuietSends(s: Sys, a: Step) returns (w: seq<Cmd>)
    requires Wide(s) && Enabled(s, a) && !a.ReleaseFb? && !a.Proceed? && !a.Exit?
    ensures Sends(s.a, Next(s, a).a, w) && !HasUnlock(w)
  {
    match a
    case Blank(t) =>
      var o := s.a.screens[t].front;
      w := if o.Obj? then [Transfer(o.id), Flush(o.id, t)] else [];
    case Pointer(t) => w := CursorSends(s.a, t);
    case Move(t) =>
      var o := s.a.screens[t].cursor;
      w := if o.Obj? then [MoveCursor(t, o.id)] else [];
    case _ => w := [];
  }

  /** The id the new cursor gets. */
  function CursorId(s: Adapter, t: nat): nat
    requires t < |s.screens|
  {
    NextId(Destroy(s, Cursor(t)))
  }

  lemma CursorSends(s: Adapter, t: nat) returns (w: seq<Cmd>)
    requires t < |s.screens|
    ensures Sends(s, SetCursor(s, t), w) && !HasUnlock(w)
    ensures var scr, id := s.screens[t], CursorId(s, t);
            w == DestroyCmds(scr.cursor) + (if scr.cursorSegment.Closed? then [Lock(Cursor(t))] else []) +
                 [Create(id, Cursor(t), CursorImage()), MoveCursor(t, id)]
  {
    var scr, id := s.screens[t], CursorId(s, t);
    w := DestroyCmds(scr.cursor) + (if scr.cursorSegment.Closed? then [Lock(Cursor(t))] else []) +
         [Create(id, Cursor(t), CursorImage()), MoveCursor(t, id)];
  }

  // ---------------------------------------------------------------- the cursor queue

  /**
    The cursor command of a new pointer shape travels on the other queue.  While the control queue
    has been served up to `m`, the resource it names is a cursor exactly once its creation was
    served, or still the old cursor's, if the new one got its id back.
   */
  lemma CursorServedIff(s: Adapter, t: nat, m: nat)
    requires Inv(s) && t < SCREENS && |s.log| <= m <= |SetCursor(s, t).log|
    ensures var log, id := SetCursor(s, t).log, CursorId(s, t);
            && |log| > 0 && log[|log| - 1] == MoveCursor(t, id)
            && (Attached(log, m, id, Cursor(t)) <==>
                m + 1 >= |log| || (m == |s.log| && s.screens[t].cursor == Obj(id)))
  {
    CursorLog(s, t);
    SetCursorKeeps(s, t);
    NewCursorId(s, t);
    var log, n := SetCursor(s, t).log, |s.log|;
    WholeLog(log);
    hide Inv, Replay, SetCursor, CursorId, Attached;
    AttachedPrefix(s.log, log, n, Cursor(t));
    if s.screens[t].cursor.Obj? { ReplacedCursor(log, n, m, t, s.screens[t].cursor.id, CursorId(s, t)); }
    else { FirstCursor(log, n, m, t, CursorId(s, t)); }
  }

  lemma WholeLog(log: seq<Cmd>)
    ensures log[..|log|] == log
  {
  }

  lemma AttachedPrefix(before: seq<Cmd>, log: seq<Cmd>, n: nat, p: Place)
    requires n == |before| <= |log| && log[..n] == before
    ensures forall id | Attached(before, n, id, p) :: Attached(log, n, id, p)
  {
    WholeLog(before);
  }

  /** What is sent for a new pointer shape, entry by entry. */
  lemma CursorLog(s: Adapter, t: nat)
    requires Inv(s) && t < SCREENS
    ensures var log, n, id, c := SetCursor(s, t).log, |s.log|, CursorId(s, t), s.screens[t].cursor;
            && n + 2 <= |log| && log[..n] == s.log
            && log[|log| - 2] == Create(id, Cursor(t), CursorImage()) && log[|log| - 1] == MoveCursor(t, id)
            && (c.Obj? ==> |log| == n + 4 && log[n] == Detach(c.id) && log[n + 1] == Unref(c.id))
            && (c.NoObj? ==> |log| <= n + 3 && (|log| == n + 3 ==> log[n] == Lock(Cursor(t))))
  {
    var w := CursorSends(s, t);
    assert SegmentOf(s, Cursor(t)).Closed? ==> At(s, Cursor(t)).NoObj?;
    hide Inv, SetCursor, CursorId;
    CursorEntries(s.log, SetCursor(s, t).log, w, s.screens[t], t, CursorId(s, t));
  }

  lemma CursorEntries(before: seq<Cmd>, log: seq<Cmd>, w: seq<Cmd>, scr: Screen, t: nat, id: nat)
    requires log == before + w && (scr.cursorSegment.Closed? ==> scr.cursor.NoObj?)
    requires w == DestroyCmds(scr.cursor) + (if scr.cursorSegment.Closed? then [Lock(Cursor(t))] else []) +
                  [Create(id, Cursor(t), CursorImage()), MoveCursor(t, id)]
    ensures var n, c := |before|, scr.cursor;
            && n + 2 <= |log| && log[..n] == before
            && log[|log| - 2] == Create(id, Cursor(t), CursorImage()) && log[|log| - 1] == MoveCursor(t, id)
            && (c.Obj? ==> |log| == n + 4 && log[n] == Detach(c.id) && log[n + 1] == Unref(c.id))
            && (c.NoObj? ==> |log| <= n + 3 && (|log| == n + 3 ==> log[n] == Lock(Cursor(t))))
  {
  }

  /** It is the old cursor's id, or one the host does not have. */
  lemma NewCursorId(s: Adapter, t: nat)
    requires Inv(s) && t < SCREENS
    ensures var id, c, h := CursorId(s, t), s.screens[t].cursor, Replay(s.log).h;
            && (c.NoObj? ==> id !in h.res)
            && (c.Obj? ==> Attached(s.log, |s.log|, c.id, Cursor(t)) && (id in h.res <==> id == c.id))
  {
    var c, id := s.screens[t].cursor, CursorId(s, t);
    DestroyKeeps(s, Cursor(t));
    IdAvailable(Destroy(s, Cursor(t)), Replay(Destroy(s, Cursor(t)).log).h);
    assert s.log[..|s.log|] == s.log;
    if c.Obj? {
      assert Owns(s, Cursor(t), c.id);
      DestroyTrace(s.log, c.id);
    }
  }

  lemma FirstCursor(log: seq<Cmd>, n: nat, m: nat, t: nat, id: nat)
    requires Replay(log).Fine? && n <= m <= |log| && n + 2 <= |log| <= n + 3
    requires Replay(log[..n]).Fine? && id !in Replay(log[..n]).h.res && (|log| == n + 3 ==> log[n] == Lock(Cursor(t)))
    requires log[|log| - 2] == Create(id, Cursor(t), CursorImage()) && log[|log| - 1] == MoveCursor(t, id)
    ensures Attached(log, m, id, Cursor(t)) <==> m + 1 >= |log|
  {
    var k := |log| - 2;
    if n < k { Served(log, n); }
    TwoLeft(log, k, t, id);
  }

  lemma TwoLeft(log: seq<Cmd>, k: nat, t: nat, id: nat)
    requires Replay(log).Fine? && |log| == k + 2 && Replay(log[..k]).Fine? && id !in Replay(log[..k]).h.res
    requires log[k] == Create(id, Cursor(t), CursorImage()) && log[k + 1] == MoveCursor(t, id)
    ensures !Attached(log, k, id, Cursor(t))
    ensures Attached(log, k + 1, id, Cursor(t)) && Attached(log, k + 2, id, Cursor(t))
  {
    Served(log, k);
    Served(log, k + 1);
  }

  lemma ReplacedCursor(log: seq<Cmd>, n: nat, m: nat, t: nat, x: nat, id: nat)
    requires Replay(log).Fine? && n <= m <= |log| == n + 4
    requires Attached(log, n, x, Cursor(t)) && (id in Replay(log[..n]).h.res <==> id == x)
    requires log[n] == Detach(x) && log[n + 1] == Unref(x)
    requires log[n + 2] == Create(id, Cursor(t), CursorImage()) && log[n + 3] == MoveCursor(t, id)
    ensures Attached(log, m, id, Cursor(t)) <==> m >= n + 3 || (m == n && x == id)
  {
    OldGone(log, n, t, x, id);
    TwoLeft(log, n + 2, t, id);
  }

  lemma OldGone(log: seq<Cmd>, n: nat, t: nat, x: nat, id: nat)
    requires Replay(log).Fine? && n + 2 <= |log|
    requires Attached(log, n, x, Cursor(t)) && (id in Replay(log[..n]).h.res <==> id == x)
    requires log[n] == Detach(x) && log[n + 1] == Unref(x)
    ensures Attached(log, n, id, Cursor(t)) <==> x == id
    ensures !Attached(log, n + 1, id, Cursor(t))
    ensures Replay(log[..n + 2]).Fine? && id !in Replay(log[..n + 2]).h.res
  {
    Served(log, n);
    Served(log, n + 1);
  }
}
