/**
  What each operation of the scanout machine comes to: which requests are dropped, which are
  answered by reuse, what reaches the host, and how the flush counter moves, all told by recorded
  history and by what the host has seen.
 */
module ScanoutOutcomes {
  import opened HostTrace
  import opened Paging
  import opened ScanoutModel
  import opened ScanoutProofs
  import opened ScanoutTheorems
  import opened ScanoutLag

  // ---------------------------------------------------------------- the gate

  /**
    A listed request is dropped exactly if it sets no mode, a flush is pending, and no more than 58
    requests before it were dropped in a row; so a mode set never is.  Nothing is sent for it, and
    every other listed request goes on.  An unlisted one changes nothing.
   */
  lemma DroppedIff(s: Sys, r: Request)
    requires Reachable(s) && Wide(s) && Enabled(s, Arrive(r))
    ensures (r.width, r.height) !in s.a.screens[r.screen].modes ==> Next(s, Arrive(r)) == s
    ensures (r.width, r.height) in s.a.screens[r.screen].modes ==>
              var t, s' := r.screen, Next(s, Arrive(r));
              var dropped := !r.setMode && s.a.screens[t].flushCount > 0 && TrailingDrops(s.drops[t]) <= 58;
              && s'.drops == s.drops[t := s.drops[t] + [dropped]]
              && s'.call == (if dropped then NoCall else Running(r))
              && s'.a.log == s.a.log && s'.a.bits == s.a.bits && s'.answered == s.answered && s'.on == s.on
              && s'.a.screens[t].front == s.a.screens[t].front && s'.a.screens[t].segment == s.a.screens[t].segment
              && (dropped ==> s'.a.screens[t].flushCount == s.a.screens[t].flushCount)
              && (!dropped ==> s'.a.screens[t].flushCount == 0)
  {
    ReachableInv(s);
    assert FlushOk(s, r.screen);
    StallIsDrops(s, r.screen);
  }

  predicate OnlyCompletions(steps: seq<Step>) {
    forall i | 0 <= i < |steps| :: steps[i].FlushDone?
  }

  lemma {:induction false} CompletionsKeep(s: Sys, steps: seq<Step>, t: Sys)
    requires SysInv(s) && Run(s, steps, t) && OnlyCompletions(steps)
    ensures t.call == s.call && |t.a.screens| == |s.a.screens| == SCREENS
    ensures forall x | 0 <= x < SCREENS ::
              t.a.screens[x].srcAddr == s.a.screens[x].srcAddr && t.a.screens[x].front == s.a.screens[x].front
    decreases |steps|
  {
    if steps != [] {
      StepKeepsInv(s, steps[0]);
      CompletionsKeep(Next(s, steps[0]), steps[1..], t);
    }
  }

  /**
    A request at an address that is let through although a flush is pending, and sets no mode, gave
    up waiting: whatever completes in between, it is not answered by reuse.
   */
  lemma RecoveryRebuilds(s: Sys, r: Request, steps: seq<Step>, t: Sys, lockOk: bool)
    requires Reachable(s) && Wide(s) && Enabled(s, Arrive(r))
    requires s.a.screens[r.screen].flushCount > 0 && !r.setMode && r.addr != 0
    requires var s1 := Next(s, Arrive(r));
             s1.call.Running? && SysInv(s1) && Run(s1, steps, t) && OnlyCompletions(steps)
    ensures t.call == Running(r) && r.screen < |t.a.screens| && !Work(t.a, r, lockOk).1.Flushed?
  {
    CompletionsKeep(Next(s, Arrive(r)), steps, t);
  }

  // ---------------------------------------------------------------- reuse, rebuild, failure

  /** A request past the gate is answered by reuse exactly if the screen shows what was built for its identity. */
  lemma ReusedIff(s: Sys, lockOk: bool)
    requires Reachable(s) && Wide(s) && s.call.Running?
    ensures var r, scr := s.call.r, s.a.screens[s.call.r.screen];
            Work(s.a, r, lockOk).1.Flushed? <==>
            && scr.front.Obj? && scr.srcAddr == r.addr
            && exists i, f :: Shows(s.a, r.screen, i, f) &&
                              i.width == r.width && i.height == r.height && i.stride == r.stride
  {
    ReachableInv(s);
    var t := s.call.r.screen;
    if s.a.screens[t].front.Obj? {
      var i, f := FrontShows(s.a, t);
      forall i', f' | Shows(s.a, t, i', f')
        ensures i' == i
      {
        ShowsUnique(s.a, t, i, f, i', f');
      }
    }
  }

  /** It fails exactly if it must be rebuilt over pages that cannot be locked, or over no segment at all. */
  lemma FailedIff(s: Sys, lockOk: bool)
    requires Reachable(s) && Wide(s) && s.call.Running?
    ensures var r, scr, v := s.call.r, s.a.screens[s.call.r.screen], Work(s.a, s.call.r, lockOk).1;
            v.Failed? <==> !v.Flushed? && if r.addr != 0 then !lockOk else scr.segment.Closed?
  {
    ReachableInv(s);
    var r, t := s.call.r, s.call.r.screen;
    if BackingChanged(s.a.screens[t], r) {
      SizePositive(r);
      var s2 := WithIdentity(Destroy(s.a, Frame(t)), t, r.addr, r.width, r.height, r.stride);
      assert s2.screens[t].front.NoObj? && s2.screens[t].segment == s.a.screens[t].segment;
      if lockOk && (r.addr != 0 || s.a.screens[t].segment.Open?) {
        RebuildFields(s.a, r);
      }
    }
  }

  /** The pages locked for a request at an address hold its bytes, and one page fewer would not. */
  lemma LockedPages(s: Sys, lockOk: bool) returns (n: nat)
    requires Reachable(s) && Wide(s) && s.call.Running? && s.call.r.addr != 0
    requires Work(s.a, s.call.r, lockOk).1.Rebuilt?
    ensures var r, g := s.call.r, Next(s, Proceed(lockOk)).a.screens[s.call.r.screen].segment;
            g == Open(r.addr, n) && (n - 1) * 4096 < r.pitch * r.height <= n * 4096
  {
    ReachableInv(s);
    var r := s.call.r;
    n := Size(r);
    SizePositive(r);
    RebuildKeeps(s.a, r, lockOk);
    var i, f := FrontShows(Rebuild(s.a, r, lockOk), r.screen);
    ShowsUnique(Rebuild(s.a, r, lockOk), r.screen, i, f,
                Image(r.addr, r.width, r.height, r.stride, n), r.format);
  }

  // ---------------------------------------------------------------- what is flushed

  /** The traffic ends with a flush, to screen `t`, of the resource the host then shows there. */
  ghost predicate FlushedLast(log: seq<Cmd>, t: nat) {
    && log != [] && Replay(log).Fine? && t in Replay(log).h.shown
    && log[|log| - 1] == Flush(Replay(log).h.shown[t].0, t)
  }

  /** One more flush was sent to screen `t`, none to the others, and the counter moved with it. */
  ghost predicate OneFlush(a: Adapter, b: Adapter, t: nat) {
    && t < |a.screens| == |b.screens|
    && b.screens[t].flushCount == a.screens[t].flushCount + 1
    && forall x: nat :: Sent(b.log, x) == Sent(a.log, x) + if x == t then 1 else 0
  }

  lemma FlushFrontFlushes(s: Adapter, t: nat)
    requires Inv(s) && t < SCREENS && s.screens[t].front.Obj?
    ensures FlushedLast(FlushFront(s, t).log, t) && OneFlush(s, FlushFront(s, t), t)
  {
    var id := s.screens[t].front.id;
    var i, f := FrontShows(s, t);
    FlushShowsSame(s, t, i, f);
    assert FrontOk(s, Replay(s.log).h, t);
    ReplaySend(s.log, Flush(id, t));
    SendCounts(s, Flush(id, t));
  }

  lemma {:induction false} SentAppend(log: seq<Cmd>, w: seq<Cmd>, x: nat)
    ensures Sent(log + w, x) == Sent(log, x) + Sent(w, x)
  {
    if w == [] {
      assert log + w == log;
    } else {
      SentAppend(log, w[..|w| - 1], x);
      assert (log + w)[..|log + w| - 1] == log + w[..|w| - 1];
    }
  }

  lemma PublishFlushes(s: Adapter, t: nat, image: Image, format: nat)
    requires Inv(s) && t < SCREENS && s.screens[t].front.NoObj? && s.screens[t].segment.Open?
    requires Remembers(s.screens[t], image) && Backed(s.screens[t].segment, image)
    ensures FlushedLast(Publish(s, t, image, format).log, t) && OneFlush(s, Publish(s, t, image, format), t)
  {
    PublishKeeps(s, t, image, format);
    var id := NextId(s);
    var w := [Create(id, Frame(t), image), Clear(Frame(t)), SetScanout(t, id, format), Flush(id, t)];
    assert Publish(s, t, image, format).log == s.log + w;
    forall x: nat
      ensures Sent(s.log + w, x) == Sent(s.log, x) + if x == t then 1 else 0
    {
      SentAppend(s.log, w, x);
      FourSent(w, x);
    }
  }

  lemma FourSent(w: seq<Cmd>, x: nat)
    requires |w| == 4 && !w[0].Flush? && !w[1].Flush? && !w[2].Flush?
    ensures Sent(w, x) == if w[3].Flush? && w[3].screen == x then 1 else 0
  {
    assert w[..3][..2] == w[..2] && w[..2][..1] == w[..1] && w[..1][..0] == [];
    assert Sent(w[..1], x) == 0 && Sent(w[..2], x) == 0 && Sent(w[..3], x) == 0;
  }

  /** No flush sent, no counter moved. */
  ghost predicate Silent(a: Adapter, b: Adapter) {
    && |b.screens| == |a.screens|
    && (forall x | 0 <= x < |a.screens| :: b.screens[x].flushCount == a.screens[x].flushCount)
    && forall x: nat :: Sent(b.log, x) == Sent(a.log, x)
  }

  lemma SendSilent(s: Adapter, c: Cmd)
    requires !c.Flush?
    ensures Silent(s, Send(s, c))
  {
    forall x: nat
      ensures Sent(s.log + [c], x) == Sent(s.log, x)
    {
      SentSend(s.log, c, x);
    }
  }

  lemma DestroySilent(s: Adapter, p: Place)
    requires OnScreen(s, p)
    ensures Silent(s, Destroy(s, p))
  {
    if At(s, p).Obj? {
      var s1 := WithObj(s, p, NoObj);
      SendSilent(s1, Detach(At(s, p).id));
      SendSilent(Send(s1, Detach(At(s, p).id)), Unref(At(s, p).id));
    }
  }

  lemma SegmentSilent(s: Adapter, p: Place, g: Segment, c: Cmd)
    requires OnScreen(s, p) && !c.Flush?
    ensures Silent(s, Send(WithSegment(s, p, g), c))
  {
    assert forall x | 0 <= x < |s.screens| :: WithSegment(s, p, g).screens[x].flushCount == s.screens[x].flushCount;
    SendSilent(WithSegment(s, p, g), c);
  }

  lemma PrepareSilent(s: Adapter, r: Request, lockOk: bool)
    requires r.screen < |s.screens|
    ensures Silent(s, PrepareSegment(s, r, lockOk))
  {
    var p := Frame(r.screen);
    SegmentSilent(s, p, Closed, Unlock(p));
    var closed := CloseSegment(s, p);
    SegmentSilent(closed, p, Open(r.addr, Size(r)), Lock(p));
    SegmentSilent(closed, p, Open(0, Size(r)), Lock(p));
  }

  lemma RebuildFlushes(s: Adapter, r: Request, lockOk: bool)
    requires Inv(s) && r.screen < SCREENS
    ensures var s' := Rebuild(s, r, lockOk);
            |s'.screens| == |s.screens| &&
            if s'.screens[r.screen].front.Obj? then FlushedLast(s'.log, r.screen) && OneFlush(s, s', r.screen)
            else Silent(s, s')
  {
    var t, s3 := r.screen, Prepared(s, r, lockOk);
    PreparedKeeps(s, r, lockOk);
    hide Prepared, Inv;
    if SegmentFits(s3.screens[t].segment, r) {
      PublishFlushes(s3, t, ImageOf(s3.screens[t].segment, r), r.format);
    }
  }

  /** A rebuild up to the new resource. */
  function Prepared(s: Adapter, r: Request, lockOk: bool): Adapter
    requires r.screen < |s.screens|
  {
    PrepareSegment(Cleaned(s, r), r, lockOk)
  }

  lemma PreparedKeeps(s: Adapter, r: Request, lockOk: bool)
    requires Inv(s) && r.screen < SCREENS
    ensures var t, s3 := r.screen, Prepared(s, r, lockOk);
            && Inv(s3) && Silent(s, s3) && |s3.screens| == SCREENS && s3.screens[t].front.NoObj?
            && s3.screens[t].width == r.width && s3.screens[t].height == r.height
            && s3.screens[t].stride == r.stride && s3.screens[t].srcAddr == r.addr
            && (r.addr != 0 && s3.screens[t].segment.Open? ==> s3.screens[t].segment.addr == r.addr)
            && Rebuild(s, r, lockOk) == if SegmentFits(s3.screens[t].segment, r)
                                        then Publish(s3, t, ImageOf(s3.screens[t].segment, r), r.format) else s3
  {
    var t, p := r.screen, Frame(r.screen);
    var s1 := Destroy(s, p);
    DestroyKeeps(s, p);
    DestroySilent(s, p);
    assert s1.screens[t].front.NoObj?;
    var s2 := WithIdentity(s1, t, r.addr, r.width, r.height, r.stride);
    ScreenKeeps(s1, t, s2.screens[t]);
    PrepareKeeps(s2, r, lockOk);
    PrepareSilent(s2, r, lockOk);
  }

  /**
    Every request past the gate that does not fail ends with exactly one flush, counted, of the
    resource the host then shows on its screen; one that fails sends none and counts none.
   */
  lemma FlushReachesHost(s: Sys, lockOk: bool)
    requires Reachable(s) && Wide(s) && s.call.Running?
    ensures var t, a, b, v := s.call.r.screen, s.a, Next(s, Proceed(lockOk)).a, Work(s.a, s.call.r, lockOk).1;
            if v.Failed? then Silent(a, b) else FlushedLast(b.log, t) && OneFlush(a, b, t)
  {
    ReachableInv(s);
    var r := s.call.r;
    if BackingChanged(s.a.screens[r.screen], r) {
      RebuildFlushes(s.a, r, lockOk);
    } else {
      FlushFrontFlushes(s.a, r.screen);
    }
  }

  // ---------------------------------------------------------------- the other operations

  /** A screen blacked out while it shows something is transferred and flushed once; otherwise nothing is sent. */
  lemma BlackOutFlushes(s: Sys, t: nat)
    requires Reachable(s) && Wide(s) && Enabled(s, Blank(t))
    ensures var a, b := s.a, Next(s, Blank(t)).a;
            if a.screens[t].front.Obj? then
              && FlushedLast(b.log, t) && OneFlush(a, b, t)
              && b.log == a.log + [Transfer(Replay(b.log).h.shown[t].0), Flush(Replay(b.log).h.shown[t].0, t)]
            else b == a
  {
    ReachableInv(s);
    if s.a.screens[t].front.Obj? {
      var id := s.a.screens[t].front.id;
      var s1 := Send(s.a, Transfer(id));
      OwnedIsLive(s.a, Frame(t));
      UseKeeps(s.a, Transfer(id));
      SendSilent(s.a, Transfer(id));
      FlushFrontFlushes(s1, t);
      ReplaySend(s.a.log, Transfer(id));
      assert FrontOk(s1, Replay(s1.log).h, t);
      assert BlackOut(s.a, t).log == s.a.log + [Transfer(id), Flush(id, t)];
      ReplaySend(s1.log, Flush(id, t));
    }
  }

  /** The traffic ends with the cursor of screen `t` being moved: a resource the host has over its pointer pages. */
  ghost predicate PointedLast(log: seq<Cmd>, t: nat) {
    && log != [] && Replay(log).Fine?
    && log[|log| - 1].MoveCursor? && log[|log| - 1].screen == t
    && var id, h := log[|log| - 1].id, Replay(log).h;
       && id in h.res && h.res[id].attached && h.res[id].place == Cursor(t)
  }

  /**
    A new pointer shape, or a move of the one there is, points the host at the screen's own cursor;
    a new one is 128 by 128, over the sixteen pages that hold its four-byte pixels.
   */
  lemma CursorPointed(s: Sys, a: Step)
    requires Reachable(s) && Wide(s) && Enabled(s, a) && (a.Pointer? || a.Move?)
    ensures var b := Next(s, a).a;
            && (a.Pointer? || s.a.screens[a.t].cursor.Obj? ==>
                  && PointedLast(b.log, a.t) && b.screens[a.t].cursor == Obj(b.log[|b.log| - 1].id))
            && (a.Pointer? ==>
                  && |b.log| >= 2
                  && b.log[|b.log| - 2] == Create(b.log[|b.log| - 1].id, Cursor(a.t), Image(0, 128, 128, 128, 16)))
            && (a.Move? ==> b.screens == s.a.screens && (s.a.screens[a.t].cursor.NoObj? ==> b == s.a))
  {
    ReachableInv(s);
    StepKeepsInv(s, a);
    CursorLast(s.a, a.t);
    hide Inv, PointedLast, SetCursor, Reachable, StallOk, FlushOk;
    if Next(s, a).a.screens[a.t].cursor.Obj? {
      PointedAt(Next(s, a).a, a.t);
    }
  }

  lemma CursorLast(s: Adapter, t: nat)
    requires t < |s.screens|
    ensures var b := SetCursor(s, t);
            && |b.screens| == |s.screens| && b.screens[t].cursor.Obj? && b.log != []
            && b.log[|b.log| - 1] == MoveCursor(t, b.screens[t].cursor.id)
            && |b.log| >= 2
            && b.log[|b.log| - 2] == Create(b.screens[t].cursor.id, Cursor(t), Image(0, 128, 128, 128, 16))
    ensures var b := PointAt(s, t);
            s.screens[t].cursor.Obj? ==> b.log != [] && b.log[|b.log| - 1] == MoveCursor(t, s.screens[t].cursor.id)
  {
  }

  lemma PointedAt(b: Adapter, t: nat)
    requires Inv(b) && t < SCREENS && b.screens[t].cursor.Obj?
    requires b.log != [] && b.log[|b.log| - 1] == MoveCursor(t, b.screens[t].cursor.id)
    ensures PointedLast(b.log, t)
  {
    assert Owns(b, Cursor(t), b.screens[t].cursor.id);
  }

  lemma {:induction false} StaysHidden(log: seq<Cmd>, m: nat, k: nat, t: nat)
    requires Replay(log).Fine? && m <= k <= |log| && Replay(log[..m]).Fine? && t !in Replay(log[..m]).h.shown
    requires forall j | m <= j < k :: !log[j].SetScanout?
    ensures Replay(log[..k]).Fine? && t !in Replay(log[..k]).h.shown
    decreases k
  {
    if m < k {
      StaysHidden(log, m, k - 1, t);
      Served(log, k - 1);
    }
  }

  /**
    A release points the host away from the screen before anything else: from its first command on
    the host shows nothing there, while the resource is still attached and its pages locked.
   */
  lemma ReleaseHides(s: Sys, t: nat, m: nat)
    requires Reachable(s) && Wide(s) && Enabled(s, ReleaseFb(t))
    requires |s.a.log| < m <= |Next(s, ReleaseFb(t)).a.log|
    ensures var log, scr := Next(s, ReleaseFb(t)).a.log, s.a.screens[t];
            && Replay(log[..m]).Fine? && t !in Replay(log[..m]).h.shown
            && (m == |s.a.log| + 1 && scr.front.Obj? ==>
                  Attached(log, m, scr.front.id, Frame(t)) && Frame(t) in Replay(log[..m]).h.locked)
    ensures var b := Next(s, ReleaseFb(t)).a.screens;
            && t < |b| && b[t].front.NoObj? && b[t].segment.Closed?
            && b[t].srcAddr == 0 && b[t].flushCount == 0 && b[t].stallCount == 0
  {
    ReachableInv(s);
    HidesFirst(s.a, t);
    ReleaseKeeps(s.a, t);
    StaysHidden(Release(s.a, t).log, |s.a.log| + 1, m, t);
    ReleaseCounts(s.a, t);
  }

  lemma HidesFirst(s: Adapter, t: nat)
    requires Inv(s) && t < SCREENS
    ensures var log, n := Release(s, t).log, |s.log|;
            && n < |log| && Replay(log[..n + 1]).Fine? && t !in Replay(log[..n + 1]).h.shown
            && (forall j | n < j < |log| :: !log[j].SetScanout?)
            && (s.screens[t].front.Obj? ==>
                  Attached(log, n + 1, s.screens[t].front.id, Frame(t)) && Frame(t) in Replay(log[..n + 1]).h.locked)
  {
    var off, rest := SetScanout(t, 0, 0), DestroyCmds(s.screens[t].front) + CloseCmds(s.screens[t].segment, Frame(t));
    ReleaseLog(s, t);
    OffServed(s, t);
    hide Inv, Release, Replay, DestroyCmds, CloseCmds, Attached;
    FirstEntry(s.log, off, rest);
  }

  lemma ReleaseLog(s: Adapter, t: nat)
    requires t < |s.screens|
    ensures var rest := DestroyCmds(s.screens[t].front) + CloseCmds(s.screens[t].segment, Frame(t));
            && Release(s, t).log == s.log + ([SetScanout(t, 0, 0)] + rest)
            && forall i | 0 <= i < |rest| :: !rest[i].SetScanout?
  {
    ReleaseSends(s, t);
    hide Release;
    var d, c := DestroyCmds(s.screens[t].front), CloseCmds(s.screens[t].segment, Frame(t));
    assert [SetScanout(t, 0, 0)] + d + c == [SetScanout(t, 0, 0)] + (d + c);
  }

  lemma OffServed(s: Adapter, t: nat)
    requires Inv(s) && t < SCREENS
    ensures var log := s.log + [SetScanout(t, 0, 0)];
            && Replay(log).Fine? && t !in Replay(log).h.shown
            && forall full: seq<Cmd> | |log| <= |full| && full[..|log|] == log && s.screens[t].front.Obj? ::
                 Attached(full, |log|, s.screens[t].front.id, Frame(t)) && Frame(t) in Replay(full[..|log|]).h.locked
  {
    ReplaySend(s.log, SetScanout(t, 0, 0));
    if s.screens[t].front.Obj? {
      assert At(s, Frame(t)) == s.screens[t].front;
      assert Owns(s, Frame(t), s.screens[t].front.id) && Frame(t) in Replay(s.log).h.locked;
    }
  }

  lemma FirstEntry(log: seq<Cmd>, c: Cmd, w: seq<Cmd>)
    ensures (log + ([c] + w))[..|log| + 1] == log + [c]
    ensures (forall i | 0 <= i < |w| :: !w[i].SetScanout?) ==>
              forall j | |log| < j < |log + ([c] + w)| :: !(log + ([c] + w))[j].SetScanout?
  {
  }

  // ---------------------------------------------------------------- the flush counter

  /** The counter of screen `x` moved with the flushes sent to it. */
  ghost predicate Balanced(a: Adapter, b: Adapter, x: nat) {
    && x < |a.screens| == |b.screens|
    && b.screens[x].flushCount - a.screens[x].flushCount == Sent(b.log, x) - Sent(a.log, x)
  }

  lemma SilentBalances(a: Adapter, b: Adapter, x: nat)
    requires Silent(a, b) && x < |a.screens|
    ensures Balanced(a, b, x)
  {
  }

  lemma ProceedBalances(s: Sys, lockOk: bool, x: nat)
    requires Reachable(s) && Wide(s) && s.call.Running? && x < SCREENS
    ensures Balanced(s.a, Work(s.a, s.call.r, lockOk).0, x)
  {
    hide Work, Inv, Reachable;
    FlushReachesHost(s, lockOk);
    WorkCounts(s.a, s.call.r, lockOk);
  }

  lemma BlankBalances(s: Sys, t: nat, x: nat)
    requires Reachable(s) && Wide(s) && Enabled(s, Blank(t)) && x < SCREENS
    ensures Balanced(s.a, BlackOut(s.a, t), x)
  {
    BlackOutFlushes(s, t);
    assert Only(s.a, BlackOut(s.a, t), t);
    hide Reachable, Replay, BlackOut, FlushedLast;
  }

  lemma QuietBalances(s: Adapter, t: nat, x: nat)
    requires t < |s.screens| && x < |s.screens| == SCREENS
    ensures Balanced(s, SetCursor(s, t), x) && Balanced(s, PointAt(s, t), x) && Balanced(s, Shutdown(s), x)
  {
    PointerSilent(s, t);
    if s.screens[t].cursor.Obj? { SendSilent(s, MoveCursor(t, s.screens[t].cursor.id)); }
    ShutdownSilent(s, SCREENS);
    ShutdownSilent(DestroyAll(s, SCREENS), SCREENS);
    assert |DestroyAll(s, SCREENS).screens| == SCREENS;
    hide SetCursor, DestroyAll, CloseAll;
    SilentThen(s, DestroyAll(s, SCREENS), Shutdown(s));
    hide Shutdown, Silent;
    SilentBalances(s, SetCursor(s, t), x);
    SilentBalances(s, PointAt(s, t), x);
    SilentBalances(s, Shutdown(s), x);
  }

  lemma RestBalances(s: Sys, a: Step, x: nat)
    requires Reachable(s) && Wide(s) && Enabled(s, a) && x < SCREENS
    requires !a.Arrive? && !a.FlushDone? && !a.ReleaseFb?
    ensures Balanced(s.a, Next(s, a).a, x) && Next(s, a).answered == s.answered
  {
    hide Work, BlackOut, SetCursor, PointAt, Shutdown, Reachable;
    match a
    case Proceed(lockOk) => ProceedBalances(s, lockOk, x);
    case Blank(t) => BlankBalances(s, t, x);
    case Pointer(t) => QuietBalances(s.a, t, x);
    case Move(t) => QuietBalances(s.a, t, x);
    case Exit => QuietBalances(s.a, 0, x);
    case _ =>
  }

  lemma ReleaseBalances(s: Adapter, t: nat, x: nat)
    requires t < |s.screens| && x < |s.screens|
    ensures |Release(s, t).screens| == |s.screens|
    ensures if x == t then Release(s, t).screens[x].flushCount == 0 else Balanced(s, Release(s, t), x)
  {
    ReleaseCounts(s, t);
    ReleaseSends(s, t);
    hide Release;
    NoFlush(s, [SetScanout(t, 0, 0)] + DestroyCmds(s.screens[t].front) + CloseCmds(s.screens[t].segment, Frame(t)));
  }

  ghost predicate CounterStep(s: Sys, a: Step, s': Sys, x: nat)
    requires Wide(s) && Wide(s') && x < SCREENS
  {
    var c, c' := s.a.screens[x].flushCount, s'.a.screens[x].flushCount;
    if a == ReleaseFb(x) || (a == FlushDone(x) && c == 0) then c' == 0
    else if a.Arrive? && s'.call.Running? && a.r.screen == x then c' == 0
    else c' + Sent(s.a.log, x) + s'.answered[x] == c + Sent(s'.a.log, x) + s.answered[x]
  }

  /**
    How the counter of screen `x` moves with every step: it follows flushes sent less completions
    handled, but for a release and a request let through, which clear it, and a completion that
    finds it clear.
   */
  lemma CounterMoves(s: Sys, a: Step, x: nat)
    requires Reachable(s) && Wide(s) && Enabled(s, a) && x < SCREENS
    ensures Wide(Next(s, a)) && CounterStep(s, a, Next(s, a), x)
  {
    CounterBounded(s, x);
    ReachableInv(s);
    StepKeepsInv(s, a);
    hide Reachable, SysInv, CounterStep, Next;
    if a.Arrive? { ArriveStep(s, a.r, x); }
    else if a.FlushDone? { CompleteStep(s, a.t, x); }
    else if a.ReleaseFb? { ReleaseStep(s, a.t, x); }
    else { RestStep(s, a, x); }
  }

  lemma ArriveStep(s: Sys, r: Request, x: nat)
    requires Reachable(s) && Wide(s) && Enabled(s, Arrive(r)) && x < SCREENS && Wide(Next(s, Arrive(r)))
    ensures CounterStep(s, Arrive(r), Next(s, Arrive(r)), x)
  {
    ArriveMoves(s, r, x);
    hide Reachable, Next;
  }

  lemma CompleteStep(s: Sys, t: nat, x: nat)
    requires Wide(s) && Enabled(s, FlushDone(t)) && x < SCREENS && s.a.screens[x].flushCount >= 0
    ensures CounterStep(s, FlushDone(t), Next(s, FlushDone(t)), x)
  {
  }

  lemma ReleaseStep(s: Sys, t: nat, x: nat)
    requires Wide(s) && Enabled(s, ReleaseFb(t)) && x < SCREENS && Wide(Next(s, ReleaseFb(t)))
    ensures CounterStep(s, ReleaseFb(t), Next(s, ReleaseFb(t)), x)
  {
    ReleaseBalances(s.a, t, x);
    hide Release;
  }

  lemma RestStep(s: Sys, a: Step, x: nat)
    requires Reachable(s) && Wide(s) && Enabled(s, a) && x < SCREENS && Wide(Next(s, a))
    requires !a.Arrive? && !a.FlushDone? && !a.ReleaseFb?
    ensures CounterStep(s, a, Next(s, a), x)
  {
    RestBalances(s, a, x);
    hide Reachable, Next;
  }

  lemma ArriveMoves(s: Sys, r: Request, x: nat)
    requires Reachable(s) && Wide(s) && Enabled(s, Arrive(r)) && x < SCREENS
    ensures var s' := Next(s, Arrive(r));
            && s'.a.log == s.a.log && s'.answered == s.answered
            && (if s'.call.Running? && r.screen == x then s'.a.screens[x].flushCount == 0
                else s'.a.screens[x].flushCount == s.a.screens[x].flushCount)
  {
    DroppedIff(s, r);
  }

  lemma NoFlush(s: Adapter, w: seq<Cmd>)
    requires forall i | 0 <= i < |w| :: !w[i].Flush?
    ensures forall x: nat :: Sent(s.log + w, x) == Sent(s.log, x)
  {
    forall x: nat
      ensures Sent(s.log + w, x) == Sent(s.log, x)
    {
      SentAppend(s.log, w, x);
      NoneSent(w, x);
    }
  }

  lemma {:induction false} NoneSent(w: seq<Cmd>, x: nat)
    requires forall i | 0 <= i < |w| :: !w[i].Flush?
    ensures Sent(w, x) == 0
  {
    if w != [] {
      NoneSent(w[..|w| - 1], x);
    }
  }

  lemma PointerSilent(s: Adapter, t: nat)
    requires t < |s.screens|
    ensures Silent(s, SetCursor(s, t))
  {
    var p := Cursor(t);
    var s1 := Destroy(s, p);
    DestroySilent(s, p);
    SegmentSilent(s1, p, Open(0, CursorImage().pages), Lock(p));
    var s2 := if SegmentOf(s1, p).Closed? then OpenSegment(s1, p, 0, CursorImage().pages) else s1;
    var id := NextId(s2);
    var s3 := Send(TakeId(s2), Create(id, p, CursorImage()));
    SendSilent(TakeId(s2), Create(id, p, CursorImage()));
    SendSilent(WithObj(s3, p, Obj(id)), MoveCursor(t, id));
  }

  lemma {:induction false} ShutdownSilent(s: Adapter, n: nat)
    requires n <= |s.screens|
    ensures Silent(s, DestroyAll(s, n)) && Silent(s, CloseAll(s, n))
  {
    if n > 0 {
      ShutdownSilent(s, n - 1);
      var d, c := DestroyAll(s, n - 1), CloseAll(s, n - 1);
      RoundSilent(d, n - 1);
      RoundSilent(c, n - 1);
      assert DestroyAll(s, n) == DestroyScreen(d, n - 1);
      hide DestroyScreen, DestroyAll, CloseSegment;
      SilentThen(s, d, DestroyAll(s, n));
      SilentThen(s, c, CloseAll(s, n));
    }
  }

  lemma SilentThen(a: Adapter, b: Adapter, c: Adapter)
    requires Silent(a, b) && Silent(b, c)
    ensures Silent(a, c)
  {
  }

  lemma RoundSilent(s: Adapter, t: nat)
    requires t < |s.screens|
    ensures Silent(s, DestroyScreen(s, t)) && Silent(s, CloseSegment(CloseSegment(s, Frame(t)), Cursor(t)))
  {
    DestroySilent(s, Frame(t));
    SendSilent(Destroy(s, Frame(t)), SetScanout(0, 0, 0));
    DestroySilent(if s.screens[t].front.NoObj? then s else Send(Destroy(s, Frame(t)), SetScanout(0, 0, 0)), Cursor(t));
    SegmentSilent(s, Frame(t), Closed, Unlock(Frame(t)));
    SegmentSilent(CloseSegment(s, Frame(t)), Cursor(t), Closed, Unlock(Cursor(t)));
  }
}
