/**
  Every step of the scanout machine keeps the adapter in agreement with what the host has seen.
 */
module ScanoutProofs {
  import opened Common
  import opened IdAllocator
  import opened HostTrace
  import opened ScanoutModel

  predicate Owns(s: Adapter, p: Place, id: nat) {
    At(s, p) == Obj(id)
  }

  /** Host resources are exactly the live objects, each attached and at its place; so are the id bits. */
  ghost predicate ResOk(s: Adapter, res: map<nat, Res>) {
    && (forall p, id | Owns(s, p, id) :: id in res && res[id].place == p)
    && (forall id | id in res :: Owns(s, res[id].place, id) && res[id].attached)
  }

  ghost predicate BitsOk(bits: seq<bool>, res: map<nat, Res>) {
    && |bits| == ID_BITS && bits[0]
    && (forall i | 0 < i < |bits| :: bits[i] <==> i in res)
    && (forall id | id in res :: 0 < id < |bits|)
  }

  /** Locked pages are those of the open segments; an object never outlives its segment. */
  ghost predicate PagesOk(s: Adapter, locked: set<Place>) {
    && (forall p :: p in locked <==> SegmentOf(s, p).Open?)
    && (forall p | At(s, p).Obj? :: SegmentOf(s, p).Open?)
  }

  /** What a front resource was built from is what the screen remembers, unless the address was forgotten. */
  ghost predicate Remembers(scr: Screen, i: Image) {
    && i.width == scr.width && i.height == scr.height && i.stride == scr.stride
    && (scr.srcAddr != 0 ==> i.addr == scr.srcAddr)
  }

  /** It is the screen's present segment. */
  ghost predicate Backed(g: Segment, i: Image) {
    g.Open? && i.addr == g.addr && i.pages == g.pages
  }

  ghost predicate FrontOk(s: Adapter, h: Host, t: nat)
    requires t < |s.screens|
  {
    s.screens[t].front.Obj? ==>
      var id := s.screens[t].front.id;
      && id in h.res && Remembers(s.screens[t], h.res[id].image) && Backed(s.screens[t].segment, h.res[id].image)
      && t in h.shown && h.shown[t].0 == id
  }

  ghost predicate FrontsOk(s: Adapter, h: Host) {
    forall t | 0 <= t < |s.screens| :: FrontOk(s, h, t)
  }

  ghost predicate Agrees(s: Adapter, h: Host) {
    && Shape(s) && ResOk(s, h.res) && BitsOk(s.bits, h.res) && PagesOk(s, h.locked) && FrontsOk(s, h)
  }

  ghost predicate Inv(s: Adapter) {
    Replay(s.log).Fine? && Agrees(s, Replay(s.log).h)
  }

  // ---------------------------------------------------------------- ids

  function Code(p: Place): nat {
    match p case Frame(t) => t case Cursor(t) => SCREENS + t
  }

  predicate Coded(s: Adapter, h: Host, id: nat, code: nat) {
    id in h.res && OnScreen(s, h.res[id].place) && code == Code(h.res[id].place)
  }

  /** At most eight ids are live, so the allocator never runs out. */
  lemma IdAvailable(s: Adapter, h: Host)
    requires Agrees(s, h)
    ensures 0 < NextId(s) <= 2 * SCREENS + 1 && NextId(s) !in h.res && !s.bits[NextId(s)]
    ensures TakeId(s) == s.(bits := s.bits[NextId(s) := true])
  {
    var n := FirstClear(s.bits, 0);
    if n > 9 {
      var codes := seq(9, i requires 0 <= i < 9 => if i + 1 in h.res then Code(h.res[i + 1].place) else 0);
      forall i | 0 <= i < 9
        ensures Coded(s, h, i + 1, codes[i])
      {
        assert s.bits[i + 1];
        assert Owns(s, h.res[i + 1].place, i + 1);
      }
      CodesDistinct(s, h, codes);
      Pigeonhole(codes, 8);
    }
  }

  lemma CodesDistinct(s: Adapter, h: Host, codes: seq<nat>)
    requires Agrees(s, h) && forall i | 0 <= i < |codes| :: Coded(s, h, i + 1, codes[i])
    ensures NoDup(codes) && Below(codes, 8)
  {
    forall i, j | 0 <= i < j < |codes|
      ensures codes[i] != codes[j]
    {
      assert Coded(s, h, i + 1, codes[i]) && Coded(s, h, j + 1, codes[j]);
      assert Owns(s, h.res[i + 1].place, i + 1) && Owns(s, h.res[j + 1].place, j + 1);
    }
  }

  // ---------------------------------------------------------------- building blocks

  /** Changing nothing but counters, modes, or forgetting the address of a screen. */
  lemma ScreenKeeps(s: Adapter, t: nat, scr: Screen)
    requires Inv(s) && t < SCREENS
    requires var o := s.screens[t];
             && scr.front == o.front && scr.segment == o.segment && scr.cursor == o.cursor &&
               scr.cursorSegment == o.cursorSegment
             && (scr.front.Obj? ==>
                   && scr.width == o.width && scr.height == o.height && scr.stride == o.stride
                   && (scr.srcAddr == o.srcAddr || scr.srcAddr == 0))
    ensures Inv(SetScreen(s, t, scr))
  {
    var s', h := SetScreen(s, t, scr), Replay(s.log).h;
    assert forall p :: At(s', p) == At(s, p) && SegmentOf(s', p) == SegmentOf(s, p);
    SameParts(s, s', h);
    forall x | 0 <= x < SCREENS
      ensures FrontOk(s', h, x)
    {
      assert FrontOk(s, h, x);
    }
  }

  lemma SameParts(s: Adapter, s': Adapter, h: Host)
    requires ResOk(s, h.res) && PagesOk(s, h.locked)
    requires forall p :: At(s', p) == At(s, p) && SegmentOf(s', p) == SegmentOf(s, p)
    ensures ResOk(s', h.res) && PagesOk(s', h.locked)
  {
    assert forall p, id :: Owns(s', p, id) <==> Owns(s, p, id);
  }

  /** A command that names a live resource, or none, and leaves the host's resources alone. */
  lemma UseKeeps(s: Adapter, c: Cmd)
    requires Inv(s)
    requires match c
             case Transfer(id) => id in Replay(s.log).h.res
             case Flush(id, _) => id in Replay(s.log).h.res
             case MoveCursor(_, id) => id in Replay(s.log).h.res
             case SetScanout(t, id, _) => id == 0 && (t < SCREENS ==> s.screens[t].front.NoObj?)
             case _ => false
    ensures Inv(Send(s, c))
  {
    ReplaySend(s.log, c);
    var h, h' := Replay(s.log).h, HostStep(Replay(s.log).h, c).h;
    SameParts(s, Send(s, c), h);
    forall x | 0 <= x < SCREENS
      ensures FrontOk(Send(s, c), h', x)
    {
      assert FrontOk(s, h, x);
    }
  }

  lemma OwnedIsLive(s: Adapter, p: Place)
    requires Inv(s) && At(s, p).Obj?
    ensures At(s, p).id in Replay(s.log).h.res
  {
    assert Owns(s, p, At(s, p).id);
  }

  /** After `Detach`, `Unref`: the host without the resource. */
  function HostWithout(h: Host, id: nat): Host {
    h.(res := h.res - {id}, shown := map t | t in h.shown && h.shown[t].0 != id :: h.shown[t])
  }

  lemma DestroyTrace(log: seq<Cmd>, id: nat)
    requires Replay(log).Fine? && Usable(Replay(log).h, id)
    ensures Replay(log + [Detach(id)] + [Unref(id)]) == Fine(HostWithout(Replay(log).h, id))
  {
    ReplaySend(log, Detach(id));
    ReplaySend(log + [Detach(id)], Unref(id));
    var h := Replay(log).h;
    assert h.res[id := h.res[id].(attached := false)] - {id} == h.res - {id};
  }

  lemma DestroyKeeps(s: Adapter, p: Place)
    requires Inv(s) && OnScreen(s, p)
    ensures Inv(Destroy(s, p)) && At(Destroy(s, p), p).NoObj?
  {
    if At(s, p).Obj? {
      var id, h, s' := At(s, p).id, Replay(s.log).h, Destroy(s, p);
      assert Owns(s, p, id);
      DestroyTrace(s.log, id);
      DestroyRes(s, s', h, p, id);
      DestroyPages(s, s', h, p);
      DestroyFronts(s, s', h, p, id);
    }
  }

  lemma DestroyRes(s: Adapter, s': Adapter, h: Host, p: Place, id: nat)
    requires Shape(s) && ResOk(s, h.res) && BitsOk(s.bits, h.res) && OnScreen(s, p) && Owns(s, p, id)
    requires s'.screens == WithObj(s, p, NoObj).screens && s'.bits ==
             if id < |s.bits| then s.bits[id := false] else s.bits
    ensures ResOk(s', HostWithout(h, id).res) && BitsOk(s'.bits, HostWithout(h, id).res)
  {
    var h' := HostWithout(h, id);
    forall q, x | Owns(s', q, x)
      ensures x in h'.res && h'.res[x].place == q
    {
      assert Owns(s, q, x);
    }
    forall x | x in h'.res
      ensures Owns(s', h'.res[x].place, x) && h'.res[x].attached
    {
      assert Owns(s, h.res[x].place, x);
    }
  }

  lemma DestroyPages(s: Adapter, s': Adapter, h: Host, p: Place)
    requires Shape(s) && PagesOk(s, h.locked) && OnScreen(s, p) && s'.screens == WithObj(s, p, NoObj).screens
    ensures PagesOk(s', h.locked)
  {
    forall q
      ensures SegmentOf(s', q) == SegmentOf(s, q)
      ensures At(s', q).Obj? ==> At(s, q).Obj?
    {
    }
  }

  lemma DestroyFronts(s: Adapter, s': Adapter, h: Host, p: Place, id: nat)
    requires Shape(s) && FrontsOk(s, h) && ResOk(s, h.res) && OnScreen(s, p) && Owns(s, p, id)
    requires s'.screens == WithObj(s, p, NoObj).screens
    ensures FrontsOk(s', HostWithout(h, id))
  {
    forall t | 0 <= t < SCREENS
      ensures FrontOk(s', HostWithout(h, id), t)
    {
      if s'.screens[t].front.Obj? {
        assert FrontOk(s, h, t) && Owns(s, Frame(t), s.screens[t].front.id);
        assert p != Frame(t);
      }
    }
  }

  lemma CloseKeeps(s: Adapter, p: Place)
    requires Inv(s) && OnScreen(s, p) && At(s, p).NoObj?
    ensures Inv(CloseSegment(s, p)) && SegmentOf(CloseSegment(s, p), p).Closed? && At(CloseSegment(s, p), p).NoObj?
  {
    if SegmentOf(s, p).Open? {
      var h, s' := Replay(s.log).h, CloseSegment(s, p);
      forall id | id in h.res
        ensures h.res[id].place != p
      {
        assert Owns(s, h.res[id].place, id);
      }
      ReplaySend(s.log, Unlock(p));
      SegmentChange(s, s', h, p, Closed);
    }
  }

  lemma SegmentChange(s: Adapter, s': Adapter, h: Host, p: Place, g: Segment)
    requires Agrees(s, h) && OnScreen(s, p) && At(s, p).NoObj?
    requires s'.screens == WithSegment(s, p, g).screens && s'.bits == s.bits
    ensures Agrees(s', h.(locked := if g.Open? then h.locked + {p} else h.locked - {p})) && At(s', p).NoObj?
  {
    var h' := h.(locked := if g.Open? then h.locked + {p} else h.locked - {p});
    forall q
      ensures At(s', q) == At(s, q) && SegmentOf(s', q) == if q == p then g else SegmentOf(s, q)
    {
    }
    assert forall q, id :: Owns(s', q, id) <==> Owns(s, q, id);
    forall t | 0 <= t < SCREENS
      ensures FrontOk(s', h', t)
    {
      assert FrontOk(s, h, t);
    }
  }

  lemma OpenKeeps(s: Adapter, p: Place, addr: nat, pages: nat)
    requires Inv(s) && OnScreen(s, p) && At(s, p).NoObj? && SegmentOf(s, p).Closed?
    ensures Inv(OpenSegment(s, p, addr, pages)) && At(OpenSegment(s, p, addr, pages), p).NoObj?
    ensures SegmentOf(OpenSegment(s, p, addr, pages), p) == Open(addr, pages)
  {
    ReplaySend(s.log, Lock(p));
    SegmentChange(s, OpenSegment(s, p, addr, pages), Replay(s.log).h, p, Open(addr, pages));
  }

  // ---------------------------------------------------------------- new resources

  /** The host accepts a fresh id over a locked segment. */
  lemma CreateTrace(log: seq<Cmd>, id: nat, p: Place, image: Image)
    requires Replay(log).Fine? && id != 0 && id !in Replay(log).h.res && p in Replay(log).h.locked
    ensures var h := Replay(log).h;
            Replay(log + [Create(id, p, image)]) == Fine(h.(res := h.res[id := Res(p, image, true)]))
  {
    ReplaySend(log, Create(id, p, image));
  }

  lemma NewOwner(s: Adapter, s': Adapter, h: Host, p: Place, id: nat, r: Res)
    requires Agrees(s, h) && OnScreen(s, p) && At(s, p).NoObj? && SegmentOf(s, p).Open?
    requires 0 < id < |s.bits| && id !in h.res && r.place == p && r.attached
    requires s'.bits == s.bits[id := true] && |s'.screens| == |s.screens|
    requires forall q :: At(s', q) == (if q == p then Obj(id) else At(s, q)) && SegmentOf(s', q) == SegmentOf(s, q)
    ensures ResOk(s', h.res[id := r]) && BitsOk(s'.bits, h.res[id := r]) && PagesOk(s', h.locked)
  {
    var res' := h.res[id := r];
    forall q, x | Owns(s', q, x)
      ensures x in res' && res'[x].place == q
    {
      if q != p {
        assert Owns(s, q, x);
      }
    }
    forall x | x in res'
      ensures Owns(s', res'[x].place, x) && res'[x].attached
    {
      if x != id {
        assert Owns(s, h.res[x].place, x);
      }
    }
  }

  lemma PublishTrace(log: seq<Cmd>, t: nat, id: nat, image: Image, format: nat)
    requires Replay(log).Fine? && id != 0 && id !in Replay(log).h.res && Frame(t) in Replay(log).h.locked
    ensures var h := Replay(log).h;
            Replay(log + [Create(id, Frame(t), image)] + [Clear(Frame(t))] + [SetScanout(t, id, format)]
                   + [Flush(id, t)])
            == Fine(h.(res := h.res[id := Res(Frame(t), image, true)], shown := h.shown[t := (id, format)]))
  {
    CreateTrace(log, id, Frame(t), image);
    var made := log + [Create(id, Frame(t), image)];
    ReplaySend(made, Clear(Frame(t)));
    ReplaySend(made + [Clear(Frame(t))], SetScanout(t, id, format));
    ReplaySend(made + [Clear(Frame(t))] + [SetScanout(t, id, format)], Flush(id, t));
  }

  lemma PublishKeeps(s: Adapter, t: nat, image: Image, format: nat)
    requires Inv(s) && t < SCREENS && s.screens[t].front.NoObj? && s.screens[t].segment.Open?
    requires Remembers(s.screens[t], image) && Backed(s.screens[t].segment, image)
    ensures Inv(Publish(s, t, image, format))
    ensures Publish(s, t, image, format).screens[t].front == Obj(NextId(s))
    ensures var h := Replay(Publish(s, t, image, format).log).h;
            NextId(s) in h.res && h.res[NextId(s)].image == image && t in h.shown && h.shown[t] == (NextId(s), format)
  {
    var h, id, s' := Replay(s.log).h, NextId(s), Publish(s, t, image, format);
    IdAvailable(s, h);
    assert SegmentOf(s, Frame(t)).Open? && At(s, Frame(t)).NoObj?;
    PublishTrace(s.log, t, id, image, format);
    PublishScreens(s, s', t, id);
    NewOwner(s, s', h, Frame(t), id, Res(Frame(t), image, true));
    var h' := h.(res := h.res[id := Res(Frame(t), image, true)], shown := h.shown[t := (id, format)]);
    forall x | 0 <= x < SCREENS
      ensures FrontOk(s', h', x)
    {
      assert FrontOk(s, h, x);
    }
  }

  lemma PublishScreens(s: Adapter, s': Adapter, t: nat, id: nat)
    requires Shape(s) && t < SCREENS
    requires s'.screens == s.screens[t := s.screens[t].(front := Obj(id), flushCount := s.screens[t].flushCount + 1)]
    ensures forall q :: && At(s', q) == (if q == Frame(t) then Obj(id) else At(s, q))
                        && SegmentOf(s', q) == SegmentOf(s, q)
  {
  }

  lemma PrepareKeeps(s: Adapter, r: Request, lockOk: bool)
    requires Inv(s) && r.screen < SCREENS && s.screens[r.screen].front.NoObj?
    ensures Inv(PrepareSegment(s, r, lockOk))
    ensures var o, n := s.screens[r.screen], PrepareSegment(s, r, lockOk).screens[r.screen];
            n == o.(segment := n.segment)
    ensures r.addr != 0 && PrepareSegment(s, r, lockOk).screens[r.screen].segment.Open? ==>
              PrepareSegment(s, r, lockOk).screens[r.screen].segment == Open(r.addr, Size(r))
    ensures r.addr != 0 && lockOk && Size(r) > 0 ==> PrepareSegment(s, r, lockOk).screens[r.screen].segment.Open?
  {
    var p := Frame(r.screen);
    assert At(s, p).NoObj?;
    CloseKeeps(s, p);
    if r.addr != 0 {
      if lockOk && Size(r) > 0 {
        OpenKeeps(CloseSegment(s, p), p, r.addr, Size(r));
      }
    } else if s.screens[r.screen].segment.Open? && Size(r) > s.screens[r.screen].segment.pages {
      OpenKeeps(CloseSegment(s, p), p, 0, Size(r));
    }
  }

  /** What the host shows on a screen: the image of the scanned-out resource, and its format. */
  ghost predicate Shows(s: Adapter, t: nat, image: Image, format: nat) {
    && Replay(s.log).Fine?
    && var h := Replay(s.log).h;
       t in h.shown && h.shown[t].0 in h.res && h.res[h.shown[t].0].image == image && h.shown[t].1 == format
  }

  lemma RebuildKeeps(s: Adapter, r: Request, lockOk: bool)
    requires Inv(s) && r.screen < SCREENS
    ensures Inv(Rebuild(s, r, lockOk))
    ensures r.addr != 0 && ((lockOk && Size(r) > 0) || Rebuild(s, r, lockOk).screens[r.screen].front.Obj?) ==>
              Rebuild(s, r, lockOk).screens[r.screen].front.Obj? &&
              Shows(Rebuild(s, r, lockOk), r.screen, Image(r.addr, r.width, r.height, r.stride, Size(r)), r.format)
  {
    var t, p := r.screen, Frame(r.screen);
    var s1 := Destroy(s, p);
    DestroyKeeps(s, p);
    assert s1.screens[t].front.NoObj?;
    var s2 := WithIdentity(s1, t, r.addr, r.width, r.height, r.stride);
    ScreenKeeps(s1, t, s2.screens[t]);
    PrepareKeeps(s2, r, lockOk);
    var s3 := PrepareSegment(s2, r, lockOk);
    if SegmentFits(s3.screens[t].segment, r) {
      PublishKeeps(s3, t, ImageOf(s3.screens[t].segment, r), r.format);
    }
  }

  lemma OneMoreKeeps(s: Adapter, t: nat)
    requires Inv(s) && t < SCREENS
    ensures Inv(OneMoreFlush(s, t)) && OneMoreFlush(s, t).log == s.log
  {
    ScreenKeeps(s, t, s.screens[t].(flushCount := s.screens[t].flushCount + 1));
  }

  /** Counting a flush and sending it. */
  lemma FlushSent(s: Adapter, t: nat, id: nat)
    requires Inv(s) && t < SCREENS && id in Replay(s.log).h.res
    ensures Inv(CountedFlush(s, t, id))
  {
    OneMoreKeeps(s, t);
    UseKeeps(OneMoreFlush(s, t), Flush(id, t));
  }

  lemma FlushKeeps(s: Adapter, t: nat)
    requires Inv(s) && t < SCREENS
    ensures Inv(FlushFront(s, t))
  {
    assert Shape(s);
    if s.screens[t].front.Obj? {
      OwnedIsLive(s, Frame(t));
      FlushSent(s, t, s.screens[t].front.id);
    }
  }

  lemma ModeKeeps(s: Adapter, r: Request, lockOk: bool)
    requires Inv(s) && r.screen < SCREENS
    ensures Inv(SetCurrentMode(s, r, lockOk).0)
  {
    var t := r.screen;
    if Listed(s.screens[t], r) {
      var gate := Backpressure(s.screens[t], r.setMode);
      ScreenKeeps(s, t, gate.scr);
      if gate.Pass? {
        WorkKeeps(SetScreen(s, t, gate.scr), r, lockOk);
      }
    }
  }

  lemma WorkKeeps(s: Adapter, r: Request, lockOk: bool)
    requires Inv(s) && r.screen < SCREENS
    ensures Inv(Work(s, r, lockOk).0)
  {
    if BackingChanged(s.screens[r.screen], r) {
      RebuildKeeps(s, r, lockOk);
    } else {
      FlushKeeps(s, r.screen);
    }
  }

  // ---------------------------------------------------------------- the other operations

  lemma BlackOutKeeps(s: Adapter, t: nat)
    requires Inv(s) && t < SCREENS
    ensures Inv(BlackOut(s, t))
  {
    assert Shape(s);
    if s.screens[t].front.Obj? {
      var id := s.screens[t].front.id;
      OwnedIsLive(s, Frame(t));
      UseKeeps(s, Transfer(id));
      ReplaySend(s.log, Transfer(id));
      FlushSent(Send(s, Transfer(id)), t, id);
    }
  }

  /** Turning a scanout off just before its front is destroyed. */
  lemma ScanoutOff(s: Adapter, t: nat)
    requires Inv(s) && t < SCREENS
    ensures Inv(Destroy(Send(s, SetScanout(t, 0, 0)), Frame(t)))
    ensures At(Destroy(Send(s, SetScanout(t, 0, 0)), Frame(t)), Frame(t)).NoObj?
  {
    var off, p := SetScanout(t, 0, 0), Frame(t);
    if s.screens[t].front.NoObj? {
      UseKeeps(s, off);
    } else {
      DestroyKeeps(s, p);
      var id, h := s.screens[t].front.id, Replay(s.log).h;
      OwnedIsLive(s, p);
      assert Owns(s, p, id);
      DestroyTrace(s.log, id);
      ReplaySend(s.log, off);
      DestroyTrace(s.log + [off], id);
      UseKeeps(Destroy(s, p), off);
      ReplaySend(Destroy(s, p).log, off);
      SameHost(h, t, id);
      OffCommutes(s, t, off);
    }
  }

  lemma SameHost(h: Host, t: nat, id: nat)
    ensures HostWithout(h.(shown := h.shown - {t}), id) == HostWithout(h, id).(shown := HostWithout(h, id).shown - {t})
  {
    assert HostWithout(h.(shown := h.shown - {t}), id).shown == HostWithout(h, id).shown - {t};
  }

  lemma OffCommutes(s: Adapter, t: nat, off: Cmd)
    requires t < |s.screens| && s.screens[t].front.Obj?
    requires Inv(Send(Destroy(s, Frame(t)), off))
    requires Replay(Destroy(Send(s, off), Frame(t)).log) == Replay(Send(Destroy(s, Frame(t)), off).log)
    ensures Inv(Destroy(Send(s, off), Frame(t)))
  {
    var a, b := Destroy(Send(s, off), Frame(t)), Send(Destroy(s, Frame(t)), off);
    assert a == b.(log := a.log);
    var h := Replay(a.log).h;
    SameParts(b, a, h);
    forall x | 0 <= x < |a.screens|
      ensures FrontOk(a, h, x)
    {
      assert FrontOk(b, h, x);
    }
  }

  lemma ReleaseKeeps(s: Adapter, t: nat)
    requires Inv(s) && t < SCREENS
    ensures Inv(Release(s, t))
  {
    ScanoutOff(s, t);
    var s1 := Destroy(Send(s, SetScanout(t, 0, 0)), Frame(t));
    CloseKeeps(s1, Frame(t));
    var s2 := CloseSegment(s1, Frame(t));
    var s3 := WithIdentity(s2, t, 0, 0, 0, 0);
    ScreenKeeps(s2, t, s3.screens[t]);
    ScreenKeeps(s3, t, s3.screens[t].(flushCount := 0, stallCount := 0));
  }

  lemma CursorScreens(s: Adapter, s': Adapter, t: nat, id: nat)
    requires Shape(s) && t < SCREENS && s'.screens == s.screens[t := s.screens[t].(cursor := Obj(id))]
    ensures forall q :: && At(s', q) == (if q == Cursor(t) then Obj(id) else At(s, q))
                        && SegmentOf(s', q) == SegmentOf(s, q)
  {
  }

  lemma NewCursorKeeps(s: Adapter, t: nat)
    requires Inv(s) && t < SCREENS && At(s, Cursor(t)).NoObj? && SegmentOf(s, Cursor(t)).Open?
    ensures var id, p := NextId(s), Cursor(t);
            Inv(Send(WithObj(Send(TakeId(s), Create(id, p, CursorImage())), p, Obj(id)), MoveCursor(t, id)))
  {
    var h, id, p := Replay(s.log).h, NextId(s), Cursor(t);
    IdAvailable(s, h);
    CreateTrace(s.log, id, p, CursorImage());
    var s' := WithObj(Send(TakeId(s), Create(id, p, CursorImage())), p, Obj(id));
    CursorScreens(s, s', t, id);
    NewOwner(s, s', h, p, id, Res(p, CursorImage(), true));
    var h' := h.(res := h.res[id := Res(p, CursorImage(), true)]);
    forall x | 0 <= x < SCREENS
      ensures FrontOk(s', h', x)
    {
      assert FrontOk(s, h, x);
    }
    assert Inv(s');
    UseKeeps(s', MoveCursor(t, id));
  }

  lemma SetCursorKeeps(s: Adapter, t: nat)
    requires Inv(s) && t < SCREENS
    ensures Inv(SetCursor(s, t))
  {
    var p := Cursor(t);
    DestroyKeeps(s, p);
    var s1 := Destroy(s, p);
    if SegmentOf(s1, p).Closed? {
      OpenKeeps(s1, p, 0, CursorImage().pages);
      NewCursorKeeps(OpenSegment(s1, p, 0, CursorImage().pages), t);
    } else {
      NewCursorKeeps(s1, t);
    }
  }

  lemma PointAtKeeps(s: Adapter, t: nat)
    requires Inv(s) && t < SCREENS
    ensures Inv(PointAt(s, t))
  {
    if s.screens[t].cursor.Obj? {
      OwnedIsLive(s, Cursor(t));
      UseKeeps(s, MoveCursor(t, s.screens[t].cursor.id));
    }
  }

  /** After `n` rounds of the teardown the first `n` screens own nothing. */
  ghost predicate Cleared(s: Adapter, n: nat) {
    n <= |s.screens| && forall t | 0 <= t < n :: s.screens[t].front.NoObj? && s.screens[t].cursor.NoObj?
  }

  /** One round of the teardown. */
  function DestroyScreen(s: Adapter, t: nat): Adapter
    requires t < |s.screens|
  {
    var s1 := if s.screens[t].front.NoObj? then s else Send(Destroy(s, Frame(t)), SetScanout(0, 0, 0));
    Destroy(s1, Cursor(t))
  }

  lemma DestroyScreenKeeps(s: Adapter, t: nat)
    requires Inv(s) && Cleared(s, t) && t < SCREENS
    ensures Inv(DestroyScreen(s, t)) && Cleared(DestroyScreen(s, t), t + 1)
  {
    if s.screens[t].front.NoObj? {
      DestroyKeeps(s, Cursor(t));
    } else {
      DestroyFrontReset(s, t);
      DestroyKeeps(Send(Destroy(s, Frame(t)), SetScanout(0, 0, 0)), Cursor(t));
    }
  }

  lemma DestroyFrontReset(s: Adapter, t: nat)
    requires Inv(s) && Cleared(s, t) && t < SCREENS
    ensures var s1 := Send(Destroy(s, Frame(t)), SetScanout(0, 0, 0));
            Inv(s1) && Cleared(s1, t) && s1.screens[t].front.NoObj?
  {
    DestroyKeeps(s, Frame(t));
    assert Destroy(s, Frame(t)).screens[t].front.NoObj?;
    UseKeeps(Destroy(s, Frame(t)), SetScanout(0, 0, 0));
  }

  lemma {:induction false} DestroyAllKeeps(s: Adapter, n: nat)
    requires Inv(s) && n <= SCREENS
    ensures Inv(DestroyAll(s, n)) && Cleared(DestroyAll(s, n), n)
  {
    if n > 0 {
      DestroyAllKeeps(s, n - 1);
      DestroyScreenKeeps(DestroyAll(s, n - 1), n - 1);
      assert DestroyAll(s, n) == DestroyScreen(DestroyAll(s, n - 1), n - 1);
    }
  }

  lemma CloseScreenKeeps(s: Adapter, t: nat)
    requires Inv(s) && Cleared(s, SCREENS) && t < SCREENS
    ensures var s' := CloseSegment(CloseSegment(s, Frame(t)), Cursor(t));
            && Inv(s') && Cleared(s', SCREENS)
            && s'.screens[t].segment.Closed? && s'.screens[t].cursorSegment.Closed?
            && forall x | 0 <= x < SCREENS && x != t :: s'.screens[x] == s.screens[x]
  {
    CloseKeeps(s, Frame(t));
    CloseKeeps(CloseSegment(s, Frame(t)), Cursor(t));
  }

  lemma {:induction false} CloseAllKeeps(s: Adapter, n: nat)
    requires Inv(s) && Cleared(s, SCREENS) && n <= SCREENS
    ensures Inv(CloseAll(s, n)) && Cleared(CloseAll(s, n), SCREENS)
    ensures forall t | 0 <= t < n ::
              CloseAll(s, n).screens[t].segment.Closed? && CloseAll(s, n).screens[t].cursorSegment.Closed?
  {
    if n > 0 {
      CloseAllKeeps(s, n - 1);
      CloseScreenKeeps(CloseAll(s, n - 1), n - 1);
    }
  }

  lemma OwnsNothing(s: Adapter, p: Place)
    requires Shape(s) && Cleared(s, SCREENS)
    ensures At(s, p).NoObj?
  {
  }

  lemma ShutdownKeeps(s: Adapter)
    requires Inv(s)
    ensures Inv(Shutdown(s)) && Cleared(Shutdown(s), SCREENS)
    ensures Replay(Shutdown(s).log).h.res == map[] && Replay(Shutdown(s).log).h.locked == {}
  {
    DestroyAllKeeps(s, SCREENS);
    CloseAllKeeps(DestroyAll(s, SCREENS), SCREENS);
    var s', h := Shutdown(s), Replay(Shutdown(s).log).h;
    forall id
      ensures id !in h.res
    {
      if id in h.res {
        OwnsNothing(s', h.res[id].place);
      }
    }
    assert forall p :: p !in h.locked;
  }
}
