/**
  The display adapter as it runs, tied to the functions of `ScanoutModel`.  `log` records what
  goes out: commands queued and pages locked, cleared or unlocked.
 */
module ScanoutAdapter {
  import opened IdAllocator
  import opened HostTrace
  import opened ScanoutModel
  import opened ScanoutProofs
  import opened ScanoutTheorems

  class VioGpuAdapterLite {
    const screens: array<Screen>
    const idr: Idr
    ghost var log: seq<Cmd>

    ghost function View(): Adapter
      reads this, screens, idr.bits
    {
      Adapter(screens[..], idr.bits[..], log)
    }

    ghost predicate Valid()
      reads this, screens, idr.bits
    {
      screens.Length == SCREENS && idr.bits.Length == ID_BITS && Inv(View())
    }

    constructor HWInit(pages: nat, modes: seq<seq<(nat, nat)>>)
      requires |modes| == SCREENS
      ensures Valid() && fresh(screens) && fresh(idr) && fresh(idr.bits)
      ensures View() == Init(pages, modes).a
    {
      idr := new Idr.Init(1);
      screens := new Screen[SCREENS](t requires 0 <= t < SCREENS =>
        Screen(modes[t], NoObj, Open(0, pages), 0, 0, 0, 0, NoObj, Open(0, CursorImage().pages), 0, 0));
      log := [];
      new;
      assert screens[..] == Init(pages, modes).a.screens;
      assert idr.bits[..] == Init(pages, modes).a.bits;
      ScanoutTheorems.InitInv(pages, modes);
    }

    /** Queues a command or touches pages; only the record of it is modelled. */
    method Queue(ghost c: Cmd)
      modifies this
      ensures View() == Send(old(View()), c)
    {
      log := log + [c];
    }

    method TakeNextId() returns (id: nat)
      modifies idr.bits
      ensures id == NextId(old(View())) && View() == TakeId(old(View()))
    {
      id := idr.GetId();
    }

    /** Swaps the object out, detaches and drops the resource, and gives its id back. */
    method DestroyFrameBufferObj(t: nat)
      requires Valid() && t < SCREENS
      modifies this, screens, idr.bits
      ensures Valid() && View() == Destroy(old(View()), Frame(t))
    {
      DestroyKeeps(View(), Frame(t));
      var fbuf := screens[t].front;
      screens[t] := screens[t].(front := NoObj);
      if fbuf.NoObj? {
        return;
      }
      InRange(old(View()), Frame(t));
      Queue(Detach(fbuf.id));
      Queue(Unref(fbuf.id));
      idr.PutId(fbuf.id);
    }

    method DestroyCursor(t: nat)
      requires Valid() && t < SCREENS
      modifies this, screens, idr.bits
      ensures Valid() && View() == Destroy(old(View()), Cursor(t))
    {
      DestroyKeeps(View(), Cursor(t));
      var cursor := screens[t].cursor;
      screens[t] := screens[t].(cursor := NoObj);
      if cursor.NoObj? {
        return;
      }
      InRange(old(View()), Cursor(t));
      Queue(Detach(cursor.id));
      Queue(Unref(cursor.id));
      idr.PutId(cursor.id);
    }

    method CloseFrameSegment(t: nat)
      requires screens.Length == SCREENS && t < SCREENS
      modifies this, screens
      ensures View() == CloseSegment(old(View()), Frame(t))
    {
      if screens[t].segment.Open? {
        screens[t] := screens[t].(segment := Closed);
        Queue(Unlock(Frame(t)));
      }
    }

    method CloseCursorSegment(t: nat)
      requires screens.Length == SCREENS && t < SCREENS
      modifies this, screens
      ensures View() == CloseSegment(old(View()), Cursor(t))
    {
      if screens[t].cursorSegment.Open? {
        screens[t] := screens[t].(cursorSegment := Closed);
        Queue(Unlock(Cursor(t)));
      }
    }

    /** Locks user pages; `lockOk` is the outcome of probing them. */
    method InitExt(t: nat, addr: nat, pages: nat, lockOk: bool) returns (ok: bool)
      requires screens.Length == SCREENS && t < SCREENS
      modifies this, screens
      ensures ok == (lockOk && pages > 0 && addr != 0)
      ensures var closed := CloseSegment(old(View()), Frame(t));
              View() == if ok then OpenSegment(closed, Frame(t), addr, pages) else closed
    {
      CloseFrameSegment(t);
      if pages == 0 || addr == 0 || !lockOk {
        return false;
      }
      screens[t] := screens[t].(segment := Open(addr, pages));
      Queue(Lock(Frame(t)));
      return true;
    }

    method CreateFrameBufferObj(r: Request, lockOk: bool)
      requires screens.Length == SCREENS && idr.bits.Length == ID_BITS && r.screen < SCREENS
      modifies this, screens, idr.bits
      ensures View() == CreateFront(old(View()), r, lockOk)
    {
      var t, size := r.screen, Size(r);
      ghost var prepared := PrepareSegment(View(), r, lockOk);
      PrepareIgnoresIds(View(), r, lockOk);
      var id := TakeNextId();
      var ok := PrepareFrameSegment(r, lockOk);
      assert View() == TakeId(prepared) && NextId(prepared) == id && prepared.screens == screens[..];
      hide PrepareSegment, TakeId, NextId;
      if !ok || screens[t].segment.Closed? || size > screens[t].segment.pages {
        PutBack(prepared, id);
        return;
      }
      PublishFront(t, id, ImageOf(screens[t].segment, r), r.format, prepared);
    }

    method PublishFront(t: nat, id: nat, image: Image, format: nat, ghost before: Adapter)
      requires screens.Length == SCREENS && t < SCREENS
      requires id == NextId(before) && View() == TakeId(before) && before.screens == screens[..]
      modifies this, screens
      ensures View() == Publish(before, t, image, format)
    {
      hide TakeId, NextId;
      Queue(Create(id, Frame(t), image));
      Queue(Clear(Frame(t)));
      Queue(SetScanout(t, id, format));
      screens[t] := screens[t].(flushCount := screens[t].flushCount + 1);
      Queue(Flush(id, t));
      screens[t] := screens[t].(front := Obj(id));
    }

    /** A failed creation returns the id just taken. */
    method PutBack(ghost before: Adapter, id: nat)
      requires id == NextId(before) && View() == TakeId(before) && |before.bits| == idr.bits.Length == ID_BITS
      modifies idr.bits
      ensures View() == before
    {
      if id < idr.bits.Length {
        assert FirstClear(before.bits, 0) == id && before.bits[id := true][id := false] == before.bits;
        idr.PutId(id);
      }
    }

    method PrepareFrameSegment(r: Request, lockOk: bool) returns (ok: bool)
      requires screens.Length == SCREENS && r.screen < SCREENS
      modifies this, screens
      ensures View() == PrepareSegment(old(View()), r, lockOk)
      ensures !ok ==> screens[r.screen].segment.Closed?
    {
      var t, size := r.screen, Size(r);
      if r.addr != 0 {
        if screens[t].segment.Open? {
          CloseFrameSegment(t);
        }
        ok := InitExt(t, r.addr, size, lockOk);
      } else {
        if screens[t].segment.Open? && size > screens[t].segment.pages {
          CloseFrameSegment(t);
          screens[t] := screens[t].(segment := Open(0, size));
          Queue(Lock(Frame(t)));
        }
        ok := true;
      }
    }

    method SendFlush(t: nat, id: nat)
      requires screens.Length == SCREENS && t < SCREENS
      modifies this, screens
      ensures View() == CountedFlush(old(View()), t, id)
    {
      screens[t] := screens[t].(flushCount := screens[t].flushCount + 1);
      Queue(Flush(id, t));
    }

    method FlushFrameBufferObj(t: nat)
      requires screens.Length == SCREENS && t < SCREENS
      modifies this, screens
      ensures View() == FlushFront(old(View()), t)
    {
      var obj := screens[t].front;
      if obj.NoObj? {
        return;
      }
      SendFlush(t, obj.id);
    }

    /** Back-pressure: clears, counts or gives up waiting; says whether this frame goes on. */
    method CheckBackpressure(t: nat, setMode: bool) returns (pass: bool)
      requires screens.Length == SCREENS && t < SCREENS
      modifies screens
      ensures var gate := Backpressure(old(screens[t]), setMode);
              pass == gate.Pass? && screens[..] == old(screens[..])[t := gate.scr]
    {
      pass := true;
      if setMode && screens[t].flushCount != 0 {
        screens[t] := screens[t].(flushCount := 0, stallCount := 0);
      }
      if screens[t].flushCount != 0 {
        screens[t] := screens[t].(stallCount := screens[t].stallCount + 1);
        if screens[t].stallCount >= FLUSH_STALL_LIMIT {
          screens[t] := screens[t].(flushCount := 0, stallCount := 0, srcAddr := 0);
        } else {
          pass := false;
        }
      } else {
        screens[t] := screens[t].(stallCount := 0);
      }
    }

    method RebuildFront(r: Request, lockOk: bool)
      requires Valid() && r.screen < SCREENS
      modifies this, screens, idr.bits
      ensures Valid() && View() == Rebuild(old(View()), r, lockOk)
    {
      var t := r.screen;
      RebuildKeeps(View(), r, lockOk);
      DestroyFrameBufferObj(t);
      screens[t] := screens[t].(srcAddr := r.addr, width := r.width, height := r.height, stride := r.stride);
      CreateFrameBufferObj(r, lockOk);
    }

    method PresentListed(r: Request, lockOk: bool)
      requires Valid() && r.screen < SCREENS && Listed(screens[r.screen], r)
      modifies this, screens, idr.bits
      ensures Valid() && View() == SetCurrentMode(old(View()), r, lockOk).0
    {
      var t := r.screen;
      ModeKeeps(View(), r, lockOk);
      ScreenKeeps(View(), t, Backpressure(screens[t], r.setMode).scr);
      var pass := CheckBackpressure(t, r.setMode);
      if !pass {
        return;
      }
      assert View() == SetScreen(old(View()), t, screens[t]);
      var changed := screens[t].front.NoObj? || screens[t].srcAddr != r.addr || screens[t].width != r.width
                     || screens[t].height != r.height || screens[t].stride != r.stride;
      if changed {
        RebuildFront(r, lockOk);
      } else {
        FlushFrameBufferObj(t);
      }
    }

    /** Looks the mode up and acts on the first match; success means only that the list is not empty. */
    method SetCurrentModeExt(r: Request, lockOk: bool) returns (success: bool)
      requires Valid() && r.screen < SCREENS
      modifies this, screens, idr.bits
      ensures Valid() && View() == SetCurrentMode(old(View()), r, lockOk).0
      ensures success == (old(screens[r.screen].modes) != [])
    {
      success := false;
      var modes := screens[r.screen].modes;
      for idx := 0 to |modes|
        invariant Valid() && View() == old(View()) && modes == screens[r.screen].modes
        invariant (r.width, r.height) !in modes[..idx]
        invariant success == (idx > 0)
      {
        success := true;
        if modes[idx] == (r.width, r.height) {
          PresentListed(r, lockOk);
          return;
        }
      }
      assert modes[..|modes|] == modes;
    }

    /** False for a screen number out of range. */
    method ReleaseFrameBuffer(t: nat) returns (ok: bool)
      requires Valid()
      modifies this, screens, idr.bits
      ensures Valid() && ok == (t < SCREENS)
      ensures View() == if ok then Release(old(View()), t) else old(View())
    {
      if t >= SCREENS {
        return false;
      }
      ReleaseKeeps(View(), t);
      ghost var s1 := Send(View(), SetScanout(t, 0, 0));
      Queue(SetScanout(t, 0, 0));
      if screens[t].front.Obj? {
        var id := screens[t].front.id;
        InRange(old(View()), Frame(t));
        screens[t] := screens[t].(front := NoObj);
        Queue(Detach(id));
        Queue(Unref(id));
        idr.PutId(id);
      }
      assert View() == Destroy(s1, Frame(t));
      CloseFrameSegment(t);
      screens[t] := screens[t].(srcAddr := 0, width := 0, height := 0, stride := 0, flushCount := 0, stallCount := 0);
      assert View() == Release(old(View()), t);
      return true;
    }

    method BlackOutScreen(t: nat)
      requires Valid() && t < SCREENS
      modifies this, screens
      ensures Valid() && View() == BlackOut(old(View()), t)
    {
      BlackOutKeeps(View(), t);
      if screens[t].front.NoObj? {
        return;
      }
      var id := screens[t].front.id;
      Queue(Transfer(id));
      SendFlush(t, id);
      assert View() == BlackOut(old(View()), t);
    }

    /** The DPC's handling of one completed flush; a bad screen number in the fence is ignored. */
    method FlushCompleted(t: nat)
      requires Valid()
      modifies screens
      ensures Valid() && View() == if t < SCREENS then Complete(old(View()), t) else old(View())
    {
      if t >= SCREENS {
        return;
      }
      if screens[t].flushCount > 0 {
        ScreenKeeps(View(), t, screens[t].(flushCount := screens[t].flushCount - 1));
        screens[t] := screens[t].(flushCount := screens[t].flushCount - 1);
      }
    }

    method SetPointerShape(t: nat)
      requires Valid() && t < SCREENS
      modifies this, screens, idr.bits
      ensures Valid() && View() == SetCursor(old(View()), t)
    {
      SetCursorKeeps(View(), t);
      DestroyCursor(t);
      ghost var s1 := View();
      ghost var s2 := if screens[t].cursorSegment.Closed?
                      then OpenSegment(s1, Cursor(t), 0, CursorImage().pages) else s1;
      var id := TakeNextId();
      if screens[t].cursorSegment.Closed? {
        screens[t] := screens[t].(cursorSegment := Open(0, CursorImage().pages));
        Queue(Lock(Cursor(t)));
      }
      assert View() == TakeId(s2) && id == NextId(s2);
      Queue(Create(id, Cursor(t), CursorImage()));
      screens[t] := screens[t].(cursor := Obj(id));
      Queue(MoveCursor(t, id));
    }

    method DestroyScreenObjs(t: nat)
      requires Valid() && t < SCREENS && Cleared(View(), t)
      modifies this, screens, idr.bits
      ensures Valid() && View() == DestroyScreen(old(View()), t)
    {
      if screens[t].front.Obj? {
        DestroyFrontReset(View(), t);
        DestroyFrameBufferObj(t);
        Queue(SetScanout(0, 0, 0));
      }
      DestroyCursor(t);
    }

    /** Leaving D0, before interrupts go: every object goes. */
    method DestroyFrameBufferCursorObjExt()
      requires Valid()
      modifies this, screens, idr.bits
      ensures Valid() && View() == DestroyAll(old(View()), SCREENS)
    {
      for t := 0 to SCREENS
        invariant Valid() && View() == DestroyAll(old(View()), t)
      {
        DestroyAllKeeps(old(View()), t);
        DestroyScreenObjs(t);
        assert View() == DestroyAll(old(View()), t + 1);
      }
    }

    /** Then the segments are closed. */
    method HWClose()
      requires Valid() && Cleared(View(), SCREENS)
      modifies this, screens
      ensures Valid() && View() == CloseAll(old(View()), SCREENS)
    {
      for t := 0 to SCREENS
        invariant screens.Length == SCREENS && View() == CloseAll(old(View()), t)
      {
        CloseFrameSegment(t);
        CloseCursorSegment(t);
      }
      CloseAllKeeps(old(View()), SCREENS);
    }
  }

  /** Segments are prepared without looking at the id bits. */
  lemma PrepareIgnoresIds(s: Adapter, r: Request, lockOk: bool)
    requires r.screen < |s.screens|
    ensures PrepareSegment(TakeId(s), r, lockOk) == TakeId(PrepareSegment(s, r, lockOk))
    ensures PrepareSegment(s, r, lockOk).bits == s.bits
    ensures |PrepareSegment(s, r, lockOk).screens| == |s.screens|
    ensures PrepareSegment(TakeId(s), r, lockOk).screens == PrepareSegment(s, r, lockOk).screens
  {
  }

  lemma InRange(s: Adapter, p: Place)
    requires Inv(s) && At(s, p).Obj?
    ensures At(s, p).id < ID_BITS
  {
    assert Owns(s, p, At(s, p).id);
  }
}
