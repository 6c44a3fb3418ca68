/**
  The packed virtqueue driver as it runs: fields and arrays updated in place.  Every method
  is tied to the functions of `PackedDriver`; `Valid` holds against any device, `Synced`
  for as long as no buffer was pulled back by `DetachUnusedBuf`.
 */
module PackedQueue {
  import opened RingMath
  import opened Common
  import opened FlagWord
  import opened PackedDriver

  datatype GetResult = Empty | BadRing | Got(token: nat, len: int)

  /** The event position as the driver writes it: offset in 15 bits, wrap counter on top. */
  function PackEvent(idx: nat, wrap: bool): nat {
    idx + if wrap then 0x8000 else 0
  }

  class Virtqueue {
    const num: nat
    const desc: array<Desc>
    const state: array<IdState>
    const eventSuppression: bool
    var numAdded: nat
    var freeHead: nat
    var numFree: nat
    var lastUsed: nat
    var availUsed: Flags
    var availWrap: bool
    var usedWrap: bool
    var nextAvail: nat
    var eventShadow: nat
    // the driver's event suppression area
    var drvOffWrap: nat
    var drvFlags: nat

    ghost var books: Books
    /** The stores of the latest `AddBuf`, in program order. */
    ghost var log: seq<Store>

    function View(): Driver
      reads this, state
    {
      Driver(num, numAdded, freeHead, numFree, lastUsed, availUsed, availWrap, usedWrap, nextAvail, state[..])
    }

    ghost predicate Valid()
      reads this, state
    {
      desc.Length == num && state.Length == num && IdsOk(View(), books)
    }

    ghost predicate Synced()
      reads this, state
    {
      num > 0 && PhaseOk(View(), books)
    }

    constructor (num: nat, pages: array<Desc>, eventSuppression: bool)
      requires 0 < num <= 0x8000 && pages.Length == num
      ensures Valid() && Synced() && fresh(state)
      ensures this.num == num && desc == pages && this.eventSuppression == eventSuppression
      ensures numFree == num && numAdded == 0 && eventShadow == EVENT_ENABLE
      ensures books.flight == map[] && books.published == books.reclaimed == books.fullAdds == 0
      ensures log == []
    {
      this.num := num;
      desc := pages;
      this.eventSuppression := eventSuppression;
      numFree := num;
      freeHead := 0;
      numAdded := 0;
      availWrap := true;
      usedWrap := true;
      lastUsed := 0;
      availUsed := NONE.(avail := true);
      nextAvail := 0;
      eventShadow := EVENT_ENABLE;
      drvOffWrap, drvFlags := 0, 0;
      var states := new IdState[num](_ => IdState(0, 0, 0, 0));
      for i := 0 to num - 1
        invariant forall x | 0 <= x < i :: states[x] == IdState(0, 0, x + 1, 0)
        invariant forall x | i <= x < num :: states[x] == IdState(0, 0, 0, 0)
      {
        states[i] := states[i].(next := i + 1);
      }
      state := states;
      books := Books(seq(num, i => i), map[], 0, 0, 0);
      log := [];
      new;
      assert forall x | 0 <= x < num :: books.free[x] == x && Owned(x, books);
    }

    /** One store to the shared ring, recorded in program order. */
    method Put(s: Store)
      requires s.slot < desc.Length
      modifies desc, this`log
      ensures desc[..] == Apply(old(desc[..]), s)
      ensures log == old(log) + [s]
    {
      match s {
        case SetAddr(i, a) => desc[i] := desc[i].(addr := a);
        case SetLen(i, l) => desc[i] := desc[i].(len := l);
        case SetId(i, x) => desc[i] := desc[i].(id := x);
        case SetFlags(i, f) => desc[i] := desc[i].(flags := f);
      }
      log := log + [s];
    }

    /** The stores of one loop iteration: address, length, id and, except for the head, flags. */
    method FillSlot(buf: Buf, i: nat, id: nat, flags: Flags, isHead: bool, ghost it: seq<Store>)
      requires i < desc.Length
      requires it == [SetAddr(i, buf.addr), SetLen(i, buf.len), SetId(i, id)] +
                     if isHead then [] else [SetFlags(i, flags)]
      modifies desc, this`log
      ensures desc[..] == ApplyAll(old(desc[..]), it)
      ensures log == old(log) + it
    {
      ghost var m := desc[..];
      Put(SetAddr(i, buf.addr));
      Put(SetLen(i, buf.len));
      Put(SetId(i, id));
      if !isHead {
        Put(SetFlags(i, flags));
      }
      IterApplied(m, it);
    }

    method AddBuf(sg: seq<Buf>, out: nat, token: nat, table: array?<Desc>, phys: int) returns (r: int)
      requires Valid() && 0 < |sg| && out <= |sg| && token != 0
      requires table != null ==> table != desc && |sg| <= table.Length && |sg| < U16
      modifies this, desc, state, table
      ensures Valid() && (old(Synced()) ==> Synced())
      ensures eventShadow == old(eventShadow) && drvOffWrap == old(drvOffWrap) && drvFlags == old(drvFlags)
      ensures r == 0 || r == -ENOSPC
      ensures r == 0 <==> (table != null && old(numFree) > 0) || |sg| <= old(numFree)
      ensures r != 0 ==>
                View() == old(View()) && books == old(books) && desc[..] == old(desc[..]) && log == []
      ensures r == 0 && table != null ==>
                && View() == AddDriver(old(View()), 1, token, true)
                && books == AddBooks(old(View()), old(books), 1, token, Segs(sg, out), true)
                && log == IndirectStores(old(View()), |sg|, phys)
                && desc[..] == ApplyAll(old(desc[..]), IndirectStores(old(View()), |sg|, phys))
                && TableHolds(table[..|sg|], Segs(sg, out))
      ensures r == 0 && table == null ==>
                && View() == AddDriver(old(View()), |sg|, token, false)
                && books == AddBooks(old(View()), old(books), |sg|, token, Segs(sg, out), false)
                && log == DirectStores(old(View()), Segs(sg, out))
                && desc[..] == ApplyAll(old(desc[..]), DirectStores(old(View()), Segs(sg, out)))
    {
      assert freeHead < num;
      log := [];
      if table != null && numFree > 0 {
        AddIndirect(sg, out, token, table, phys);
        return 0;
      }
      if numFree < |sg| {
        return -ENOSPC;
      }
      AddDirect(sg, out, token);
      return 0;
    }

    method AddIndirect(sg: seq<Buf>, out: nat, token: nat, table: array<Desc>, phys: int)
      requires Valid() && log == [] && 0 < |sg| && out <= |sg| && token != 0 && numFree > 0
      requires table != desc && |sg| <= table.Length && |sg| < U16
      modifies this, desc, state, table
      ensures Valid() && (old(Synced()) ==> Synced())
      ensures eventShadow == old(eventShadow) && drvOffWrap == old(drvOffWrap) && drvFlags == old(drvFlags)
      ensures View() == AddDriver(old(View()), 1, token, true)
      ensures books == AddBooks(old(View()), old(books), 1, token, Segs(sg, out), true)
      ensures log == IndirectStores(old(View()), |sg|, phys)
      ensures desc[..] == ApplyAll(old(desc[..]), IndirectStores(old(View()), |sg|, phys))
      ensures TableHolds(table[..|sg|], Segs(sg, out))
    {
      ghost var d0, k0 := View(), books;
      FillTable(sg, out, table);
      PublishIndirect(|sg|, token, phys);
      books := AddBooks(d0, k0, 1, token, Segs(sg, out), true);
      AddKeepsIds(d0, k0, 1, token, Segs(sg, out), true);
      if PhaseOk(d0, k0) { AddKeepsPhase(d0, k0, 1, token, Segs(sg, out), true); }
    }

    method FillTable(sg: seq<Buf>, out: nat, table: array<Desc>)
      requires |sg| <= table.Length && |sg| < U16
      modifies table
      ensures TableHolds(table[..|sg|], Segs(sg, out))
    {
      for i := 0 to |sg|
        invariant forall x | 0 <= x < i :: EntryHolds(table[x], Segs(sg, out)[x])
      {
        table[i] := table[i].(flags := if i < out then NONE else WRITE, addr := sg[i].addr, len := sg[i].len);
      }
    }

    method StoreIndirect(k: nat, phys: int)
      requires nextAvail < desc.Length && log == []
      modifies this`log, desc
      ensures log == IndirectStores(View(), k, phys)
      ensures desc[..] == ApplyAll(old(desc[..]), IndirectStores(View(), k, phys))
    {
      ghost var m0 := desc[..];
      Put(SetAddr(nextAvail, phys));
      Put(SetLen(nextAvail, 16 * k));
      Put(SetId(nextAvail, freeHead));
      Put(SetFlags(nextAvail, Or(INDIRECT, availUsed)));
      FourStores(m0, log);
      assert log == IndirectStores(View(), k, phys);
    }

    method PublishIndirect(k: nat, token: nat, phys: int)
      requires desc.Length == num == state.Length && Fits(View()) && log == [] && numFree > 0
      modifies this`log, this`nextAvail, this`availWrap, this`availUsed, this`numFree, this`numAdded, this`freeHead
      modifies desc, state
      ensures View() == AddDriver(old(View()), 1, token, true)
      ensures log == IndirectStores(old(View()), k, phys)
      ensures desc[..] == ApplyAll(old(desc[..]), IndirectStores(old(View()), k, phys))
    {
      ghost var d0 := View();
      StoreIndirect(k, phys);
      var head := nextAvail + 1;
      var wraps := head >= num;
      if wraps {
        head := 0;
        availUsed := Toggle(availUsed);
      }
      TakeIds(1, head, state[freeHead].next, freeHead, token, wraps);
      assert Hops(d0.states, d0.freeHead, 1) == d0.states[Hops(d0.states, d0.freeHead, 0)].next;
    }

    /** Moves the first `n` free ids into the buffer and advances the available position. */
    method TakeIds(n: nat, next: nat, curr: nat, prev: nat, token: nat, flip: bool)
      requires freeHead < state.Length && n <= numFree
      modifies this`nextAvail, this`availWrap, this`numFree, this`numAdded, this`freeHead, state
      ensures View() == var d := old(View());
                        d.(nextAvail := next, availWrap := if flip then !d.availWrap else d.availWrap,
                           numFree := d.numFree - n, numAdded := d.numAdded + n, freeHead := curr,
                           states := d.states[d.freeHead :=
                             d.states[d.freeHead].(data := token, num := n, last := prev)])
    {
      if flip {
        availWrap := !availWrap;
      }
      numFree := numFree - n;
      numAdded := numAdded + n;
      nextAvail := next;
      state[freeHead] := state[freeHead].(num := n, data := token, last := prev);
      freeHead := curr;
    }

    method AddDirect(sg: seq<Buf>, out: nat, token: nat)
      requires Valid() && log == [] && 0 < |sg| <= numFree && out <= |sg| && token != 0
      modifies this, desc, state
      ensures Valid() && (old(Synced()) ==> Synced())
      ensures eventShadow == old(eventShadow) && drvOffWrap == old(drvOffWrap) && drvFlags == old(drvFlags)
      ensures View() == AddDriver(old(View()), |sg|, token, false)
      ensures books == AddBooks(old(View()), old(books), |sg|, token, Segs(sg, out), false)
      ensures log == DirectStores(old(View()), Segs(sg, out))
      ensures desc[..] == ApplyAll(old(desc[..]), DirectStores(old(View()), Segs(sg, out)))
    {
      ghost var d0, k0, segs := View(), books, Segs(sg, out);
      PublishDirect(sg, out, token);
      books := AddBooks(d0, k0, |sg|, token, segs, false);
      AddKeepsIds(d0, k0, |sg|, token, segs, false);
      if PhaseOk(d0, k0) { AddKeepsPhase(d0, k0, |sg|, token, segs, false); }
    }

    method PublishDirect(sg: seq<Buf>, out: nat, token: nat)
      requires desc.Length == num == state.Length && Fits(View()) && log == []
      requires 0 < |sg| <= numFree && out <= |sg|
      modifies this`log, this`nextAvail, this`availWrap, this`availUsed, this`numFree, this`numAdded, this`freeHead
      modifies desc, state
      ensures View() == AddDriver(old(View()), |sg|, token, false)
      ensures log == DirectStores(old(View()), Segs(sg, out))
      ensures desc[..] == ApplyAll(old(desc[..]), DirectStores(old(View()), Segs(sg, out)))
    {
      ghost var d0, m0, segs := View(), desc[..], Segs(sg, out);
      var head := nextAvail;
      var i, curr, prev, headFlags := FillChain(sg, out);
      ApplySnoc(m0, BodyStores(d0, segs, |sg|), DirectPublish(d0, segs));
      TakeIds(|sg|, i, curr, prev, token, i < head);
      Put(SetFlags(head, headFlags));
    }

    /** The descriptor loop: everything except the head's flags reaches the ring. */
    method FillChain(sg: seq<Buf>, out: nat) returns (i: nat, curr: nat, prev: nat, headFlags: Flags)
      requires desc.Length == num == state.Length && Fits(View()) && log == []
      requires 0 < |sg| <= numFree && out <= |sg|
      modifies this`availUsed, this`log, desc
      ensures i == Wrapped(nextAvail, |sg|, num)
      ensures availUsed == MarkAt(old(View()), |sg|)
      ensures curr == Hops(state[..], freeHead, |sg|) && prev == Hops(state[..], freeHead, |sg| - 1)
      ensures SetFlags(nextAvail, headFlags) == DirectPublish(old(View()), Segs(sg, out))
      ensures log == BodyStores(old(View()), Segs(sg, out), |sg|)
      ensures desc[..] == ApplyAll(old(desc[..]), BodyStores(old(View()), Segs(sg, out), |sg|))
    {
      ghost var d0, m0 := View(), desc[..];
      ghost var segs := Segs(sg, out);
      var id := freeHead;
      i, curr, prev, headFlags := nextAvail, id, id, NONE;
      for n := 0 to |sg|
        invariant i == Wrapped(nextAvail, n, num)
        invariant availUsed == MarkAt(d0, n)
        invariant curr == Hops(d0.states, id, n)
        invariant n > 0 ==> prev == Hops(d0.states, id, n - 1)
        invariant n > 0 ==> headFlags == ChainFlags(d0.availUsed, segs[0].write, 1 != |sg|)
        invariant StoredSoFar(d0, m0, segs, n)
      {
        var flags := FillNext(sg[n], n >= out, n == |sg| - 1, n == 0, i, d0, m0, segs, n);
        if n == 0 {
          headFlags := flags;
        }
        prev := curr;
        curr := state[curr].next;
        i := Advance(d0, n, i);
      }
    }

    /** The first `n` elements have been stored, the head without its flags. */
    ghost predicate StoredSoFar(d0: Driver, m0: seq<Desc>, segs: seq<Seg>, n: nat)
      requires n <= |segs| <= d0.num && d0.nextAvail < d0.num
      reads this`log, desc
    {
      log == BodyStores(d0, segs, n) && desc[..] == ApplyAll(m0, BodyStores(d0, segs, n))
    }

    /** One iteration of the descriptor loop. */
    method FillNext(buf: Buf, write: bool, isLast: bool, isHead: bool, i: nat,
                    ghost d0: Driver, ghost m0: seq<Desc>, ghost segs: seq<Seg>, ghost n: nat)
      returns (flags: Flags)
      requires n < |segs| <= d0.num == num && d0.nextAvail < num && desc.Length == num && d0.freeHead == freeHead
      requires segs[n] == Seg(buf.addr, buf.len, write) && isLast == (n == |segs| - 1) && isHead == (n == 0)
      requires i == Wrapped(d0.nextAvail, n, num) && availUsed == MarkAt(d0, n) && StoredSoFar(d0, m0, segs, n)
      modifies this`log, desc
      ensures StoredSoFar(d0, m0, segs, n + 1)
      ensures flags == ChainFlags(availUsed, write, !isLast)
    {
      flags := ChainFlags(availUsed, write, !isLast);
      ghost var it := IterStores(d0, segs, n);
      AppendStores(m0, BodyStores(d0, segs, n), it);
      FillSlot(buf, i, freeHead, flags, isHead, it);
      assert log == BodyStores(d0, segs, n + 1);
    }

    /** Steps to the next slot; the mark word flips at the end of a lap. */
    method Advance(ghost d0: Driver, ghost n: nat, i: nat) returns (next: nat)
      requires d0.num == num && d0.nextAvail < num && n < num
      requires i == Wrapped(d0.nextAvail, n, num) && availUsed == MarkAt(d0, n)
      modifies this`availUsed
      ensures next == Wrapped(d0.nextAvail, n + 1, num) && availUsed == MarkAt(d0, n + 1)
    {
      next := i + 1;
      if next >= num {
        next := 0;
        availUsed := Toggle(availUsed);
      }
    }

    /** Puts the chain headed by `id` back on the free list. */
    method DetachBuf(id: nat)
      requires Valid() && id in books.flight
      modifies this`freeHead, this`numFree, this`books, state
      ensures Valid()
      ensures View() == DetachDriver(old(View()), id)
      ensures books == DetachBooks(old(books), id)
    {
      ghost var d0, k0 := View(), books;
      DetachKeepsIds(d0, k0, id);
      state[id] := state[id].(data := 0);
      var last := state[id].last;
      state[last] := state[last].(next := freeHead);
      freeHead := id;
      numFree := numFree + state[id].num;
      books := DetachBooks(k0, id);
      assert View() == DetachDriver(d0, id);
    }

    /**
      Returns the next completed buffer.  Whatever the device wrote into the slot, an id
      that is not the head of a buffer in flight is refused.
     */
    method GetBuf() returns (r: GetResult)
      requires Valid()
      modifies this, state
      ensures Valid() && (old(Synced()) ==> Synced())
      ensures log == old(log) && eventShadow == old(eventShadow) && drvFlags == old(drvFlags)
      ensures r.Empty? <==> !LooksUsed(desc[old(lastUsed)].flags, old(usedWrap))
      ensures r.BadRing? <==> !r.Empty? && desc[old(lastUsed)].id !in old(books).flight
      ensures !r.Got? ==> View() == old(View()) && books == old(books) && drvOffWrap == old(drvOffWrap)
      ensures r.Got? ==> var id := desc[old(lastUsed)].id;
                         && r == Got(old(books).flight[id].token, desc[old(lastUsed)].len)
                         && View() == GetDriver(old(View()), id)
                         && books == GetBooks(old(books), id)
                         && drvOffWrap == if eventShadow == EVENT_DESC then PackEvent(lastUsed, usedWrap)
                           else old(drvOffWrap)
    {
      ghost var d0, k0 := View(), books;
      var used := MoreUsed();
      if !used {
        return Empty;
      }
      var id, len := desc[lastUsed].id, desc[lastUsed].len;
      if id >= num {
        return BadRing;
      }
      if state[id].data == 0 {
        return BadRing;
      }
      assert id in k0.flight && BookingOk(d0.states, id, k0.flight[id]);
      var token := state[id].data;
      Consume(id);
      if eventShadow == EVENT_DESC {
        drvOffWrap := PackEvent(lastUsed, usedWrap);
      }
      return Got(token, len);
    }

    /** Reclaims the buffer at the used position and moves past its slots. */
    method Consume(id: nat)
      requires Valid() && id in books.flight
      modifies this`freeHead, this`numFree, this`books, this`lastUsed, this`usedWrap, state
      ensures Valid() && (old(Synced()) ==> Synced())
      ensures View() == GetDriver(old(View()), id)
      ensures books == GetBooks(old(books), id)
    {
      ghost var d0, k0 := View(), books;
      DetachBuf(id);
      MoveUsed(state[id].num);
      books := GetBooks(k0, id);
      GetKeepsIds(d0, k0, id);
      if PhaseOk(d0, k0) { GetKeepsPhase(d0, k0, id); }
    }

    method MoveUsed(n: nat)
      modifies this`lastUsed, this`usedWrap
      ensures View() == AdvanceUsed(old(View()), n)
    {
      lastUsed := Trunc16(lastUsed + n);
      if lastUsed >= num {
        lastUsed := Trunc16(lastUsed - num);
        usedWrap := !usedWrap;
      }
    }

    method MoreUsed() returns (b: bool)
      requires Valid()
      ensures b == LooksUsed(desc[lastUsed].flags, usedWrap)
    {
      var flags := desc[lastUsed].flags;
      var avail := flags.avail;
      var used := flags.used;
      return avail == used && used == usedWrap;
    }

    /** Pulls back one buffer that was never returned: the one with the smallest head id. */
    method DetachUnusedBuf() returns (token: nat)
      requires Valid()
      modifies this`freeHead, this`numFree, this`books, state
      ensures Valid()
      ensures token == 0 <==> old(books).flight == map[]
      ensures token == 0 ==> View() == old(View()) && books == old(books) && numFree == num
      ensures token != 0 ==> exists id ::
                && id in old(books).flight && (forall h | h in old(books).flight :: id <= h)
                && token == old(books).flight[id].token
                && books == DetachBooks(old(books), id) && View() == DetachDriver(old(View()), id)
    {
      assert forall h | h in books.flight :: BookingOk(View().states, h, books.flight[h]);
      for i := 0 to num
        invariant Valid() && View() == old(View()) && books == old(books)
        invariant forall h | h in books.flight :: i <= h < num
      {
        if state[i].data != 0 {
          token := state[i].data;
          DetachBuf(i);
          return;
        }
      }
      assert books.flight.Keys == {};
      AllFree(View(), books);
      return 0;
    }

    method DisableCb()
      modifies this`eventShadow, this`drvFlags
      requires eventShadow == drvFlags
      ensures eventShadow == drvFlags == EVENT_DISABLE
    {
      if eventShadow != EVENT_DISABLE {
        eventShadow := EVENT_DISABLE;
        drvFlags := eventShadow;
      }
    }

    /** Turns interrupts back on, then reports whether nothing is waiting. */
    method EnableCb() returns (none: bool)
      requires Valid() && eventShadow == drvFlags
      modifies this`eventShadow, this`drvFlags, this`drvOffWrap
      ensures Valid() && View() == old(View()) && books == old(books)
      ensures eventShadow == drvFlags
      ensures drvFlags == if old(drvFlags) != EVENT_DISABLE then old(drvFlags)
                          else if eventSuppression then EVENT_DESC else EVENT_ENABLE
      ensures drvOffWrap == if eventSuppression then PackEvent(lastUsed, usedWrap) else old(drvOffWrap)
      ensures none <==> !LooksUsed(desc[lastUsed].flags, usedWrap)
    {
      if eventSuppression {
        drvOffWrap := PackEvent(lastUsed, usedWrap);
      }
      if eventShadow == EVENT_DISABLE {
        eventShadow := if eventSuppression then EVENT_DESC else EVENT_ENABLE;
        drvFlags := eventShadow;
      }
      var offWrap := PackEvent(lastUsed, usedWrap);
      var wrap, idx := offWrap / 0x8000 != 0, offWrap % 0x8000;
      var flags := desc[idx].flags;
      none := !(flags.avail == flags.used && flags.used == wrap);
    }

    /** Whether the device asked to be told about what was added since the last call. */
    method KickPrepare(devOffWrap: nat, devFlags: nat) returns (kick: bool)
      requires Valid() && devOffWrap < U16
      modifies this`numAdded
      ensures Valid() && (old(Synced()) ==> Synced())
      ensures numAdded == 0 && View() == old(View()).(numAdded := 0)
      ensures kick == KickDecision(old(View()), devOffWrap, devFlags)
    {
      var older := Trunc16(nextAvail - numAdded);
      var newer := nextAvail;
      numAdded := 0;
      if devFlags != EVENT_DESC {
        return devFlags != EVENT_DISABLE;
      }
      var wrap := devOffWrap / 0x8000 == 1;
      var event := devOffWrap % 0x8000;
      if wrap != availWrap {
        event := Trunc16(event - num);
      }
      return NeedEvent(event, newer, older);
    }
  }

  predicate KickDecision(d: Driver, devOffWrap: nat, devFlags: nat) {
    if devFlags != EVENT_DESC then devFlags != EVENT_DISABLE
    else
      var event := if (devOffWrap / 0x8000 == 1) == d.availWrap then devOffWrap % 0x8000
                   else Trunc16(devOffWrap % 0x8000 - d.num);
      NeedEvent(event, d.nextAvail, Trunc16(d.nextAvail - d.numAdded))
  }

  predicate EntryHolds(e: Desc, s: Seg) {
    e.addr == s.addr && e.len == s.len && e.flags == if s.write then WRITE else NONE
  }

  predicate TableHolds(t: seq<Desc>, segs: seq<Seg>) {
    |t| == |segs| && forall i | 0 <= i < |t| :: EntryHolds(t[i], segs[i])
  }

  lemma {:induction false} AppendStores(m: seq<Desc>, a: seq<Store>, b: seq<Store>)
    ensures ApplyAll(m, a + b) == ApplyAll(ApplyAll(m, a), b)
  {
    if b == [] {
      assert a + b == a;
    } else {
      var c, s := b[..|b| - 1], b[|b| - 1];
      AppendStores(m, a, c);
      assert a + b == (a + c) + [s];
      ApplySnoc(m, a + c, s);
    }
  }

  lemma FourStores(m: seq<Desc>, s: seq<Store>)
    requires |s| == 4
    ensures ApplyAll(m, s) == Apply(Apply(Apply(Apply(m, s[0]), s[1]), s[2]), s[3])
  {
    assert s[..3][..2] == s[..2] && s[..2][..1] == s[..1] && s[..1][..0] == [];
    ThreeStores(m, s[..3]);
  }

  lemma ThreeStores(m: seq<Desc>, s: seq<Store>)
    requires |s| == 3
    ensures ApplyAll(m, s) == Apply(Apply(Apply(m, s[0]), s[1]), s[2])
  {
    assert s[..2][..1] == s[..1] && s[..1][..0] == [];
    assert ApplyAll(m, s[..1]) == Apply(m, s[0]);
    assert ApplyAll(m, s[..2]) == Apply(Apply(m, s[0]), s[1]);
  }

  lemma IterApplied(m: seq<Desc>, s: seq<Store>)
    requires |s| == 3 || |s| == 4
    ensures ApplyAll(m, s) ==
            if |s| == 3 then Apply(Apply(Apply(m, s[0]), s[1]), s[2])
            else Apply(Apply(Apply(Apply(m, s[0]), s[1]), s[2]), s[3])
  {
    if |s| == 3 { ThreeStores(m, s); } else { FourStores(m, s); }
  }

  /** With nothing in flight the free list holds every id. */
  lemma AllFree(d: Driver, k: Books)
    requires IdsOk(d, k) && k.flight == map[]
    ensures d.numFree == d.num
  {
    forall x: nat | x < d.num
      ensures x in k.free
    {
      assert Owned(x, k);
    }
    DistinctCount(k.free);
    assert Range(d.num) <= Elems(k.free);
    SubsetCount(Range(d.num), Elems(k.free));
  }
}
