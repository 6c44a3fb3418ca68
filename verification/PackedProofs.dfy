/**
  Every step of the packed protocol keeps the invariant.  Lemmas are grouped by the part of
  the state they speak about; the theorems a reader wants are in `PackedTheorems`.
 */
module PackedProofs {
  import opened RingMath
  import opened Common
  import opened FlagWord
  import opened PackedDriver
  import opened PackedQueue
  import opened PackedProtocol

  // ---------------------------------------------------------------- tilings

  lemma {:induction false} LaidRange(flight: map<nat, Booking>, heads: seq<nat>, from: nat, to: nat)
    requires Laid(flight, heads, from, to)
    ensures from <= to
    ensures forall h | h in heads :: h in flight && from <= flight[h].start && flight[h].start + |flight[h].ids| <= to
  {
    if heads != [] {
      LaidRange(flight, heads[1..], from + |flight[heads[0]].ids|, to);
      assert forall h | h in heads :: h == heads[0] || h in heads[1..];
    }
  }

  lemma {:induction false} LaidSnoc(flight: map<nat, Booking>, heads: seq<nat>, from: nat, to: nat, h: nat)
    requires Laid(flight, heads, from, to) && h in flight && flight[h].start == to
    ensures Laid(flight, heads + [h], from, to + |flight[h].ids|)
  {
    if heads == [] {
      assert ([] + [h])[1..] == [];
    } else {
      LaidSnoc(flight, heads[1..], from + |flight[heads[0]].ids|, to, h);
      assert (heads + [h])[1..] == heads[1..] + [h];
    }
  }

  lemma {:induction false} LaidFrame(f: map<nat, Booking>, g: map<nat, Booking>, heads: seq<nat>, from: nat, to: nat)
    requires Laid(f, heads, from, to)
    requires forall h | h in heads && h in f :: h in g && g[h] == f[h]
    ensures Laid(g, heads, from, to)
  {
    if heads != [] {
      LaidFrame(f, g, heads[1..], from + |f[heads[0]].ids|, to);
    }
  }

  lemma {:induction false} UsedLaidRange(flight: map<nat, Booking>, desc: seq<Desc>, num: nat, done: seq<Done>,
                                         from: nat, to: nat)
    requires |desc| == num > 0 && UsedLaid(flight, desc, num, done, from, to)
    ensures from <= to && (from == to <==> done == [])
  {
    if done != [] {
      UsedLaidRange(flight, desc, num, done[1..], from + done[0].slots, to);
    }
  }

  lemma {:induction false} UsedLaidFrame(f: map<nat, Booking>, g: map<nat, Booking>, desc: seq<Desc>, desc': seq<Desc>,
                                         num: nat, done: seq<Done>, from: nat, to: nat)
    requires |desc| == |desc'| == num > 0 && UsedLaid(f, desc, num, done, from, to)
    requires forall i | 0 <= i < |done| && done[i].id in f :: done[i].id in g && g[done[i].id] == f[done[i].id]
    requires forall p: nat | from <= p < to :: desc'[Slot(p, num)] == desc[Slot(p, num)]
    ensures UsedLaid(g, desc', num, done, from, to)
  {
    if done != [] {
      UsedLaidRange(f, desc, num, done, from, to);
      assert desc'[Slot(from, num)] == desc[Slot(from, num)];
      assert g[done[0].id] == f[done[0].id];
      forall i | 0 <= i < |done[1..]| && done[1..][i].id in f
        ensures done[1..][i].id in g && g[done[1..][i].id] == f[done[1..][i].id]
      {
        assert done[1..][i] == done[i + 1];
      }
      UsedLaidFrame(f, g, desc, desc', num, done[1..], from + done[0].slots, to);
    }
  }

  lemma {:induction false} UsedLaidSnoc(flight: map<nat, Booking>, desc: seq<Desc>, num: nat, done: seq<Done>,
                                        from: nat, to: nat, x: Done)
    requires |desc| == num > 0 && UsedLaid(flight, desc, num, done, from, to)
    requires UsedLaid(flight, desc, num, [x], to, to + x.slots)
    ensures UsedLaid(flight, desc, num, done + [x], from, to + x.slots)
  {
    if done == [] {
      assert done + [x] == [x];
    } else {
      UsedLaidSnoc(flight, desc, num, done[1..], from + done[0].slots, to, x);
      assert (done + [x])[1..] == done[1..] + [x];
      assert (done + [x])[0] == done[0];
    }
  }

  lemma {:induction false} SumSnoc(a: seq<Taken>, t: Taken)
    ensures SumSlots(a + [t]) == SumSlots(a) + t.slots
  {
    if a == [] {
      assert [] + [t] == [t];
      assert SumSlots([t][1..]) == 0;
    } else {
      SumSnoc(a[1..], t);
      assert (a + [t])[1..] == a[1..] + [t];
    }
  }

  lemma {:induction false} SumRemove(a: seq<Taken>, i: nat)
    requires i < |a|
    ensures SumSlots(a) == SumSlots(a[..i] + a[i + 1..]) + a[i].slots
  {
    if i == 0 {
      assert a[..0] + a[1..] == a[1..];
    } else {
      SumRemove(a[1..], i - 1);
      assert (a[..i] + a[i + 1..])[1..] == a[1..][..i - 1] + a[1..][i..];
    }
  }

  // ---------------------------------------------------------------- chains in memory

  lemma ChainFrame(m: seq<Desc>, m': seq<Desc>, tables: map<int, seq<Desc>>, tables': map<int, seq<Desc>>,
                   num: nat, h: nat, b: Booking, page: Page)
    requires |m| == |m'| == num > 0 && ChainVisible(m, tables, num, h, b, page)
    requires forall p: nat | b.start <= p < b.start + |b.ids| :: m'[Slot(p, num)] == m[Slot(p, num)]
    requires page.At? && page.phys in tables ==> page.phys in tables' && tables'[page.phys] == tables[page.phys]
    ensures ChainVisible(m', tables', num, h, b, page)
  {
  }

  lemma {:induction false} WalkSuffix(desc: seq<Desc>, tables: map<int, seq<Desc>>, num: nat, h: nat, b: Booking,
                                      j: nat, fuel: nat)
    requires |desc| == num > 0 && ChainVisible(desc, tables, num, h, b, NoPage)
    requires j < |b.segs| && |b.segs| - j <= fuel
    ensures Walk(desc, tables, b.start + j, num, fuel) == Taken(h, |b.segs| - j, b.segs[j..])
    decreases |b.segs| - j
  {
    assert desc[Slot(b.start + j, num)] == ChainDesc(h, b, num, j);
    assert Seg(b.segs[j].addr, b.segs[j].len, b.segs[j].write) == b.segs[j];
    if j < |b.segs| - 1 {
      WalkSuffix(desc, tables, num, h, b, j + 1, fuel - 1);
    }
    assert b.segs[j..] == [b.segs[j]] + b.segs[j + 1..];
  }

  /** The device's walk from a published head yields the submitted buffer list, directions included. */
  lemma WalkReads(desc: seq<Desc>, tables: map<int, seq<Desc>>, num: nat, h: nat, b: Booking, page: Page)
    requires |desc| == num > 0 && ChainVisible(desc, tables, num, h, b, page)
    requires 0 < |b.ids| <= num
    ensures Walk(desc, tables, b.start, num, num) == Taken(h, |b.ids|, b.segs)
  {
    match page
    case At(phys) =>
    case NoPage =>
      WalkSuffix(desc, tables, num, h, b, 0, num);
      assert b.segs[0..] == b.segs;
  }

  lemma {:induction false} ApplyCons(m: seq<Desc>, s: Store, rest: seq<Store>)
    ensures ApplyAll(m, [s] + rest) == ApplyAll(Apply(m, s), rest)
  {
    AppendStores(m, [s], rest);
    assert [s][..0] == [];
    assert ApplyAll(m, [s]) == Apply(m, s);
  }

  lemma {:induction false} ApplyFrame(m: seq<Desc>, m': seq<Desc>, ss: seq<Store>, t: nat)
    requires |m| == |m'| && t < |m| && m[t] == m'[t]
    ensures ApplyAll(m, ss)[t] == ApplyAll(m', ss)[t]
  {
    if ss != [] {
      ApplyFrame(m, m', ss[..|ss| - 1], t);
    }
  }

  lemma {:induction false} ApplyUntouched(m: seq<Desc>, ss: seq<Store>, t: nat)
    requires t < |m| && forall i | 0 <= i < |ss| :: ss[i].slot != t
    ensures ApplyAll(m, ss)[t] == m[t]
  {
    if ss != [] {
      ApplyUntouched(m, ss[..|ss| - 1], t);
    }
  }

  // ---------------------------------------------------------------- what an add leaves in the ring

  ghost predicate SlotFilled(e: Desc, d: Driver, segs: seq<Seg>, j: nat, withFlags: bool)
    requires j < |segs|
  {
    && e.addr == segs[j].addr && e.len == segs[j].len && e.id == d.freeHead
    && (withFlags ==> e.flags == ChainFlags(MarkAt(d, j), segs[j].write, j != |segs| - 1))
  }

  lemma WrappedDiffer(head: nat, i: nat, j: nat, num: nat)
    requires head < num && i < j < num + i && j <= num && j < num
    ensures Wrapped(head, i, num) != Wrapped(head, j, num)
  {
  }

  lemma IterFills(m: seq<Desc>, d: Driver, segs: seq<Seg>, j: nat)
    requires |m| == d.num && d.nextAvail < d.num && j < |segs| <= d.num
    ensures var m' := ApplyAll(m, IterStores(d, segs, j));
            && SlotFilled(m'[Wrapped(d.nextAvail, j, d.num)], d, segs, j, j > 0)
            && forall t | 0 <= t < d.num && t != Wrapped(d.nextAvail, j, d.num) :: m'[t] == m[t]
  {
    IterApplied(m, IterStores(d, segs, j));
  }

  lemma {:induction false} BodyFills(m: seq<Desc>, d: Driver, segs: seq<Seg>, n: nat)
    requires |m| == d.num && d.nextAvail < d.num && n <= |segs| <= d.num
    ensures var m' := ApplyAll(m, BodyStores(d, segs, n));
            forall j | 0 <= j < n :: SlotFilled(m'[Wrapped(d.nextAvail, j, d.num)], d, segs, j, j > 0)
  {
    if n > 0 {
      BodyFills(m, d, segs, n - 1);
      var m1 := ApplyAll(m, BodyStores(d, segs, n - 1));
      AppendStores(m, BodyStores(d, segs, n - 1), IterStores(d, segs, n - 1));
      IterFills(m1, d, segs, n - 1);
      forall j | 0 <= j < n - 1
        ensures Wrapped(d.nextAvail, j, d.num) != Wrapped(d.nextAvail, n - 1, d.num)
      {
        WrappedDiffer(d.nextAvail, j, n - 1, d.num);
      }
    }
  }

  lemma DirectFills(m: seq<Desc>, d: Driver, segs: seq<Seg>)
    requires |m| == d.num && d.nextAvail < d.num && 0 < |segs| <= d.num
    ensures var m' := ApplyAll(m, DirectStores(d, segs));
            forall j | 0 <= j < |segs| :: SlotFilled(m'[Wrapped(d.nextAvail, j, d.num)], d, segs, j, true)
  {
    BodyFills(m, d, segs, |segs|);
    var m1 := ApplyAll(m, BodyStores(d, segs, |segs|));
    ApplySnoc(m, BodyStores(d, segs, |segs|), DirectPublish(d, segs));
    forall j | 0 < j < |segs|
      ensures Wrapped(d.nextAvail, 0, d.num) != Wrapped(d.nextAvail, j, d.num)
    {
      WrappedDiffer(d.nextAvail, 0, j, d.num);
    }
  }

  lemma MarkAtPosition(d: Driver, a: nat, j: nat)
    requires 0 < d.num && j <= d.num
    requires d.nextAvail == Slot(a, d.num) && d.availUsed == AvailUsed(Phase(a, d.num))
    ensures Wrapped(d.nextAvail, j, d.num) == Slot(a + j, d.num)
    ensures MarkAt(d, j) == AvailUsed(Phase(a + j, d.num))
  {
    SlotAdd(a, j, d.num);
  }

  /** All stores of a direct add together put the chain into the ring. */
  lemma DirectBuildsChain(m: seq<Desc>, tables: map<int, seq<Desc>>, d: Driver, b: Booking)
    requires |m| == d.num && d.nextAvail < d.num && 0 < |b.segs| <= d.num && |b.ids| == |b.segs|
    requires d.nextAvail == Slot(b.start, d.num) && d.availUsed == AvailUsed(Phase(b.start, d.num))
    ensures ChainVisible(ApplyAll(m, DirectStores(d, b.segs)), tables, d.num, d.freeHead, b, NoPage)
  {
    DirectFills(m, d, b.segs);
    var m' := ApplyAll(m, DirectStores(d, b.segs));
    forall j | 0 <= j < |b.segs|
      ensures m'[Slot(b.start + j, d.num)] == ChainDesc(d.freeHead, b, d.num, j)
    {
      assert SlotFilled(m'[Wrapped(d.nextAvail, j, d.num)], d, b.segs, j, true);
      FilledIsChainDesc(m', d, b, j);
    }
  }

  lemma FilledIsChainDesc(m: seq<Desc>, d: Driver, b: Booking, j: nat)
    requires |m| == d.num && d.nextAvail < d.num && j < |b.segs| <= d.num
    requires d.nextAvail == Slot(b.start, d.num) && d.availUsed == AvailUsed(Phase(b.start, d.num))
    requires SlotFilled(m[Wrapped(d.nextAvail, j, d.num)], d, b.segs, j, true)
    ensures m[Slot(b.start + j, d.num)] == ChainDesc(d.freeHead, b, d.num, j)
  {
    MarkAtPosition(d, b.start, j);
  }

  lemma IndirectBuildsChain(m: seq<Desc>, tables: map<int, seq<Desc>>, d: Driver, b: Booking, phys: int)
    requires |m| == d.num && d.nextAvail < d.num && |b.ids| == 1
    requires d.nextAvail == Slot(b.start, d.num) && d.availUsed == AvailUsed(Phase(b.start, d.num))
    requires phys in tables && TableSegs(tables[phys]) == b.segs
    ensures ChainVisible(ApplyAll(m, IndirectStores(d, |b.segs|, phys)), tables, d.num, d.freeHead, b, At(phys))
  {
    FourStores(m, IndirectStores(d, |b.segs|, phys));
  }

  lemma TableMeaning(segs: seq<Seg>)
    ensures TableSegs(TableOf(segs)) == segs
  {
    forall i | 0 <= i < |segs|
      ensures TableSegs(TableOf(segs))[i] == segs[i]
    {
    }
  }

  lemma {:induction false} BodyStoresHide(d: Driver, segs: seq<Seg>, n: nat, a: nat)
    requires 0 < d.num && d.nextAvail < d.num && n <= |segs| <= d.num
    requires d.nextAvail == Slot(a, d.num) && d.availUsed == AvailUsed(Phase(a, d.num))
    ensures forall i | 0 <= i < |BodyStores(d, segs, n)| ::
              var s := BodyStores(d, segs, n)[i];
              InWindow(s.slot, a, |segs|, d.num) && (s.SetFlags? ==> s.slot != Slot(a, d.num))
  {
    if n > 0 {
      BodyStoresHide(d, segs, n - 1, a);
      MarkAtPosition(d, a, n - 1);
      assert InWindow(Slot(a + n - 1, d.num), a, |segs|, d.num);
      if n > 1 { SlotsDiffer(a, a + n - 1, d.num); }
    }
  }

  lemma DirectStoresHide(d: Driver, segs: seq<Seg>, a: nat)
    requires 0 < d.num && d.nextAvail < d.num && 0 < |segs| <= d.num
    requires d.nextAvail == Slot(a, d.num) && d.availUsed == AvailUsed(Phase(a, d.num))
    ensures TodoOk(DirectStores(d, segs), a, |segs|, d.num)
  {
    BodyStoresHide(d, segs, |segs|, a);
    assert InWindow(Slot(a, d.num), a, |segs|, d.num);
  }

  lemma IndirectStoresHide(d: Driver, k: nat, phys: int, a: nat)
    requires 0 < d.num && d.nextAvail == Slot(a, d.num)
    ensures TodoOk(IndirectStores(d, k, phys), a, 1, d.num)
  {
    assert InWindow(Slot(a, d.num), a, 1, d.num);
  }

  // ---------------------------------------------------------------- consequences of the invariant

  lemma Shape(s: Sys)
    requires Inv(s)
    ensures Formed(s) && EventsOk(s) && DeliveryOk(s.k.flight, s.dev.taken, s.h)
    ensures s.k.free != [] ==> s.k.free[0] == s.d.freeHead
    ensures s.d.nextAvail == Slot(s.k.published, s.d.num) && s.d.lastUsed == Slot(s.k.reclaimed, s.d.num)
    ensures s.k.published + s.d.numFree == s.k.reclaimed + s.d.num
  {
  }

  lemma Order(s: Sys)
    requires Inv(s)
    ensures s.k.reclaimed <= s.dev.written <= s.dev.fetched <= s.k.published <= s.k.reclaimed + s.d.num
    ensures s.k.published + s.d.numFree == s.k.reclaimed + s.d.num
    ensures s.k.reclaimed == s.dev.written <==> s.h.done == []
    ensures s.dev.fetched == s.k.published ==> s.h.avail == []
  {
    UsedLaidRange(s.k.flight, s.desc, s.d.num, s.h.done, s.k.reclaimed, s.dev.written);
    LaidRange(s.k.flight, s.h.avail, s.dev.fetched, s.k.published);
    if s.h.avail != [] {
      assert BookingOk(s.d.states, s.h.avail[0], s.k.flight[s.h.avail[0]]);
      LaidRange(s.k.flight, s.h.avail[1..], s.dev.fetched + |s.k.flight[s.h.avail[0]].ids|, s.k.published);
    }
  }

  /** The driver sees a used element at its position exactly when the device has written one there. */
  lemma UsedDetection(s: Sys)
    requires Inv(s)
    ensures LooksUsed(s.desc[s.d.lastUsed].flags, s.d.usedWrap) <==> s.k.reclaimed < s.dev.written
    ensures s.k.reclaimed < s.dev.written ==>
              var e := s.desc[s.d.lastUsed];
              && s.h.done != [] && e.id == s.h.done[0].id && e.len == s.h.done[0].len
              && e.id < s.d.num && e.id in s.k.flight
  {
    Order(s);
    var u := s.k.reclaimed;
    if u == s.dev.written {
      if u < s.k.published {
        assert s.desc[Slot(u, s.d.num)].flags.avail == Phase(u, s.d.num);
        assert s.desc[Slot(u, s.d.num)].flags.used == !Phase(u, s.d.num);
      } else {
        assert s.desc[Slot(u, s.d.num)].flags.avail == !Phase(u, s.d.num);
      }
    } else {
      assert BookingOk(s.d.states, s.h.done[0].id, s.k.flight[s.h.done[0].id]);
    }
  }

  /** The device finds its next slot available exactly when a whole chain is published there. */
  lemma AvailableDetection(s: Sys)
    requires Inv(s)
    ensures LooksAvailable(s.desc[Slot(s.dev.fetched, s.d.num)].flags, Phase(s.dev.fetched, s.d.num))
            <==> s.dev.fetched < s.k.published
    ensures s.dev.fetched < s.k.published ==>
              && s.h.avail != [] && s.h.avail[0] in s.k.flight
              && var b := s.k.flight[s.h.avail[0]];
                 Walk(s.desc, s.tables, s.dev.fetched, s.d.num, s.d.num) == Taken(s.h.avail[0], |b.ids|, b.segs)
  {
    Order(s);
    var p := s.dev.fetched;
    if p < s.k.published {
      assert s.desc[Slot(p, s.d.num)].flags.avail == Phase(p, s.d.num);
      assert s.desc[Slot(p, s.d.num)].flags.used == !Phase(p, s.d.num);
      var h := s.h.avail[0];
      assert BookingOk(s.d.states, h, s.k.flight[h]);
      Pigeonhole(s.k.flight[h].ids, s.d.num);
      WalkReads(s.desc, s.tables, s.d.num, h, s.k.flight[h], PageOf(s.h.pages, h));
    } else if p < s.k.reclaimed + s.d.num {
      assert s.desc[Slot(p, s.d.num)].flags.avail == !Phase(p, s.d.num);
    } else {
      FullRing(s);
    }
  }

  lemma FullRing(s: Sys)
    requires Inv(s) && s.dev.fetched == s.k.reclaimed + s.d.num
    ensures !LooksAvailable(s.desc[Slot(s.dev.fetched, s.d.num)].flags, Phase(s.dev.fetched, s.d.num))
  {
    Order(s);
    var u := s.k.reclaimed;
    assert Slot(u + s.d.num, s.d.num) == Slot(u, s.d.num) && Phase(u + s.d.num, s.d.num) == !Phase(u, s.d.num);
    assert s.desc[Slot(u, s.d.num)].flags.avail == Phase(u, s.d.num);
  }

  lemma HeadCount(flight: map<nat, Booking>, done: seq<Done>, taken: seq<Taken>, avail: seq<nat>, x: nat)
    requires HeadsOk(flight, done, taken, avail)
    ensures multiset(DoneIds(done))[x] + multiset(TakenIds(taken))[x] + multiset(avail)[x] ==
            if x in flight then 1 else 0
  {
    var all := multiset(DoneIds(done)) + multiset(TakenIds(taken)) + multiset(avail);
    assert all[x] == multiset(flight.Keys)[x];
  }
}
