/**
  One lemma per step of the packed protocol: the step keeps the invariant.
 */
module PackedSteps {
  import opened RingMath
  import opened Common
  import opened FlagWord
  import opened PackedDriver
  import opened PackedQueue
  import opened PackedProtocol
  import opened PackedProofs

  /** The in-flight part of the ring, positions `[reclaimed, published)`, is the same in both memories. */
  ghost predicate SameFlight(s: Sys, desc': seq<Desc>)
    requires |s.desc| == |desc'| == s.d.num > 0
  {
    forall p: nat | s.k.reclaimed <= p < s.k.published :: desc'[Slot(p, s.d.num)] == s.desc[Slot(p, s.d.num)]
  }

  lemma FlightFrame(s: Sys, desc': seq<Desc>)
    requires Inv(s) && |desc'| == s.d.num && SameFlight(s, desc')
    ensures UsedLaid(s.k.flight, desc', s.d.num, s.h.done, s.k.reclaimed, s.dev.written)
    ensures VisibleAll(s.(desc := desc')) && WritingOk(s.(desc := desc'))
  {
    Shape(s);
    Order(s);
    UsedLaidFrame(s.k.flight, s.k.flight, s.desc, desc', s.d.num, s.h.done, s.k.reclaimed, s.dev.written);
    forall h | h in s.h.avail && h in s.k.flight
      ensures ChainVisible(desc', s.tables, s.d.num, h, s.k.flight[h], PageOf(s.h.pages, h))
    {
      LaidRange(s.k.flight, s.h.avail, s.dev.fetched, s.k.published);
      ChainFrame(s.desc, desc', s.tables, s.tables, s.d.num, h, s.k.flight[h], PageOf(s.h.pages, h));
    }
    if s.dev.writing.Element? {
      WritingRoom(s, s.dev.writing.index);
    }
  }

  lemma {:induction false} WritingRoom(s: Sys, i: nat)
    requires Inv(s) && i < |s.dev.taken|
    ensures s.dev.written + s.dev.taken[i].slots <= s.dev.fetched && s.dev.taken[i].slots > 0
  {
    Shape(s);
    SumRemove(s.dev.taken, i);
  }

  // ---------------------------------------------------------------- add

  lemma BeginVisible(s: Sys, s': Sys, page: Page)
    requires |s.desc| == s.d.num > 0 && VisibleAll(s) && (page.At? ==> page.phys !in s.h.pages.Values)
    requires s' == s.(busy := s'.busy, tables := s'.tables)
    requires s'.tables == s.tables || (page.At? && forall q | q in s.tables && q != page.phys ::
                                       q in s'.tables && s'.tables[q] == s.tables[q])
    ensures VisibleAll(s')
  {
    forall h | h in s.h.avail && h in s.k.flight
      ensures ChainVisible(s.desc, s'.tables, s.d.num, h, s.k.flight[h], PageOf(s.h.pages, h))
    {
      if page.At? && h in s.h.pages {
        assert s.h.pages[h] in s.h.pages.Values;
      }
      ChainFrame(s.desc, s.desc, s.tables, s'.tables, s.d.num, h, s.k.flight[h], PageOf(s.h.pages, h));
    }
  }

  lemma BeginAdding(s: Sys, bufs: seq<Buf>, out: nat, token: nat, page: Page)
    requires Fits(s.d) && |s.desc| == s.d.num && |s.k.free| == s.d.numFree && PhaseOk(s.d, s.k)
    requires 0 < |bufs| && out <= |bufs| && token != 0 && SlotsOf(bufs, page) <= s.d.numFree
    requires page.At? ==> page.phys !in s.h.pages.Values
    ensures AddingOk(DoBegin(s, bufs, out, token, page))
  {
    var s' := DoBegin(s, bufs, out, token, page);
    var segs := Segs(bufs, out);
    TableMeaning(segs);
    var b := NewBooking(s');
    match page {
      case At(phys) =>
        IndirectBuildsChain(s.desc, s'.tables, s.d, b, phys);
        IndirectStoresHide(s.d, |segs|, phys, s.k.published);
      case NoPage =>
        DirectBuildsChain(s.desc, s'.tables, s.d, b);
        DirectStoresHide(s.d, segs, s.k.published);
    }
  }

  lemma BeginKeeps(s: Sys, bufs: seq<Buf>, out: nat, token: nat, page: Page)
    requires Inv(s) && Enabled(s, BeginAdd(bufs, out, token, page))
    ensures Inv(DoBegin(s, bufs, out, token, page))
  {
    BeginVisible(s, DoBegin(s, bufs, out, token, page), page);
    BeginAdding(s, bufs, out, token, page);
    BeginRing(s, DoBegin(s, bufs, out, token, page));
  }

  lemma BeginRing(s: Sys, s': Sys)
    requires |s.desc| == s.d.num > 0 && RingOk(s) && s.busy.Idle?
    requires s' == s.(busy := s'.busy, tables := s'.tables) && s'.busy.Adding? && VisibleAll(s') && AddingOk(s')
    ensures RingOk(s')
  {
  }

  lemma StoreTouches(m: seq<Desc>, st: Store, base: nat, n: nat, num: nat, p: nat, lo: nat)
    requires |m| == num > 0 && InWindow(st.slot, base, n, num)
    requires lo <= base && base + n <= lo + num && lo <= p < lo + num
    ensures !(base <= p < base + n) ==> Apply(m, st)[Slot(p, num)] == m[Slot(p, num)]
    ensures !st.SetFlags? || st.slot != Slot(p, num) ==> Apply(m, st)[Slot(p, num)].flags == m[Slot(p, num)].flags
  {
    WindowInjective(lo, num);
  }

  /** A store of an unfinished add: nothing in flight changes, and the head slot keeps its flags. */
  lemma OneStoreMemory(m: seq<Desc>, todo: seq<Store>, num: nat, u: nat, w: nat, a: nat, n: nat)
    requires |m| == num > 0 && u <= w <= a && a + n <= u + num
    requires TodoOk(todo, a, n, num) && |todo| > 1 && MarksOk(m, num, u, w, a, n)
    ensures MarksOk(Apply(m, todo[0]), num, u, w, a, n)
    ensures forall p: nat | u <= p < a :: Apply(m, todo[0])[Slot(p, num)] == m[Slot(p, num)]
  {
    var m' := Apply(m, todo[0]);
    forall p: nat | u <= p < u + num
      ensures !(a <= p < a + n) ==> m'[Slot(p, num)] == m[Slot(p, num)]
      ensures !(a < p < a + n) ==> m'[Slot(p, num)].flags == m[Slot(p, num)].flags
    {
      StoreTouches(m, todo[0], a, n, num, p, u);
    }
  }

  lemma TodoShrinks(todo: seq<Store>, base: nat, n: nat, num: nat)
    requires num > 0 && |todo| > 1 && TodoOk(todo, base, n, num)
    ensures TodoOk(todo[1..], base, n, num)
  {
    assert forall i | 0 <= i < |todo[1..]| :: todo[1..][i] == todo[i + 1];
  }

  lemma OneStoreAdding(s: Sys)
    requires |s.desc| == s.d.num > 0 && s.busy.Adding? && |s.busy.todo| > 1 && AddingOk(s)
    ensures AddingOk(DoOneStore(s))
  {
    var s' := DoOneStore(s);
    assert s.busy.todo == [s.busy.todo[0]] + s.busy.todo[1..];
    ApplyCons(s.desc, s.busy.todo[0], s.busy.todo[1..]);
    TodoShrinks(s.busy.todo, s.k.published, s.busy.slots, s.d.num);
    assert NewBooking(s') == NewBooking(s);
  }

  lemma OneStoreKeeps(s: Sys)
    requires Inv(s) && s.busy.Adding? && |s.busy.todo| > 1
    ensures Inv(DoOneStore(s))
  {
    Shape(s);
    Order(s);
    OneStoreMemory(s.desc, s.busy.todo, s.d.num, s.k.reclaimed, s.dev.written, s.k.published, s.busy.slots);
    FlightFrame(s, DoOneStore(s).desc);
    OneStoreAdding(s);
    assert VisibleAll(DoOneStore(s)) && WritingOk(DoOneStore(s));
  }

  lemma PublishedMarks(desc: seq<Desc>, tables: map<int, seq<Desc>>, num: nat, h: nat, b: Booking, page: Page, p: nat)
    requires |desc| == num > 0 && ChainVisible(desc, tables, num, h, b, page)
    requires b.start <= p < b.start + |b.ids|
    ensures desc[Slot(p, num)].flags.avail == Phase(p, num)
    ensures desc[Slot(p, num)].flags.used == !Phase(p, num)
  {
    match page
    case At(phys) =>
    case NoPage =>
      var j := p - b.start;
      assert desc[Slot(b.start + j, num)] == ChainDesc(h, b, num, j);
  }

  /** The last store of an add: the whole chain becomes visible and nothing in flight changes. */
  lemma PublishMemory(m: seq<Desc>, tables: map<int, seq<Desc>>, st: Store, num: nat, u: nat, w: nat, h: nat,
                      b: Booking, page: Page)
    requires |m| == num > 0 && u <= w <= b.start && b.start + |b.ids| <= u + num
    requires InWindow(st.slot, b.start, |b.ids|, num) && MarksOk(m, num, u, w, b.start, |b.ids|)
    requires ChainVisible(Apply(m, st), tables, num, h, b, page)
    ensures MarksOk(Apply(m, st), num, u, w, b.start + |b.ids|, 0)
    ensures forall p: nat | u <= p < b.start :: Apply(m, st)[Slot(p, num)] == m[Slot(p, num)]
  {
    var m', a, n := Apply(m, st), b.start, |b.ids|;
    forall p: nat | u <= p < u + num
      ensures !(a <= p < a + n) ==> m'[Slot(p, num)] == m[Slot(p, num)]
    {
      StoreTouches(m, st, a, n, num, p, u);
    }
    forall p: nat | a <= p < a + n
      ensures m'[Slot(p, num)].flags.avail == Phase(p, num)
      ensures m'[Slot(p, num)].flags.used == !Phase(p, num)
    {
      PublishedMarks(m', tables, num, h, b, page, p);
    }
  }

  lemma PublishTilings(f: map<nat, Booking>, h: nat, b: Booking, desc: seq<Desc>, num: nat, done: seq<Done>,
                       taken: seq<Taken>,
                       avail: seq<nat>, u: nat, w: nat, d: nat, a: nat)
    requires |desc| == num > 0 && h !in f && b.start == a
    requires Tiled(f, desc, num, done, taken, avail, u, w, d, a)
    ensures Tiled(f[h := b], desc, num, done, taken, avail + [h], u, w, d, a + |b.ids|)
  {
    UsedLaidFrame(f, f[h := b], desc, desc, num, done, u, w);
    LaidRange(f, avail, d, a);
    LaidFrame(f, f[h := b], avail, d, a);
    LaidSnoc(f[h := b], avail, d, a, h);
  }

  lemma PublishRing(s: Sys)
    requires Inv(s) && s.busy.Adding? && |s.busy.todo| == 1
    requires s.d.freeHead !in s.k.flight
    ensures RingOk(DoPublish(s))
  {
    Order(s);
    var st := s.busy.todo[0];
    assert s.busy.todo == [st] + [];
    ApplyCons(s.desc, st, []);
    PublishMemory(s.desc, s.tables, st, s.d.num, s.k.reclaimed, s.dev.written, s.d.freeHead, NewBooking(s),
                  s.busy.page);
    FlightFrame(s, Apply(s.desc, st));
    PublishRingFrom(s, DoPublish(s), NewBooking(s));
  }

  lemma PublishRingFrom(s: Sys, s': Sys, b: Booking)
    requires |s.desc| == s.d.num > 0 && RingOk(s) && s.busy.Adding? && |s.busy.todo| == 1
    requires Fits(s.d) && |s.k.free| == s.d.numFree && s.k.free[0] == s.d.freeHead && s.d.freeHead !in s.k.flight
    requires s' == DoPublish(s) && b == NewBooking(s)
    requires UsedLaid(s.k.flight, s'.desc, s.d.num, s.h.done, s.k.reclaimed, s.dev.written)
    requires VisibleAll(s.(desc := s'.desc)) && WritingOk(s.(desc := s'.desc))
    requires MarksOk(s'.desc, s.d.num, s.k.reclaimed, s.dev.written, s.k.published + |b.ids|, 0)
    requires ChainVisible(s'.desc, s.tables, s.d.num, s.d.freeHead, b, s.busy.page)
    ensures RingOk(s')
  {
    PublishTilings(s.k.flight, s.k.free[0], b, s'.desc, s.d.num, s.h.done, s.dev.taken, s.h.avail,
                   s.k.reclaimed, s.dev.written, s.dev.fetched, s.k.published);
    PublishVisible(s, s');
    assert s'.k.flight == s.k.flight[s.k.free[0] := b];
  }

  lemma PublishVisible(s: Sys, s': Sys)
    requires |s.desc| == s.d.num > 0 && RingOk(s) && s.busy.Adding? && |s.busy.todo| == 1
    requires Fits(s.d) && |s.k.free| == s.d.numFree && s.k.free[0] == s.d.freeHead && s.d.freeHead !in s.k.flight
    requires s' == DoPublish(s)
    requires VisibleAll(s.(desc := s'.desc))
    requires ChainVisible(s'.desc, s.tables, s.d.num, s.d.freeHead, NewBooking(s), s.busy.page)
    ensures VisibleAll(s') && PagesOk(s'.k.flight, s'.h.pages)
  {
    var h := s.k.free[0];
    forall g | g in s'.h.avail && g in s'.k.flight
      ensures ChainVisible(s'.desc, s'.tables, s'.d.num, g, s'.k.flight[g], PageOf(s'.h.pages, g))
    {
      if g == h {
        assert PageOf(s'.h.pages, h) == s.busy.page;
      } else {
        assert g in s.h.avail && PageOf(s'.h.pages, g) == PageOf(s.h.pages, g);
      }
    }
    forall x, y | x in s'.h.pages && y in s'.h.pages && x != y
      ensures s'.h.pages[x] != s'.h.pages[y]
    {
      assert forall z | z in s.h.pages :: s.h.pages[z] in s.h.pages.Values;
    }
  }

  lemma PublishHeads(f: map<nat, Booking>, taken: seq<Taken>, h: History, head: nat, b: Booking)
    requires HeadsOk(f, h.done, taken, h.avail) && head !in f
    ensures HeadsOk(f[head := b], h.done, taken, h.avail + [head])
  {
    assert f[head := b].Keys == f.Keys + {head};
    assert multiset(f.Keys + {head}) == multiset(f.Keys) + multiset{head};
  }

  lemma PublishDelivery(f: map<nat, Booking>, taken: seq<Taken>, h: History, head: nat, b: Booking, h': History)
    requires DeliveryOk(f, taken, h) && head !in f
    requires h' == h.(avail := h.avail + [head], pages := h'.pages, added := h.added + [b.token])
    ensures DeliveryOk(f[head := b], taken, h')
  {
    var f' := f[head := b];
    PublishHeads(f, taken, h, head, b);
    DoneInFlight(f, h.done, taken, h.avail);
    assert Outcomes(f', h.done) == Outcomes(f, h.done);
    assert Tokens(f', TakenIds(taken)) == Tokens(f, TakenIds(taken));
    assert Tokens(f', h'.avail) == Tokens(f, h.avail) + [b.token];
  }

  lemma DoneInFlight(f: map<nat, Booking>, done: seq<Done>, taken: seq<Taken>, avail: seq<nat>)
    requires HeadsOk(f, done, taken, avail)
    ensures forall i | 0 <= i < |done| :: done[i].id in f
    ensures forall i | 0 <= i < |taken| :: taken[i].id in f
    ensures forall i | 0 <= i < |avail| :: avail[i] in f
  {
    forall i | 0 <= i < |done| ensures done[i].id in f {
      HeadCount(f, done, taken, avail, done[i].id);
      MemberCount(DoneIds(done), i);
    }
    forall i | 0 <= i < |taken| ensures taken[i].id in f {
      HeadCount(f, done, taken, avail, taken[i].id);
      MemberCount(TakenIds(taken), i);
    }
    forall i | 0 <= i < |avail| ensures avail[i] in f {
      HeadCount(f, done, taken, avail, avail[i]);
      MemberCount(avail, i);
    }
  }

  lemma PublishKeeps(s: Sys)
    requires Inv(s) && s.busy.Adding? && |s.busy.todo| == 1
    ensures Inv(DoPublish(s))
  {
    var b := s.busy;
    AddKeepsIds(s.d, s.k, b.slots, b.token, b.segs, b.page.At?);
    AddKeepsPhase(s.d, s.k, b.slots, b.token, b.segs, b.page.At?);
    AddKeepsFlight(s.d, s.k, b.slots, b.token, b.segs, b.page.At?);
    PublishRing(s);
    PublishDelivery(s.k.flight, s.dev.taken, s.h, s.k.free[0], NewBooking(s), DoPublish(s).h);
    assert DoPublish(s).k.flight == s.k.flight[s.k.free[0] := NewBooking(s)];
  }

  // ---------------------------------------------------------------- get

  lemma OldestIsAlone(f: map<nat, Booking>, done: seq<Done>, taken: seq<Taken>, avail: seq<nat>)
    requires HeadsOk(f, done, taken, avail) && done != []
    ensures forall i | 1 <= i < |done| :: done[i].id != done[0].id
    ensures forall i | 0 <= i < |taken| :: taken[i].id != done[0].id
    ensures done[0].id !in avail && done[0].id in f
  {
    var x := done[0].id;
    var ids := DoneIds(done);
    HeadCount(f, done, taken, avail, x);
    MemberCount(ids, 0);
    assert ids == [x] + ids[1..];
    forall i | 1 <= i < |done| ensures done[i].id != x {
      MemberCount(ids[1..], i - 1);
    }
    forall i | 0 <= i < |taken| ensures taken[i].id != x {
      MemberCount(TakenIds(taken), i);
    }
    assert x in avail ==> multiset(avail)[x] >= 1;
  }

  lemma GetMarks(desc: seq<Desc>, num: nat, u: nat, w: nat, a: nat, n: nat)
    requires |desc| == num > 0 && MarksOk(desc, num, u, w, a, 0) && u + n <= w <= a <= u + num
    ensures MarksOk(desc, num, u + n, w, a, 0)
  {
    forall p: nat | u + num <= p < u + n + num
      ensures desc[Slot(p, num)].flags.avail == !Phase(p, num)
    {
      var q := p - num;
      assert Slot(p, num) == Slot(q, num) && Phase(p, num) == !Phase(q, num);
      assert desc[Slot(q, num)].flags.avail == Phase(q, num);
    }
  }

  lemma GetTilings(f: map<nat, Booking>, desc: seq<Desc>, num: nat, done: seq<Done>, taken: seq<Taken>,
                   avail: seq<nat>, u: nat, w: nat, d: nat, a: nat)
    requires |desc| == num > 0 && done != [] && HeadsOk(f, done, taken, avail)
    requires Tiled(f, desc, num, done, taken, avail, u, w, d, a)
    ensures Tiled(f - {done[0].id}, desc, num, done[1..], taken, avail, u + done[0].slots, w, d, a)
    ensures u + done[0].slots <= w
  {
    var g := f - {done[0].id};
    OldestIsAlone(f, done, taken, avail);
    assert forall i | 0 <= i < |done[1..]| :: done[1..][i] == done[i + 1];
    UsedLaidRange(f, desc, num, done[1..], u + done[0].slots, w);
    UsedLaidFrame(f, g, desc, desc, num, done[1..], u + done[0].slots, w);
    LaidFrame(f, g, avail, d, a);
  }

  lemma GetVisible(s: Sys, id: nat, s': Sys)
    requires |s.desc| == s.d.num > 0 && VisibleAll(s) && PagesOk(s.k.flight, s.h.pages) && id in s.k.flight
    requires id !in s.h.avail
    requires |s'.desc| == s'.d.num && s'.desc == s.desc && s'.tables == s.tables && s'.k.flight == s.k.flight - {id}
    requires s'.h.avail == s.h.avail && s'.h.pages == s.h.pages - {id}
    ensures VisibleAll(s') && PagesOk(s'.k.flight, s'.h.pages)
  {
    forall h | h in s'.h.avail && h in s'.k.flight
      ensures ChainVisible(s'.desc, s'.tables, s'.d.num, h, s'.k.flight[h], PageOf(s'.h.pages, h))
    {
      assert h != id && PageOf(s'.h.pages, h) == PageOf(s.h.pages, h);
    }
  }

  lemma GetRingFrom(s: Sys, s': Sys, id: nat)
    requires |s.desc| == s.d.num > 0 && RingOk(s) && HeadsOk(s.k.flight, s.h.done, s.dev.taken, s.h.avail)
    requires s.busy.Idle? && s.h.done != [] && id == s.h.done[0].id && id in s.k.flight
    requires s.dev.written <= s.k.published <= s.k.reclaimed + s.d.num
    requires s' == s.(busy := Getting, d := s'.d, k := s'.k, h := s'.h) && s'.d.num == s.d.num
    requires s'.k.flight == s.k.flight - {id} && s'.k.published == s.k.published
    requires s'.k.reclaimed == s.k.reclaimed + s.h.done[0].slots
    requires s'.h.avail == s.h.avail && s'.h.pages == s.h.pages - {id} && s'.h.done == s.h.done[1..]
    ensures RingOk(s')
  {
    OldestIsAlone(s.k.flight, s.h.done, s.dev.taken, s.h.avail);
    GetTilings(s.k.flight, s.desc, s.d.num, s.h.done, s.dev.taken, s.h.avail,
               s.k.reclaimed, s.dev.written, s.dev.fetched, s.k.published);
    GetMarks(s.desc, s.d.num, s.k.reclaimed, s.dev.written, s.k.published, s.h.done[0].slots);
    GetVisible(s, id, s');
  }

  lemma GetHeads(f: map<nat, Booking>, taken: seq<Taken>, h: History)
    requires HeadsOk(f, h.done, taken, h.avail) && h.done != [] && h.done[0].id in f
    ensures HeadsOk(f - {h.done[0].id}, h.done[1..], taken, h.avail)
  {
    var id := h.done[0].id;
    assert (f - {id}).Keys == f.Keys - {id};
    assert f.Keys == (f.Keys - {id}) + {id};
    assert multiset((f - {id}).Keys) + multiset{id} == multiset(f.Keys);
    assert DoneIds(h.done) == [id] + DoneIds(h.done[1..]);
    assert multiset(DoneIds(h.done)) == multiset{id} + multiset(DoneIds(h.done[1..]));
    Cancel(multiset(DoneIds(h.done[1..])) + multiset(TakenIds(taken)) + multiset(h.avail), multiset((f - {id}).Keys),
           id);
  }

  lemma GetDelivery(f: map<nat, Booking>, taken: seq<Taken>, h: History, h': History)
    requires DeliveryOk(f, taken, h) && h.done != [] && h.done[0].id in f
    requires h' == h.(done := h.done[1..], pages := h'.pages, armed := h'.armed,
                      returned := h.returned + [(f[h.done[0].id].token, h.done[0].len)])
    ensures DeliveryOk(f - {h.done[0].id}, taken, h')
  {
    var id := h.done[0].id;
    var f' := f - {id};
    GetHeads(f, taken, h);
    OldestIsAlone(f, h.done, taken, h.avail);
    DoneInFlight(f, h.done, taken, h.avail);
    assert Outcomes(f, h.done) == [(f[id].token, h.done[0].len)] + Outcomes(f', h'.done);
    assert Tokens(f', TakenIds(taken)) == Tokens(f, TakenIds(taken));
    assert Tokens(f', h.avail) == Tokens(f, h.avail);
  }

  lemma GetNothing(s: Sys)
    requires Inv(s) && s.busy.Idle? && !LooksUsed(s.desc[s.d.lastUsed].flags, s.d.usedWrap)
    requires s.k.reclaimed == s.dev.written
    ensures Inv(DoGet(s))
  {
    hide LooksUsed;
    QuietRing(s, DoGet(s));
  }

  lemma OldestSlots(s: Sys)
    requires Inv(s) && s.h.done != [] && s.h.done[0].id in s.k.flight
    ensures s.h.done[0].slots == |s.k.flight[s.h.done[0].id].ids|
  {
  }

  lemma GetOldest(s: Sys, id: nat)
    requires Inv(s) && s.busy.Idle? && LooksUsed(s.desc[s.d.lastUsed].flags, s.d.usedWrap)
    requires s.h.done != [] && id == s.h.done[0].id == s.desc[s.d.lastUsed].id < s.d.num && id in s.k.flight
    requires s.h.done[0].len == s.desc[s.d.lastUsed].len && s.k.reclaimed <= s.dev.written <= s.k.published
    ensures Inv(DoGet(s))
  {
    hide LooksUsed, MarksOk, Tiled, VisibleAll;
    OldestSlots(s);
    OldestIsAlone(s.k.flight, s.h.done, s.dev.taken, s.h.avail);
    GetKeepsIds(s.d, s.k, id);
    GetKeepsPhase(s.d, s.k, id);
    assert BookingOk(s.d.states, id, s.k.flight[id]);
    GetRingFrom(s, DoGet(s), id);
    GetDelivery(s.k.flight, s.dev.taken, s.h, DoGet(s).h);
  }

  lemma GetKeeps(s: Sys)
    requires Inv(s) && s.busy.Idle?
    ensures Inv(DoGet(s))
  {
    hide Inv, LooksUsed;
    Shape(s);
    UsedDetection(s);
    Order(s);
    if s.k.reclaimed < s.dev.written { GetOldest(s, s.h.done[0].id); } else { GetNothing(s); }
  }

  // ---------------------------------------------------------------- device

  lemma FetchDelivery(f: map<nat, Booking>, taken: seq<Taken>, t: Taken, h: History)
    requires DeliveryOk(f, taken, h) && h.avail != [] && t.id == h.avail[0] && t.id in f
    ensures DeliveryOk(f, taken + [t], h.(avail := h.avail[1..]))
  {
    assert TakenIds(taken + [t]) == TakenIds(taken) + [t.id];
    assert h.avail == [t.id] + h.avail[1..];
    assert Tokens(f, TakenIds(taken + [t])) == Tokens(f, TakenIds(taken)) + [f[t.id].token];
    assert Tokens(f, h.avail) == [f[t.id].token] + Tokens(f, h.avail[1..]);
  }

  lemma FetchTilings(f: map<nat, Booking>, desc: seq<Desc>, num: nat, done: seq<Done>, taken: seq<Taken>,
                     avail: seq<nat>, u: nat, w: nat, d: nat, a: nat, t: Taken)
    requires |desc| == num > 0 && Tiled(f, desc, num, done, taken, avail, u, w, d, a) && avail != []
    requires t == Taken(avail[0], |f[avail[0]].ids|, f[avail[0]].segs) && t.slots > 0
    ensures Tiled(f, desc, num, done, taken + [t], avail[1..], u, w, d + t.slots, a)
  {
    SumSnoc(taken, t);
  }

  /** What `s` and `s'` must share for the rest of the ring invariant to carry over. */
  lemma RestFrame(s: Sys, s': Sys)
    requires |s.desc| == s.d.num > 0
    requires VisibleAll(s) && WritingOk(s) && (s.busy.Adding? ==> AddingOk(s))
    requires s' == s.(dev := s'.dev, h := s'.h) && s'.h.pages == s.h.pages
    requires forall h | h in s'.h.avail :: h in s.h.avail
    requires s'.dev.written == s.dev.written && s'.dev.writing == s.dev.writing && s.dev.taken <= s'.dev.taken
    ensures VisibleAll(s') && WritingOk(s') && (s'.busy.Adding? ==> AddingOk(s'))
  {
    if s.busy.Adding? {
      assert NewBooking(s') == NewBooking(s);
    }
  }

  lemma FetchRing(s: Sys, t: Taken)
    requires |s.desc| == s.d.num > 0 && RingOk(s) && s.h.avail != []
    requires s.h.avail[0] in s.k.flight
    requires t == Taken(s.h.avail[0], |s.k.flight[s.h.avail[0]].ids|, s.k.flight[s.h.avail[0]].segs) && t.slots > 0
    requires Walk(s.desc, s.tables, s.dev.fetched, s.d.num, s.d.num) == t
    ensures RingOk(DoFetch(s))
  {
    FetchTilings(s.k.flight, s.desc, s.d.num, s.h.done, s.dev.taken, s.h.avail,
                 s.k.reclaimed, s.dev.written, s.dev.fetched, s.k.published, t);
    RestFrame(s, DoFetch(s));
  }

  lemma FetchKeeps(s: Sys)
    requires Inv(s) && Enabled(s, Fetch)
    ensures Inv(DoFetch(s))
  {
    AvailableDetection(s);
    var h := s.h.avail[0];
    var t := Taken(h, |s.k.flight[h].ids|, s.k.flight[h].segs);
    assert BookingOk(s.d.states, h, s.k.flight[h]);
    FetchRing(s, t);
    FetchDelivery(s.k.flight, s.dev.taken, t, s.h);
  }

  lemma UnfetchedFrame(s: Sys, desc': seq<Desc>, i: nat)
    requires Inv(s) && |desc'| == s.d.num && i < |s.dev.taken|
    requires forall t | 0 <= t < s.d.num && t != Slot(s.dev.written, s.d.num) :: desc'[t] == s.desc[t]
    ensures VisibleAll(s.(desc := desc'))
  {
    Shape(s);
    Order(s);
    WritingRoom(s, i);
    WindowInjective(s.k.reclaimed, s.d.num);
    LaidRange(s.k.flight, s.h.avail, s.dev.fetched, s.k.published);
    forall h | h in s.h.avail && h in s.k.flight
      ensures ChainVisible(desc', s.tables, s.d.num, h, s.k.flight[h], PageOf(s.h.pages, h))
    {
      ChainFrame(s.desc, desc', s.tables, s.tables, s.d.num, h, s.k.flight[h], PageOf(s.h.pages, h));
    }
  }

  lemma UsedFrame(s: Sys, desc': seq<Desc>, i: nat)
    requires Inv(s) && |desc'| == s.d.num && i < |s.dev.taken|
    requires forall t | 0 <= t < s.d.num && t != Slot(s.dev.written, s.d.num) :: desc'[t] == s.desc[t]
    ensures UsedLaid(s.k.flight, desc', s.d.num, s.h.done, s.k.reclaimed, s.dev.written)
  {
    Shape(s);
    Order(s);
    WritingRoom(s, i);
    WindowInjective(s.k.reclaimed, s.d.num);
    UsedLaidFrame(s.k.flight, s.k.flight, s.desc, desc', s.d.num, s.h.done, s.k.reclaimed, s.dev.written);
  }

  /** A device write to its used position disturbs neither earlier used elements nor chains not yet fetched. */
  lemma DeviceWriteFrame(s: Sys, desc': seq<Desc>, i: nat)
    requires Inv(s) && |desc'| == s.d.num && i < |s.dev.taken|
    requires forall t | 0 <= t < s.d.num && t != Slot(s.dev.written, s.d.num) :: desc'[t] == s.desc[t]
    ensures UsedLaid(s.k.flight, desc', s.d.num, s.h.done, s.k.reclaimed, s.dev.written)
    ensures VisibleAll(s.(desc := desc'))
    ensures s.busy.Adding? ==> AddingOk(s.(desc := desc'))
  {
    hide Inv, UsedLaid, VisibleAll, AddingOk;
    Shape(s);
    UsedFrame(s, desc', i);
    UnfetchedFrame(s, desc', i);
    if s.busy.Adding? {
      AddingFrame(s, desc', i);
    }
  }

  lemma AddingFrame(s: Sys, desc': seq<Desc>, i: nat)
    requires Inv(s) && |desc'| == s.d.num && i < |s.dev.taken| && s.busy.Adding?
    requires forall t | 0 <= t < s.d.num && t != Slot(s.dev.written, s.d.num) :: desc'[t] == s.desc[t]
    ensures AddingOk(s.(desc := desc'))
  {
    Shape(s);
    Order(s);
    WritingRoom(s, i);
    var m, m' := ApplyAll(s.desc, s.busy.todo), ApplyAll(desc', s.busy.todo);
    var b := NewBooking(s);
    forall p: nat | b.start <= p < b.start + |b.ids|
      ensures m'[Slot(p, s.d.num)] == m[Slot(p, s.d.num)]
    {
      SlotsDiffer(s.dev.written, p, s.d.num);
      ApplyFrame(desc', s.desc, s.busy.todo, Slot(p, s.d.num));
    }
    ChainFrame(m, m', s.tables, s.tables, s.d.num, s.d.freeHead, b, s.busy.page);
    assert NewBooking(s.(desc := desc')) == b;
  }

  lemma WriteBodyRing(s: Sys, s': Sys, i: nat, len: int)
    requires |s.desc| == s.d.num > 0 && RingOk(s) && i < |s.dev.taken| && s' == DoWriteBody(s, i, len)
    requires UsedLaid(s.k.flight, s'.desc, s.d.num, s.h.done, s.k.reclaimed, s.dev.written)
    requires VisibleAll(s.(desc := s'.desc)) && (s.busy.Adding? ==> AddingOk(s.(desc := s'.desc)))
    ensures RingOk(s')
  {
    assert forall t | 0 <= t < s.d.num :: s'.desc[t].flags == s.desc[t].flags;
    SameMarks(s.desc, s'.desc, s.d.num, s.k.reclaimed, s.dev.written, s.k.published,
              if s.busy.Adding? then s.busy.slots else 0);
    if s.busy.Adding? {
      assert NewBooking(s') == NewBooking(s.(desc := s'.desc));
    }
  }

  lemma SameMarks(m: seq<Desc>, m': seq<Desc>, num: nat, u: nat, w: nat, a: nat, hidden: nat)
    requires |m| == |m'| == num > 0 && MarksOk(m, num, u, w, a, hidden)
    requires forall t | 0 <= t < num :: m'[t].flags == m[t].flags
    ensures MarksOk(m', num, u, w, a, hidden)
  {
  }

  lemma WriteBodyKeeps(s: Sys, i: nat, len: int)
    requires Inv(s) && Enabled(s, WriteBody(i, len))
    ensures Inv(DoWriteBody(s, i, len))
  {
    DeviceWriteFrame(s, DoWriteBody(s, i, len).desc, i);
    WriteBodyRing(s, DoWriteBody(s, i, len), i, len);
  }

  lemma WriteFlagsMarks(s: Sys, f: Flags)
    requires Inv(s) && Enabled(s, WriteFlags(f))
    ensures var s' := DoWriteFlags(s, f);
            MarksOk(s'.desc, s.d.num, s.k.reclaimed, s'.dev.written, s.k.published,
                    if s.busy.Adding? then s.busy.slots else 0)
  {
    Shape(s);
    Order(s);
    WritingRoom(s, s.dev.writing.index);
    MarksAfterUsed(s.desc, s.d.num, s.k.reclaimed, s.dev.written, s.k.published,
                   if s.busy.Adding? then s.busy.slots else 0, s.dev.taken[s.dev.writing.index].slots, f);
  }

  lemma MarksAfterUsed(desc: seq<Desc>, num: nat, u: nat, w: nat, a: nat, hidden: nat, n: nat, f: Flags)
    requires |desc| == num > 0 && u <= w < w + n <= a <= u + num && MarksOk(desc, num, u, w, a, hidden)
    requires LooksUsed(f, Phase(w, num))
    ensures var s := Slot(w, num); MarksOk(desc[s := desc[s].(flags := f)], num, u, w + n, a, hidden)
  {
    WindowInjective(u, num);
  }

  lemma WriteFlagsTilings(f: map<nat, Booking>, desc: seq<Desc>, num: nat, done: seq<Done>, taken: seq<Taken>,
                          avail: seq<nat>, u: nat, w: nat, d: nat, a: nat, i: nat, len: int)
    requires |desc| == num > 0 && i < |taken| && Tiled(f, desc, num, done, taken, avail, u, w, d, a)
    requires var e := desc[Slot(w, num)]; e.id == taken[i].id && e.len == len && LooksUsed(e.flags, Phase(w, num))
    ensures var x := Done(taken[i].id, taken[i].slots, len);
            Tiled(f, desc, num, done + [x], taken[..i] + taken[i + 1..], avail, u, w + x.slots, d, a)
  {
    var x := Done(taken[i].id, taken[i].slots, len);
    assert [x][1..] == [];
    UsedLaidSnoc(f, desc, num, done, u, w, x);
    SumRemove(taken, i);
  }

  lemma WriteFlagsRing(s: Sys, f: Flags)
    requires Inv(s) && Enabled(s, WriteFlags(f))
    ensures RingOk(DoWriteFlags(s, f))
  {
    WriteFlagsMarks(s, f);
    DeviceWriteFrame(s, DoWriteFlags(s, f).desc, s.dev.writing.index);
    WriteFlagsRingFrom(s, f);
  }

  lemma WriteFlagsRingFrom(s: Sys, f: Flags)
    requires |s.desc| == s.d.num > 0 && RingOk(s) && s.dev.writing.Element?
    requires LooksUsed(f, Phase(s.dev.written, s.d.num))
    requires s.dev.taken[s.dev.writing.index].id in s.k.flight
    requires var s' := DoWriteFlags(s, f);
             && MarksOk(s'.desc, s.d.num, s.k.reclaimed, s'.dev.written, s.k.published,
                        if s.busy.Adding? then s.busy.slots else 0)
             && UsedLaid(s.k.flight, s'.desc, s.d.num, s.h.done, s.k.reclaimed, s.dev.written)
             && VisibleAll(s.(desc := s'.desc)) && (s.busy.Adding? ==> AddingOk(s.(desc := s'.desc)))
    ensures RingOk(DoWriteFlags(s, f))
  {
    var s' := DoWriteFlags(s, f);
    WriteFlagsTilings(s.k.flight, s'.desc, s.d.num, s.h.done, s.dev.taken, s.h.avail,
                      s.k.reclaimed, s.dev.written, s.dev.fetched, s.k.published,
                      s.dev.writing.index, s.dev.writing.len);
    WriteFlagsRest(s, s');
  }

  lemma WriteFlagsRest(s: Sys, s': Sys)
    requires |s.desc| == |s'.desc| == s.d.num > 0
    requires VisibleAll(s.(desc := s'.desc)) && (s.busy.Adding? ==> AddingOk(s.(desc := s'.desc)))
    requires s' == s.(desc := s'.desc, dev := s'.dev, h := s'.h) && s'.dev.writing.Nothing?
    requires s'.h.avail == s.h.avail && s'.h.pages == s.h.pages
    ensures VisibleAll(s') && WritingOk(s') && (s'.busy.Adding? ==> AddingOk(s'))
  {
    if s.busy.Adding? {
      assert NewBooking(s') == NewBooking(s.(desc := s'.desc));
    }
  }

  lemma TokensSplit(f: map<nat, Booking>, a: seq<nat>, b: seq<nat>)
    ensures Tokens(f, a + b) == Tokens(f, a) + Tokens(f, b)
  {
  }

  lemma WriteFlagsDelivery(f: map<nat, Booking>, taken: seq<Taken>, i: nat, len: int, h: History, h': History)
    requires DeliveryOk(f, taken, h) && i < |taken| && taken[i].id in f
    requires h' == h.(done := h.done + [Done(taken[i].id, taken[i].slots, len)],
                      completed := h.completed + [(f[taken[i].id].token, len)])
    ensures DeliveryOk(f, taken[..i] + taken[i + 1..], h')
  {
    var id, ids, token := taken[i].id, TakenIds(taken), f[taken[i].id].token;
    var ids' := TakenIds(taken[..i] + taken[i + 1..]);
    assert ids == ids[..i] + ([id] + ids[i + 1..]);
    assert ids' == ids[..i] + ids[i + 1..];
    TokensSplit(f, ids[..i], [id] + ids[i + 1..]);
    TokensSplit(f, [id], ids[i + 1..]);
    TokensSplit(f, ids[..i], ids[i + 1..]);
    assert Tokens(f, [id]) == [token];
    assert DoneIds(h'.done) == DoneIds(h.done) + [id];
    assert Outcomes(f, h'.done) == Outcomes(f, h.done) + [(token, len)];
    assert Firsts(h'.completed) == Firsts(h.completed) + [token];
  }

  lemma WriteFlagsKeeps(s: Sys, f: Flags)
    requires Inv(s) && Enabled(s, WriteFlags(f))
    ensures Inv(DoWriteFlags(s, f))
  {
    Order(s);
    WritingRoom(s, s.dev.writing.index);
    WriteFlagsRing(s, f);
    WriteFlagsOutcome(s, f);
  }

  lemma WriteFlagsOutcome(s: Sys, f: Flags)
    requires |s.desc| == s.d.num > 0 && s.dev.writing.Element? && s.dev.writing.index < |s.dev.taken|
    requires s.dev.taken[s.dev.writing.index].id in s.k.flight && DeliveryOk(s.k.flight, s.dev.taken, s.h)
    requires EventsOk(s)
    ensures var s' := DoWriteFlags(s, f); DeliveryOk(s'.k.flight, s'.dev.taken, s'.h) && EventsOk(s')
  {
    WriteFlagsDelivery(s.k.flight, s.dev.taken, s.dev.writing.index, s.dev.writing.len, s.h, DoWriteFlags(s, f).h);
  }

  lemma CheckCovers(s: Sys)
    requires Inv(s) && Enabled(s, Check) && s.h.armed && s.k.reclaimed < s.dev.written && s.dev.checked <= s.k.reclaimed
    ensures EventCovers(s.evFlags, s.evOffset, s.dev.checked, s.dev.written, s.d.num)
  {
    Shape(s);
    if s.evFlags == EVENT_DESC {
      var p := s.k.reclaimed;
      assert s.dev.checked <= p < s.dev.written && s.evOffset == PackEvent(Slot(p, s.d.num), Phase(p, s.d.num));
    }
  }

  /** Event fields, the device's check mark and the interrupt record do not matter to the ring. */
  lemma QuietRing(s: Sys, s': Sys)
    requires |s.desc| == s.d.num > 0 && RingOk(s)
    requires s' == s.(busy := s'.busy, shadow := s'.shadow, evOffset := s'.evOffset, evFlags := s'.evFlags,
                      dev := s.dev.(checked := s'.dev.checked), h := s.h.(armed := s'.h.armed, irq := s'.h.irq))
    requires s'.busy == s.busy || (!s.busy.Adding? && !s'.busy.Adding?)
    ensures RingOk(s')
  {
    if s.busy.Adding? {
      assert NewBooking(s') == NewBooking(s);
    }
  }

  lemma QuietEvents(s: Sys, a: Step)
    requires Inv(s) && Enabled(s, a)
    requires a.GetEvent? || a.Disable? || a.EnableOffset? || a.EnableFlags? || a.EnableCheck? || a.Check?
    requires LooksUsed(s.desc[s.d.lastUsed].flags, s.d.usedWrap) <==> s.k.reclaimed < s.dev.written
    requires a.Check? && s.h.armed && s.k.reclaimed < s.dev.written && s.dev.checked <= s.k.reclaimed ==>
               EventCovers(s.evFlags, s.evOffset, s.dev.checked, s.dev.written, s.d.num)
    requires s.k.reclaimed <= s.dev.written
    ensures EventsOk(Next(s, a))
  {
  }

  /** Steps that touch only event fields and the device's check. */
  lemma QuietKeeps(s: Sys, a: Step)
    requires Inv(s) && Enabled(s, a)
    requires a.GetEvent? || a.Disable? || a.EnableOffset? || a.EnableFlags? || a.EnableCheck? || a.Check?
    ensures Inv(Next(s, a))
  {
    hide RingOk, EventsOk, IdsOk, PhaseOk, LooksUsed, EventCovers;
    UsedDetection(s);
    Order(s);
    if a.Check? && s.h.armed && s.k.reclaimed < s.dev.written && s.dev.checked <= s.k.reclaimed {
      CheckCovers(s);
    }
    QuietEvents(s, a);
    QuietRing(s, Next(s, a));
  }

  lemma StoreKeeps(s: Sys)
    requires Inv(s) && Enabled(s, DoStore)
    ensures Inv(Next(s, DoStore))
  {
    if |s.busy.todo| == 1 { PublishKeeps(s); } else { OneStoreKeeps(s); }
  }

  // ---------------------------------------------------------------- kick

  /** The count of slots since the last kick matters to nothing else. */
  lemma KickIds(d: Driver, k: Books)
    requires IdsOk(d, k) && PhaseOk(d, k)
    ensures IdsOk(d.(numAdded := 0), k) && PhaseOk(d.(numAdded := 0), k)
  {
  }

  lemma KickRing(s: Sys, s': Sys)
    requires |s.desc| == s.d.num > 0 && RingOk(s) && s.busy.Idle? && s' == s.(d := s.d.(numAdded := 0))
    ensures RingOk(s')
  {
  }

  lemma KickKeeps(s: Sys)
    requires Inv(s) && s.busy.Idle?
    ensures Inv(s.(d := s.d.(numAdded := 0)))
  {
    KickIds(s.d, s.k);
    KickRing(s, s.(d := s.d.(numAdded := 0)));
  }

  lemma StepKeepsInv(s: Sys, a: Step)
    requires Inv(s) && Enabled(s, a)
    ensures Inv(Next(s, a))
  {
    hide Inv;
    match a
    case BeginAdd(bufs, out, token, page) => BeginKeeps(s, bufs, out, token, page);
    case DoStore => StoreKeeps(s);
    case GetTake => GetKeeps(s);
    case Kick => KickKeeps(s);
    case Fetch => FetchKeeps(s);
    case WriteBody(i, len) => WriteBodyKeeps(s, i, len);
    case WriteFlags(f) => WriteFlagsKeeps(s, f);
    case _ => QuietKeeps(s, a);
  }
}
