/**
  Every step of the split protocol keeps the invariant.
 */
module SplitSteps {
  import opened RingMath
  import opened Common
  import opened FlagWord
  import opened SplitDriver
  import opened SplitQueue
  import opened SplitProtocol

  // ---------------------------------------------------------------- consequences of the invariant

  lemma Order(s: Sys)
    requires Inv(s)
    ensures s.k.reclaimed <= s.dev.written <= s.dev.fetched <= s.k.published
    ensures s.k.published + s.p.numUnused <= s.k.reclaimed + s.p.num
    ensures 0 < s.p.num <= 0x8000
  {
    FlightCount(s.p, s.k);
  }

  lemma CloseCounters(a: nat, b: nat)
    requires a <= b <= a + 0x8000
    ensures Trunc16(a) == Trunc16(b) <==> a == b
  {
  }

  /** 16-bit comparison of the shared indices sees exactly the unfetched and the unreclaimed buffers. */
  lemma Detection(s: Sys)
    requires Inv(s)
    ensures s.lastUsed != s.m.usedIdx <==> s.h.done != []
    ensures s.m.availIdx != Trunc16(s.dev.fetched) <==> s.h.avail != []
  {
    Order(s);
    CloseCounters(s.k.reclaimed, s.dev.written);
    CloseCounters(s.dev.fetched, s.k.published);
  }

  lemma HeadCount(flight: map<nat, Booking>, done: seq<(nat, int)>, taken: seq<Taken>, avail: seq<nat>, x: nat)
    requires HeadsOk(flight, done, taken, avail)
    ensures multiset(Firsts(done))[x] + multiset(TakenHeads(taken))[x] + multiset(avail)[x] ==
            if x in flight then 1 else 0
  {
    var all := multiset(Firsts(done)) + multiset(TakenHeads(taken)) + multiset(avail);
    assert all[x] == multiset(flight.Keys)[x];
  }

  lemma AllInFlight(f: map<nat, Booking>, done: seq<(nat, int)>, taken: seq<Taken>, avail: seq<nat>)
    requires HeadsOk(f, done, taken, avail)
    ensures forall i | 0 <= i < |done| :: done[i].0 in f
    ensures forall i | 0 <= i < |taken| :: taken[i].head in f
    ensures forall i | 0 <= i < |avail| :: avail[i] in f
  {
    forall i | 0 <= i < |done| ensures done[i].0 in f {
      HeadCount(f, done, taken, avail, done[i].0);
      MemberCount(Firsts(done), i);
    }
    forall i | 0 <= i < |taken| ensures taken[i].head in f {
      HeadCount(f, done, taken, avail, taken[i].head);
      MemberCount(TakenHeads(taken), i);
    }
    forall i | 0 <= i < |avail| ensures avail[i] in f {
      HeadCount(f, done, taken, avail, avail[i]);
      MemberCount(avail, i);
    }
  }

  // ---------------------------------------------------------------- submission preserves meaning

  lemma {:induction false} WalkChain(desc: seq<Desc>, h: nat, b: Booking, j: nat, fuel: nat)
    requires ChainOk(desc, h, b) && b.page.NoPage? && j < |b.ids| <= j + fuel + 1
    ensures Walk(desc, b.ids[j], fuel) == b.segs[j..]
    decreases fuel
  {
    assert Seg(b.segs[j].addr, b.segs[j].len, b.segs[j].write) == b.segs[j];
    assert b.segs[j..] == [b.segs[j]] + b.segs[j + 1..];
    if j < |b.ids| - 1 {
      WalkChain(desc, h, b, j + 1, fuel - 1);
    }
  }

  lemma {:induction false} WalkTable(segs: seq<Seg>, j: nat, fuel: nat)
    requires j < |segs| <= j + fuel + 1
    ensures Walk(TableOf(segs), j, fuel) == segs[j..]
    decreases fuel
  {
    assert Seg(segs[j].addr, segs[j].len, segs[j].write) == segs[j];
    assert segs[j..] == [segs[j]] + segs[j + 1..];
    if j < |segs| - 1 {
      WalkTable(segs, j + 1, fuel - 1);
    }
  }

  /** Whichever encoding was used, the device reads the submitted buffer list, directions included. */
  lemma MeaningIsSegs(desc: seq<Desc>, tables: map<int, seq<Desc>>, h: nat, b: Booking)
    requires ChainOk(desc, h, b)
    requires b.page.At? ==> b.page.phys in tables && tables[b.page.phys] == TableOf(b.segs)
    ensures Meaning(desc, tables, h) == b.segs
  {
    match b.page
    case At(phys) =>
      WalkTable(b.segs, 0, |b.segs|);
      assert b.segs[0..] == b.segs;
    case NoPage =>
      Pigeonhole(b.ids, |desc|);
      WalkChain(desc, h, b, 0, |desc|);
      assert b.segs[0..] == b.segs;
  }

  /** Chains in flight are intact in shared memory, also while the driver writes another one. */
  lemma FlightIntact(s: Sys, h: nat)
    requires Inv(s) && h in s.k.flight
    ensures ChainOk(s.m.desc, h, s.k.flight[h])
    ensures Meaning(s.m.desc, s.m.tables, h) == s.k.flight[h].segs
  {
    var b := s.k.flight[h];
    assert ChainOk(s.p.desc, h, b) && Apart(s.k.free, b.ids);
    forall i | 0 <= i < |b.ids|
      ensures s.m.desc[b.ids[i]] == s.p.desc[b.ids[i]]
    {
      if s.busy.Adding? {
        assert b.ids[i] !in NewIds(s);
      }
    }
    ChainFrame(s.p.desc, s.m.desc, h, b);
    MeaningIsSegs(s.m.desc, s.m.tables, h, b);
  }

  // ---------------------------------------------------------------- add

  lemma BeginTables(f: map<nat, Booking>, tables: map<int, seq<Desc>>, phys: int, t: seq<Desc>)
    requires TablesOk(f, tables) && !PageLent(f, phys)
    ensures TablesOk(f, tables[phys := t])
  {
    forall h | h in f && f[h].page.At?
      ensures f[h].page.phys != phys
    {
      assert f[h].page == At(phys) ==> PageLent(f, phys);
    }
  }

  lemma BeginKeeps(s: Sys, bufs: seq<Buf>, out: nat, token: nat, page: Page)
    requires Inv(s) && Enabled(s, BeginAdd(bufs, out, token, page))
    ensures Inv(Next(s, BeginAdd(bufs, out, token, page)))
  {
    var s' := Next(s, BeginAdd(bufs, out, token, page));
    BeginLink(s, s', page, TableOf(Segs(bufs, out)));
    BeginBusy(s, bufs, out, token, page);
  }

  lemma BeginLink(s: Sys, s': Sys, page: Page, t: seq<Desc>)
    requires |s.m.ring| == |s.m.used| == s.p.num > 0 && LinkOk(s) && s.busy.Idle? && s'.busy.Adding?
    requires s' == s.(busy := s'.busy, m := s.m.(tables := s'.m.tables))
    requires page.At? ==> !PageLent(s.k.flight, page.phys) && s'.m.tables == s.m.tables[page.phys := t]
    requires page.NoPage? ==> s'.m.tables == s.m.tables
    ensures LinkOk(s')
  {
    if page.At? {
      BeginTables(s.k.flight, s.m.tables, page.phys, t);
    }
    RingsSame(s.m, s'.m, s.p.num, s.k.reclaimed, s.dev.fetched, s.h.done, s.h.avail);
  }

  lemma BeginBusy(s: Sys, bufs: seq<Buf>, out: nat, token: nat, page: Page)
    requires Shape(s) && Enabled(s, BeginAdd(bufs, out, token, page)) && BusyOk(s)
    ensures var s' := Next(s, BeginAdd(bufs, out, token, page)); Shape(s') && BusyOk(s')
  {
  }

  lemma RingScribble(m: Memory, ring: seq<nat>, num: nat, u: nat, d: nat, a: nat, done: seq<(nat, int)>,
                     avail: seq<nat>)
    requires |m.ring| == |m.used| == |ring| == num > 0 && RingsOk(m, num, u, d, done, avail)
    requires a == d + |avail| && a < d + num
    requires forall t | 0 <= t < num && t != Slot(a, num) :: ring[t] == m.ring[t]
    ensures forall i | 0 <= i < |avail| :: ring[Slot(d + i, num)] == avail[i]
  {
    forall i | 0 <= i < |avail|
      ensures ring[Slot(d + i, num)] == avail[i]
    {
      SlotsDiffer(d + i, a, num);
    }
  }

  lemma ScribbleLink(s: Sys, s': Sys, ring: seq<nat>)
    requires |s.m.ring| == |s.m.used| == |ring| == s.p.num > 0 && LinkOk(s)
    requires s' == s.(m := s.m.(desc := s'.m.desc, ring := ring))
    requires s.k.published < s.dev.fetched + s.p.num
    requires forall t | 0 <= t < s.p.num && t != Slot(s.k.published, s.p.num) :: ring[t] == s.m.ring[t]
    ensures LinkOk(s')
  {
    RingScribble(s.m, ring, s.p.num, s.k.reclaimed, s.dev.fetched, s.k.published, s.h.done, s.h.avail);
  }

  lemma ScribbleBusy(s: Sys, s': Sys, desc: seq<Desc>, ring: seq<nat>)
    requires Shape(s) && Enabled(s, Scribble(desc, ring)) && BusyOk(s) && s' == Next(s, Scribble(desc, ring))
    ensures Shape(s') && BusyOk(s')
  {
    assert NewIds(s') == NewIds(s);
  }

  lemma ScribbleKeeps(s: Sys, desc: seq<Desc>, ring: seq<nat>)
    requires Inv(s) && Enabled(s, Scribble(desc, ring))
    ensures Inv(Next(s, Scribble(desc, ring)))
  {
    Order(s);
    ScribbleLink(s, Next(s, Scribble(desc, ring)), ring);
    ScribbleBusy(s, Next(s, Scribble(desc, ring)), desc, ring);
  }

  lemma PublishHeads(f: map<nat, Booking>, taken: seq<Taken>, h: History, head: nat, b: Booking)
    requires HeadsOk(f, h.done, taken, h.avail) && head !in f
    ensures HeadsOk(f[head := b], h.done, taken, h.avail + [head])
  {
    assert f[head := b].Keys == f.Keys + {head};
    assert multiset(f.Keys + {head}) == multiset(f.Keys) + multiset{head};
  }

  lemma PublishDelivery(f: map<nat, Booking>, taken: seq<Taken>, h: History, head: nat, b: Booking)
    requires DeliveryOk(f, taken, h) && head !in f
    ensures DeliveryOk(f[head := b], taken, h.(avail := h.avail + [head], added := h.added + [b.token]))
  {
    var f' := f[head := b];
    PublishHeads(f, taken, h, head, b);
    AllInFlight(f, h.done, taken, h.avail);
    assert Outcomes(f', h.done) == Outcomes(f, h.done);
    assert Tokens(f', TakenHeads(taken)) == Tokens(f, TakenHeads(taken));
    assert Tokens(f', h.avail + [head]) == Tokens(f, h.avail) + [b.token];
  }

  lemma PublishTables(f: map<nat, Booking>, tables: map<int, seq<Desc>>, head: nat, b: Booking)
    requires TablesOk(f, tables) && head !in f
    requires b.page.At? ==> !PageLent(f, b.page.phys) && b.page.phys in tables && tables[b.page.phys] == TableOf(b.segs)
    ensures TablesOk(f[head := b], tables)
  {
    match b.page
    case NoPage =>
    case At(phys) =>
      forall h | h in f
        ensures f[h].page != At(phys)
      {
        assert f[h].page == At(phys) ==> PageLent(f, phys);
      }
  }

  lemma PublishRings(m: Memory, num: nat, u: nat, d: nat, done: seq<(nat, int)>, avail: seq<nat>, head: nat)
    requires |m.ring| == |m.used| == num > 0 && RingsOk(m, num, u, d, done, avail)
    requires m.ring[Slot(d + |avail|, num)] == head
    ensures RingsOk(m, num, u, d, done, avail + [head])
  {
  }

  lemma PublishLink(s: Sys, s': Sys, head: nat, b: Booking)
    requires |s.m.ring| == |s.m.used| == s.p.num > 0 && LinkOk(s) && head !in s.k.flight
    requires s' == s.(busy := Idle, p := s'.p, k := s'.k, m := s.m.(availIdx := Trunc16(s.m.availIdx + 1)), h := s'.h)
    requires s'.p.num == s.p.num && s'.k.flight == s.k.flight[head := b]
    requires s'.k.published == s.k.published + 1 && s'.k.reclaimed == s.k.reclaimed
    requires s'.h == s.h.(avail := s.h.avail + [head], added := s'.h.added)
    requires s.busy.Adding? && s.m.ring[Slot(s.k.published, s.p.num)] == head
    requires b.page.At? ==>
               && !PageLent(s.k.flight, b.page.phys)
               && b.page.phys in s.m.tables && s.m.tables[b.page.phys] == TableOf(b.segs)
    ensures LinkOk(s')
  {
    PublishTables(s.k.flight, s.m.tables, head, b);
    PublishRings(s'.m, s.p.num, s.k.reclaimed, s.dev.fetched, s.h.done, s.h.avail, head);
  }

  lemma PublishKeeps(s: Sys)
    requires Inv(s) && Enabled(s, Publish)
    ensures Inv(DoPublish(s))
  {
    PublishIds(s);
    PublishRest(s, DoPublish(s), Booking(NewIds(s), s.busy.token, s.busy.segs, s.busy.page));
  }

  lemma PublishIds(s: Sys)
    requires Shape(s) && IdsOk(s.p, s.k) && CountsOk(s.m.availIdx, s.lastUsed, s.k) && s.busy.Adding?
    requires s.busy.token != 0
    ensures IdsOk(DoPublish(s).p, DoPublish(s).k) && Fits(DoPublish(s).p)
    ensures |DoPublish(s).k.free| == DoPublish(s).p.numUnused
    ensures CountsOk(DoPublish(s).m.availIdx, s.lastUsed, DoPublish(s).k)
    ensures s.k.free[0] == s.p.firstUnused && s.k.free[0] !in s.k.flight
    ensures BitAnd(s.m.availIdx, s.p.num - 1) == Slot(s.k.published, s.p.num)
  {
    PublishPool(s);
    PublishCounts(s);
  }

  lemma PublishPool(s: Sys)
    requires Fits(s.p) && IdsOk(s.p, s.k) && s.busy.Adding? && s.busy.token != 0
    requires 0 < |s.busy.segs| && SlotsOf(s.busy.segs, s.busy.page) <= s.p.numUnused == |s.k.free|
    ensures IdsOk(DoPublish(s).p, DoPublish(s).k) && Fits(DoPublish(s).p)
    ensures |DoPublish(s).k.free| == DoPublish(s).p.numUnused
    ensures s.k.free[0] == s.p.firstUnused && s.k.free[0] !in s.k.flight
  {
    AddKeepsIds(s.p, s.k, s.busy.segs, s.busy.token, s.busy.page);
    FreshHead(s.p, s.k);
  }

  lemma PublishCounts(s: Sys)
    requires Fits(s.p) && IsPow2(s.p.num) && CountsOk(s.m.availIdx, s.lastUsed, s.k) && s.busy.Adding?
    requires 0 < |s.busy.segs| && SlotsOf(s.busy.segs, s.busy.page) <= s.p.numUnused == |s.k.free|
    requires s.k.free[0] !in s.k.flight
    ensures CountsOk(DoPublish(s).m.availIdx, s.lastUsed, DoPublish(s).k)
    ensures BitAnd(s.m.availIdx, s.p.num - 1) == Slot(s.k.published, s.p.num)
  {
    MaskedIndexIsSlot(s.k.published, s.p.num);
    AddKeepsCounts(s.p, s.k, s.m.availIdx, s.lastUsed, s.busy.segs, s.busy.token, s.busy.page);
  }

  lemma PublishRest(s: Sys, s': Sys, b: Booking)
    requires Shape(s) && s.busy.Adding? && BusyOk(s) && LinkOk(s) && DeliveryOk(s.k.flight, s.dev.taken, s.h)
    requires s' == DoPublish(s)
    requires s.m.desc == AddPool(s.p, s.busy.segs, s.busy.token, s.busy.page).desc
    requires s.m.ring[Slot(s.k.published, s.p.num)] == s.p.firstUnused == s.k.free[0] && s.k.free[0] !in s.k.flight
    requires b == Booking(NewIds(s), s.busy.token, s.busy.segs, s.busy.page)
    requires Fits(s'.p) && |s'.k.free| == s'.p.numUnused
    ensures Shape(s') && BusyOk(s') && LinkOk(s') && DeliveryOk(s'.k.flight, s'.dev.taken, s'.h)
  {
    var head := s.k.free[0];
    assert s'.k.flight == s.k.flight[head := b];
    PublishDelivery(s.k.flight, s.dev.taken, s.h, head, b);
    PublishLink(s, s', head, b);
    PublishShape(s, s');
  }

  lemma PublishShape(s: Sys, s': Sys)
    requires Shape(s) && s.busy.Adding? && s' == DoPublish(s) && Fits(s'.p) && |s'.k.free| == s'.p.numUnused
    requires s.m.desc == AddPool(s.p, s.busy.segs, s.busy.token, s.busy.page).desc
    ensures Shape(s') && BusyOk(s')
  {
  }

  // ---------------------------------------------------------------- get

  lemma OldestIsAlone(f: map<nat, Booking>, done: seq<(nat, int)>, taken: seq<Taken>, avail: seq<nat>)
    requires HeadsOk(f, done, taken, avail) && done != []
    ensures forall i | 1 <= i < |done| :: done[i].0 != done[0].0
    ensures forall i | 0 <= i < |taken| :: taken[i].head != done[0].0
    ensures done[0].0 !in avail && done[0].0 in f
  {
    var x := done[0].0;
    var heads := Firsts(done);
    HeadCount(f, done, taken, avail, x);
    MemberCount(heads, 0);
    assert heads == [x] + heads[1..];
    forall i | 1 <= i < |done| ensures done[i].0 != x {
      MemberCount(heads[1..], i - 1);
    }
    forall i | 0 <= i < |taken| ensures taken[i].head != x {
      MemberCount(TakenHeads(taken), i);
    }
    assert x in avail ==> multiset(avail)[x] >= 1;
  }

  lemma GetHeads(f: map<nat, Booking>, taken: seq<Taken>, h: History)
    requires HeadsOk(f, h.done, taken, h.avail) && h.done != [] && h.done[0].0 in f
    ensures HeadsOk(f - {h.done[0].0}, h.done[1..], taken, h.avail)
  {
    var id := h.done[0].0;
    assert (f - {id}).Keys == f.Keys - {id};
    assert f.Keys == (f.Keys - {id}) + {id};
    assert multiset((f - {id}).Keys) + multiset{id} == multiset(f.Keys);
    assert Firsts(h.done) == [id] + Firsts(h.done[1..]);
    assert multiset(Firsts(h.done)) == multiset{id} + multiset(Firsts(h.done[1..]));
    Cancel(multiset(Firsts(h.done[1..])) + multiset(TakenHeads(taken)) + multiset(h.avail), multiset((f - {id}).Keys),
           id);
  }

  lemma GetDelivery(f: map<nat, Booking>, taken: seq<Taken>, h: History, h': History)
    requires DeliveryOk(f, taken, h) && h.done != [] && h.done[0].0 in f
    requires h' == h.(done := h.done[1..], armed := h'.armed,
                      returned := h.returned + [(f[h.done[0].0].token, h.done[0].1)])
    ensures DeliveryOk(f - {h.done[0].0}, taken, h')
  {
    var id := h.done[0].0;
    var f' := f - {id};
    GetHeads(f, taken, h);
    OldestIsAlone(f, h.done, taken, h.avail);
    AllInFlight(f, h.done, taken, h.avail);
    assert Outcomes(f, h.done) == [(f[id].token, h.done[0].1)] + Outcomes(f', h'.done);
    assert Tokens(f', TakenHeads(taken)) == Tokens(f, TakenHeads(taken));
    assert Tokens(f', h.avail) == Tokens(f, h.avail);
  }

  lemma GetRings(m: Memory, m': Memory, num: nat, u: nat, d: nat, done: seq<(nat, int)>, avail: seq<nat>)
    requires |m.ring| == |m.used| == num > 0 && RingsOk(m, num, u, d, done, avail) && done != []
    requires m'.ring == m.ring && m'.used == m.used
    ensures RingsOk(m', num, u + 1, d, done[1..], avail)
  {
    forall i | 0 <= i < |done| - 1
      ensures m'.used[Slot(u + 1 + i, num)] == done[1..][i]
    {
      assert u + 1 + i == u + (i + 1) && done[1..][i] == done[i + 1];
    }
  }

  lemma GetTables(f: map<nat, Booking>, tables: map<int, seq<Desc>>, taken: seq<Taken>, id: nat)
    requires TablesOk(f, tables) && TakenOk(f, taken) && forall i | 0 <= i < |taken| :: taken[i].head != id
    ensures TablesOk(f - {id}, tables) && TakenOk(f - {id}, taken)
  {
  }

  lemma GetLink(s: Sys, s': Sys, id: nat)
    requires |s.m.ring| == |s.m.used| == s.p.num > 0 && LinkOk(s)
    requires s.h.done != [] && forall i | 0 <= i < |s.dev.taken| :: s.dev.taken[i].head != id
    requires s' == s.(busy := Getting, p := s'.p, k := s'.k, lastUsed := s'.lastUsed, m := s.m.(desc := s'.m.desc),
                      h := s'.h)
    requires s'.p.num == s.p.num && s'.k.flight == s.k.flight - {id}
    requires s'.k.published == s.k.published && s'.k.reclaimed == s.k.reclaimed + 1
    requires s'.h == s.h.(done := s.h.done[1..], returned := s'.h.returned, armed := false) && s.busy.Idle?
    ensures LinkOk(s')
  {
    GetTables(s.k.flight, s.m.tables, s.dev.taken, id);
    GetRings(s.m, s'.m, s.p.num, s.k.reclaimed, s.dev.fetched, s.h.done, s.h.avail);
  }

  lemma GetRest(s: Sys, s': Sys, id: nat)
    requires Shape(s) && s.busy.Idle? && LinkOk(s) && DeliveryOk(s.k.flight, s.dev.taken, s.h)
    requires s.h.done != [] && id == s.h.done[0].0 < s.p.num && s.m.used[Slot(s.k.reclaimed, s.p.num)] == s.h.done[0]
    requires id in s.k.flight && s.p.tokens[id] == s.k.flight[id].token
    requires s' == DoGet(s) && s.lastUsed != s.m.usedIdx
    requires Fits(s'.p) && |s'.k.free| == s'.p.numUnused
    ensures Shape(s') && BusyOk(s') && LinkOk(s') && DeliveryOk(s'.k.flight, s'.dev.taken, s'.h)
    ensures s'.p == PutPool(s.p, id) && s'.k == GetBooks(s.k, id)
    ensures s'.m.availIdx == s.m.availIdx && s'.lastUsed == Trunc16(s.lastUsed + 1)
  {
    OldestIsAlone(s.k.flight, s.h.done, s.dev.taken, s.h.avail);
    GetDelivery(s.k.flight, s.dev.taken, s.h, s'.h);
    GetLink(s, s', id);
    GetShape(s, s', id);
  }

  lemma GetShape(s: Sys, s': Sys, id: nat)
    requires Shape(s) && s.busy.Idle? && s' == DoGet(s) && s.lastUsed != s.m.usedIdx
    requires s.h.done != [] && id < s.p.num && s.m.used[Slot(s.k.reclaimed, s.p.num)].0 == id && id in s.k.flight
    requires Fits(s'.p) && |s'.k.free| == s'.p.numUnused
    requires forall i | 0 <= i < |s.dev.taken| :: s.dev.taken[i].head != id
    ensures Shape(s') && BusyOk(s')
  {
  }

  /** The used element the driver looks at is the oldest completion. */
  lemma OldestUsed(s: Sys)
    requires Shape(s) && LinkOk(s) && HeadsOk(s.k.flight, s.h.done, s.dev.taken, s.h.avail) && s.h.done != []
    ensures s.m.used[Slot(s.k.reclaimed, s.p.num)] == s.h.done[0] && s.h.done[0].0 in s.k.flight
  {
    AllInFlight(s.k.flight, s.h.done, s.dev.taken, s.h.avail);
    assert s.m.used[Slot(s.k.reclaimed + 0, s.p.num)] == s.h.done[0];
  }

  lemma GetKeeps(s: Sys)
    requires Inv(s) && s.busy.Idle?
    ensures Inv(DoGet(s))
  {
    Detection(s);
    if s.h.done != [] {
      OldestUsed(s);
      GetIds(s, s.h.done[0].0);
      GetRest(s, DoGet(s), s.h.done[0].0);
    }
  }

  lemma GetIds(s: Sys, id: nat)
    requires IdsOk(s.p, s.k) && CountsOk(s.m.availIdx, s.lastUsed, s.k) && id in s.k.flight
    ensures id < s.p.num && s.p.tokens[id] == s.k.flight[id].token
    ensures IdsOk(PutPool(s.p, id), GetBooks(s.k, id))
    ensures Fits(PutPool(s.p, id)) && |GetBooks(s.k, id).free| == PutPool(s.p, id).numUnused
    ensures CountsOk(s.m.availIdx, Trunc16(s.lastUsed + 1), GetBooks(s.k, id))
  {
    PutKeepsIds(s.p, s.k, id);
    PutKeepsCounts(s.k, id, s.m.availIdx, s.lastUsed);
    IdsIgnoreCounts(PutPool(s.p, id), PutBooks(s.k, id), GetBooks(s.k, id));
  }

  // ---------------------------------------------------------------- device

  lemma FetchDelivery(f: map<nat, Booking>, taken: seq<Taken>, t: Taken, h: History)
    requires DeliveryOk(f, taken, h) && h.avail != [] && t.head == h.avail[0] && t.head in f
    ensures DeliveryOk(f, taken + [t], h.(avail := h.avail[1..]))
  {
    assert TakenHeads(taken + [t]) == TakenHeads(taken) + [t.head];
    assert h.avail == [t.head] + h.avail[1..];
    assert Tokens(f, TakenHeads(taken + [t])) == Tokens(f, TakenHeads(taken)) + [f[t.head].token];
    assert Tokens(f, h.avail) == [f[t.head].token] + Tokens(f, h.avail[1..]);
  }

  lemma FetchRings(m: Memory, num: nat, u: nat, d: nat, done: seq<(nat, int)>, avail: seq<nat>)
    requires |m.ring| == |m.used| == num > 0 && RingsOk(m, num, u, d, done, avail) && avail != []
    ensures m.ring[Slot(d, num)] == avail[0] && RingsOk(m, num, u, d + 1, done, avail[1..])
  {
    assert m.ring[Slot(d + 0, num)] == avail[0];
    forall i | 0 <= i < |avail| - 1
      ensures m.ring[Slot(d + 1 + i, num)] == avail[1..][i]
    {
      assert d + 1 + i == d + (i + 1) && avail[1..][i] == avail[i + 1];
    }
  }

  lemma FetchLink(s: Sys, t: Taken)
    requires |s.m.ring| == |s.m.used| == s.p.num > 0 && LinkOk(s) && s.h.avail != []
    requires t.head == s.h.avail[0] && t.head in s.k.flight && t.segs == s.k.flight[t.head].segs
    requires DoFetch(s).dev == s.dev.(fetched := s.dev.fetched + 1, taken := s.dev.taken + [t])
    ensures LinkOk(DoFetch(s))
  {
    FetchRings(s.m, s.p.num, s.k.reclaimed, s.dev.fetched, s.h.done, s.h.avail);
  }

  lemma FetchKeeps(s: Sys)
    requires Inv(s) && Enabled(s, Fetch)
    ensures Inv(DoFetch(s))
  {
    Detection(s);
    AllInFlight(s.k.flight, s.h.done, s.dev.taken, s.h.avail);
    var h := s.h.avail[0];
    var t := Taken(h, s.k.flight[h].segs);
    FetchRings(s.m, s.p.num, s.k.reclaimed, s.dev.fetched, s.h.done, s.h.avail);
    FlightIntact(s, h);
    FetchDelivery(s.k.flight, s.dev.taken, t, s.h);
    FetchLink(s, t);
    SameBusy(s, DoFetch(s));
  }

  lemma SameBusy(s: Sys, s': Sys)
    requires |s.m.desc| == |s.p.desc| && BusyOk(s)
    requires s'.busy == s.busy && s'.p == s.p && s'.k == s.k && s'.m.desc == s.m.desc && s'.m.tables == s.m.tables
    ensures BusyOk(s')
  {
    if s.busy.Adding? {
      assert NewIds(s') == NewIds(s);
    }
  }

  lemma UsedWriteRings(m: Memory, m': Memory, num: nat, u: nat, d: nat, w: nat, done: seq<(nat, int)>, avail: seq<nat>,
                       e: (nat, int))
    requires |m.ring| == |m.used| == num > 0 && RingsOk(m, num, u, d, done, avail) && w == u + |done| < u + num
    requires m'.ring == m.ring && m'.used == m.used[Slot(w, num) := e]
    ensures RingsOk(m', num, u, d, done, avail)
  {
    forall i | 0 <= i < |done|
      ensures m'.used[Slot(u + i, num)] == done[i]
    {
      SlotsDiffer(u + i, w, num);
    }
  }

  lemma WriteElementKeeps(s: Sys, i: nat, len: int)
    requires Inv(s) && Enabled(s, WriteElement(i, len))
    ensures Inv(Next(s, WriteElement(i, len)))
  {
    Order(s);
    MaskedIndexIsSlot(s.dev.written, s.p.num);
    var s' := Next(s, WriteElement(i, len));
    UsedWriteRings(s.m, s'.m, s.p.num, s.k.reclaimed, s.dev.fetched, s.dev.written, s.h.done, s.h.avail,
                   (s.dev.taken[i].head, len));
    SameBusy(s, s');
  }

  lemma TokensSplit(f: map<nat, Booking>, a: seq<nat>, b: seq<nat>)
    ensures Tokens(f, a + b) == Tokens(f, a) + Tokens(f, b)
  {
  }

  lemma WriteIndexDelivery(f: map<nat, Booking>, taken: seq<Taken>, i: nat, len: int, h: History)
    requires DeliveryOk(f, taken, h) && i < |taken| && taken[i].head in f
    ensures DeliveryOk(f, taken[..i] + taken[i + 1..],
                       h.(done := h.done + [(taken[i].head, len)],
                          completed := h.completed + [(f[taken[i].head].token, len)]))
  {
    var id, ids, token := taken[i].head, TakenHeads(taken), f[taken[i].head].token;
    var ids' := TakenHeads(taken[..i] + taken[i + 1..]);
    assert ids == ids[..i] + ([id] + ids[i + 1..]);
    assert ids' == ids[..i] + ids[i + 1..];
    TokensSplit(f, ids[..i], [id] + ids[i + 1..]);
    TokensSplit(f, [id], ids[i + 1..]);
    TokensSplit(f, ids[..i], ids[i + 1..]);
    assert Tokens(f, [id]) == [token];
    assert Firsts(h.done + [(id, len)]) == Firsts(h.done) + [id];
    assert Outcomes(f, h.done + [(id, len)]) == Outcomes(f, h.done) + [(token, len)];
    assert Firsts(h.completed + [(token, len)]) == Firsts(h.completed) + [token];
  }

  lemma WriteIndexRings(m: Memory, m': Memory, num: nat, u: nat, d: nat, done: seq<(nat, int)>, avail: seq<nat>,
                        e: (nat, int))
    requires |m.ring| == |m.used| == num > 0 && RingsOk(m, num, u, d, done, avail)
    requires m'.ring == m.ring && m'.used == m.used && m.used[Slot(u + |done|, num)] == e
    ensures RingsOk(m', num, u, d, done + [e], avail)
  {
  }

  lemma WriteIndexLink(s: Sys, s': Sys)
    requires |s.m.ring| == |s.m.used| == s.p.num > 0 && LinkOk(s) && s.dev.writing.Element?
    requires s.dev.taken[s.dev.writing.index].head in s.k.flight && s' == DoWriteIndex(s)
    ensures LinkOk(s')
  {
    var i, len := s.dev.writing.index, s.dev.writing.len;
    WriteIndexRings(s.m, s'.m, s.p.num, s.k.reclaimed, s.dev.fetched, s.h.done, s.h.avail, (s.dev.taken[i].head, len));
  }

  lemma WriteIndexKeeps(s: Sys)
    requires Inv(s) && Enabled(s, WriteIndex)
    ensures Inv(DoWriteIndex(s))
  {
    var s' := DoWriteIndex(s);
    WriteIndexDelivery(s.k.flight, s.dev.taken, s.dev.writing.index, s.dev.writing.len, s.h);
    WriteIndexLink(s, s');
    SameBusy(s, s');
  }

  lemma CheckCovers(s: Sys)
    requires Inv(s) && s.h.armed && s.k.reclaimed < s.dev.written && s.dev.checked <= s.k.reclaimed
    ensures EventCovers(s)
  {
    if s.suppression {
      assert s.m.usedEvent == Trunc16(s.k.reclaimed);
    }
  }

  /** Steps that touch only event fields and the device's check. */
  lemma QuietKeeps(s: Sys, a: Step)
    requires Inv(s) && Enabled(s, a)
    requires a.GetEvent? || a.Disable? || a.EnableFlags? || a.EnableEvent? || a.EnableCheck? || a.Check?
    ensures Inv(Next(s, a))
  {
    Detection(s);
    if a.Check? && s.h.armed && s.k.reclaimed < s.dev.written && s.dev.checked <= s.k.reclaimed {
      CheckCovers(s);
    }
    QuietLink(s, a);
    if a.Check? {
      SameBusy(s, Next(s, a));
    }
  }

  lemma QuietLink(s: Sys, a: Step)
    requires Shape(s) && LinkOk(s) && Enabled(s, a)
    requires a.GetEvent? || a.Disable? || a.EnableFlags? || a.EnableEvent? || a.EnableCheck? || a.Check?
    requires s.lastUsed != s.m.usedIdx <==> s.h.done != []
    requires a.Check? && s.h.armed && s.k.reclaimed < s.dev.written && s.dev.checked <= s.k.reclaimed ==> EventCovers(s)
    ensures LinkOk(Next(s, a))
  {
    RingsSame(s.m, Next(s, a).m, s.p.num, s.k.reclaimed, s.dev.fetched, s.h.done, s.h.avail);
  }

  lemma RingsSame(m: Memory, m': Memory, num: nat, u: nat, d: nat, done: seq<(nat, int)>, avail: seq<nat>)
    requires |m.ring| == |m.used| == num > 0 && RingsOk(m, num, u, d, done, avail)
    requires m'.ring == m.ring && m'.used == m.used
    ensures RingsOk(m', num, u, d, done, avail)
  {
  }

  lemma StepKeepsInv(s: Sys, a: Step)
    requires Inv(s) && Enabled(s, a)
    ensures Inv(Next(s, a))
  {
    match a
    case BeginAdd(bufs, out, token, page) => BeginKeeps(s, bufs, out, token, page);
    case Scribble(desc, ring) => ScribbleKeeps(s, desc, ring);
    case Publish => PublishKeeps(s);
    case GetTake => GetKeeps(s);
    case Fetch => FetchKeeps(s);
    case WriteElement(i, len) => WriteElementKeeps(s, i, len);
    case WriteIndex => WriteIndexKeeps(s);
    case _ => QuietKeeps(s, a);
  }
}
