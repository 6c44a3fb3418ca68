/**
  What the split virtqueue promises, over every run of its protocol from a zeroed ring:
  exactly-once delivery, conservation of descriptors, submissions the device reads as submitted,
  16-bit index arithmetic, exact kicks and no lost interrupt.
 */
module SplitTheorems {
  import opened RingMath
  import opened Common
  import opened FlagWord
  import opened SplitDriver
  import opened SplitQueue
  import opened SplitProtocol
  import opened SplitSteps

  // ---------------------------------------------------------------- runs

  /** The table of a freshly created queue: one free list through all descriptors. */
  function InitDesc(num: nat): (r: seq<Desc>)
    ensures |r| == num
  {
    seq(num, i requires 0 <= i < num => if i < num - 1 then Desc(0, 0, NEXT, i + 1) else Desc(0, 0, NONE, 0))
  }

  function InitPool(num: nat): Pool {
    Pool(num, InitDesc(num), seq(num, _ => 0), 0, num)
  }

  function InitBooks(num: nat): Books {
    Books(seq(num, i requires 0 <= i < num => i), map[], 0, 0)
  }

  /** A freshly created queue over zeroed pages. */
  function Init(num: nat, suppression: bool): Sys {
    Sys(InitPool(num), InitBooks(num), 0, false, suppression, Idle,
        Memory(InitDesc(num), map[], seq(num, _ => 0), 0, false, 0, seq(num, _ => (0, 0)), 0),
        Device(0, 0, [], Nothing, 0),
        History([], [], [], [], [], false, false))
  }

  lemma InitIds(num: nat)
    requires 0 < num <= 0x8000
    ensures IdsOk(InitPool(num), InitBooks(num))
  {
    forall x | 0 <= x < num
      ensures Owned(x, InitBooks(num))
    {
      assert InitBooks(num).free[x] == x;
    }
  }

  lemma InitInv(num: nat, suppression: bool)
    requires 0 < num <= 0x8000 && IsPow2(num)
    ensures Inv(Init(num, suppression))
  {
    InitIds(num);
    var s := Init(num, suppression);
    assert DeliveryOk(s.k.flight, s.dev.taken, s.h);
  }

  ghost predicate Run(s: Sys, steps: seq<Step>, t: Sys)
    requires Inv(s)
    decreases |steps|
  {
    if steps == [] then s == t
    else Enabled(s, steps[0]) && (StepKeepsInv(s, steps[0]); Run(Next(s, steps[0]), steps[1..], t))
  }

  lemma {:induction false} RunKeepsInv(s: Sys, steps: seq<Step>, t: Sys)
    requires Inv(s) && Run(s, steps, t)
    ensures Inv(t)
    decreases |steps|
  {
    if steps != [] {
      StepKeepsInv(s, steps[0]);
      RunKeepsInv(Next(s, steps[0]), steps[1..], t);
    }
  }

  ghost predicate Reachable(t: Sys) {
    exists num: nat, suppression, steps ::
      0 < num <= 0x8000 && IsPow2(num) && (InitInv(num, suppression); Run(Init(num, suppression), steps, t))
  }

  lemma ReachableInv(t: Sys)
    requires Reachable(t)
    ensures Inv(t)
  {
    var num: nat, suppression, steps :|
      0 < num <= 0x8000 && IsPow2(num) && (InitInv(num, suppression); Run(Init(num, suppression), steps, t));
    InitInv(num, suppression);
    RunKeepsInv(Init(num, suppression), steps, t);
  }

  lemma RunCons(s: Sys, a: Step, rest: seq<Step>, t: Sys)
    requires Inv(s) && Enabled(s, a) && Inv(Next(s, a)) && Run(Next(s, a), rest, t)
    ensures Run(s, [a] + rest, t)
  {
    assert ([a] + rest)[1..] == rest;
  }

  // ---------------------------------------------------------------- exactly-once delivery

  /** Tokens of all buffers in flight, in the order: completed, in the device, not yet fetched. */
  function Outstanding(s: Sys): seq<nat> {
    Tokens(s.k.flight, Firsts(s.h.done)) + Tokens(s.k.flight, TakenHeads(s.dev.taken)) + Tokens(s.k.flight, s.h.avail)
  }

  lemma OutcomeTokens(flight: map<nat, Booking>, returned: seq<(nat, int)>, done: seq<(nat, int)>)
    ensures Firsts(returned + Outcomes(flight, done)) == Firsts(returned) + Tokens(flight, Firsts(done))
  {
  }

  /**
    In every run the tokens returned so far are the first completions in completion order, and
    returned plus outstanding tokens are exactly the tokens added: none twice, none invented, none lost.
   */
  lemma ExactlyOnce(t: Sys)
    requires Reachable(t)
    ensures t.h.returned <= t.h.completed
    ensures multiset(t.h.added) == multiset(Firsts(t.h.returned)) + multiset(Outstanding(t))
    ensures |t.h.returned| == |t.h.completed| <==> t.lastUsed == t.m.usedIdx
  {
    ReachableInv(t);
    Detection(t);
    OutcomeTokens(t.k.flight, t.h.returned, t.h.done);
  }

  /** Under a conforming device every used element names the head of a buffer in flight. */
  lemma UsedNamesHead(s: Sys)
    requires Inv(s) && s.lastUsed != s.m.usedIdx
    ensures s.h.done != [] && s.m.used[Slot(s.k.reclaimed, s.p.num)] == s.h.done[0]
    ensures s.h.done[0].0 in s.k.flight && s.h.done[0].0 < s.p.num
    ensures s.p.tokens[s.h.done[0].0] == s.k.flight[s.h.done[0].0].token != 0
  {
    Detection(s);
    AllInFlight(s.k.flight, s.h.done, s.dev.taken, s.h.avail);
    assert s.m.used[Slot(s.k.reclaimed + 0, s.p.num)] == s.h.done[0];
  }

  /** So the range check of `get_buf` never fires, and what it returns is never NULL. */
  lemma NeverOutOfRange(s: Sys)
    requires Reachable(s)
    ensures Inv(s)
    ensures s.lastUsed != s.m.usedIdx ==>
              var id := s.m.used[Slot(s.k.reclaimed, s.p.num)].0;
              id < s.p.num && id in s.k.flight && s.p.tokens[id] != 0
  {
    ReachableInv(s);
    if s.lastUsed != s.m.usedIdx {
      UsedNamesHead(s);
    }
  }

  /** `get_buf` hands out the oldest completion not yet returned, and nothing when there is none. */
  lemma GetReturnsNext(s: Sys)
    requires Inv(s) && s.busy.Idle?
    ensures var r, c := s.h.returned, s.h.completed;
            DoGet(s).h.returned == if |r| < |c| then r + [c[|r|]] else r
    ensures |s.h.returned| < |s.h.completed| <==> s.lastUsed != s.m.usedIdx
  {
    Detection(s);
    if s.lastUsed != s.m.usedIdx {
      UsedNamesHead(s);
      assert s.h.completed[|s.h.returned|] == Outcomes(s.k.flight, s.h.done)[0];
    }
  }

  lemma OneDelivery(s: Sys)
    requires Inv(s) && s.busy.Idle? && s.h.done != []
    ensures var s1 := Next(s, GetTake);
            && Inv(s1) && s1.busy.Getting?
            && var s2 := Next(s1, GetEvent);
               Inv(s2) && s2.busy.Idle? && s2.h.done == s.h.done[1..] && s2.h.completed == s.h.completed
  {
    Detection(s);
    UsedNamesHead(s);
    StepKeepsInv(s, GetTake);
    StepKeepsInv(Next(s, GetTake), GetEvent);
  }

  lemma NothingDone(s: Sys)
    requires Inv(s) && s.h.done == []
    ensures s.h.returned == s.h.completed
  {
    assert Outcomes(s.k.flight, s.h.done) == [];
  }

  /** An idle driver that keeps calling `get_buf` gets every completion, whatever is still in the device. */
  lemma {:induction false} DrainReturnsAll(s: Sys) returns (steps: seq<Step>, t: Sys)
    requires Inv(s) && s.busy.Idle?
    ensures Run(s, steps, t) && t.h.returned == t.h.completed == s.h.completed
    decreases |s.h.done|
  {
    if s.h.done == [] {
      NothingDone(s);
      steps, t := [], s;
    } else {
      OneDelivery(s);
      var s1 := Next(s, GetTake);
      var rest;
      rest, t := DrainReturnsAll(Next(s1, GetEvent));
      RunCons(s1, GetEvent, rest, t);
      RunCons(s, GetTake, [GetEvent] + rest, t);
      steps := [GetTake] + ([GetEvent] + rest);
    }
  }

  // ---------------------------------------------------------------- descriptors

  /** Every descriptor is either free or belongs to exactly one chain in flight. */
  lemma DescriptorsPartition(s: Sys, x: nat)
    requires Reachable(s) && x < s.p.num
    ensures x in s.k.free <==> forall h | h in s.k.flight :: x !in s.k.flight[h].ids
    ensures forall g, h | g in s.k.flight && h in s.k.flight && x in s.k.flight[g].ids && x in s.k.flight[h].ids ::
            g == h
    ensures NoDup(s.k.free) && |s.k.free| == s.p.numUnused && s.p.firstUnused < s.p.num
  {
    ReachableInv(s);
    assert Owned(x, s.k);
    forall h | h in s.k.flight
      ensures !(x in s.k.free && x in s.k.flight[h].ids)
    {
      assert Apart(s.k.free, s.k.flight[h].ids);
    }
    forall g, h | g in s.k.flight && h in s.k.flight && x in s.k.flight[g].ids && x in s.k.flight[h].ids
      ensures g == h
    {
      assert g != h ==> Apart(s.k.flight[g].ids, s.k.flight[h].ids);
    }
  }

  /** Following `next` from `first_unused` visits exactly the free descriptors, each once, in order. */
  lemma FreeListWalk(s: Sys, i: nat)
    requires Reachable(s) && i < s.p.numUnused
    ensures Fits(s.p) && i < |s.k.free| && Hops(s.p.desc, s.p.firstUnused, i) == s.k.free[i]
  {
    ReachableInv(s);
    HopsFollow(s.p, s.k.free, i);
  }

  /** The reclaim walk follows NEXT over exactly the booked chain and stops at its end. */
  lemma ReclaimWalk(s: Sys, h: nat)
    requires Reachable(s) && h in s.k.flight
    ensures Fits(s.p) && h < s.p.num
    ensures var ids := s.k.flight[h].ids;
            0 < |ids| <= s.p.num && ChainEnd(s.p.desc, h, s.p.num) == (ids[|ids| - 1], |ids|)
    ensures PutPool(s.p, h).numUnused == s.p.numUnused + |s.k.flight[h].ids|
  {
    ReachableInv(s);
    var b := s.k.flight[h];
    assert ChainOk(s.p.desc, h, b);
    Pigeonhole(b.ids, s.p.num);
    EndOfChain(s.p.desc, h, b, 0, s.p.num);
  }

  /** Pulling a chain back undoes an add as far as ownership is concerned. */
  lemma AddThenPullBack(p: Pool, k: Books, segs: seq<Seg>, token: nat, page: Page)
    requires IdsOk(p, k) && 0 < |segs| && SlotsOf(segs, page) <= p.numUnused && token != 0
    ensures var p1, k1 := AddPool(p, segs, token, page), AddBooks(k, segs, token, page);
            && IdsOk(p1, k1) && p.firstUnused in k1.flight
            && DetachBooks(k1, p.firstUnused) == k
            && var p2 := PutPool(p1, p.firstUnused);
               p2.numUnused == p.numUnused && p2.firstUnused == p.firstUnused && p2.tokens == p.tokens
  {
    var p1, k1 := AddPool(p, segs, token, page), AddBooks(k, segs, token, page);
    AddKeepsIds(p, k, segs, token, page);
    FreshHead(p, k);
    PutMeaning(p1, k1, p.firstUnused);
    assert k.flight[k.free[0] := k1.flight[k.free[0]]] - {k.free[0]} == k.flight;
    assert p.tokens[p.firstUnused] == 0;
  }

  // ---------------------------------------------------------------- submission preserves meaning

  /** The device reads every buffer in flight exactly as submitted, at every instant of every run. */
  lemma SubmissionPreserved(s: Sys, h: nat)
    requires Reachable(s) && h in s.k.flight
    ensures Meaning(s.m.desc, s.m.tables, h) == s.k.flight[h].segs
  {
    ReachableInv(s);
    FlightIntact(s, h);
  }

  /**
    An add makes its head denote the submitted list, with `write` exactly from position `out` on,
    through a direct chain or an indirect table alike, and changes what no other head denotes.
   */
  lemma AddMeaning(p: Pool, k: Books, tables: map<int, seq<Desc>>, bufs: seq<Buf>, out: nat, token: nat, page: Page)
    requires IdsOk(p, k) && 0 < |bufs| && SlotsOf(Segs(bufs, out), page) <= p.numUnused && token != 0
    requires TablesOk(k.flight, tables) && (page.At? ==> !PageLent(k.flight, page.phys))
    ensures var desc' := AddPool(p, Segs(bufs, out), token, page).desc;
            var tables' := if page.At? then tables[page.phys := TableOf(Segs(bufs, out))] else tables;
            && (var read := Meaning(desc', tables', p.firstUnused);
                && |read| == |bufs|
                && forall i | 0 <= i < |bufs| :: read[i] == Seg(bufs[i].addr, bufs[i].len, i >= out))
            && (forall h | h in k.flight :: Meaning(desc', tables', h) == Meaning(p.desc, tables, h))
  {
    var segs := Segs(bufs, out);
    var desc' := AddPool(p, segs, token, page).desc;
    var tables' := if page.At? then tables[page.phys := TableOf(segs)] else tables;
    AddedDesc(p, k.free, segs, token, page);
    MeaningIsSegs(desc', tables', p.firstUnused, Booking(k.free[..SlotsOf(segs, page)], token, segs, page));
    AddKeepsFlight(p, k, segs, token, page);
    FreshHead(p, k);
    if page.At? {
      BeginTables(k.flight, tables, page.phys, TableOf(segs));
    }
    forall h | h in k.flight
      ensures Meaning(desc', tables', h) == Meaning(p.desc, tables, h)
    {
      OldMeaning(p, k, tables, desc', tables', h);
      assert AddBooks(k, segs, token, page).flight[h] == k.flight[h];
      MeaningIsSegs(desc', tables', h, k.flight[h]);
    }
  }

  lemma OldMeaning(p: Pool, k: Books, tables: map<int, seq<Desc>>, desc': seq<Desc>, tables': map<int, seq<Desc>>,
                   h: nat)
    requires IdsOk(p, k) && TablesOk(k.flight, tables) && h in k.flight
    ensures Meaning(p.desc, tables, h) == k.flight[h].segs
  {
    assert ChainOk(p.desc, h, k.flight[h]);
    MeaningIsSegs(p.desc, tables, h, k.flight[h]);
  }

  /** The table `add_buf` fills is the one the protocol assumes. */
  lemma TableHoldsIsTableOf(t: seq<Desc>, segs: seq<Seg>)
    ensures TableHolds(t, segs) <==> t == TableOf(segs)
  {
    if TableHolds(t, segs) {
      assert forall i | 0 <= i < |t| :: t[i] == TableOf(segs)[i];
    }
  }

  /** All stores of the pending add at once: the finished chain and the ring entry. */
  ghost function AllStores(s: Sys): Step
    requires Shape(s) && s.busy.Adding?
  {
    Scribble(AddPool(s.p, s.busy.segs, s.busy.token, s.busy.page).desc,
             s.m.ring[Slot(s.k.published, s.p.num) := s.p.firstUnused])
  }

  lemma StoresEnabled(s: Sys)
    requires Shape(s) && s.busy.Adding? && FreeOk(s.p, s.k.free)
    requires forall x | 0 <= x < s.p.num && x !in NewIds(s) :: s.m.desc[x] == s.p.desc[x]
    ensures Enabled(s, AllStores(s))
  {
    AddedDesc(s.p, s.k.free, s.busy.segs, s.busy.token, s.busy.page);
  }

  lemma PublishEnabled(s: Sys)
    requires Shape(s) && s.busy.Adding? && Enabled(s, AllStores(s))
    requires BitAnd(s.m.availIdx, s.p.num - 1) == Slot(s.k.published, s.p.num)
    ensures Shape(Next(s, AllStores(s))) && Enabled(Next(s, AllStores(s)), Publish)
  {
  }

  lemma StoresKeep(s: Sys)
    requires Inv(s) && s.busy.Adding?
    ensures Enabled(s, AllStores(s)) && Inv(Next(s, AllStores(s))) && Enabled(Next(s, AllStores(s)), Publish)
  {
    StoresEnabled(s);
    PublishIds(s);
    PublishEnabled(s);
    StepKeepsInv(s, AllStores(s));
  }

  lemma TwoSteps(s: Sys, a: Step, b: Step)
    requires Inv(s) && Enabled(s, a) && Inv(Next(s, a)) && Enabled(Next(s, a), b) && Inv(Next(Next(s, a), b))
    ensures Run(s, [a] + ([b] + []), Next(Next(s, a), b))
  {
    var s1 := Next(s, a);
    var t := Next(s1, b);
    hide Enabled;
    RunCons(s1, b, [], t);
    RunCons(s, a, [b] + [], t);
  }

  lemma FinishedState(s: Sys)
    requires Shape(s) && s.busy.Adding? && Enabled(s, AllStores(s)) && Shape(Next(s, AllStores(s)))
    requires Enabled(Next(s, AllStores(s)), Publish)
    ensures var t := Next(Next(s, AllStores(s)), Publish);
            && t.busy.Idle? && t.p == AddPool(s.p, s.busy.segs, s.busy.token, s.busy.page)
            && t.h.added == s.h.added + [s.busy.token] && t.m.availIdx == Trunc16(s.m.availIdx + 1)
  {
  }

  /** A pending add can be carried through, and ends with the new chain published. */
  lemma AddFinishes(s: Sys) returns (steps: seq<Step>, t: Sys)
    requires Inv(s) && s.busy.Adding?
    ensures Run(s, steps, t) && t.busy.Idle? && Fits(s.p) && Shape(s)
    ensures t.p == AddPool(s.p, s.busy.segs, s.busy.token, s.busy.page)
    ensures t.h.added == s.h.added + [s.busy.token] && t.m.availIdx == Trunc16(s.m.availIdx + 1)
  {
    var a := AllStores(s);
    StoresKeep(s);
    StepKeepsInv(Next(s, a), Publish);
    TwoSteps(s, a, Publish);
    FinishedState(s);
    steps, t := [a] + ([Publish] + []), Next(Next(s, a), Publish);
  }

  // ---------------------------------------------------------------- index arithmetic

  /** The 16-bit difference of the two indices is the number of buffers in flight, through every wrap. */
  lemma OutstandingCount(s: Sys)
    requires Reachable(s)
    ensures Trunc16(s.m.availIdx - s.lastUsed) == |s.k.flight| <= s.p.num
    ensures |s.k.flight| + s.p.numUnused <= s.p.num
    ensures s.m.availIdx == s.k.published % 0x1_0000 && s.lastUsed == s.k.reclaimed % 0x1_0000
    ensures |s.k.flight| == |s.h.done| + |s.dev.taken| + |s.h.avail|
  {
    ReachableInv(s);
    FlightCount(s.p, s.k);
    Order(s);
    assert s.k.published - s.k.reclaimed == |s.k.flight|;
    ShortDistance(s.k.reclaimed, s.k.published);
  }

  lemma ShortDistance(a: nat, b: nat)
    requires a <= b < a + U16
    ensures Trunc16(Trunc16(b) - Trunc16(a)) == b - a
  {
  }

  /** The slot an add writes is none the device has still to read, by ordinary remainders. */
  lemma AddSparesUnread(s: Sys, p: nat)
    requires Reachable(s) && s.busy.Adding? && s.dev.fetched <= p < s.k.published
    ensures 0 < s.p.num
    ensures BitAnd(s.m.availIdx, s.p.num - 1) == s.k.published % s.p.num != p % s.p.num
  {
    ReachableInv(s);
    Order(s);
    MaskedIndexIsSlot(s.k.published, s.p.num);
    SlotIsMod(s.k.published, s.p.num);
    SlotIsMod(p, s.p.num);
    SlotsDiffer(p, s.k.published, s.p.num);
  }

  /**
    An unfinished add is invisible: the device can fetch exactly when a published head is unread,
    and then reads that head and the buffers submitted under it.
   */
  lemma PublicationIsAtomic(s: Sys)
    requires Reachable(s)
    ensures Inv(s)
    ensures Enabled(s, Fetch) <==> s.dev.fetched < s.k.published
    ensures Enabled(s, Fetch) ==>
              && s.h.avail != [] && s.h.avail[0] in s.k.flight
              && s.m.ring[Slot(s.dev.fetched, s.p.num)] == s.h.avail[0]
              && Meaning(s.m.desc, s.m.tables, s.h.avail[0]) == s.k.flight[s.h.avail[0]].segs
  {
    ReachableInv(s);
    Detection(s);
    if s.h.avail != [] {
      AllInFlight(s.k.flight, s.h.done, s.dev.taken, s.h.avail);
      assert s.m.ring[Slot(s.dev.fetched + 0, s.p.num)] == s.h.avail[0];
      FlightIntact(s, s.h.avail[0]);
    }
  }

  // ---------------------------------------------------------------- interrupts

  /**
    An armed driver (its last look, with callbacks enabled, found nothing) cannot miss a completion:
    once the device has looked at the event fields after its latest used element, either nothing was
    completed since or an interrupt was raised.
   */
  lemma NoLostInterrupt(s: Sys)
    requires Reachable(s) && s.h.armed && s.dev.checked == s.dev.written
    ensures s.lastUsed != s.m.usedIdx ==> s.h.irq
    ensures s.lastUsed != s.m.usedIdx <==> |s.h.returned| < |s.h.completed|
  {
    ReachableInv(s);
    Detection(s);
  }

  /**
    The two looks leave the driver armed exactly when they find nothing: the one that ends
    `enable_cb`, and that of a `get_buf` with callbacks enabled.
   */
  lemma Arming(s: Sys)
    requires Reachable(s)
    ensures Inv(s)
    ensures s.busy.EnabledEvent? ==> (Next(s, EnableCheck).h.armed <==> s.dev.written == s.k.reclaimed)
    ensures s.busy.Idle? ==> (Next(s, GetTake).h.armed <==> s.dev.written == s.k.reclaimed && !s.masked)
  {
    ReachableInv(s);
    Detection(s);
    Order(s);
    if s.lastUsed != s.m.usedIdx {
      UsedNamesHead(s);
    }
  }

  // ---------------------------------------------------------------- kick

  /** Without event indices a driver with callbacks disabled is not interrupted, and disabling them disables them. */
  lemma DisabledIsQuiet(s: Sys)
    requires Reachable(s) && !s.suppression
    ensures Shape(s)
    ensures s.masked && Enabled(s, Check) ==> Next(s, Check).h.irq == s.h.irq
    ensures Enabled(s, Disable) ==> Next(s, Disable).masked && Next(s, Disable).m.noInterrupt
  {
    hide Inv, Reachable;
    ReachableInv(s);
    MaskShared(s);
  }

  lemma MaskShared(s: Sys)
    requires Inv(s)
    ensures Shape(s) && (!s.suppression ==> s.m.noInterrupt == s.masked)
  {
  }

  /** Without event indices a kick notifies unless the device refuses, whatever was added. */
  lemma KickByFlags(availIdx: nat, added: nat, event: nat, noNotify: bool)
    ensures KickDecision(availIdx, added, false, event, noNotify) <==> !noNotify
  {
  }

  /** One of the last `added` adds moved the available index past `event`. */
  ghost predicate Crossed(published: nat, added: nat, event: nat) {
    exists p: nat :: p < published <= p + added && Trunc16(p) == event
  }

  /** With event indices the kick decision is exact, also after 2^16 adds or more. */
  lemma KickIsExact(published: nat, added: nat, event: nat, noNotify: bool)
    requires added <= published && event < U16
    ensures KickDecision(Trunc16(published), added, true, event, noNotify) <==> Crossed(published, added, event)
  {
    var newer := Trunc16(published);
    var gap := Trunc16(newer - event - 1);
    KickGap(published, event);
    if added >= U16 {
      assert Trunc16(published - 1 - gap) == event;
      assert published - 1 - gap < published <= (published - 1 - gap) + added;
    } else {
      KickOlder(published, added);
      if gap < added {
        assert Trunc16(published - 1 - gap) == event;
      }
      if Crossed(published, added, event) {
        var p: nat :| p < published <= p + added && Trunc16(p) == event;
        GapOf(published, p);
      }
    }
  }

  lemma KickGap(published: nat, event: nat)
    requires event < U16
    ensures Trunc16(published - 1 - Trunc16(Trunc16(published) - event - 1)) == event
  {
  }

  lemma KickOlder(published: nat, added: nat)
    requires added <= published && added < U16
    ensures var newer := Trunc16(published); Trunc16(newer - Trunc16(newer - added)) == added
  {
  }

  lemma GapOf(published: nat, p: nat)
    requires p < published < p + U16
    ensures Trunc16(Trunc16(published) - Trunc16(p) - 1) == published - p - 1
  {
  }
}
