/**
  What the packed virtqueue promises, over every run of its protocol from a zeroed ring:
  exactly-once delivery, exact used detection, atomic publication, phase-correct indices and
  no lost interrupt.
 */
module PackedTheorems {
  import opened RingMath
  import opened Common
  import opened FlagWord
  import opened PackedDriver
  import opened PackedQueue
  import opened PackedProtocol
  import opened PackedProofs
  import opened PackedSteps

  // ---------------------------------------------------------------- runs

  /** A freshly created queue over zeroed pages. */
  function Init(num: nat, suppression: bool): Sys
    requires num > 0
  {
    Sys(Driver(num, 0, 0, num, 0, NONE.(avail := true), true, true, 0,
               seq(num, i requires 0 <= i < num => IdState(0, 0, if i < num - 1 then i + 1 else 0, 0))),
        Books(seq(num, i requires 0 <= i < num => i), map[], 0, 0, 0),
        EVENT_ENABLE, suppression, Idle,
        seq(num, i requires 0 <= i < num => Desc(0, 0, 0, NONE)), map[], 0, EVENT_ENABLE,
        Device(0, 0, [], Nothing, 0),
        History([], [], map[], [], [], [], false, false))
  }

  lemma InitIds(num: nat, suppression: bool)
    requires 0 < num <= 0x8000
    ensures IdsOk(Init(num, suppression).d, Init(num, suppression).k)
  {
    var s := Init(num, suppression);
    forall x | 0 <= x < num
      ensures Owned(x, s.k)
    {
      assert s.k.free[x] == x;
    }
  }

  lemma InitInv(num: nat, suppression: bool)
    requires 0 < num <= 0x8000
    ensures Inv(Init(num, suppression))
  {
    var s := Init(num, suppression);
    InitIds(num, suppression);
    forall p: nat | p < num
      ensures s.desc[Slot(p, num)].flags.avail == !Phase(p, num)
    {
      assert s.desc[Slot(p, num)].flags == NONE;
    }
    assert MarksOk(s.desc, num, 0, 0, 0, 0);
    assert DeliveryOk(s.k.flight, s.dev.taken, s.h);
  }

  ghost predicate Run(s: Sys, steps: seq<Step>, t: Sys)
    requires Inv(s)
    decreases |steps|
  {
    if steps == [] then s == t
    else Enabled(s, steps[0]) && (StepKeepsInv(s, steps[0]); Run(Next(s, steps[0]), steps[1..], t))
  }

  lemma {:induction false} RunKeepsInv(s: Sys, steps: seq<Step>, t: Sys)
    requires Inv(s) && Run(s, steps, t)
    ensures Inv(t)
    decreases |steps|
  {
    if steps != [] {
      StepKeepsInv(s, steps[0]);
      RunKeepsInv(Next(s, steps[0]), steps[1..], t);
    }
  }

  ghost predicate Reachable(t: Sys) {
    exists num: nat, suppression, steps ::
      0 < num <= 0x8000 && (InitInv(num, suppression); Run(Init(num, suppression), steps, t))
  }

  lemma ReachableInv(t: Sys)
    requires Reachable(t)
    ensures Inv(t)
  {
    var num: nat, suppression, steps :|
      0 < num <= 0x8000 && (InitInv(num, suppression); Run(Init(num, suppression), steps, t));
    InitInv(num, suppression);
    RunKeepsInv(Init(num, suppression), steps, t);
  }

  // ---------------------------------------------------------------- exactly-once delivery

  /** Tokens of all buffers in flight, in the order: completed, in the device, not yet fetched. */
  function Outstanding(s: Sys): seq<nat> {
    Tokens(s.k.flight, DoneIds(s.h.done)) + Tokens(s.k.flight, TakenIds(s.dev.taken)) + Tokens(s.k.flight, s.h.avail)
  }

  /**
    In every run the tokens returned so far are the first completions in completion order, and
    returned plus outstanding tokens are exactly the tokens added: none twice, none invented, none lost.
   */
  lemma ExactlyOnce(t: Sys)
    requires Reachable(t)
    ensures t.h.returned <= t.h.completed
    ensures multiset(t.h.added) == multiset(Firsts(t.h.returned)) + multiset(Outstanding(t))
    ensures |t.h.returned| == |t.h.completed| <==> t.k.reclaimed == t.dev.written
  {
    ReachableInv(t);
    hide Inv;
    Shape(t);
    Order(t);
    DoneInFlight(t.k.flight, t.h.done, t.dev.taken, t.h.avail);
    assert Firsts(t.h.completed) == Firsts(t.h.returned) + Tokens(t.k.flight, DoneIds(t.h.done));
  }

  /** `get_buf` hands out the oldest completion not yet returned, and nothing when there is none. */
  lemma GetReturnsNext(s: Sys)
    requires Inv(s) && s.busy.Idle?
    ensures var r, c := s.h.returned, s.h.completed;
            DoGet(s).h.returned == if |r| < |c| then r + [c[|r|]] else r
    ensures |s.h.returned| < |s.h.completed| <==> LooksUsed(s.desc[s.d.lastUsed].flags, s.d.usedWrap)
  {
    UsedDetection(s);
    Order(s);
    if s.h.done != [] {
      var id := s.h.done[0].id;
      assert BookingOk(s.d.states, id, s.k.flight[id]);
      assert s.h.completed[|s.h.returned|] == Outcomes(s.k.flight, s.h.done)[0];
    }
  }

  ghost predicate StepTo(s: Sys, a: Step, t: Sys) {
    Formed(s) && Enabled(s, a) && t == Next(s, a)
  }

  lemma RunCons(s: Sys, a: Step, s1: Sys, rest: seq<Step>, t: Sys)
    requires Inv(s) && StepTo(s, a, s1) && Inv(s1) && Run(s1, rest, t)
    ensures Run(s, [a] + rest, t)
  {
    assert ([a] + rest)[1..] == rest;
  }

  lemma OneDelivery(s: Sys) returns (s1: Sys, s2: Sys)
    requires Inv(s) && s.busy.Idle? && s.h.done != []
    ensures StepTo(s, GetTake, s1) && StepTo(s1, GetEvent, s2) && Inv(s1) && Inv(s2)
    ensures s2.busy.Idle? && s2.h.done == s.h.done[1..] && s2.h.completed == s.h.completed
  {
    hide Inv, LooksUsed;
    Shape(s);
    UsedDetection(s);
    Order(s);
    s1 := Next(s, GetTake);
    StepKeepsInv(s, GetTake);
    Shape(s1);
    s2 := Next(s1, GetEvent);
    StepKeepsInv(s1, GetEvent);
  }

  lemma NothingDone(s: Sys)
    requires Inv(s) && s.h.done == []
    ensures s.h.returned == s.h.completed
  {
    assert Outcomes(s.k.flight, s.h.done) == [];
  }

  /** An idle driver that keeps calling `get_buf` gets every completion, whatever is still in the device. */
  lemma {:induction false} DrainReturnsAll(s: Sys) returns (steps: seq<Step>, t: Sys)
    requires Inv(s) && s.busy.Idle?
    ensures Run(s, steps, t) && t.h.returned == t.h.completed == s.h.completed
    decreases |s.h.done|
  {
    if s.h.done == [] {
      NothingDone(s);
      steps, t := [], s;
    } else {
      var s1, s2 := OneDelivery(s);
      var rest;
      rest, t := DrainReturnsAll(s2);
      RunCons(s1, GetEvent, s2, rest, t);
      RunCons(s, GetTake, s1, [GetEvent] + rest, t);
      steps := [GetTake] + ([GetEvent] + rest);
    }
  }

  /** `t` is `s` with its pending add done. */
  ghost predicate Added(s: Sys, t: Sys)
    requires Formed(s) && s.busy.Adding?
  {
    && t == s.(desc := t.desc, busy := Idle, d := t.d, k := t.k, h := t.h)
    && t.d == AddDriver(s.d, s.busy.slots, s.busy.token, s.busy.page.At?)
    && t.k == AddBooks(s.d, s.k, s.busy.slots, s.busy.token, s.busy.segs, s.busy.page.At?)
    && t.h.avail == s.h.avail + [s.k.free[0]] && t.h.added == s.h.added + [s.busy.token]
  }

  lemma FirstStep(s: Sys, steps: seq<Step>, t: Sys) returns (s1: Sys)
    requires Inv(s) && Run(s, steps, t) && steps != []
    ensures StepTo(s, steps[0], s1) && Inv(s1) && Run(s1, steps[1..], t)
  {
    StepKeepsInv(s, steps[0]);
    s1 := Next(s, steps[0]);
  }

  /** A pending add can be carried through store by store, and ends with the new chain published. */
  lemma {:induction false} AddFinishes(s: Sys) returns (steps: seq<Step>, t: Sys)
    requires Inv(s) && s.busy.Adding?
    ensures Run(s, steps, t) && Inv(t) && Added(s, t)
    ensures forall i | 0 <= i < |steps| :: steps[i].DoStore?
    decreases |s.busy.todo|
  {
    hide Inv;
    Shape(s);
    StepKeepsInv(s, DoStore);
    if |s.busy.todo| == 1 {
      t := Next(s, DoStore);
      RunCons(s, DoStore, t, [], t);
      steps := [DoStore] + [];
    } else {
      var rest;
      rest, t := AddFinishes(DoOneStore(s));
      RunCons(s, DoStore, DoOneStore(s), rest, t);
      steps := [DoStore] + rest;
    }
  }

  /** Under a conforming device the driver's two bug checks in `get_buf` never fire. */
  lemma NeverBadRing(s: Sys)
    requires Reachable(s)
    ensures Inv(s)
    ensures LooksUsed(s.desc[s.d.lastUsed].flags, s.d.usedWrap) ==>
              var id := s.desc[s.d.lastUsed].id;
              id < s.d.num && s.d.states[id].data != 0 && id in s.k.flight
  {
    ReachableInv(s);
    UsedDetection(s);
    if s.k.reclaimed < s.dev.written {
      assert BookingOk(s.d.states, s.desc[s.d.lastUsed].id, s.k.flight[s.desc[s.d.lastUsed].id]);
    }
  }

  // ---------------------------------------------------------------- ids

  /** Every id is either free or borrowed by exactly one buffer in flight. */
  lemma IdsPartition(s: Sys, x: nat)
    requires Reachable(s) && x < s.d.num
    ensures x in s.k.free <==> forall h | h in s.k.flight :: x !in s.k.flight[h].ids
    ensures forall g, h | g in s.k.flight && h in s.k.flight && x in s.k.flight[g].ids && x in s.k.flight[h].ids ::
            g == h
    ensures NoDup(s.k.free) && |s.k.free| == s.d.numFree && s.d.freeHead < s.d.num
  {
    ReachableInv(s);
    assert Owned(x, s.k);
    forall h | h in s.k.flight
      ensures !(x in s.k.free && x in s.k.flight[h].ids)
    {
      assert Apart(s.k.free, s.k.flight[h].ids);
    }
    forall g, h | g in s.k.flight && h in s.k.flight && x in s.k.flight[g].ids && x in s.k.flight[h].ids
      ensures g == h
    {
      assert g != h ==> Apart(s.k.flight[g].ids, s.k.flight[h].ids);
    }
  }

  /** Following `next` from `free_head` visits exactly the free ids, each once, in order. */
  lemma FreeListWalk(s: Sys, i: nat)
    requires Reachable(s) && i < s.d.numFree
    ensures Fits(s.d) && i < |s.k.free| && Hops(s.d.states, s.d.freeHead, i) == s.k.free[i]
  {
    ReachableInv(s);
    HopsFollow(s.d, s.k.free, i);
  }

  // ---------------------------------------------------------------- detection and publication

  /** At every instant, also between the stores of an add, the driver sees a used element iff there is one. */
  lemma UsedDetectedExactly(s: Sys)
    requires Reachable(s)
    ensures Inv(s)
    ensures LooksUsed(s.desc[s.d.lastUsed].flags, s.d.usedWrap) <==> s.k.reclaimed < s.dev.written
  {
    ReachableInv(s);
    UsedDetection(s);
  }

  /**
    At every instant the device finds its next slot available iff a complete chain starts there,
    and then reads exactly the submitted buffers; in particular an unfinished add is invisible.
   */
  lemma PublicationIsAtomic(s: Sys)
    requires Reachable(s)
    ensures Inv(s)
    ensures var p := s.dev.fetched;
            LooksAvailable(s.desc[Slot(p, s.d.num)].flags, Phase(p, s.d.num)) <==>
            (exists h | h in s.k.flight :: s.k.flight[h].start == p && h in s.h.avail)
    ensures forall h | h in s.k.flight && s.k.flight[h].start == s.dev.fetched && h in s.h.avail ::
              Walk(s.desc, s.tables, s.dev.fetched, s.d.num, s.d.num) ==
                Taken(h, |s.k.flight[h].ids|, s.k.flight[h].segs)
    ensures s.busy.Adding? && s.dev.fetched == s.k.published ==>
              !LooksAvailable(s.desc[Slot(s.k.published, s.d.num)].flags, Phase(s.k.published, s.d.num))
  {
    ReachableInv(s);
    AvailableDetection(s);
    LaidRange(s.k.flight, s.h.avail, s.dev.fetched, s.k.published);
    forall h | h in s.h.avail && h in s.k.flight && s.k.flight[h].start == s.dev.fetched
      ensures h == s.h.avail[0]
    {
      FirstIsOnly(s.k.flight, s.d.states, s.h.avail, s.dev.fetched, s.k.published, h);
    }
    if s.dev.fetched < s.k.published {
      assert s.k.flight[s.h.avail[0]].start == s.dev.fetched;
    } else {
      Order(s);
    }
  }

  lemma FirstIsOnly(f: map<nat, Booking>, states: seq<IdState>, avail: seq<nat>, from: nat, to: nat, h: nat)
    requires FlightOk(states, f) && Laid(f, avail, from, to) && h in avail && h in f && f[h].start == from
    ensures h == avail[0]
  {
    var g := avail[0];
    assert BookingOk(states, g, f[g]);
    LaidRange(f, avail[1..], from + |f[g].ids|, to);
    assert avail == [g] + avail[1..];
  }

  /** A used element waits unchanged until the driver reclaims it, so reading it after its flags is safe. */
  lemma UsedElementStable(s: Sys, a: Step)
    requires Inv(s) && Enabled(s, a) && s.k.reclaimed < s.dev.written && !a.GetTake?
    ensures Next(s, a).desc[s.d.lastUsed] == s.desc[s.d.lastUsed]
  {
    Order(s);
    var u, num := s.k.reclaimed, s.d.num;
    if a.DoStore? {
      StoreTouches(s.desc, s.busy.todo[0], s.k.published, s.busy.slots, num, u, u);
    } else if a.WriteBody? {
      WritingRoom(s, a.index);
      SlotsDiffer(u, s.dev.written, num);
    } else if a.WriteFlags? {
      WritingRoom(s, s.dev.writing.index);
      SlotsDiffer(u, s.dev.written, num);
    }
  }

  // ---------------------------------------------------------------- phase

  /** The driver's 16-bit fields in terms of the unbounded counters, by ordinary division. */
  lemma PhaseInvariant(s: Sys)
    requires Reachable(s)
    ensures 0 < s.d.num <= 0x8000
    ensures s.d.nextAvail == s.k.published % s.d.num && s.d.lastUsed == s.k.reclaimed % s.d.num
    ensures s.d.availUsed.avail <==> (s.k.published / s.d.num) % 2 == 0
    ensures s.d.availUsed.used <==> (s.k.published / s.d.num) % 2 == 1
    ensures s.d.usedWrap <==> (s.k.reclaimed / s.d.num) % 2 == 0
    ensures s.k.published - s.k.reclaimed == s.d.num - s.d.numFree
    ensures s.d.availWrap == ((s.k.published / s.d.num) % 2 == 0) <==> s.k.fullAdds % 2 == 0
  {
    ReachableInv(s);
    SlotIsMod(s.k.published, s.d.num);
    SlotIsMod(s.k.reclaimed, s.d.num);
  }

  // ---------------------------------------------------------------- interrupts

  /**
    An armed driver (its last look, with callbacks enabled, found nothing) cannot miss a completion:
    once the device has looked at the event area after its latest used element, either nothing was
    completed since or an interrupt was raised.
   */
  lemma NoLostInterrupt(s: Sys)
    requires Reachable(s) && s.h.armed && s.dev.checked == s.dev.written
    ensures s.k.reclaimed < s.dev.written ==> s.h.irq
    ensures s.k.reclaimed < s.dev.written <==> |s.h.returned| < |s.h.completed|
  {
    ReachableInv(s);
    Order(s);
  }

  lemma ArmedAfterLook(s: Sys)
    requires Formed(s) && EventsOk(s)
    requires LooksUsed(s.desc[s.d.lastUsed].flags, s.d.usedWrap) ==>
               s.h.done != [] && s.desc[s.d.lastUsed].id < s.d.num && s.desc[s.d.lastUsed].id in s.k.flight
    ensures var found := LooksUsed(s.desc[s.d.lastUsed].flags, s.d.usedWrap);
            && (s.busy.EnabledFlags? ==> (Next(s, EnableCheck).h.armed <==> !found))
            && (s.busy.Idle? ==> (Next(s, GetTake).h.armed <==> !found && s.shadow != EVENT_DISABLE))
  {
    hide LooksUsed;
  }

  /**
    The two looks leave the driver armed exactly when they find nothing: the one that ends
    `enable_cb`, and that of a `get_buf` with callbacks enabled.
   */
  lemma Arming(s: Sys)
    requires Reachable(s)
    ensures Formed(s)
    ensures s.busy.EnabledFlags? ==> (Next(s, EnableCheck).h.armed <==> s.k.reclaimed == s.dev.written)
    ensures s.busy.Idle? ==>
              (Next(s, GetTake).h.armed <==> s.k.reclaimed == s.dev.written && s.shadow != EVENT_DISABLE)
  {
    ReachableInv(s);
    hide Inv, LooksUsed, Next, EventsOk;
    Shape(s);
    UsedDetection(s);
    Order(s);
    ArmedAfterLook(s);
  }

  /** With callbacks disabled the device's check raises no interrupt, and disabling them disables them. */
  lemma DisabledIsQuiet(s: Sys)
    requires Reachable(s)
    ensures Formed(s)
    ensures s.shadow == 1 && Enabled(s, Check) ==> Next(s, Check).h.irq == s.h.irq
    ensures Enabled(s, Disable) ==> Next(s, Disable).shadow == Next(s, Disable).evFlags == 1
  {
    hide Inv;
    ReachableInv(s);
    Shape(s);
  }

  /** A table that `add_buf` has filled means the submitted list. */
  lemma TableHoldsMeans(t: seq<Desc>, segs: seq<Seg>)
    ensures TableHolds(t, segs) ==> TableSegs(t) == segs
  {
    if TableHolds(t, segs) {
      forall i | 0 <= i < |t|
        ensures TableSegs(t)[i] == segs[i]
      {
        assert EntryHolds(t[i], segs[i]);
      }
    }
  }

  // ---------------------------------------------------------------- kick

  /** Without descriptor events a kick notifies unless the device refuses, whatever was added. */
  lemma KickByFlags(d: Driver, offWrap: nat, flags: nat)
    requires flags != 2
    ensures KickDecision(d, offWrap, flags) <==> flags != 1
  {
  }

  /** The start of the lap that position `a` is in. */
  lemma {:induction false} LapStart(a: nat, n: nat)
    requires n > 0
    ensures Slot(a, n) <= a
    ensures Slot(a - Slot(a, n), n) == 0 && Phase(a - Slot(a, n), n) == Phase(a, n)
  {
    if a >= n {
      LapStart(a - n, n);
    }
  }

  /** The only position of the last `n` with this offset and wrap counter, as `kick_prepare` computes it. */
  lemma EventPosition(a: nat, n: nat, off: nat, ph: bool, p: nat)
    requires off < n && a <= p + n && p < a
    ensures Slot(p, n) == off && Phase(p, n) == ph <==>
            p == a - Slot(a, n) + off - if ph == Phase(a, n) then 0 else n
  {
    LapStart(a, n);
    var lap := a - Slot(a, n);
    if p >= lap {
      SlotAdd(lap, p - lap, n);
    } else {
      assert p + n >= lap;
      SlotAdd(lap, p + n - lap, n);
      assert Slot(p + n, n) == Slot(p, n) && Phase(p + n, n) == !Phase(p, n);
    }
  }

  /**
    The position the driver takes event position `p` for: the one of this lap or the last with
    its slot and wrap counter, or with the other wrap counter if the driver's own is off by a lap.
   */
  function TakenFor(a: nat, n: nat, inPhase: bool, p: nat): int
    requires n > 0
  {
    a - Slot(a, n) + Slot(p, n) - if (Phase(p, n) == Phase(a, n)) == inPhase then 0 else n
  }

  /** The kick decision when the device's event area names position `p`. */
  predicate KicksFor(d: Driver, p: nat)
    requires d.num > 0
  {
    KickDecision(d, PackEvent(Slot(p, d.num), Phase(p, d.num)), EVENT_DESC)
  }

  /** The decision for every event position and every count, `2^16` slots or more since the last kick included. */
  lemma KickIsExact(d: Driver, k: Books, p: nat)
    requires IdsOk(d, k) && PhaseOk(d, k)
    ensures KicksFor(d, p) <==>
            Trunc16(k.published - 1 - TakenFor(k.published, d.num, k.fullAdds % 2 == 0, p)) < Trunc16(d.numAdded)
  {
    KickFormula(d, Slot(p, d.num), Phase(p, d.num));
  }

  lemma KickFormula(d: Driver, off: nat, wrap: bool)
    requires 0 < d.num <= 0x8000 && off < d.num
    ensures KickDecision(d, PackEvent(off, wrap), EVENT_DESC) <==>
            Trunc16(d.nextAvail - 1 - (off - if wrap == d.availWrap then 0 else d.num)) < Trunc16(d.numAdded)
  {
    assert PackEvent(off, wrap) % 0x8000 == off && (PackEvent(off, wrap) / 0x8000 == 1 <==> wrap);
    OlderDistance(d.nextAvail, d.numAdded);
    NewerDistance(d.nextAvail, off, d.num, wrap == d.availWrap);
  }

  lemma OlderDistance(newer: nat, added: nat)
    ensures Trunc16(newer - Trunc16(newer - added)) == Trunc16(added)
  {
  }

  lemma NewerDistance(newer: nat, off: nat, n: nat, same: bool)
    ensures Trunc16(newer - (if same then off else Trunc16(off - n)) - 1) ==
            Trunc16(newer - 1 - (off - if same then 0 else n))
  {
  }

  /** Around the available position, only a lap not yet begun is taken for another. */
  lemma NearPosition(a: nat, n: nat, p: nat)
    requires n > 0 && a <= p + n && p < a + n
    ensures TakenFor(a, n, true, p) == if p < a - Slot(a, n) + n then p else p - 2 * n
  {
    LapStart(a, n);
    var lap := a - Slot(a, n);
    if p >= lap + n {
      SlotAdd(lap, p - n - lap, n);
    } else if p >= lap {
      SlotAdd(lap, p - lap, n);
    } else {
      EventPosition(a, n, Slot(p, n), Phase(p, n), p);
    }
  }

  /** The decision meets its purpose at `p`: true iff `p` was published since the last kick. */
  ghost predicate KickRight(d: Driver, k: Books, p: nat)
    requires d.num > 0
  {
    KicksFor(d, p) <==> p < k.published <= p + d.numAdded
  }

  /** Right for every position within one ring length of the available one. */
  ghost predicate KickAlwaysRight(d: Driver, k: Books)
    requires d.num > 0
  {
    forall p: nat | k.published <= p + d.num && p < k.published + d.num :: KickRight(d, k, p)
  }

  /** The count of added slots survives 16-bit arithmetic; always so for at most `num` slots. */
  predicate CountFits(d: Driver) {
    var counted := Trunc16(d.numAdded);
    && (d.numAdded <= counted || d.num <= counted)
    && counted <= if d.nextAvail == 0 then U16 - d.num else d.num
  }

  /**
    The decision is right for every event position exactly when nothing was added since the last
    kick, or the count fits and the number of direct chains that filled the whole ring is even:
    such a chain ends where it started, and the driver's wrap counter misses the lap.
   */
  lemma KickRightIff(d: Driver, k: Books)
    requires IdsOk(d, k) && PhaseOk(d, k)
    ensures KickAlwaysRight(d, k) <==> d.numAdded == 0 || (k.fullAdds % 2 == 0 && CountFits(d))
    ensures d.numAdded <= d.num ==> CountFits(d)
  {
    hide KickRight, Slot, Phase;
    if d.numAdded == 0 || (k.fullAdds % 2 == 0 && CountFits(d)) {
      forall p: nat | k.published <= p + d.num && p < k.published + d.num
        ensures KickRight(d, k, p)
      {
        if d.numAdded == 0 { NothingAdded(d, k, p); } else { KickRightAt(d, k, p); }
      }
    } else if k.fullAdds % 2 != 0 {
      OffByALap(d, k);
    } else {
      var p := CountTooLarge(d, k);
    }
  }

  lemma TruncGap(gap: int)
    requires -0x8000 <= gap < U16
    ensures Trunc16(gap) == if gap >= 0 then gap else gap + U16
  {
  }

  lemma Counted(d: Driver)
    ensures Trunc16(d.numAdded) < U16 && Trunc16(d.numAdded) <= d.numAdded
  {
  }

  /** The decision near the available position, free of 16-bit arithmetic on the gap. */
  lemma KicksNear(d: Driver, k: Books, p: nat)
    requires IdsOk(d, k) && PhaseOk(d, k) && k.fullAdds % 2 == 0
    requires k.published <= p + d.num && p < k.published + d.num
    ensures 0 < d.num <= 0x8000 && d.nextAvail < d.num && d.nextAvail <= k.published && d.numAdded <= k.published
    ensures var a := k.published;
            KicksFor(d, p) <==>
            (if p < a then a - 1 - p
             else if p < a - d.nextAvail + d.num then U16 + a - 1 - p
             else a - 1 - p + 2 * d.num) < Trunc16(d.numAdded)
  {
    hide Trunc16;
    LapStart(k.published, d.num);
    KickIsExact(d, k, p);
    NearPosition(k.published, d.num, p);
    TruncGap(k.published - 1 - TakenFor(k.published, d.num, true, p));
  }

  lemma KickRightAt(d: Driver, k: Books, p: nat)
    requires IdsOk(d, k) && PhaseOk(d, k) && k.published <= p + d.num && p < k.published + d.num
    requires k.fullAdds % 2 == 0 && CountFits(d)
    ensures KickRight(d, k, p)
  {
    hide IdsOk, PhaseOk, KicksFor, Trunc16;
    KicksNear(d, k, p);
    Counted(d);
  }

  lemma NothingAdded(d: Driver, k: Books, p: nat)
    requires IdsOk(d, k) && PhaseOk(d, k) && d.numAdded == 0
    ensures KickRight(d, k, p)
  {
    KickIsExact(d, k, p);
  }

  /** A lap off, the available position and the one before are taken for others. */
  lemma KicksOtherLap(d: Driver, k: Books, p: nat)
    requires IdsOk(d, k) && PhaseOk(d, k) && k.fullAdds % 2 != 0 && p <= k.published <= p + 1
    ensures 0 < d.num <= 0x8000
    ensures KicksFor(d, p) <==>
            (if p < k.published - d.nextAvail then U16 - d.num else k.published - 1 - p + d.num) < Trunc16(d.numAdded)
  {
    hide Trunc16;
    var a, n := k.published, d.num;
    KickIsExact(d, k, p);
    NearPosition(a, n, p);
    assert TakenFor(a, n, false, p) == if p < a - d.nextAvail then p + n else p - n;
    TruncGap(a - 1 - TakenFor(a, n, false, p));
  }

  lemma OffByALap(d: Driver, k: Books)
    requires IdsOk(d, k) && PhaseOk(d, k) && d.numAdded > 0 && k.fullAdds % 2 != 0
    ensures k.published > 0 && (KickRight(d, k, k.published - 1) ==> !KickRight(d, k, k.published))
  {
    hide IdsOk, KicksFor, Trunc16;
    KicksOtherLap(d, k, k.published - 1);
    KicksOtherLap(d, k, k.published);
  }

  lemma CountTooLarge(d: Driver, k: Books) returns (p: nat)
    requires IdsOk(d, k) && PhaseOk(d, k) && d.numAdded > 0 && k.fullAdds % 2 == 0 && !CountFits(d)
    ensures d.num > 0 && k.published <= p + d.num && p < k.published + d.num && !KickRight(d, k, p)
  {
    hide KicksFor, Trunc16;
    var a, n, counted := k.published, d.num, Trunc16(d.numAdded);
    Counted(d);
    p := if counted < d.numAdded && counted < n then a - 1 - counted else a + n - 1;
    hide IdsOk, PhaseOk;
    KicksNear(d, k, p);
  }
}
