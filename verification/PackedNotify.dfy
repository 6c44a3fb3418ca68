/**
  Kicks on the packed ring and a device that sleeps.  The device may write anything into its
  event suppression area while it is awake.  It goes to sleep after it has asked to be told about
  its next position and then, looking once more, found nothing there; asleep, it fetches nothing
  until it is notified (section 2.8.10 of VIRTIO 1.2).
 */
module PackedNotify {
  import opened RingMath
  import opened Common
  import opened FlagWord
  import opened PackedDriver
  import opened PackedQueue
  import opened PackedProtocol
  import opened PackedProofs
  import opened PackedSteps
  import opened PackedTheorems

  datatype Area = Area(offWrap: nat, flags: nat)

  /** `kickedAt` is the position the last kick looked at, `most` the largest count any kick found: records only. */
  datatype Notify = Notify(area: Area, asleep: bool, woken: bool, kickedAt: nat, most: nat)

  datatype System = System(s: Sys, n: Notify)

  datatype Move =
    | Ring(a: Step)
    | SetArea(area: Area)
    | Sleep
    | Wake

  /** The area asks for a notification about position `p`. */
  predicate Asks(area: Area, p: nat, num: nat)
    requires num > 0
  {
    && area.flags != EVENT_DISABLE
    && (area.flags == EVENT_DESC ==> area.offWrap == PackEvent(Slot(p, num), Phase(p, num)))
  }

  ghost predicate Can(w: System, m: Move) {
    && Formed(w.s)
    && match m
       case Ring(a) => Enabled(w.s, a) && (a.Fetch? ==> !w.n.asleep)
       case SetArea(_) => !w.n.asleep
       case Sleep => !w.n.asleep && Asks(w.n.area, w.s.dev.fetched, w.s.d.num) && !Enabled(w.s, Fetch)
       case Wake => w.n.asleep && w.n.woken
  }

  function Kicked(s: Sys, n: Notify): Notify {
    n.(woken := n.woken || KickDecision(s.d, n.area.offWrap, n.area.flags),
       kickedAt := s.k.published,
       most := if n.most < s.d.numAdded then s.d.numAdded else n.most)
  }

  ghost function After(w: System, m: Move): System
    requires Can(w, m)
  {
    match m
    case Ring(a) => System(Next(w.s, a), if a.Kick? then Kicked(w.s, w.n) else w.n)
    case SetArea(area) => w.(n := w.n.(area := area))
    case Sleep => w.(n := w.n.(asleep := true, woken := false))
    case Wake => w.(n := w.n.(asleep := false))
  }

  ghost predicate Trace(w: System, moves: seq<Move>, t: System)
    decreases |moves|
  {
    if moves == [] then w == t else Can(w, moves[0]) && Trace(After(w, moves[0]), moves[1..], t)
  }

  function Start(num: nat, suppression: bool): System
    requires num > 0
  {
    System(Init(num, suppression), Notify(Area(0, EVENT_ENABLE), false, false, 0, 0))
  }

  ghost predicate Reached(t: System) {
    exists num: nat, suppression, moves :: 0 < num <= 0x8000 && Trace(Start(num, suppression), moves, t)
  }

  // ---------------------------------------------------------------- invariant

  /** The driver's wrap counter is a lap behind and the device relies on it. */
  predicate LapOff(k: Books, area: Area) {
    area.flags == EVENT_DESC && k.fullAdds % 2 != 0
  }

  ghost predicate NotifyOk(s: Sys, n: Notify)
    requires s.d.num > 0
  {
    && s.d.numAdded + n.kickedAt == s.k.published
    && (n.asleep ==> Asks(n.area, s.dev.fetched, s.d.num))
    && (n.asleep && !n.woken ==> n.kickedAt <= s.dev.fetched || LapOff(s.k, n.area) || n.most >= U16)
  }

  ghost predicate SystemInv(w: System) {
    Inv(w.s) && NotifyOk(w.s, w.n)
  }

  /** What a step of the ring does to the counters that kicks depend on. */
  ghost predicate Counts(s: Sys, s': Sys) {
    && s'.d.num == s.d.num && s'.dev.fetched == s.dev.fetched
    && s'.d.numAdded + s.k.published == s.d.numAdded + s'.k.published
    && (s'.k.fullAdds != s.k.fullAdds ==> s.dev.fetched == s.k.published)
  }

  lemma PublishCounts(s: Sys)
    requires Formed(s) && s.busy.Adding?
    requires s.k.reclaimed <= s.dev.fetched <= s.k.published && s.k.published + s.d.numFree == s.k.reclaimed + s.d.num
    ensures Counts(s, DoPublish(s))
  {
  }

  lemma RingCounts(s: Sys, a: Step)
    requires Inv(s) && Enabled(s, a) && !a.Fetch? && !a.Kick?
    ensures Counts(s, Next(s, a))
  {
    hide Inv;
    Order(s);
    Shape(s);
    if a.DoStore? && |s.busy.todo| == 1 {
      PublishCounts(s);
    }
  }

  lemma QuietNotify(s: Sys, s': Sys, n: Notify)
    requires s.d.num > 0 && Counts(s, s') && NotifyOk(s, n) && s.dev.fetched <= s.k.published
    ensures NotifyOk(s', n)
  {
  }

  /** A kick wakes a device that asked for the oldest chain the driver added since the last kick. */
  lemma KickWakes(s: Sys, n: Notify)
    requires Inv(s) && Asks(n.area, s.dev.fetched, s.d.num) && !LapOff(s.k, n.area)
    requires s.d.numAdded + n.kickedAt == s.k.published && n.kickedAt <= s.dev.fetched < s.k.published
    requires s.d.numAdded < U16
    ensures KickDecision(s.d, n.area.offWrap, n.area.flags)
  {
    hide Inv, Slot, Phase, Trunc16;
    Order(s);
    Counted(s.d);
    if n.area.flags == EVENT_DESC {
      KickSeen(s, s.dev.fetched);
    }
  }

  lemma KickSeen(s: Sys, p: nat)
    requires Inv(s) && s.k.fullAdds % 2 == 0 && s.d.numAdded < U16
    requires s.k.published <= p + s.d.num && p < s.k.published
    ensures KicksFor(s.d, p) <==> s.k.published <= p + s.d.numAdded
  {
    KickSeenIn(s.d, s.k, p);
  }

  lemma KickSeenIn(d: Driver, k: Books, p: nat)
    requires IdsOk(d, k) && PhaseOk(d, k) && k.fullAdds % 2 == 0 && d.numAdded < U16
    requires k.published <= p + d.num && p < k.published
    ensures KicksFor(d, p) <==> k.published <= p + d.numAdded
  {
    hide IdsOk, PhaseOk, KicksFor;
    KicksNear(d, k, p);
  }

  lemma KickMissedAt(s: Sys, p: nat)
    requires Inv(s) && s.k.fullAdds % 2 != 0 && s.d.numAdded <= s.d.num
    requires s.k.published <= p + s.d.num && p < s.k.published
    ensures !KicksFor(s.d, p)
  {
    KickMissed(s.d, s.k, p);
  }

  lemma KickNotify(s: Sys, n: Notify)
    requires Inv(s) && NotifyOk(s, n)
    ensures NotifyOk(s.(d := s.d.(numAdded := 0)), Kicked(s, n))
  {
    hide Inv;
    Order(s);
    var n' := Kicked(s, n);
    if n'.asleep && !n'.woken && s.dev.fetched < s.k.published && !LapOff(s.k, n.area) && n'.most < U16 {
      KickWakes(s, n);
    }
  }

  lemma MoveKeepsInv(w: System, m: Move)
    requires SystemInv(w) && Can(w, m)
    ensures SystemInv(After(w, m))
  {
    hide Inv;
    var s, n := w.s, w.n;
    Order(s);
    match m
    case Ring(a) =>
      StepKeepsInv(s, a);
      if a.Kick? {
        KickNotify(s, n);
      } else if !a.Fetch? {
        RingCounts(s, a);
        QuietNotify(s, Next(s, a), n);
      }
    case SetArea(_) =>
    case Sleep =>
      AvailableDetection(s);
    case Wake =>
  }

  lemma {:induction false} TraceKeepsInv(w: System, moves: seq<Move>, t: System)
    requires SystemInv(w) && Trace(w, moves, t)
    ensures SystemInv(t)
    decreases |moves|
  {
    if moves != [] {
      MoveKeepsInv(w, moves[0]);
      TraceKeepsInv(After(w, moves[0]), moves[1..], t);
    }
  }

  lemma ReachedInv(t: System)
    requires Reached(t)
    ensures SystemInv(t)
  {
    var num: nat, suppression, moves :| 0 < num <= 0x8000 && Trace(Start(num, suppression), moves, t);
    InitInv(num, suppression);
    TraceKeepsInv(Start(num, suppression), moves, t);
  }

  /** Seen without its notifications, a run of the system is a run of the ring. */
  lemma {:induction false} Project(w: System, moves: seq<Move>, t: System) returns (steps: seq<Step>)
    requires SystemInv(w) && Trace(w, moves, t)
    ensures Run(w.s, steps, t.s)
    decreases |moves|
  {
    if moves == [] {
      steps := [];
    } else {
      hide Inv, Enabled, Next, NotifyOk;
      MoveKeepsInv(w, moves[0]);
      var rest := Project(After(w, moves[0]), moves[1..], t);
      if moves[0].Ring? {
        RunCons(w.s, moves[0].a, After(w, moves[0]).s, rest, t.s);
        steps := [moves[0].a] + rest;
      } else {
        steps := rest;
      }
    }
  }

  /** So everything proved of the ring holds here as well. */
  lemma ReachedReachable(t: System)
    requires Reached(t)
    ensures Reachable(t.s)
  {
    var num: nat, suppression, moves :| 0 < num <= 0x8000 && Trace(Start(num, suppression), moves, t);
    InitInv(num, suppression);
    var steps := Project(Start(num, suppression), moves, t);
  }

  // ---------------------------------------------------------------- no lost kick

  /**
    In every interleaving: once the driver has kicked for all it added, a device asleep over a chain
    has been notified, unless the driver's wrap counter is a lap behind or some kick came only after
    2^16 slots or more.
   */
  lemma NoLostKick(w: System)
    requires Reached(w) && w.n.asleep && w.s.d.numAdded == 0 && w.s.dev.fetched < w.s.k.published
    requires w.n.area.flags == EVENT_DESC ==> w.s.k.fullAdds % 2 == 0
    requires w.n.most < U16
    ensures w.n.woken && Can(w, Wake)
  {
    ReachedInv(w);
  }

  /**
    A kick wakes the sleeper over a new chain iff the 16-bit count reaches back to the position the
    driver takes the device's for; for at most a ring of slots, iff the wrap counter is right.
   */
  lemma KickWakesIff(w: System)
    requires Reached(w) && w.s.busy.Idle? && w.n.asleep && !w.n.woken && w.s.dev.fetched < w.s.k.published
    requires w.n.area.flags == EVENT_DESC
    ensures Can(w, Ring(Kick)) && 0 < w.s.d.num
    ensures var a, n, inPhase := w.s.k.published, w.s.d.num, w.s.k.fullAdds % 2 == 0;
            After(w, Ring(Kick)).n.woken <==>
            Trunc16(a - 1 - TakenFor(a, n, inPhase, w.s.dev.fetched)) < Trunc16(w.s.d.numAdded)
    ensures w.s.d.numAdded <= w.s.d.num && w.n.most < U16 ==>
              (After(w, Ring(Kick)).n.woken <==> w.s.k.fullAdds % 2 == 0)
  {
    hide Reached, Trace, Inv, NotifyOk, KickDecision, TakenFor, Trunc16, EventsOk, DeliveryOk, Slot, Phase;
    ReachedInv(w);
    Shape(w.s);
    KickAtSleep(w.s, w.n);
    assert After(w, Ring(Kick)).n == Kicked(w.s, w.n);
  }

  lemma KickAtSleep(s: Sys, n: Notify)
    requires Inv(s) && s.d.num > 0 && NotifyOk(s, n) && n.asleep && !n.woken && s.dev.fetched < s.k.published
    requires n.area.flags == EVENT_DESC
    ensures var a, inPhase := s.k.published, s.k.fullAdds % 2 == 0;
            KickDecision(s.d, n.area.offWrap, n.area.flags) <==>
            Trunc16(a - 1 - TakenFor(a, s.d.num, inPhase, s.dev.fetched)) < Trunc16(s.d.numAdded)
    ensures s.d.numAdded <= s.d.num && n.most < U16 ==>
              (KickDecision(s.d, n.area.offWrap, n.area.flags) <==> s.k.fullAdds % 2 == 0)
  {
    KickFormulaAt(s, s.dev.fetched);
    hide Inv, KickDecision, TakenFor, Trunc16;
    if s.d.numAdded <= s.d.num && n.most < U16 {
      KickOutcome(s, n);
    }
  }

  lemma KickFormulaAt(s: Sys, p: nat)
    requires Inv(s)
    ensures 0 < s.d.num
    ensures var a, inPhase := s.k.published, s.k.fullAdds % 2 == 0;
            KicksFor(s.d, p) <==> Trunc16(a - 1 - TakenFor(a, s.d.num, inPhase, p)) < Trunc16(s.d.numAdded)
  {
    KickIsExact(s.d, s.k, p);
  }

  lemma KickOutcome(s: Sys, n: Notify)
    requires Inv(s) && NotifyOk(s, n) && n.asleep && !n.woken && s.dev.fetched < s.k.published
    requires n.area.flags == EVENT_DESC && s.d.numAdded <= s.d.num && n.most < U16
    ensures KickDecision(s.d, n.area.offWrap, n.area.flags) <==> s.k.fullAdds % 2 == 0
  {
    hide Inv, KickDecision;
    Shape(s);
    Order(s);
    if s.k.fullAdds % 2 == 0 { KickWakes(s, n); } else { KickMissedAt(s, s.dev.fetched); }
  }

  lemma KickMissed(d: Driver, k: Books, p: nat)
    requires IdsOk(d, k) && PhaseOk(d, k) && k.fullAdds % 2 != 0 && d.numAdded <= d.num
    requires k.published <= p + d.num && p < k.published
    ensures !KicksFor(d, p)
  {
    hide Trunc16;
    var a, n := k.published, d.num;
    KickIsExact(d, k, p);
    NearPosition(a, n, p);
    var q := TakenFor(a, n, false, p);
    assert q == if p < a - d.nextAvail then p + n else p - n;
    TruncGap(a - 1 - q);
    Counted(d);
  }

  // ---------------------------------------------------------------- the lap that is missed

  /** The ring is full of chains not fetched, and the driver has kicked. */
  ghost predicate Full(s: Sys) {
    && Formed(s)
    && !s.busy.Adding? && !s.busy.Getting?
    && s.d.numFree == 0 && s.d.numAdded == 0
    && s.k.reclaimed == s.dev.written == s.dev.fetched < s.k.published
    && s.dev.taken == []
  }

  /** And the device sleeps on. */
  ghost predicate Stalled(w: System) {
    Full(w.s) && w.n.asleep && !w.n.woken && w.n.area.flags == EVENT_DESC
  }

  lemma FullStays(s: Sys, a: Step)
    requires Full(s) && Enabled(s, a) && !a.Fetch? && !LooksUsed(s.desc[s.d.lastUsed].flags, s.d.usedWrap)
    ensures Full(Next(s, a))
  {
    hide LooksUsed;
  }

  lemma StalledStep(w: System, m: Move)
    requires SystemInv(w) && Stalled(w) && Can(w, m)
    ensures Stalled(After(w, m))
  {
    hide Inv, LooksUsed;
    UsedDetection(w.s);
    if m.Ring? {
      FullStays(w.s, m.a);
    }
  }

  /** A stalled queue stays stalled, whatever driver and device do. */
  lemma {:induction false} StalledForever(w: System, moves: seq<Move>, t: System)
    requires SystemInv(w) && Stalled(w) && Trace(w, moves, t)
    ensures Stalled(t)
    decreases |moves|
  {
    if moves != [] {
      StalledStep(w, moves[0]);
      MoveKeepsInv(w, moves[0]);
      StalledForever(After(w, moves[0]), moves[1..], t);
    }
  }

  ghost predicate Goes(w: System, m: Move, t: System) {
    Can(w, m) && t == After(w, m)
  }

  lemma TraceCons(w: System, m: Move, x: System, rest: seq<Move>, t: System)
    requires Goes(w, m, x) && Trace(x, rest, t)
    ensures Trace(w, [m] + rest, t)
  {
    assert ([m] + rest)[1..] == rest;
  }

  lemma OneMove(w: System, m: Move, t: System)
    requires Goes(w, m, t)
    ensures Trace(w, [m], t)
  {
    assert [m][1..] == [];
  }

  lemma FirstMove(w: System, a: seq<Move>, x: System) returns (y: System)
    requires Trace(w, a, x) && a != []
    ensures Goes(w, a[0], y) && Trace(y, a[1..], x)
  {
    y := After(w, a[0]);
  }

  lemma {:induction false} Join(w: System, a: seq<Move>, x: System, b: seq<Move>, t: System)
    requires Trace(w, a, x) && Trace(x, b, t)
    ensures Trace(w, a + b, t)
    decreases |a|
  {
    if a == [] {
      assert a + b == b;
    } else {
      hide Trace, Goes, Can;
      var y := FirstMove(w, a, x);
      Join(y, a[1..], x, b, t);
      TraceCons(w, a[0], y, a[1..] + b, t);
      assert a + b == [a[0]] + (a[1..] + b);
    }
  }

  lemma LiftOne(x: System, steps: seq<Step>, t: Sys) returns (y: System)
    requires Inv(x.s) && Run(x.s, steps, t) && steps != [] && steps[0].DoStore?
    ensures Goes(x, Ring(DoStore), y) && Inv(y.s) && Run(y.s, steps[1..], t) && y == x.(s := y.s)
  {
    hide Inv, Run, Goes, StepTo;
    var s1 := FirstStep(x.s, steps, t);
    RingGoes(x, DoStore, s1);
    y := x.(s := s1);
  }

  /** The stores of an add are moves of the system. */
  lemma {:induction false} Lift(x: System, steps: seq<Step>, t: Sys) returns (moves: seq<Move>)
    requires Inv(x.s) && Run(x.s, steps, t) && forall i | 0 <= i < |steps| :: steps[i].DoStore?
    ensures Trace(x, moves, x.(s := t))
    decreases |steps|
  {
    hide Inv, Can, Added, Next, Enabled;
    if steps == [] {
      moves := [];
    } else {
      hide Run, Goes, Trace;
      var y := LiftOne(x, steps, t);
      var rest := Lift(y, steps[1..], t);
      TraceCons(x, Ring(DoStore), y, rest, x.(s := t));
      moves := [Ring(DoStore)] + rest;
    }
  }

  function AskForFirst(): Area {
    Area(PackEvent(0, true), EVENT_DESC)
  }

  lemma FallsAsleep(s: Sys)
    requires Inv(s) && s.dev.fetched == s.k.published == 0
    ensures Goes(System(s, Notify(Area(0, EVENT_ENABLE), false, false, 0, 0)), SetArea(AskForFirst()),
                 System(s, Notify(AskForFirst(), false, false, 0, 0)))
    ensures Goes(System(s, Notify(AskForFirst(), false, false, 0, 0)), Sleep,
                 System(s, Notify(AskForFirst(), true, false, 0, 0)))
  {
    hide Inv;
    Shape(s);
    AvailableDetection(s);
  }

  /** A full ring's direct chain begins to be added under a device asleep at position 0. */
  lemma AsleepAtStart(num: nat, suppression: bool, bufs: seq<Buf>, out: nat, token: nat)
    returns (moves: seq<Move>, w: System)
    requires 0 < num <= 0x8000 && |bufs| == num && out <= num && token != 0
    ensures Trace(Start(num, suppression), moves, w) && Inv(w.s)
    ensures w == System(DoBegin(Init(num, suppression), bufs, out, token, NoPage),
                        Notify(AskForFirst(), true, false, 0, 0))
  {
    var s0, begin := Init(num, suppression), BeginAdd(bufs, out, token, NoPage);
    InitInv(num, suppression);
    hide Inv, Goes;
    Shape(s0);
    StepKeepsInv(s0, begin);
    w := System(Next(s0, begin), Notify(AskForFirst(), true, false, 0, 0));
    var w1 := System(s0, Notify(AskForFirst(), false, false, 0, 0));
    var w2 := System(s0, Notify(AskForFirst(), true, false, 0, 0));
    FallsAsleep(s0);
    RingGoes(w2, begin, Next(s0, begin));
    TraceCons(w2, Ring(begin), w, [], w);
    TraceCons(w1, Sleep, w2, [Ring(begin)] + [], w);
    TraceCons(Start(num, suppression), SetArea(AskForFirst()), w1, [Sleep] + ([Ring(begin)] + []), w);
    moves := [SetArea(AskForFirst())] + ([Sleep] + ([Ring(begin)] + []));
  }

  lemma RingGoes(w: System, a: Step, s: Sys)
    requires StepTo(w.s, a, s) && !a.Fetch?
    ensures Goes(w, Ring(a), System(s, if a.Kick? then Kicked(w.s, w.n) else w.n))
  {
  }

  /** What a full ring's direct chain leaves on a new queue. */
  lemma Filled(num: nat, suppression: bool, bufs: seq<Buf>, out: nat, token: nat, s: Sys, t: Sys)
    requires 0 < num <= 0x8000 && |bufs| == num && s == DoBegin(Init(num, suppression), bufs, out, token, NoPage)
    requires Formed(s) && Added(s, t)
    ensures t.busy.Idle? && t.d.num == t.d.numAdded == t.k.published == num && t.d.numFree == 0
    ensures t.k.fullAdds == 1 && t.k.reclaimed == 0 && t.dev == Device(0, 0, [], Nothing, 0)
  {
  }

  lemma KickStalls(w: System) returns (t: System)
    requires Inv(w.s) && w.s.busy.Idle? && w.s.d.num == w.s.d.numAdded == w.s.k.published && w.s.d.numFree == 0
    requires w.s.k.fullAdds == 1 && w.s.k.reclaimed == 0 && w.s.dev == Device(0, 0, [], Nothing, 0)
    requires w.n == Notify(AskForFirst(), true, false, 0, 0)
    ensures Goes(w, Ring(Kick), t) && Stalled(t)
  {
    hide Inv;
    Shape(w.s);
    KickMissedAt(w.s, 0);
    t := After(w, Ring(Kick));
  }

  /**
    On a ring of any size, one direct chain that fills it, added under a device that asked to be
    told about position 0, stalls the queue: the kick decides that no notification is needed.
   */
  lemma FullRingStalls(num: nat, suppression: bool, bufs: seq<Buf>, out: nat, token: nat) returns (w: System)
    requires 0 < num <= 0x8000 && |bufs| == num && out <= num && token != 0
    ensures Reached(w) && Stalled(w) && SystemInv(w)
  {
    hide Inv, Trace, Goes, Stalled, Run, Added;
    var moves, x := AsleepAtStart(num, suppression, bufs, out, token);
    Shape(x.s);
    var steps, t := AddFinishes(x.s);
    var more := Lift(x, steps, t);
    Filled(num, suppression, bufs, out, token, x.s, t);
    w := KickStalls(x.(s := t));
    OneMove(x.(s := t), Ring(Kick), w);
    Join(x, more, x.(s := t), [Ring(Kick)], w);
    Join(Start(num, suppression), moves, x, more + [Ring(Kick)], w);
    assert Reached(w);
    ReachedInv(w);
  }
}
