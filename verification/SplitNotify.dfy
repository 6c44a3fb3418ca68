/**
  Kicks on the split ring and a device that sleeps.  The device may write anything into its event
  fields while it is awake.  It goes to sleep after it has asked to be told about its next position
  and then, looking once more, found nothing there; asleep, it fetches nothing until it is notified
  (section 2.7.10 of VIRTIO 1.2).
 */
module SplitNotify {
  import opened RingMath
  import opened Common
  import opened SplitDriver
  import opened SplitQueue
  import opened SplitProtocol
  import opened SplitSteps
  import opened SplitTheorems

  /**
    `availEvent` and `noNotify` are the device's, `added` is the driver's count since its last kick;
    `kickedAt` records the position that kick looked at.
   */
  datatype Notify = Notify(availEvent: nat, noNotify: bool, added: nat, asleep: bool, woken: bool, kickedAt: nat)

  datatype System = System(s: Sys, n: Notify)

  datatype Move =
    | Ring(a: Step)
    | Kick
    | SetFields(availEvent: nat, noNotify: bool)
    | Sleep
    | Wake

  /** The event fields ask for a notification about position `p`. */
  predicate Asks(suppression: bool, n: Notify, p: nat) {
    if suppression then n.availEvent == Trunc16(p) else !n.noNotify
  }

  ghost predicate Can(w: System, m: Move) {
    && Shape(w.s)
    && match m
       case Ring(a) => Enabled(w.s, a) && (a.Fetch? ==> !w.n.asleep)
       case Kick => w.s.busy.Idle?
       case SetFields(_, _) => !w.n.asleep
       case Sleep => !w.n.asleep && Asks(w.s.suppression, w.n, w.s.dev.fetched) && !Enabled(w.s, Fetch)
       case Wake => w.n.asleep && w.n.woken
  }

  function Kicked(s: Sys, n: Notify): Notify {
    n.(woken := n.woken || KickDecision(s.m.availIdx, n.added, s.suppression, n.availEvent, n.noNotify),
       added := 0, kickedAt := s.k.published)
  }

  ghost function After(w: System, m: Move): System
    requires Can(w, m)
  {
    match m
    case Ring(a) => System(Next(w.s, a), if a.Publish? then w.n.(added := w.n.added + 1) else w.n)
    case Kick => w.(n := Kicked(w.s, w.n))
    case SetFields(e, q) => w.(n := w.n.(availEvent := e, noNotify := q))
    case Sleep => w.(n := w.n.(asleep := true, woken := false))
    case Wake => w.(n := w.n.(asleep := false))
  }

  ghost predicate Trace(w: System, moves: seq<Move>, t: System)
    decreases |moves|
  {
    if moves == [] then w == t else Can(w, moves[0]) && Trace(After(w, moves[0]), moves[1..], t)
  }

  function Start(num: nat, suppression: bool): System {
    System(Init(num, suppression), Notify(0, false, 0, false, false, 0))
  }

  ghost predicate Reached(t: System) {
    exists num: nat, suppression, moves :: 0 < num <= 0x8000 && IsPow2(num) && Trace(Start(num, suppression), moves, t)
  }

  // ---------------------------------------------------------------- invariant

  ghost predicate NotifyOk(s: Sys, n: Notify) {
    && n.added + n.kickedAt == s.k.published
    && (n.asleep ==> Asks(s.suppression, n, s.dev.fetched))
    && (n.asleep && !n.woken ==> n.kickedAt <= s.dev.fetched)
  }

  ghost predicate SystemInv(w: System) {
    Inv(w.s) && NotifyOk(w.s, w.n)
  }

  lemma RingCounts(s: Sys, a: Step)
    requires Shape(s) && Enabled(s, a)
    ensures Next(s, a).suppression == s.suppression
    ensures Next(s, a).k.published == s.k.published + if a.Publish? then 1 else 0
    ensures !a.Fetch? ==> Next(s, a).dev.fetched == s.dev.fetched
  {
  }

  /** A kick wakes a device that asked for the oldest buffer added since the last kick. */
  lemma KickWakes(s: Sys, n: Notify)
    requires Inv(s) && Asks(s.suppression, n, s.dev.fetched) && n.added + n.kickedAt == s.k.published
    requires n.kickedAt <= s.dev.fetched < s.k.published
    ensures KickDecision(s.m.availIdx, n.added, s.suppression, n.availEvent, n.noNotify)
  {
    if s.suppression {
      KickIsExact(s.k.published, n.added, n.availEvent, n.noNotify);
      assert Trunc16(s.dev.fetched) == n.availEvent;
    }
  }

  lemma KickNotify(s: Sys, n: Notify)
    requires Inv(s) && NotifyOk(s, n)
    ensures NotifyOk(s, Kicked(s, n))
  {
    hide Inv, KickDecision;
    Order(s);
    if n.asleep && !n.woken && s.dev.fetched < s.k.published {
      KickWakes(s, n);
    }
  }

  lemma MoveKeepsInv(w: System, m: Move)
    requires SystemInv(w) && Can(w, m)
    ensures SystemInv(After(w, m))
  {
    hide Inv;
    Order(w.s);
    match m
    case Ring(a) =>
      StepKeepsInv(w.s, a);
      RingCounts(w.s, a);
    case Kick =>
      KickNotify(w.s, w.n);
    case SetFields(_, _) =>
    case Sleep =>
      NothingUnread(w.s);
    case Wake =>
  }

  lemma NothingUnread(s: Sys)
    requires Inv(s)
    ensures Shape(s) && (Enabled(s, Fetch) <==> s.dev.fetched < s.k.published)
  {
    Detection(s);
  }

  lemma {:induction false} TraceKeepsInv(w: System, moves: seq<Move>, t: System)
    requires SystemInv(w) && Trace(w, moves, t)
    ensures SystemInv(t)
    decreases |moves|
  {
    if moves != [] {
      MoveKeepsInv(w, moves[0]);
      TraceKeepsInv(After(w, moves[0]), moves[1..], t);
    }
  }

  /** Seen without its notifications, a run of the system is a run of the ring. */
  lemma {:induction false} Project(w: System, moves: seq<Move>, t: System) returns (steps: seq<Step>)
    requires SystemInv(w) && Trace(w, moves, t)
    ensures Run(w.s, steps, t.s)
    decreases |moves|
  {
    if moves == [] {
      steps := [];
    } else {
      hide Inv, Enabled, Next, NotifyOk;
      MoveKeepsInv(w, moves[0]);
      var rest := Project(After(w, moves[0]), moves[1..], t);
      if moves[0].Ring? {
        RunCons(w.s, moves[0].a, rest, t.s);
        steps := [moves[0].a] + rest;
      } else {
        steps := rest;
      }
    }
  }

  lemma ReachedInv(t: System)
    requires Reached(t)
    ensures SystemInv(t) && Reachable(t.s)
  {
    var num: nat, suppression, moves :| 0 < num <= 0x8000 && IsPow2(num) && Trace(Start(num, suppression), moves, t);
    InitInv(num, suppression);
    TraceKeepsInv(Start(num, suppression), moves, t);
    var steps := Project(Start(num, suppression), moves, t);
  }

  // ---------------------------------------------------------------- no lost kick

  /**
    In every interleaving, with event indices or without: once the driver has kicked for all it
    added, a device asleep over a buffer has been notified.
   */
  lemma NoLostKick(w: System)
    requires Reached(w) && w.n.asleep && w.n.added == 0 && w.s.dev.fetched < w.s.k.published
    ensures w.n.woken && Can(w, Wake)
  {
    ReachedInv(w);
  }

  /** With event indices, a kick wakes the sleeper iff there is something to fetch or 2^16 adds were counted. */
  lemma KickWakesIff(w: System)
    requires Reached(w) && w.s.suppression && w.s.busy.Idle? && w.n.asleep && !w.n.woken
    ensures Can(w, Kick)
    ensures After(w, Kick).n.woken <==> w.s.dev.fetched < w.s.k.published || w.n.added >= U16
  {
    ReachedInv(w);
    KickOutcome(w.s, w.n);
  }

  lemma KickOutcome(s: Sys, n: Notify)
    requires Inv(s) && NotifyOk(s, n) && s.suppression && n.asleep && !n.woken
    ensures KickDecision(s.m.availIdx, n.added, true, n.availEvent, n.noNotify) <==>
            s.dev.fetched < s.k.published || n.added >= U16
  {
    NoneLeft(s);
    hide Inv;
    Order(s);
    if s.dev.fetched < s.k.published {
      KickWakes(s, n);
    } else if n.added < U16 {
      KickIsExact(s.k.published, n.added, n.availEvent, n.noNotify);
      NotCrossed(s.k.published, n.added);
    }
  }

  lemma NoneLeft(s: Sys)
    requires Inv(s)
    ensures s.m.availIdx == Trunc16(s.k.published)
  {
  }

  lemma NotCrossed(published: nat, added: nat)
    requires added < U16
    ensures !Crossed(published, added, Trunc16(published))
  {
    forall p: nat | p < published <= p + added
      ensures Trunc16(p) != Trunc16(published)
    {
      ApartIndices(p, published);
    }
  }

  lemma ApartIndices(p: nat, q: nat)
    requires p < q < p + U16
    ensures Trunc16(p) != Trunc16(q)
  {
  }
}
