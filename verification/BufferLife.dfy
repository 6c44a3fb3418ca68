/**
  Who gives a command buffer back.  Threads take buffers and send them, alone or with an event
  they then sleep on; the device completes them in any order; the DPC consumes the completions in
  turn, frees a buffer without an event and sets the event of any other.  An event is a shared
  flag: it does not know for which buffer it was set, and every use clears it first.  A wait may
  time out, and then the thread goes on all the same.  No submission is refused.
 */
module BufferLife {
  import opened Common
  import opened BufferPool

  // ---------------------------------------------------------------- state

  /** Where a thread is; `e` is the event it initialised and wrote into the buffer. */
  datatype Thread =
    | Idle
    | Built(b: nat)
    | Prepared(b: nat, e: nat)
    | Waiting(b: nat, e: nat)
    | Woken(b: nat)

  datatype Holder = Nobody | LockedBy(t: nat)

  datatype Releaser = Dpc | Waiter

  /** What a buffer goes through. */
  datatype Event = Taken(b: nat) | Sent(b: nat, event: bool) | Handled(b: nat) | Returned(b: nat, who: Releaser)

  /**
    `fields` holds the event pointer in each buffer that has one, `signalled` the events that are
    set, `queue` the buffers with the device, `done` the completions the DPC has still to see.
    `owner` and `log` are records of the past.
   */
  datatype Sys = Sys(
    n: nat, l: Lists, threads: seq<Thread>, mutex: Holder,
    fields: map<nat, nat>, signalled: set<nat>, queue: set<nat>, done: seq<nat>,
    owner: map<nat, nat>, log: seq<Event>)

  // ---------------------------------------------------------------- steps

  datatype Step =
    | Lock(t: nat)
    | Unlock(t: nat)
    | Take(t: nat)
    | Post(t: nat)
    | InitEvent(t: nat, e: nat)
    | Submit(t: nat)
    | Complete(b: nat)
    | DpcRun
    | Wake(t: nat)
    | TimeOut(t: nat)
    | Release(t: nat)

  /** A waiter goes on when its event is set: it cannot see its buffer's fate. */
  predicate Enabled(s: Sys, a: Step) {
    match a
    case Complete(b) => b in s.queue
    case DpcRun => s.done != []
    case _ =>
      a.t < |s.threads| &&
      var th := s.threads[a.t];
      match a
      case Lock(_) => s.mutex.Nobody?
      case Unlock(t) => s.mutex == LockedBy(t) && th.Idle?
      case Take(_) => th.Idle? && s.l.free != []
      case Post(_) => th.Built?
      case InitEvent(_, _) => th.Built?
      case Submit(_) => th.Prepared?
      case Wake(_) => th.Waiting? && th.e in s.signalled
      case TimeOut(_) => th.Waiting?
      case Release(_) => th.Woken?
  }

  /** No wait ends early: it times out only when the DPC has handled the buffer. */
  predicate Timely(s: Sys, a: Step)
    requires Enabled(s, a)
  {
    a.TimeOut? ==> !Unhandled(s, s.threads[a.t].b)
  }

  /** The driver's discipline: events are used only by the thread that holds the screen mutex. */
  predicate UnderMutex(s: Sys, a: Step) {
    a.InitEvent? ==> s.mutex == LockedBy(a.t)
  }

  predicate Disciplined(s: Sys, a: Step)
    requires Enabled(s, a)
  {
    UnderMutex(s, a) && Timely(s, a)
  }

  /** Where `FreeBuf` finds the buffer. */
  function Position(s: seq<nat>, b: nat): (k: nat)
    requires b in s
    ensures k < |s| && s[k] == b
  {
    if s[0] == b then 0 else 1 + Position(s[1..], b)
  }

  /** `FreeBuf`; a buffer not in use would be outside its contract. */
  function Free(s: Sys, b: nat, who: Releaser): Sys {
    if b in s.l.used then s.(l := Freed(s.l, Position(s.l.used, b)), log := s.log + [Returned(b, who)]) else s
  }

  function SetThread(s: Sys, t: nat, th: Thread): Sys
    requires t < |s.threads|
  {
    s.(threads := s.threads[t := th])
  }

  function DoTake(s: Sys, t: nat): Sys
    requires t < |s.threads| && s.l.free != []
  {
    var b := s.l.free[0];
    SetThread(s, t, Built(b)).(l := Got(s.l), fields := s.fields - {b}, owner := s.owner[b := t],
                               log := s.log + [Taken(b)])
  }

  function DoPost(s: Sys, t: nat): Sys
    requires t < |s.threads| && s.threads[t].Built?
  {
    var b := s.threads[t].b;
    SetThread(s, t, Idle).(queue := s.queue + {b}, owner := s.owner - {b}, log := s.log + [Sent(b, false)])
  }

  /** `KeInitializeEvent` clears the event; then its address goes into the buffer. */
  function DoInit(s: Sys, t: nat, e: nat): Sys
    requires t < |s.threads| && s.threads[t].Built?
  {
    var b := s.threads[t].b;
    SetThread(s, t, Prepared(b, e)).(signalled := s.signalled - {e}, fields := s.fields[b := e])
  }

  function DoSubmit(s: Sys, t: nat): Sys
    requires t < |s.threads| && s.threads[t].Prepared?
  {
    var th := s.threads[t];
    SetThread(s, t, Waiting(th.b, th.e)).(queue := s.queue + {th.b}, log := s.log + [Sent(th.b, true)])
  }

  /** One buffer dequeued: its own memory says whether there is an event to set. */
  function DoDpc(s: Sys): Sys
    requires s.done != []
  {
    var b := s.done[0];
    var s1 := s.(done := s.done[1..], log := s.log + [Handled(b)]);
    if b in s.fields then s1.(signalled := s.signalled + {s.fields[b]}) else Free(s1, b, Dpc)
  }

  function DoRelease(s: Sys, t: nat): Sys
    requires t < |s.threads| && s.threads[t].Woken?
  {
    var b := s.threads[t].b;
    Free(SetThread(s, t, Idle).(owner := s.owner - {b}), b, Waiter)
  }

  function Next(s: Sys, a: Step): Sys
    requires Enabled(s, a)
  {
    match a
    case Lock(t) => s.(mutex := LockedBy(t))
    case Unlock(_) => s.(mutex := Nobody)
    case Take(t) => DoTake(s, t)
    case Post(t) => DoPost(s, t)
    case InitEvent(t, e) => DoInit(s, t, e)
    case Submit(t) => DoSubmit(s, t)
    case Complete(b) => s.(queue := s.queue - {b}, done := s.done + [b])
    case DpcRun => DoDpc(s)
    case Wake(t) => SetThread(s, t, Woken(s.threads[t].b))
    case TimeOut(t) => SetThread(s, t, Woken(s.threads[t].b))
    case Release(t) => DoRelease(s, t)
  }

  function Init(n: nat, threads: nat): Sys {
    Sys(n, Lists(seq(n, i => i), []), seq(threads, _ => Idle), Nobody, map[], {}, {}, [], map[], [])
  }

  ghost predicate Run(s: Sys, steps: seq<Step>, t: Sys)
    decreases |steps|
  {
    if steps == [] then s == t else Enabled(s, steps[0]) && Run(Next(s, steps[0]), steps[1..], t)
  }

  /** The same, with events used under the mutex only, but waits that may end early. */
  ghost predicate MutexRun(s: Sys, steps: seq<Step>, t: Sys)
    decreases |steps|
  {
    if steps == [] then s == t
    else Enabled(s, steps[0]) && UnderMutex(s, steps[0]) && MutexRun(Next(s, steps[0]), steps[1..], t)
  }

  /** The same, with no wait ending early either. */
  ghost predicate LockedRun(s: Sys, steps: seq<Step>, t: Sys)
    decreases |steps|
  {
    if steps == [] then s == t
    else Enabled(s, steps[0]) && Disciplined(s, steps[0]) && LockedRun(Next(s, steps[0]), steps[1..], t)
  }

  // ---------------------------------------------------------------- what each buffer sees

  function About(log: seq<Event>, b: nat): seq<Event> {
    if log == [] then []
    else
      var rest, e := About(log[..|log| - 1], b), log[|log| - 1];
      if e.b == b then rest + [e] else rest
  }

  datatype Stage = Home | Out | Flying(event: bool) | Served(event: bool)

  /** Taken, sent, handled by the DPC, and only then returned, by the right party, in this order. */
  function Life(log: seq<Event>): (r: (bool, Stage)) {
    if log == [] then (true, Home)
    else
      var (ok, o) := Life(log[..|log| - 1]);
      Lives(ok, o, log[|log| - 1])
  }

  function Lives(ok: bool, o: Stage, e: Event): (bool, Stage) {
    match e
    case Taken(_) => (ok && o == Home, Out)
    case Sent(_, event) => (ok && o == Out, Flying(event))
    case Handled(_) => (ok && o.Flying?, Served(o.Flying? && o.event))
    case Returned(_, who) => (ok && o == Served(who == Waiter), Home)
  }

  predicate Unhandled(s: Sys, b: nat) {
    b in s.queue || b in s.done
  }

  function StageOf(s: Sys, b: nat): Stage {
    if Unhandled(s, b) then Flying(b in s.fields)
    else if b in s.owner && s.owner[b] < |s.threads| then
      match s.threads[s.owner[b]]
      case Waiting(_, _) => Served(true)
      case Woken(_) => Served(true)
      case _ => Out
    else Home
  }

  // ---------------------------------------------------------------- invariant

  ghost predicate OwnersOk(s: Sys) {
    && (forall b | b in s.owner ::
          s.owner[b] < |s.threads| && !s.threads[s.owner[b]].Idle? && s.threads[s.owner[b]].b == b)
    && (forall t | 0 <= t < |s.threads| && !s.threads[t].Idle? ::
          s.threads[t].b in s.owner && s.owner[s.threads[t].b] == t)
  }

  ghost predicate UsedOk(s: Sys) {
    && (forall b: nat :: b in s.l.used <==> b in s.owner || Unhandled(s, b))
    && (forall b | Unhandled(s, b) :: b in s.fields <==> b in s.owner)
    && NoDup(s.done) && (forall b | b in s.done :: b !in s.queue)
  }

  ghost predicate ThreadOk(s: Sys, th: Thread) {
    match th
    case Idle => true
    case Built(b) => b !in s.fields && !Unhandled(s, b)
    case Prepared(b, e) => b in s.fields && s.fields[b] == e && !Unhandled(s, b)
    case Waiting(b, e) => b in s.fields && s.fields[b] == e
    case Woken(b) => !Unhandled(s, b)
  }

  /** Thread `t` uses event `e` for a buffer the DPC has not handled. */
  predicate Pending(s: Sys, t: nat, e: nat) {
    t < |s.threads| &&
    match s.threads[t]
    case Prepared(_, e') => e' == e
    case Waiting(b, e') => e' == e && Unhandled(s, b)
    case _ => false
  }

  /** No event is set while a buffer is pending on it. */
  ghost predicate Clean(s: Sys) {
    forall t, e | Pending(s, t, e) :: e !in s.signalled
  }

  ghost predicate LogOk(s: Sys) {
    forall b: nat :: Life(About(s.log, b)) == (true, StageOf(s, b))
  }

  ghost predicate Inv(s: Sys) {
    && Split(s.l, s.n) && OwnersOk(s) && UsedOk(s)
    && (forall t | 0 <= t < |s.threads| :: ThreadOk(s, s.threads[t]))
    && Clean(s) && LogOk(s)
  }

  /** No two threads have a buffer pending on the same event. */
  ghost predicate Exclusive(s: Sys) {
    forall t, t', e | Pending(s, t, e) && Pending(s, t', e) :: t == t'
  }

  /** Whoever uses an event holds the mutex. */
  ghost predicate MutexOk(s: Sys) {
    forall t | 0 <= t < |s.threads| && (s.threads[t].Prepared? || s.threads[t].Waiting? || s.threads[t].Woken?) ::
      s.mutex == LockedBy(t)
  }

  lemma InitInv(n: nat, threads: nat)
    ensures Inv(Init(n, threads)) && MutexOk(Init(n, threads))
  {
  }

  lemma LogGrows(log: seq<Event>, e: Event, b: nat)
    ensures About(log + [e], b) == if e.b == b then About(log, b) + [e] else About(log, b)
    ensures e.b == b ==> Life(About(log + [e], b)) == Lives(Life(About(log, b)).0, Life(About(log, b)).1, e)
  {
    assert (log + [e])[..|log|] == log;
    if e.b == b {
      assert (About(log, b) + [e])[..|About(log, b)|] == About(log, b);
    }
  }

  /** Only the buffer an event is about changes its stage. */
  lemma LogStep(s: Sys, s': Sys, e: Event)
    requires LogOk(s) && s'.log == s.log + [e]
    requires forall b: nat | b != e.b :: StageOf(s', b) == StageOf(s, b)
    requires Lives(true, StageOf(s, e.b), e) == (true, StageOf(s', e.b))
    ensures LogOk(s')
  {
    forall b: nat
      ensures Life(About(s'.log, b)) == (true, StageOf(s', b))
    {
      LogGrows(s.log, e, b);
    }
  }

  lemma LogSame(s: Sys, s': Sys)
    requires LogOk(s) && s'.log == s.log && forall b: nat :: StageOf(s', b) == StageOf(s, b)
    ensures LogOk(s')
  {
  }

  // ---------------------------------------------------------------- steps keep it

  lemma TakeKeeps(s: Sys, t: nat)
    requires Inv(s) && Enabled(s, Take(t))
    ensures Inv(DoTake(s, t))
  {
    var b, s' := s.l.free[0], DoTake(s, t);
    GotKeeps(s.l, s.n);
    assert b !in s.l.used && s'.l.used == s.l.used + [b];
    TakeThreads(s, t);
    TakeUsed(s, t);
    TakeLog(s, t);
  }

  lemma TakeUsed(s: Sys, t: nat)
    requires UsedOk(s) && Enabled(s, Take(t)) && s.l.free[0] !in s.l.used
    requires DoTake(s, t).l.used == s.l.used + [s.l.free[0]]
    ensures UsedOk(DoTake(s, t))
  {
    assert forall x: nat :: Unhandled(DoTake(s, t), x) <==> Unhandled(s, x);
  }

  lemma TakeLog(s: Sys, t: nat)
    requires LogOk(s) && OwnersOk(s) && UsedOk(s) && Enabled(s, Take(t)) && s.l.free[0] !in s.l.used
    ensures LogOk(DoTake(s, t))
  {
    LogStep(s, DoTake(s, t), Taken(s.l.free[0]));
  }

  lemma TakeThreads(s: Sys, t: nat)
    requires Inv(s) && Enabled(s, Take(t)) && s.l.free[0] !in s.l.used
    ensures var s' := DoTake(s, t); OwnersOk(s') && Clean(s') && forall x | 0 <= x < |s'.threads| ::
              ThreadOk(s', s'.threads[x])
  {
    var s' := DoTake(s, t);
    forall x, e | Pending(s', x, e)
      ensures e !in s'.signalled
    {
      assert Pending(s, x, e);
    }
  }

  lemma PostUsed(s: Sys, t: nat)
    requires OwnersOk(s) && UsedOk(s) && Enabled(s, Post(t)) && ThreadOk(s, s.threads[t])
    ensures OwnersOk(DoPost(s, t)) && UsedOk(DoPost(s, t))
  {
    assert s.owner[s.threads[t].b] == t;
  }

  lemma PostKeeps(s: Sys, t: nat)
    requires Inv(s) && Enabled(s, Post(t))
    ensures Inv(DoPost(s, t))
  {
    var b, s' := s.threads[t].b, DoPost(s, t);
    assert ThreadOk(s, s.threads[t]) && s.owner[b] == t;
    PostUsed(s, t);
    forall x, e | Pending(s', x, e)
      ensures e !in s'.signalled
    {
      assert Pending(s, x, e);
    }
    LogStep(s, s', Sent(b, false));
  }

  lemma SubmitKeeps(s: Sys, t: nat)
    requires Inv(s) && Enabled(s, Submit(t))
    ensures Inv(DoSubmit(s, t))
  {
    var b, s' := s.threads[t].b, DoSubmit(s, t);
    assert ThreadOk(s, s.threads[t]) && s.owner[b] == t;
    forall x, e | Pending(s', x, e)
      ensures e !in s'.signalled
    {
      assert Pending(s, x, e);
    }
    LogStep(s, s', Sent(b, true));
  }

  lemma InitKeeps(s: Sys, t: nat, e: nat)
    requires Inv(s) && Enabled(s, InitEvent(t, e))
    ensures Inv(DoInit(s, t, e))
  {
    var b, s' := s.threads[t].b, DoInit(s, t, e);
    assert ThreadOk(s, s.threads[t]) && s.owner[b] == t;
    forall x, e' | Pending(s', x, e')
      ensures e' !in s'.signalled
    {
      assert x != t ==> Pending(s, x, e');
    }
    LogSame(s, s');
  }

  lemma CompleteKeeps(s: Sys, b: nat)
    requires Inv(s) && Enabled(s, Complete(b))
    ensures Inv(Next(s, Complete(b)))
  {
    var s' := Next(s, Complete(b));
    assert forall x: nat :: Unhandled(s', x) <==> Unhandled(s, x);
    forall x, e | Pending(s', x, e)
      ensures e !in s'.signalled
    {
      assert Pending(s, x, e);
    }
    LogSame(s, s');
  }

  /** Handling a completion takes it out of the unhandled, and nothing else. */
  lemma DpcUnhandled(s: Sys)
    requires UsedOk(s) && s.done != []
    ensures forall x: nat :: Unhandled(DoDpc(s), x) <==> Unhandled(s, x) && x != s.done[0]
    ensures NoDup(DoDpc(s).done)
  {
    var b, rest := s.done[0], s.done[1..];
    assert s.done == [b] + rest;
    forall x: nat
      ensures x in rest <==> x in s.done && x != b
    {
      if x in rest {
        var i :| 0 <= i < |rest| && rest[i] == x;
        assert s.done[i + 1] == x;
      }
    }
  }

  /** Setting an event wakes only the handled buffer's owner, as long as nobody else is pending on it. */
  lemma DpcSignals(s: Sys)
    requires Inv(s) && Exclusive(s) && s.done != [] && s.done[0] in s.fields
    ensures Inv(DoDpc(s)) && Exclusive(DoDpc(s))
  {
    var b, s' := s.done[0], DoDpc(s);
    DpcUnhandled(s);
    assert Unhandled(s, b);
    var t := s.owner[b];
    assert ThreadOk(s, s.threads[t]) && Pending(s, t, s.fields[b]);
    forall x, e | Pending(s', x, e)
      ensures Pending(s, x, e) && e !in s'.signalled
    {
      assert Pending(s, x, e);
    }
    LogStep(s, s', Handled(b));
  }

  lemma FreeKeeps(l: Lists, n: nat, b: nat)
    requires Split(l, n) && b in l.used
    ensures Split(Freed(l, Position(l.used, b)), n)
    ensures forall x: nat :: x in Freed(l, Position(l.used, b)).used <==> x in l.used && x != b
  {
    FreedKeeps(l, Position(l.used, b), n);
    WithoutElems(l.used, Position(l.used, b), n);
  }

  lemma DpcFrees(s: Sys)
    requires Inv(s) && s.done != [] && s.done[0] !in s.fields
    ensures Inv(DoDpc(s))
  {
    hide Life, About;
    var b, s' := s.done[0], DoDpc(s);
    DpcUnhandled(s);
    assert Unhandled(s, b);
    FreeKeeps(s.l, s.n, b);
    DpcFreesUsed(s, s', b);
    DpcFreesThreads(s, s', b);
    DpcFreesLog(s, s', b);
  }

  lemma DpcFreesUsed(s: Sys, s': Sys, b: nat)
    requires UsedOk(s) && Unhandled(s, b) && b !in s.fields
    requires forall x: nat :: x in s'.l.used <==> x in s.l.used && x != b
    requires forall x: nat :: Unhandled(s', x) <==> Unhandled(s, x) && x != b
    requires s'.owner == s.owner && s'.queue == s.queue && s'.fields == s.fields
    requires NoDup(s'.done) && forall x | x in s'.done :: x in s.done
    ensures UsedOk(s')
  {
  }

  lemma DpcFreesThreads(s: Sys, s': Sys, b: nat)
    requires Clean(s) && forall x | 0 <= x < |s.threads| :: ThreadOk(s, s.threads[x])
    requires forall x: nat :: Unhandled(s', x) <==> Unhandled(s, x) && x != b
    requires s'.threads == s.threads && s'.fields == s.fields && s'.signalled == s.signalled
    ensures Clean(s') && forall x | 0 <= x < |s'.threads| :: ThreadOk(s', s'.threads[x])
  {
    forall x, e | Pending(s', x, e)
      ensures e !in s'.signalled
    {
      assert Pending(s, x, e);
    }
    forall x | 0 <= x < |s'.threads|
      ensures ThreadOk(s', s'.threads[x])
    {
      assert ThreadOk(s, s.threads[x]);
    }
  }

  lemma DpcFreesLog(s: Sys, s': Sys, b: nat)
    requires LogOk(s) && s'.log == s.log + [Handled(b)] + [Returned(b, Dpc)]
    requires forall x: nat | x != b :: StageOf(s', x) == StageOf(s, x)
    requires StageOf(s, b) == Flying(false) && StageOf(s', b) == Home
    ensures LogOk(s')
  {
    forall x: nat
      ensures Life(About(s'.log, x)) == (true, StageOf(s', x))
    {
      LogGrows(s.log, Handled(b), x);
      LogGrows(s.log + [Handled(b)], Returned(b, Dpc), x);
    }
  }

  /** A waiter whose event is set owns a handled buffer: that is what `Clean` is for. */
  lemma WakeKeeps(s: Sys, t: nat)
    requires Inv(s) && Enabled(s, Wake(t))
    ensures Inv(Next(s, Wake(t)))
  {
    assert !Pending(s, t, s.threads[t].e);
    GoOnKeeps(s, t);
  }

  /** A waiter goes on when its buffer is handled. */
  lemma GoOnKeeps(s: Sys, t: nat)
    requires Inv(s) && Enabled(s, TimeOut(t)) && !Unhandled(s, s.threads[t].b)
    ensures Inv(Next(s, TimeOut(t)))
  {
    var th, s' := s.threads[t], Next(s, TimeOut(t));
    assert ThreadOk(s, th) && s.owner[th.b] == t;
    forall x, e | Pending(s', x, e)
      ensures e !in s'.signalled
    {
      assert Pending(s, x, e);
    }
    LogSame(s, s');
  }

  lemma ReleaseUsed(s: Sys, s': Sys, b: nat)
    requires UsedOk(s) && !Unhandled(s, b)
    requires forall x: nat :: x in s'.l.used <==> x in s.l.used && x != b
    requires s'.owner == s.owner - {b} && s'.queue == s.queue && s'.done == s.done && s'.fields == s.fields
    ensures UsedOk(s')
  {
    assert forall x: nat :: Unhandled(s', x) <==> Unhandled(s, x);
  }

  lemma ReleaseOwners(s: Sys, s': Sys, t: nat)
    requires OwnersOk(s) && t < |s.threads| && s.threads[t].Woken?
    requires s'.owner == s.owner - {s.threads[t].b} && s'.threads == s.threads[t := Idle]
    ensures OwnersOk(s')
  {
    assert s.owner[s.threads[t].b] == t;
  }

  lemma ReleaseThreads(s: Sys, s': Sys, t: nat)
    requires t < |s.threads| && s.threads[t].Woken? && Clean(s) && OwnersOk(s)
    requires forall x | 0 <= x < |s.threads| :: ThreadOk(s, s.threads[x])
    requires s'.threads == s.threads[t := Idle] && s'.fields == s.fields && s'.signalled == s.signalled
    requires s'.queue == s.queue && s'.done == s.done
    ensures Clean(s') && forall x | 0 <= x < |s'.threads| :: ThreadOk(s', s'.threads[x])
  {
    forall x, e | Pending(s', x, e)
      ensures e !in s'.signalled
    {
      assert Pending(s, x, e);
    }
    forall x | 0 <= x < |s'.threads|
      ensures ThreadOk(s', s'.threads[x])
    {
      assert ThreadOk(s, s.threads[x]);
    }
  }

  lemma ReleaseLog(s: Sys, t: nat)
    requires LogOk(s) && OwnersOk(s) && Enabled(s, Release(t)) && !Unhandled(s, s.threads[t].b)
    requires s.threads[t].b in s.l.used
    ensures LogOk(DoRelease(s, t))
  {
    assert s.owner[s.threads[t].b] == t;
    LogStep(s, DoRelease(s, t), Returned(s.threads[t].b, Waiter));
  }

  lemma ReleaseKeeps(s: Sys, t: nat)
    requires Inv(s) && Enabled(s, Release(t))
    ensures Inv(DoRelease(s, t))
  {
    assert ThreadOk(s, s.threads[t]) && s.threads[t].b in s.owner;
    FreeKeeps(s.l, s.n, s.threads[t].b);
    ReleaseUsed(s, DoRelease(s, t), s.threads[t].b);
    ReleaseOwners(s, DoRelease(s, t), t);
    ReleaseThreads(s, DoRelease(s, t), t);
    ReleaseLog(s, t);
  }

  /** Without another initialisation nobody becomes newly pending. */
  lemma PendingShrinks(s: Sys, a: Step)
    requires Inv(s) && Exclusive(s) && Enabled(s, a) && !a.InitEvent?
    ensures Exclusive(Next(s, a))
  {
    if a.DpcRun? {
      DpcUnhandled(s);
    }
    var s' := Next(s, a);
    forall x, e | Pending(s', x, e)
      ensures Pending(s, x, e)
    {
      if a.Take? {
        assert s.l.free[0] !in s.l.used;
      } else if (a.Post? || a.Submit?) && x != a.t {
        PostedElsewhere(s, a, x);
      }
    }
  }

  lemma PostedElsewhere(s: Sys, a: Step, x: nat)
    requires Inv(s) && Enabled(s, a) && (a.Post? || a.Submit?) && x < |s.threads| && x != a.t && !s.threads[x].Idle?
    ensures s.threads[x].b != s.threads[a.t].b
  {
  }

  lemma StepKeepsInv(s: Sys, a: Step)
    requires Inv(s) && Enabled(s, a) && Exclusive(s) && Timely(s, a)
    ensures Inv(Next(s, a))
    ensures !a.InitEvent? ==> Exclusive(Next(s, a))
  {
    if !a.InitEvent? {
      PendingShrinks(s, a);
    }
    match a
    case Lock(_) => SameButMutex(s, Next(s, a));
    case Unlock(_) => SameButMutex(s, Next(s, a));
    case Take(t) => TakeKeeps(s, t);
    case Post(t) => PostKeeps(s, t);
    case InitEvent(t, e) => InitKeeps(s, t, e);
    case Submit(t) => SubmitKeeps(s, t);
    case Complete(b) => CompleteKeeps(s, b);
    case DpcRun => if s.done[0] in s.fields { DpcSignals(s); } else { DpcFrees(s); }
    case Wake(t) => WakeKeeps(s, t);
    case TimeOut(t) => GoOnKeeps(s, t);
    case Release(t) => ReleaseKeeps(s, t);
  }

  lemma SameButMutex(s: Sys, s': Sys)
    requires Inv(s) && s' == s.(mutex := s'.mutex)
    ensures Inv(s')
  {
    forall x, e | Pending(s', x, e)
      ensures e !in s'.signalled
    {
      assert Pending(s, x, e);
    }
    LogSame(s, s');
  }

  // ---------------------------------------------------------------- runs under the mutex

  lemma MutexExcludes(s: Sys)
    requires Inv(s) && MutexOk(s)
    ensures Exclusive(s)
  {
  }

  lemma MutexKept(s: Sys, a: Step)
    requires MutexOk(s) && Enabled(s, a) && Disciplined(s, a)
    ensures MutexOk(Next(s, a))
  {
  }

  lemma {:induction false} LockedRunKeepsInv(s: Sys, steps: seq<Step>, t: Sys)
    requires Inv(s) && MutexOk(s) && LockedRun(s, steps, t)
    ensures Inv(t) && MutexOk(t) && t.n == s.n
    decreases |steps|
  {
    if steps != [] {
      MutexExcludes(s);
      StepKeepsInv(s, steps[0]);
      MutexKept(s, steps[0]);
      LockedRunKeepsInv(Next(s, steps[0]), steps[1..], t);
    }
  }

  /** Every waiter whose event is set has a buffer the DPC has handled. */
  ghost predicate WakesRightly(s: Sys) {
    forall t | 0 <= t < |s.threads| && s.threads[t].Waiting? && s.threads[t].e in s.signalled ::
      !Unhandled(s, s.threads[t].b)
  }

  lemma CleanWakes(s: Sys)
    requires Clean(s)
    ensures WakesRightly(s)
  {
    forall t | 0 <= t < |s.threads| && s.threads[t].Waiting? && s.threads[t].e in s.signalled
      ensures !Unhandled(s, s.threads[t].b)
    {
      assert !Pending(s, t, s.threads[t].e);
    }
  }

  /**
    In every run in which events are used under the mutex only and no wait ends early: a waiter
    goes on only when the DPC has handled its own buffer, no buffer is lost or duplicated or reused
    while device or DPC have it, and each goes through taken, sent, handled, returned in this
    order, returned by the DPC if it carries no event and by its waiter otherwise.
   */
  lemma ReturnedExactlyOnce(n: nat, threads: nat, steps: seq<Step>, t: Sys, b: nat)
    requires LockedRun(Init(n, threads), steps, t)
    ensures Split(t.l, n) && WakesRightly(t)
    ensures Life(About(t.log, b)) == (true, StageOf(t, b))
    ensures b in t.l.free ==> StageOf(t, b).Home?
  {
    InitInv(n, threads);
    LockedRunKeepsInv(Init(n, threads), steps, t);
    CleanWakes(t);
    assert b in t.l.free ==> b !in t.l.used;
  }

  /** When every thread is idle and nothing is under way, every buffer is free. */
  lemma QuiescentAllFree(n: nat, threads: nat, steps: seq<Step>, t: Sys, b: nat)
    requires LockedRun(Init(n, threads), steps, t) && b < n
    requires (forall x | 0 <= x < |t.threads| :: t.threads[x].Idle?) && t.queue == {} && t.done == []
    ensures b in t.l.free
  {
    InitInv(n, threads);
    LockedRunKeepsInv(Init(n, threads), steps, t);
    assert b !in t.owner && !Unhandled(t, b);
    EveryBuffer(t.l, n, b);
  }

  // ---------------------------------------------------------------- waits that end early

  /** A thread holds, as its own, a buffer that device or DPC still have from an earlier use. */
  ghost predicate Reused(s: Sys) {
    exists t :: 0 <= t < |s.threads| && s.threads[t].Built? && Unhandled(s, s.threads[t].b)
  }

  /** From here on, whatever else goes right, no buffer is reused too soon and no waiter wakes for another's. */
  ghost predicate StaysRight(s: Sys) {
    forall steps, t | LockedRun(s, steps, t) :: !Reused(t) && WakesRightly(t)
  }

  lemma NotReused(s: Sys)
    requires Inv(s)
    ensures !Reused(s)
  {
    forall t | 0 <= t < |s.threads|
      ensures !(s.threads[t].Built? && Unhandled(s, s.threads[t].b))
    {
      assert ThreadOk(s, s.threads[t]);
    }
  }

  lemma TimelyStaysRight(s: Sys)
    requires Inv(s) && MutexOk(s)
    ensures StaysRight(s)
  {
    forall steps, t | LockedRun(s, steps, t)
      ensures !Reused(t) && WakesRightly(t)
    {
      LockedRunKeepsInv(s, steps, t);
      NotReused(t);
      CleanWakes(t);
    }
  }

  /** Taking buffers and sending them off until the one at place `k` of the free list is taken. */
  lemma {:induction false} TakeUntil(s: Sys, t: nat, k: nat) returns (steps: seq<Step>, m: Sys)
    requires t < |s.threads| && s.threads[t].Idle? && k < |s.l.free|
    ensures LockedRun(s, steps, m) && t < |m.threads| && m.threads[t] == Built(s.l.free[k])
    ensures forall x: nat | Unhandled(s, x) :: Unhandled(m, x)
    decreases k
  {
    var s1 := DoTake(s, t);
    if k == 0 {
      steps, m := [Take(t)], s1;
      assert [Take(t)][1..] == [] && LockedRun(s1, [], s1);
    } else {
      var s2 := DoPost(s1, t);
      assert s2.l.free == s.l.free[1..];
      var rest;
      rest, m := TakeUntil(s2, t, k - 1);
      steps := [Take(t), Post(t)] + rest;
      assert steps[1..] == [Post(t)] + rest && ([Post(t)] + rest)[1..] == rest;
      assert LockedRun(s1, [Post(t)] + rest, m);
    }
  }

  lemma ReleasedIsLast(s: Sys, t: nat)
    requires t < |s.threads| && s.threads[t].Woken? && s.threads[t].b in s.l.used
    ensures var s', b := DoRelease(s, t), s.threads[t].b;
            && |s'.l.free| == |s.l.free| + 1 && s'.l.free[|s.l.free|] == b && s'.threads == s.threads[t := Idle]
            && forall x: nat | Unhandled(s, x) :: Unhandled(s', x)
  {
  }

  /** An early end of a wait, then nothing but steps that keep to the rules: the buffer is reused too soon. */
  lemma EarlyGoesWrong(s: Sys, t: nat) returns (steps: seq<Step>, m: Sys)
    requires Inv(s) && Enabled(s, TimeOut(t)) && Unhandled(s, s.threads[t].b)
    ensures LockedRun(Next(s, TimeOut(t)), steps, m) && Reused(m)
  {
    var b, s1 := s.threads[t].b, Next(s, TimeOut(t));
    assert s.owner[b] == t && b in s1.l.used;
    ReleasedIsLast(s1, t);
    var s2 := DoRelease(s1, t);
    var rest;
    rest, m := TakeUntil(s2, t, |s1.l.free|);
    steps := [Release(t)] + rest;
    assert steps[1..] == rest && LockedRun(s1, steps, m);
    assert m.threads[t] == Built(b) && Unhandled(m, b);
  }

  /**
    A wait under the mutex may time out.  From then on, with every further step keeping to the
    rules, everything stays right if and only if the DPC had handled the buffer by then.
   */
  lemma TimeOutIff(s: Sys, t: nat)
    requires Inv(s) && MutexOk(s) && Enabled(s, TimeOut(t))
    ensures StaysRight(Next(s, TimeOut(t))) <==> !Unhandled(s, s.threads[t].b)
  {
    if Unhandled(s, s.threads[t].b) {
      var steps, m := EarlyGoesWrong(s, t);
    } else {
      GoOnKeeps(s, t);
      TimelyStaysRight(Next(s, TimeOut(t)));
    }
  }

  lemma MutexCons(s: Sys, a: Step, rest: seq<Step>, t: Sys)
    requires Enabled(s, a) && UnderMutex(s, a) && MutexRun(Next(s, a), rest, t)
    ensures MutexRun(s, [a] + rest, t)
  {
    assert ([a] + rest)[1..] == rest;
  }

  lemma {:induction false} MutexJoin(s: Sys, a: seq<Step>, m: Sys, b: seq<Step>, t: Sys)
    requires MutexRun(s, a, m) && MutexRun(m, b, t)
    ensures MutexRun(s, a + b, t)
    decreases |a|
  {
    if a == [] {
      assert a + b == b;
    } else {
      MutexJoin(Next(s, a[0]), a[1..], m, b, t);
      assert (a + b)[1..] == a[1..] + b;
    }
  }

  /** A thread that holds the mutex takes the next buffer, sends it with an event, and waits. */
  lemma WaitsLocked(s: Sys, t: nat, e: nat) returns (m: Sys, steps: seq<Step>)
    requires t < |s.threads| && s.threads[t].Idle? && s.mutex == LockedBy(t) && s.l.free != []
    ensures MutexRun(s, steps, m)
    ensures var b := s.l.free[0];
            && m.threads == s.threads[t := Waiting(b, e)] && m.mutex == s.mutex && m.l == Got(s.l)
            && m.queue == s.queue + {b} && m.done == s.done && m.fields == (s.fields - {b})[b := e]
  {
    var s1 := DoTake(s, t);
    var s2 := DoInit(s1, t, e);
    m := DoSubmit(s2, t);
    MutexCons(s2, Submit(t), [], m);
    MutexCons(s1, InitEvent(t, e), [Submit(t)] + [], m);
    MutexCons(s, Take(t), [InitEvent(t, e)] + ([Submit(t)] + []), m);
    steps := [Take(t)] + ([InitEvent(t, e)] + ([Submit(t)] + []));
  }

  /** One thread, the mutex held throughout: its wait times out, and its buffer is free while the device has it. */
  lemma TimeOutFreesQueued() returns (steps: seq<Step>, t: Sys)
    ensures MutexRun(Init(1, 1), steps, t) && t.mutex == LockedBy(0) && t.threads == [Idle]
    ensures t.l == Lists([0], []) && t.queue == {0} && t.done == [] && t.fields == map[0 := 0]
  {
    var s0 := Init(1, 1);
    var s1 := Next(s0, Lock(0));
    var s2, a := WaitsLocked(s1, 0, 0);
    var b;
    b, t := GivesUp(s2);
    hide MutexRun;
    MutexJoin(s1, a, s2, b, t);
    MutexCons(s0, Lock(0), a + b, t);
    steps := [Lock(0)] + (a + b);
  }

  lemma GivesUp(s: Sys) returns (steps: seq<Step>, t: Sys)
    requires s.threads == [Waiting(0, 0)] && s.l == Lists([], [0])
    ensures MutexRun(s, steps, t) && t.threads == [Idle] && t.l == Lists([0], [])
    ensures t.mutex == s.mutex && t.queue == s.queue && t.done == s.done && t.fields == s.fields
  {
    var s1 := Next(s, TimeOut(0));
    t := DoRelease(s1, 0);
    MutexCons(s1, Release(0), [], t);
    MutexCons(s, TimeOut(0), [Release(0)] + [], t);
    steps := [TimeOut(0)] + ([Release(0)] + []);
  }

  /** And then its next wait is ended by the completion of the command that timed out. */
  lemma TimeOutEndsNextWait() returns (steps: seq<Step>, t: Sys)
    ensures MutexRun(Init(1, 1), steps, t) && t.mutex == LockedBy(0) && !WakesRightly(t)
  {
    var a, s := TimeOutFreesQueued();
    var s1 := DoTake(s, 0);
    var s2 := DoInit(s1, 0, 0);
    var s3 := Next(s2, Complete(0));
    var s4 := DoDpc(s3);
    t := DoSubmit(s4, 0);
    MutexCons(s4, Submit(0), [], t);
    MutexCons(s3, DpcRun, [Submit(0)] + [], t);
    MutexCons(s2, Complete(0), [DpcRun] + ([Submit(0)] + []), t);
    MutexCons(s1, InitEvent(0, 0), [Complete(0)] + ([DpcRun] + ([Submit(0)] + [])), t);
    var b := [InitEvent(0, 0)] + ([Complete(0)] + ([DpcRun] + ([Submit(0)] + [])));
    MutexCons(s, Take(0), b, t);
    MutexJoin(Init(1, 1), a, s, [Take(0)] + b, t);
    steps := a + ([Take(0)] + b);
    assert t.threads[0] == Waiting(0, 0) && 0 in t.signalled && Unhandled(t, 0);
  }

  // ---------------------------------------------------------------- exactly when waking is safe

  predicate Quiet(steps: seq<Step>) {
    forall i | 0 <= i < |steps| :: !steps[i].InitEvent? && !steps[i].TimeOut?
  }

  lemma {:induction false} ExclusiveRun(s: Sys, steps: seq<Step>, t: Sys)
    requires Inv(s) && Exclusive(s) && Run(s, steps, t) && Quiet(steps)
    ensures Inv(t) && Exclusive(t)
    decreases |steps|
  {
    if steps != [] {
      StepKeepsInv(s, steps[0]);
      ExclusiveRun(Next(s, steps[0]), steps[1..], t);
    }
  }

  lemma {:induction false} RunJoin(s: Sys, a: seq<Step>, m: Sys, b: seq<Step>, t: Sys)
    requires Run(s, a, m) && Run(m, b, t)
    ensures Run(s, a + b, t)
    decreases |a|
  {
    if a == [] {
      assert a + b == b;
    } else {
      RunJoin(Next(s, a[0]), a[1..], m, b, t);
      assert (a + b)[1..] == a[1..] + b;
    }
  }

  lemma QuietJoin(s: Sys, a: seq<Step>, m: Sys, b: seq<Step>, t: Sys)
    requires Run(s, a, m) && Run(m, b, t) && Quiet(a) && Quiet(b)
    ensures Run(s, a + b, t) && Quiet(a + b)
  {
    RunJoin(s, a, m, b, t);
  }

  lemma RunOne(s: Sys, a: Step)
    requires Enabled(s, a)
    ensures Run(s, [a], Next(s, a))
  {
    assert Run(Next(s, a), [], Next(s, a));
    assert [a][1..] == [];
  }

  /** The DPC working through the first `k` completions. */
  lemma {:induction false} DpcRuns(s: Sys, k: nat) returns (steps: seq<Step>, m: Sys)
    requires k <= |s.done|
    ensures Run(s, steps, m) && Quiet(steps)
    ensures m.threads == s.threads && m.fields == s.fields && m.queue == s.queue && m.done == s.done[k..]
    decreases k
  {
    if k == 0 {
      steps, m := [], s;
    } else {
      var rest;
      rest, m := DpcRuns(DoDpc(s), k - 1);
      steps := [DpcRun] + rest;
      assert steps[1..] == rest;
    }
  }

  /** `t` is asleep on `e` for an unhandled buffer that points to `e`. */
  predicate Asleep(s: Sys, t: nat, e: nat, b: nat) {
    t < |s.threads| && s.threads[t] == Waiting(b, e) && b in s.fields && s.fields[b] == e && Unhandled(s, b)
  }

  /** If one of two buffers pending on an event is handled, the other's waiter may go on. */
  lemma OneHandled(s: Sys, t: nat, t': nat, e: nat, b: nat, b': nat, k: nat) returns (steps: seq<Step>, m: Sys)
    requires Asleep(s, t, e, b) && Asleep(s, t', e, b') && b != b' && NoDup(s.done)
    requires k < |s.done| && s.done[k] == b && (b' in s.queue || b' in s.done[k + 1..])
    ensures Run(s, steps, m) && Quiet(steps) && !WakesRightly(m)
  {
    var first, m1 := DpcRuns(s, k);
    assert m1.done[0] == b;
    m := DoDpc(m1);
    RunOne(m1, DpcRun);
    RunJoin(s, first, m1, [DpcRun], m);
    steps := first + [DpcRun];
    assert m.done == s.done[k + 1..];
    assert Unhandled(m, b') && m.threads[t'] == Waiting(b', e) && e in m.signalled;
  }

  /** Both asleep, so both with the device or waiting for the DPC: one of them is first. */
  lemma EitherHandled(s: Sys, t: nat, t': nat, e: nat, b: nat, b': nat) returns (steps: seq<Step>, m: Sys)
    requires Asleep(s, t, e, b) && Asleep(s, t', e, b') && b != b' && NoDup(s.done)
    requires forall x | x in s.done :: x !in s.queue
    ensures Run(s, steps, m) && Quiet(steps) && !WakesRightly(m)
  {
    if b in s.done {
      var k :| 0 <= k < |s.done| && s.done[k] == b;
      if b' in s.done {
        var k' :| 0 <= k' < |s.done| && s.done[k'] == b';
        if k < k' {
          assert s.done[k + 1..][k' - k - 1] == b';
          steps, m := OneHandled(s, t, t', e, b, b', k);
        } else {
          assert s.done[k' + 1..][k - k' - 1] == b;
          steps, m := OneHandled(s, t', t, e, b', b, k');
        }
      } else {
        steps, m := OneHandled(s, t, t', e, b, b', k);
      }
    } else {
      var s1 := Next(s, Complete(b));
      RunOne(s, Complete(b));
      var rest;
      assert s1.done[|s.done|] == b;
      rest, m := CompletedHandled(s1, t, t', e, b, b', |s.done|);
      RunJoin(s, [Complete(b)], s1, rest, m);
      steps := [Complete(b)] + rest;
    }
  }

  lemma CompletedHandled(s: Sys, t: nat, t': nat, e: nat, b: nat, b': nat, k: nat) returns (steps: seq<Step>, m: Sys)
    requires Asleep(s, t, e, b) && Asleep(s, t', e, b') && b != b' && NoDup(s.done)
    requires |s.done| == k + 1 && s.done[k] == b
    ensures Run(s, steps, m) && Quiet(steps) && !WakesRightly(m)
  {
    if b' in s.done {
      var k' :| 0 <= k' < |s.done| && s.done[k'] == b';
      assert s.done[k' + 1..][k - k' - 1] == b;
      steps, m := OneHandled(s, t', t, e, b', b, k');
    } else {
      steps, m := OneHandled(s, t, t', e, b, b', k);
    }
  }

  /** A pending thread can go to sleep without disturbing anybody. */
  lemma FallAsleep(s: Sys, t: nat, e: nat) returns (steps: seq<Step>, m: Sys, b: nat)
    requires Inv(s) && Pending(s, t, e)
    ensures Run(s, steps, m) && Quiet(steps) && Inv(m) && Asleep(m, t, e, b)
    ensures |m.threads| == |s.threads| && forall x | 0 <= x < |s.threads| && x != t :: m.threads[x] == s.threads[x]
    ensures forall x, f | x != t && Pending(s, x, f) :: Pending(m, x, f)
    ensures forall x, f, c | x != t && Asleep(s, x, f, c) :: Asleep(m, x, f, c)
    ensures b == s.threads[t].b
  {
    b := s.threads[t].b;
    assert ThreadOk(s, s.threads[t]);
    if s.threads[t].Prepared? {
      SubmitKeeps(s, t);
      RunOne(s, Submit(t));
      steps, m := [Submit(t)], DoSubmit(s, t);
    } else {
      steps, m := [], s;
    }
  }

  lemma DistinctBuffers(s: Sys, t: nat, t': nat)
    requires Inv(s) && t < |s.threads| && t' < |s.threads| && t != t' && !s.threads[t].Idle? && !s.threads[t'].Idle?
    ensures s.threads[t].b != s.threads[t'].b
  {
    assert s.owner[s.threads[t].b] == t;
  }

  lemma BothAsleep(s: Sys, t: nat, t': nat, e: nat) returns (steps: seq<Step>, m: Sys, b: nat, b': nat)
    requires Inv(s) && Pending(s, t, e) && Pending(s, t', e) && t != t'
    ensures Run(s, steps, m) && Quiet(steps) && Inv(m) && Asleep(m, t, e, b) && Asleep(m, t', e, b') && b != b'
  {
    DistinctBuffers(s, t, t');
    hide Inv, Pending, Asleep, Run, Quiet;
    var a, s1;
    a, s1, b := FallAsleep(s, t, e);
    var a';
    a', m, b' := FallAsleep(s1, t', e);
    QuietJoin(s, a, s1, a', m);
    steps := a + a';
  }

  lemma SharedGoesWrong(s: Sys, t: nat, t': nat, e: nat) returns (steps: seq<Step>, m: Sys)
    requires Inv(s) && Pending(s, t, e) && Pending(s, t', e) && t != t'
    ensures Run(s, steps, m) && Quiet(steps) && !WakesRightly(m)
  {
    var a, s1, b, b' := BothAsleep(s, t, t', e);
    var c;
    c, m := EitherHandled(s1, t, t', e, b, b');
    RunJoin(s, a, s1, c, m);
    steps := a + c;
  }

  /** From here on, until an event is next initialised or a wait times out, waiters go on only for their own buffer. */
  ghost predicate SafeFrom(s: Sys) {
    forall steps, t | Run(s, steps, t) && Quiet(steps) :: WakesRightly(t)
  }

  /** That is so exactly when no two threads have an unhandled buffer on the same event. */
  lemma SafeIff(s: Sys)
    requires Inv(s)
    ensures SafeFrom(s) <==> Exclusive(s)
  {
    if Exclusive(s) {
      forall steps, t | Run(s, steps, t) && Quiet(steps)
        ensures WakesRightly(t)
      {
        ExclusiveRun(s, steps, t);
        CleanWakes(t);
      }
    } else {
      var t, t', e :| Pending(s, t, e) && Pending(s, t', e) && t != t';
      var steps, m := SharedGoesWrong(s, t, t', e);
    }
  }

  /**
    Two threads and one event, no mutex: the DPC handles the first buffer, the second waiter goes
    on, and its buffer is free while the device still has it.
   */
  lemma SharedEventFreesQueued() returns (steps: seq<Step>, t: Sys)
    ensures Run(Init(2, 2), steps, t) && 1 in t.l.free && 1 in t.queue
  {
    var s0 := Init(2, 2);
    var s3, a := FirstWaits(s0, 0, 0);
    var s6, b := FirstWaits(s3, 1, 0);
    RunJoin(s0, a, s3, b, s6);
    var c;
    c, t := SecondGoesOn(s6);
    RunJoin(s0, a + b, s6, c, t);
    steps := a + b + c;
  }

  lemma SecondGoesOn(s: Sys) returns (steps: seq<Step>, t: Sys)
    requires |s.threads| == 2 && s.threads[1] == Waiting(1, 0) && s.fields == map[0 := 0, 1 := 0]
    requires s.queue == {0, 1} && s.done == [] && s.l == Lists([], [0, 1])
    ensures Run(s, steps, t) && 1 in t.l.free && 1 in t.queue
  {
    var s1 := Next(s, Complete(0));
    var s2 := DoDpc(s1);
    var s3 := Next(s2, Wake(1));
    t := DoRelease(s3, 1);
    RunOne(s, Complete(0));
    RunOne(s1, DpcRun);
    RunOne(s2, Wake(1));
    RunOne(s3, Release(1));
    RunJoin(s, [Complete(0)], s1, [DpcRun], s2);
    RunJoin(s2, [Wake(1)], s3, [Release(1)], t);
    RunJoin(s, [Complete(0)] + [DpcRun], s2, [Wake(1)] + [Release(1)], t);
    steps := [Complete(0)] + [DpcRun] + ([Wake(1)] + [Release(1)]);
  }

  /** An idle thread takes the next buffer, sends it with an event, and waits. */
  lemma FirstWaits(s: Sys, t: nat, e: nat) returns (m: Sys, steps: seq<Step>)
    requires t < |s.threads| && s.threads[t].Idle? && s.l.free != []
    ensures Run(s, steps, m)
    ensures var b := s.l.free[0];
            && m.l == Got(s.l) && m.threads == s.threads[t := Waiting(b, e)] && m.queue == s.queue + {b} &&
              m.done == s.done
            && m.fields == (s.fields - {b})[b := e] && m.signalled == s.signalled - {e}
  {
    var s1 := DoTake(s, t);
    var s2 := DoInit(s1, t, e);
    m := DoSubmit(s2, t);
    RunOne(s, Take(t));
    RunOne(s1, InitEvent(t, e));
    RunOne(s2, Submit(t));
    RunJoin(s, [Take(t)], s1, [InitEvent(t, e)], s2);
    RunJoin(s, [Take(t)] + [InitEvent(t, e)], s2, [Submit(t)], m);
    steps := [Take(t)] + [InitEvent(t, e)] + [Submit(t)];
  }
}
