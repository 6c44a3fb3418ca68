/**
  What the host makes of the driver's traffic: resource commands on the control and cursor
  queues, and guest pages being locked, cleared and unlocked.  `Replay` runs a log against the rules of
  the protocol and breaks at the first violation; it knows nothing of the driver.
 */
module HostTrace {

  const SCREENS := 4

  /** Whose backing memory: a screen's frame segment or its cursor segment. */
  datatype Place = Frame(screen: nat) | Cursor(screen: nat)

  /** What a resource was created from; `addr` is 0 for system memory. */
  datatype Image = Image(addr: nat, width: nat, height: nat, stride: nat, pages: nat)

  datatype Cmd =
    | Lock(place: Place)
    | Unlock(place: Place)
    | Create(id: nat, place: Place, image: Image)
    | SetScanout(screen: nat, id: nat, format: nat)
    | Clear(place: Place)
    | Transfer(id: nat)
    | Flush(id: nat, screen: nat)
    | MoveCursor(screen: nat, id: nat)
    | Detach(id: nat)
    | Unref(id: nat)

  datatype Res = Res(place: Place, image: Image, attached: bool)

  /** `shown` maps each scanning-out screen to a resource id and a pixel format. */
  datatype Host = Host(res: map<nat, Res>, locked: set<Place>, shown: map<nat, (nat, nat)>)

  datatype Result = Broken | Fine(h: Host)

  predicate Usable(h: Host, id: nat) {
    id in h.res && h.res[id].attached
  }

  /**
    An id is created while unused and over locked pages, used while attached, detached, and only
    then dropped; pages are never unlocked under an attached resource.
   */
  function HostStep(h: Host, c: Cmd): Result {
    match c
    case Lock(p) => if p in h.locked then Broken else Fine(h.(locked := h.locked + {p}))
    case Unlock(p) =>
      if p !in h.locked || exists id | id in h.res :: h.res[id].attached && h.res[id].place == p then Broken
      else Fine(h.(locked := h.locked - {p}))
    case Create(id, p, image) =>
      if id == 0 || id in h.res || p !in h.locked then Broken
      else Fine(h.(res := h.res[id := Res(p, image, true)]))
    case SetScanout(t, id, format) =>
      if id == 0 then Fine(h.(shown := h.shown - {t}))
      else if Usable(h, id) then Fine(h.(shown := h.shown[t := (id, format)])) else Broken
    case Clear(p) => if p in h.locked then Fine(h) else Broken
    case Transfer(id) => if Usable(h, id) then Fine(h) else Broken
    case Flush(id, _) => if Usable(h, id) then Fine(h) else Broken
    case MoveCursor(_, id) => if Usable(h, id) then Fine(h) else Broken
    case Detach(id) => if Usable(h, id) then Fine(h.(res := h.res[id := h.res[id].(attached := false)])) else Broken
    case Unref(id) =>
      if id in h.res && !h.res[id].attached
      then Fine(h.(res := h.res - {id}, shown := map t | t in h.shown && h.shown[t].0 != id :: h.shown[t]))
      else Broken
  }

  /** All segments exist and are locked when the adapter starts. */
  function Places(): set<Place> {
    {Frame(0), Frame(1), Frame(2), Frame(3), Cursor(0), Cursor(1), Cursor(2), Cursor(3)}
  }

  function Replay(log: seq<Cmd>): Result {
    if log == [] then Fine(Host(map[], Places(), map[]))
    else
      match Replay(log[..|log| - 1])
      case Broken => Broken
      case Fine(h) => HostStep(h, log[|log| - 1])
  }

  lemma ReplaySend(log: seq<Cmd>, c: Cmd)
    ensures Replay(log).Broken? ==> Replay(log + [c]).Broken?
    ensures Replay(log).Fine? ==> Replay(log + [c]) == HostStep(Replay(log).h, c)
  {
    assert (log + [c])[..|log|] == log;
  }

  /** A log the host accepts was accepted at every earlier instant. */
  lemma {:induction false} ReplayPrefix(log: seq<Cmd>, n: nat)
    requires n <= |log| && Replay(log).Fine?
    ensures Replay(log[..n]).Fine?
  {
    if n < |log| {
      ReplayPrefix(log[..|log| - 1], n);
      assert log[..|log| - 1][..n] == log[..n];
    } else {
      assert log[..n] == log;
    }
  }

  predicate Concerns(c: Cmd, id: nat) {
    !c.Lock? && !c.Unlock? && !c.Clear? && c.id == id
  }

  /** The commands that concern one resource id. */
  function About(log: seq<Cmd>, id: nat): seq<Cmd> {
    if log == [] then []
    else
      var rest, c := About(log[..|log| - 1], id), log[|log| - 1];
      if Concerns(c, id) then rest + [c] else rest
  }

  datatype Stage = Absent | Live | Detached

  /** (create, use*, detach, unref)*, read as an automaton. */
  function Lifecycle(log: seq<Cmd>): (r: (bool, Stage)) {
    if log == [] then (true, Absent)
    else
      var (ok, stage) := Lifecycle(log[..|log| - 1]);
      match log[|log| - 1]
      case Create(_, _, _) => (ok && stage == Absent, Live)
      case Detach(_) => (ok && stage == Live, Detached)
      case Unref(_) => (ok && stage == Detached, Absent)
      case _ => (ok && stage == Live, stage)
  }

  function StageOf(h: Host, id: nat): Stage {
    if id !in h.res then Absent else if h.res[id].attached then Live else Detached
  }

  /** Whatever the host accepts is, for each id, a prefix of (create, use*, detach, unref)*. */
  lemma {:induction false} AcceptedLifecycle(log: seq<Cmd>, id: nat)
    requires Replay(log).Fine? && id != 0
    ensures Lifecycle(About(log, id)) == (true, StageOf(Replay(log).h, id))
  {
    if log != [] {
      var before, c := log[..|log| - 1], log[|log| - 1];
      ReplayPrefix(log, |log| - 1);
      AcceptedLifecycle(before, id);
      if Concerns(c, id) {
        assert (About(before, id) + [c])[..|About(before, id)|] == About(before, id);
      }
    }
  }

  /** Flushes sent for a screen. */
  function Sent(log: seq<Cmd>, t: nat): nat {
    if log == [] then 0
    else Sent(log[..|log| - 1], t) + if log[|log| - 1].Flush? && log[|log| - 1].screen == t then 1 else 0
  }

  lemma SentSend(log: seq<Cmd>, c: Cmd, t: nat)
    ensures Sent(log + [c], t) == Sent(log, t) + if c.Flush? && c.screen == t then 1 else 0
  {
    assert (log + [c])[..|log|] == log;
  }
}
