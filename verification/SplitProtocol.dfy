/**
  The split virtqueue as a two-party protocol.  While the driver writes a new chain it may store
  anything, in any order, into the descriptors it took from the free list and into the next
  available-ring slot; only then does it move the available index.  The device reads heads in
  order, completes them in any order, and writes a used element before it looks at the driver's
  event fields (sections 2.7.6 to 2.7.14 of VIRTIO 1.2).
 */
module SplitProtocol {
  import opened RingMath
  import opened Common
  import opened FlagWord
  import opened SplitDriver
  import opened SplitQueue

  // ---------------------------------------------------------------- state

  datatype Taken = Taken(head: nat, segs: seq<Seg>)
  datatype Writing = Nothing | Element(index: nat, len: int)

  datatype Busy =
    | Idle
    | Adding(segs: seq<Seg>, token: nat, page: Page)
    | Getting
    | Enabling
    | EnabledEvent

  /** Memory that both sides see; `availIdx` and `usedIdx` are the shared 16-bit indices. */
  datatype Memory = Memory(
    desc: seq<Desc>, tables: map<int, seq<Desc>>,
    ring: seq<nat>, availIdx: nat, noInterrupt: bool, usedEvent: nat,
    used: seq<(nat, int)>, usedIdx: nat)

  datatype Device = Device(fetched: nat, written: nat, taken: seq<Taken>, writing: Writing, checked: nat)

  /** Records of the past: nothing in them is read by driver or device. */
  datatype History = History(
    avail: seq<nat>, done: seq<(nat, int)>,
    added: seq<nat>, completed: seq<(nat, int)>, returned: seq<(nat, int)>,
    armed: bool, irq: bool)

  datatype Sys = Sys(
    p: Pool, k: Books, lastUsed: nat, masked: bool, suppression: bool, busy: Busy,
    m: Memory, dev: Device, h: History)

  // ---------------------------------------------------------------- what the device reads

  /** The device's walk over the chain at `head`, following NEXT for at most `fuel` links. */
  function Walk(desc: seq<Desc>, head: nat, fuel: nat): seq<Seg>
    decreases fuel
  {
    if head >= |desc| then [] else
      var e := desc[head];
      [Seg(e.addr, e.len, e.flags.write)] + if e.flags.next && fuel > 0 then Walk(desc, e.next, fuel - 1) else []
  }

  /** The buffer list a head denotes: its chain, or the chain in its indirect table. */
  function Meaning(desc: seq<Desc>, tables: map<int, seq<Desc>>, head: nat): seq<Seg> {
    if head < |desc| && desc[head].flags.indirect then
      if desc[head].addr in tables then
        var t := tables[desc[head].addr];
        Walk(t, 0, |t|)
      else []
    else Walk(desc, head, |desc|)
  }

  ghost predicate EventCovers(s: Sys) {
    if s.suppression then exists p: nat :: s.dev.checked <= p < s.dev.written && s.m.usedEvent == Trunc16(p)
    else !s.m.noInterrupt
  }

  // ---------------------------------------------------------------- steps

  datatype Step =
    | BeginAdd(bufs: seq<Buf>, out: nat, token: nat, page: Page)
    | Scribble(desc: seq<Desc>, ring: seq<nat>)
    | Publish
    | GetTake
    | GetEvent
    | Disable
    | EnableFlags
    | EnableEvent
    | EnableCheck
    | Fetch
    | WriteElement(index: nat, len: int)
    | WriteIndex
    | Check

  function TableOf(segs: seq<Seg>): (t: seq<Desc>)
    ensures |t| == |segs|
  {
    seq(|segs|, i requires 0 <= i < |segs| => Desc(segs[i].addr, segs[i].len, DirFlags(segs[i].write, i != |segs| - 1),
                                                   i + 1))
  }

  /** Pages lent to buffers in flight. */
  ghost predicate PageLent(flight: map<nat, Booking>, phys: int) {
    exists h | h in flight :: flight[h].page == At(phys)
  }

  ghost function NewIds(s: Sys): seq<nat>
    requires s.busy.Adding? && SlotsOf(s.busy.segs, s.busy.page) <= |s.k.free|
  {
    s.k.free[..SlotsOf(s.busy.segs, s.busy.page)]
  }

  /** What steps need to be well defined; part of the invariant. */
  ghost predicate Shape(s: Sys) {
    && Fits(s.p) && IsPow2(s.p.num) && |s.k.free| == s.p.numUnused
    && |s.m.desc| == |s.m.ring| == |s.m.used| == s.p.num
    && (s.busy.Adding? ==> 0 < |s.busy.segs| && SlotsOf(s.busy.segs, s.busy.page) <= s.p.numUnused)
    && (s.dev.writing.Element? ==>
          s.dev.writing.index < |s.dev.taken| && s.dev.taken[s.dev.writing.index].head in s.k.flight)
  }

  ghost predicate Enabled(s: Sys, a: Step)
    requires Shape(s)
  {
    match a
    case BeginAdd(bufs, out, token, page) =>
      s.busy.Idle? && 0 < |bufs| && out <= |bufs| && token != 0 && SlotsOf(Segs(bufs, out), page) <= s.p.numUnused &&
      (page.At? ==> |bufs| > 1 && !PageLent(s.k.flight, page.phys))
    case Scribble(desc, ring) =>
      && s.busy.Adding? && |desc| == s.p.num == |ring|
      && (forall x | 0 <= x < s.p.num && x !in NewIds(s) :: desc[x] == s.m.desc[x])
      && (forall t | 0 <= t < s.p.num && t != Slot(s.k.published, s.p.num) :: ring[t] == s.m.ring[t])
    case Publish =>
      && s.busy.Adding?
      && s.m.desc == AddPool(s.p, s.busy.segs, s.busy.token, s.busy.page).desc
      && var slot := BitAnd(s.m.availIdx, s.p.num - 1);
         slot < s.p.num && s.m.ring[slot] == s.p.firstUnused
    case GetTake => s.busy.Idle?
    case GetEvent => s.busy.Getting?
    case Disable => s.busy.Idle?
    case EnableFlags => s.busy.Idle?
    case EnableEvent => s.busy.Enabling?
    case EnableCheck => s.busy.EnabledEvent?
    case Fetch => s.m.availIdx != Trunc16(s.dev.fetched)
    case WriteElement(i, len) => s.dev.writing.Nothing? && i < |s.dev.taken|
    case WriteIndex => s.dev.writing.Element?
    case Check => s.dev.checked < s.dev.written
  }

  ghost function Next(s: Sys, a: Step): Sys
    requires Shape(s) && Enabled(s, a)
  {
    match a
    case BeginAdd(bufs, out, token, page) =>
      var segs := Segs(bufs, out);
      s.(busy := Adding(segs, token, page),
         m := s.m.(tables := if page.At? then s.m.tables[page.phys := TableOf(segs)] else s.m.tables))
    case Scribble(desc, ring) => s.(m := s.m.(desc := desc, ring := ring))
    case Publish => DoPublish(s)
    case GetTake => DoGet(s)
    case GetEvent =>
      s.(busy := Idle, m := s.m.(usedEvent := if s.suppression && !s.masked then s.lastUsed else s.m.usedEvent))
    case Disable =>
      s.(masked := true, m := s.m.(noInterrupt := if s.suppression then s.m.noInterrupt else true),
         h := s.h.(armed := false))
    case EnableFlags =>
      s.(busy := Enabling, masked := false,
         m := s.m.(noInterrupt := if s.suppression || !s.masked then s.m.noInterrupt else false),
         h := s.h.(armed := false))
    case EnableEvent => s.(busy := EnabledEvent, m := s.m.(usedEvent := s.lastUsed))
    case EnableCheck =>
      if s.lastUsed != s.m.usedIdx then s.(busy := Idle)
      else s.(busy := Idle, h := s.h.(armed := true, irq := false))
    case Fetch => DoFetch(s)
    case WriteElement(i, len) =>
      var w := BitAnd(Trunc16(s.dev.written), s.p.num - 1);
      MaskedIndexIsSlot(s.dev.written, s.p.num);
      s.(m := s.m.(used := s.m.used[w := (s.dev.taken[i].head, len)]), dev := s.dev.(writing := Element(i, len)))
    case WriteIndex => DoWriteIndex(s)
    case Check => s.(dev := s.dev.(checked := s.dev.written), h := s.h.(irq := s.h.irq || EventCovers(s)))
  }

  ghost function DoPublish(s: Sys): Sys
    requires Fits(s.p) && s.busy.Adding? && |s.busy.segs| > 0
    requires SlotsOf(s.busy.segs, s.busy.page) <= s.p.numUnused == |s.k.free|
  {
    var b := s.busy;
    s.(busy := Idle,
       p := AddPool(s.p, b.segs, b.token, b.page),
       k := AddBooks(s.k, b.segs, b.token, b.page),
       m := s.m.(availIdx := Trunc16(s.m.availIdx + 1)),
       h := s.h.(avail := s.h.avail + [s.k.free[0]], added := s.h.added + [b.token]))
  }

  /** `get_buf` up to the used-event store. */
  ghost function DoGet(s: Sys): Sys
    requires Fits(s.p) && |s.m.used| == s.p.num
  {
    if s.lastUsed == s.m.usedIdx then
      if s.masked then s else s.(h := s.h.(armed := true, irq := false))
    else
      var e := s.m.used[Slot(s.k.reclaimed, s.p.num)];
      if e.0 >= s.p.num || e.0 !in s.k.flight || s.h.done == [] then s
      else
        s.(busy := Getting,
           p := PutPool(s.p, e.0),
           k := GetBooks(s.k, e.0),
           lastUsed := Trunc16(s.lastUsed + 1),
           m := s.m.(desc := PutPool(s.p, e.0).desc),
           h := s.h.(done := s.h.done[1..], returned := s.h.returned + [(s.p.tokens[e.0], e.1)], armed := false))
  }

  ghost function DoFetch(s: Sys): Sys
    requires |s.m.ring| == s.p.num > 0
  {
    var head := s.m.ring[Slot(s.dev.fetched, s.p.num)];
    s.(dev := s.dev.(fetched := s.dev.fetched + 1,
                     taken := s.dev.taken + [Taken(head, Meaning(s.m.desc, s.m.tables, head))]),
       h := s.h.(avail := if s.h.avail == [] then [] else s.h.avail[1..]))
  }

  ghost function DoWriteIndex(s: Sys): Sys
    requires s.dev.writing.Element? && s.dev.writing.index < |s.dev.taken|
    requires s.dev.taken[s.dev.writing.index].head in s.k.flight
  {
    var i, len := s.dev.writing.index, s.dev.writing.len;
    var head := s.dev.taken[i].head;
    s.(m := s.m.(usedIdx := Trunc16(s.m.usedIdx + 1)),
       dev := s.dev.(written := s.dev.written + 1, writing := Nothing,
                     taken := s.dev.taken[..i] + s.dev.taken[i + 1..]),
       h := s.h.(done := s.h.done + [(head, len)], completed := s.h.completed + [(s.k.flight[head].token, len)]))
  }

  // ---------------------------------------------------------------- invariant

  function TakenHeads(taken: seq<Taken>): (r: seq<nat>)
    ensures |r| == |taken|
  {
    seq(|taken|, i requires 0 <= i < |taken| => taken[i].head)
  }

  function Firsts(s: seq<(nat, int)>): (r: seq<nat>)
    ensures |r| == |s|
  {
    seq(|s|, i requires 0 <= i < |s| => s[i].0)
  }

  ghost predicate HeadsOk(flight: map<nat, Booking>, done: seq<(nat, int)>, taken: seq<Taken>, avail: seq<nat>) {
    multiset(Firsts(done)) + multiset(TakenHeads(taken)) + multiset(avail) == multiset(flight.Keys)
  }

  /** The available ring holds the unfetched heads, the used ring the unreclaimed completions. */
  ghost predicate RingsOk(m: Memory, num: nat, u: nat, d: nat, done: seq<(nat, int)>, avail: seq<nat>)
    requires |m.ring| == |m.used| == num > 0
  {
    && (forall i | 0 <= i < |avail| :: m.ring[Slot(d + i, num)] == avail[i])
    && (forall i | 0 <= i < |done| :: m.used[Slot(u + i, num)] == done[i])
  }

  ghost predicate TakenOk(flight: map<nat, Booking>, taken: seq<Taken>) {
    forall i | 0 <= i < |taken| :: taken[i].head in flight && taken[i].segs == flight[taken[i].head].segs
  }

  ghost predicate WritingOk(m: Memory, num: nat, dev: Device)
    requires |m.used| == num > 0
  {
    dev.writing.Element? ==>
      && dev.writing.index < |dev.taken|
      && m.used[Slot(dev.written, num)] == (dev.taken[dev.writing.index].head, dev.writing.len)
  }

  /** Indirect tables of buffers in flight hold their elements, one page each. */
  ghost predicate TablesOk(flight: map<nat, Booking>, tables: map<int, seq<Desc>>) {
    && (forall h | h in flight && flight[h].page.At? ::
          flight[h].page.phys in tables && tables[flight[h].page.phys] == TableOf(flight[h].segs))
    && (forall g, h | g in flight && h in flight && g != h && flight[g].page.At? :: flight[g].page != flight[h].page)
  }

  ghost predicate BusyOk(s: Sys)
    requires |s.m.desc| == |s.p.desc|
  {
    match s.busy
    case Adding(segs, token, page) =>
      && 0 < |segs| && token != 0 && SlotsOf(segs, page) <= s.p.numUnused == |s.k.free|
      && (forall x | 0 <= x < |s.p.desc| && x !in NewIds(s) :: s.m.desc[x] == s.p.desc[x])
      && (page.At? ==>
            !PageLent(s.k.flight, page.phys) && page.phys in s.m.tables && s.m.tables[page.phys] == TableOf(segs))
    case _ => s.m.desc == s.p.desc
  }

  function Tokens(flight: map<nat, Booking>, heads: seq<nat>): (r: seq<nat>)
    ensures |r| == |heads|
  {
    seq(|heads|, i requires 0 <= i < |heads| => if heads[i] in flight then flight[heads[i]].token else 0)
  }

  function Outcomes(flight: map<nat, Booking>, done: seq<(nat, int)>): (r: seq<(nat, int)>)
    ensures |r| == |done|
  {
    seq(|done|, i requires 0 <= i < |done| => (if done[i].0 in flight then flight[done[i].0].token else 0, done[i].1))
  }

  ghost predicate DeliveryOk(flight: map<nat, Booking>, taken: seq<Taken>, h: History) {
    && HeadsOk(flight, h.done, taken, h.avail)
    && h.completed == h.returned + Outcomes(flight, h.done)
    && multiset(h.added) == multiset(Firsts(h.completed)) + multiset(Tokens(flight, TakenHeads(taken)))
                            + multiset(Tokens(flight, h.avail))
  }

  ghost predicate CountersOk(s: Sys) {
    && s.m.availIdx == Trunc16(s.k.published) && s.m.usedIdx == Trunc16(s.dev.written)
    && s.dev.written == s.k.reclaimed + |s.h.done|
    && s.dev.fetched == s.dev.written + |s.dev.taken|
    && s.k.published == s.dev.fetched + |s.h.avail|
  }

  ghost predicate EventsOk(s: Sys) {
    && (!s.suppression ==> s.m.noInterrupt == s.masked)
    && s.dev.checked <= s.dev.written
    && (s.suppression && !s.masked && !s.busy.Getting? && !s.busy.Enabling? ==> s.m.usedEvent == s.lastUsed)
    && (s.busy.Enabling? || s.busy.EnabledEvent? ==> !s.masked && !s.h.armed)
    && (s.h.armed ==>
          && !s.masked && !s.busy.Getting? && !s.busy.Enabling?
          && (s.dev.written == s.k.reclaimed || s.h.irq || s.dev.checked <= s.k.reclaimed))
  }

  /** Rings, device and event fields: everything but the descriptor bookkeeping. */
  ghost predicate LinkOk(s: Sys)
    requires |s.m.ring| == |s.m.used| == s.p.num > 0
  {
    && CountersOk(s)
    && RingsOk(s.m, s.p.num, s.k.reclaimed, s.dev.fetched, s.h.done, s.h.avail)
    && TakenOk(s.k.flight, s.dev.taken) && WritingOk(s.m, s.p.num, s.dev) && TablesOk(s.k.flight, s.m.tables)
    && EventsOk(s)
  }

  ghost predicate Inv(s: Sys) {
    && Shape(s) && IdsOk(s.p, s.k) && CountsOk(s.m.availIdx, s.lastUsed, s.k)
    && BusyOk(s) && LinkOk(s)
    && DeliveryOk(s.k.flight, s.dev.taken, s.h)
  }
}
