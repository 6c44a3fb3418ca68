/**
  The packed virtqueue as a two-party protocol: the driver of `PackedDriver`, one store at a
  time, interleaved with a conforming device that fetches chains in order, completes them in
  any order, and writes a used element before it looks at the driver's event suppression area
  (sections 2.8.6 to 2.8.10 of VIRTIO 1.2).  Memory is sequentially consistent.
 */
module PackedProtocol {
  import opened RingMath
  import opened Common
  import opened FlagWord
  import opened PackedDriver
  import opened PackedQueue

  // ---------------------------------------------------------------- state

  /** A chain the device has read: its id, how many slots it took, what it says. */
  datatype Taken = Taken(id: nat, slots: nat, segs: seq<Seg>)
  datatype Done = Done(id: nat, slots: nat, len: int)
  datatype Writing = Nothing | Element(index: nat, len: int)
  datatype Page = NoPage | At(phys: int)

  /** Where the driver is between two of its operations. */
  datatype Busy =
    | Idle
    | Adding(slots: nat, token: nat, segs: seq<Seg>, page: Page, todo: seq<Store>)
    | Getting
    | EnabledOffset
    | EnabledFlags

  datatype Device = Device(fetched: nat, written: nat, taken: seq<Taken>, writing: Writing, checked: nat)

  /** Records of the past: nothing in them is read by driver or device. */
  datatype History = History(
    avail: seq<nat>,
    done: seq<Done>,
    pages: map<nat, int>,
    added: seq<nat>,
    completed: seq<(nat, int)>,
    returned: seq<(nat, int)>,
    armed: bool,
    irq: bool)

  datatype Sys = Sys(
    d: Driver, k: Books, shadow: nat, suppression: bool, busy: Busy,
    desc: seq<Desc>, tables: map<int, seq<Desc>>, evOffset: nat, evFlags: nat,
    dev: Device, h: History)

  // ---------------------------------------------------------------- what the device reads

  function TableSegs(t: seq<Desc>): (r: seq<Seg>)
    ensures |r| == |t|
  {
    seq(|t|, i requires 0 <= i < |t| => Seg(t[i].addr, t[i].len, t[i].flags.write))
  }

  /** The device's walk over a chain whose first descriptor is at position `p`. */
  function Walk(desc: seq<Desc>, tables: map<int, seq<Desc>>, p: nat, num: nat, fuel: nat): Taken
    requires |desc| == num > 0
    decreases fuel
  {
    var e := desc[Slot(p, num)];
    if e.flags.indirect then
      Taken(e.id, 1, if e.addr in tables then TableSegs(tables[e.addr]) else [])
    else
      var seg := Seg(e.addr, e.len, e.flags.write);
      if e.flags.next && fuel > 1 then
        var rest := Walk(desc, tables, p + 1, num, fuel - 1);
        Taken(rest.id, rest.slots + 1, [seg] + rest.segs)
      else Taken(e.id, 1, [seg])
  }

  /** Whether the event suppression area asks for an interrupt for positions `[from, to)`. */
  ghost predicate EventCovers(flags: nat, offset: nat, from: nat, to: nat, num: nat)
    requires num > 0
  {
    flags == EVENT_ENABLE ||
    (flags == EVENT_DESC && exists p: nat :: from <= p < to && offset == PackEvent(Slot(p, num), Phase(p, num)))
  }

  // ---------------------------------------------------------------- steps

  datatype Step =
    | BeginAdd(bufs: seq<Buf>, out: nat, token: nat, page: Page)
    | DoStore
    | GetTake
    | GetEvent
    | Disable
    | EnableOffset
    | EnableFlags
    | EnableCheck
    | Kick
    | Fetch
    | WriteBody(index: nat, len: int)
    | WriteFlags(flags: Flags)
    | Check

  function SlotsOf(bufs: seq<Buf>, page: Page): nat {
    if page.At? then 1 else |bufs|
  }

  /** The table a caller-supplied indirect page holds once the driver has filled it. */
  function TableOf(segs: seq<Seg>): (t: seq<Desc>)
    ensures |t| == |segs|
  {
    seq(|segs|, i requires 0 <= i < |segs| => Desc(segs[i].addr, segs[i].len, 0, if segs[i].write then WRITE else NONE))
  }

  /** What steps need to be well defined; part of the invariant. */
  ghost predicate Formed(s: Sys) {
    && Fits(s.d) && |s.desc| == s.d.num && |s.k.free| == s.d.numFree
    && (s.busy.Adding? ==> s.busy.todo != [] && 0 < s.busy.slots <= s.d.numFree)
    && (s.dev.writing.Element? ==>
          s.dev.writing.index < |s.dev.taken| && s.dev.taken[s.dev.writing.index].id in s.k.flight)
  }

  ghost predicate Enabled(s: Sys, a: Step)
    requires Formed(s)
  {
    match a
    case BeginAdd(bufs, out, token, page) =>
      s.busy.Idle? && 0 < |bufs| && out <= |bufs| && token != 0 && SlotsOf(bufs, page) <= s.d.numFree &&
      (page.At? ==> page.phys !in s.h.pages.Values)
    case DoStore => s.busy.Adding?
    case GetTake => s.busy.Idle?
    case GetEvent => s.busy.Getting?
    case Disable => s.busy.Idle?
    case EnableOffset => s.busy.Idle?
    case EnableFlags => s.busy.EnabledOffset?
    case EnableCheck => s.busy.EnabledFlags?
    case Kick => s.busy.Idle?
    case Fetch => LooksAvailable(s.desc[Slot(s.dev.fetched, s.d.num)].flags, Phase(s.dev.fetched, s.d.num))
    case WriteBody(i, len) => s.dev.writing.Nothing? && i < |s.dev.taken|
    case WriteFlags(f) => s.dev.writing.Element? && LooksUsed(f, Phase(s.dev.written, s.d.num))
    case Check => s.dev.checked < s.dev.written
  }

  ghost function Next(s: Sys, a: Step): Sys
    requires Formed(s) && Enabled(s, a)
  {
    match a
    case BeginAdd(bufs, out, token, page) => DoBegin(s, bufs, out, token, page)
    case DoStore => if |s.busy.todo| == 1 then DoPublish(s) else DoOneStore(s)
    case GetTake => DoGet(s)
    case GetEvent =>
      s.(busy := Idle,
         evOffset := if s.shadow == EVENT_DESC then PackEvent(s.d.lastUsed, s.d.usedWrap) else s.evOffset)
    case Disable => s.(shadow := EVENT_DISABLE, evFlags := EVENT_DISABLE, h := s.h.(armed := false))
    case EnableOffset =>
      s.(busy := EnabledOffset,
         evOffset := if s.suppression then PackEvent(s.d.lastUsed, s.d.usedWrap) else s.evOffset,
         h := s.h.(armed := false))
    case EnableFlags =>
      var mode := if s.shadow != EVENT_DISABLE then s.shadow
                  else if s.suppression then EVENT_DESC else EVENT_ENABLE;
      s.(busy := EnabledFlags, shadow := mode, evFlags := mode)
    case EnableCheck => DoCheckUsed(s)
    case Kick => s.(d := s.d.(numAdded := 0))
    case Fetch => DoFetch(s)
    case WriteBody(i, len) => DoWriteBody(s, i, len)
    case WriteFlags(f) => DoWriteFlags(s, f)
    case Check =>
      s.(dev := s.dev.(checked := s.dev.written),
         h := s.h.(irq := s.h.irq || EventCovers(s.evFlags, s.evOffset, s.dev.checked, s.dev.written, s.d.num)))
  }

  ghost function DoBegin(s: Sys, bufs: seq<Buf>, out: nat, token: nat, page: Page): Sys
    requires s.d.nextAvail < s.d.num && 0 < |bufs| && SlotsOf(bufs, page) <= s.d.num
  {
    var segs := Segs(bufs, out);
    s.(busy := Adding(SlotsOf(bufs, page), token, segs, page,
                      if page.At? then IndirectStores(s.d, |segs|, page.phys) else DirectStores(s.d, segs)),
       tables := if page.At? then s.tables[page.phys := TableOf(segs)] else s.tables)
  }

  ghost function DoOneStore(s: Sys): Sys
    requires s.busy.Adding? && s.busy.todo != []
  {
    s.(desc := Apply(s.desc, s.busy.todo[0]), busy := s.busy.(todo := s.busy.todo[1..]))
  }

  ghost function DoPublish(s: Sys): Sys
    requires s.busy.Adding? && s.busy.todo != [] && Fits(s.d) && 0 < s.busy.slots <= s.d.numFree
    requires |s.k.free| == s.d.numFree
  {
    var b := s.busy;
    s.(desc := Apply(s.desc, b.todo[0]),
       busy := Idle,
       d := AddDriver(s.d, b.slots, b.token, b.page.At?),
       k := AddBooks(s.d, s.k, b.slots, b.token, b.segs, b.page.At?),
       h := s.h.(avail := s.h.avail + [s.k.free[0]],
                 pages := if b.page.At? then s.h.pages[s.k.free[0] := b.page.phys] else s.h.pages,
                 added := s.h.added + [b.token]))
  }

  /** The look that ends `enable_cb`. */
  ghost function DoCheckUsed(s: Sys): Sys
    requires s.d.lastUsed < |s.desc|
  {
    if LooksUsed(s.desc[s.d.lastUsed].flags, s.d.usedWrap) then s.(busy := Idle)
    else s.(busy := Idle, h := s.h.(armed := true, irq := false))
  }

  /** The whole of `get_buf` up to the event index; an unknown id would be the driver's bug check. */
  ghost function DoGet(s: Sys): Sys
    requires Fits(s.d) && |s.desc| == s.d.num
  {
    var e := s.desc[s.d.lastUsed];
    if !LooksUsed(e.flags, s.d.usedWrap) then
      if s.shadow == EVENT_DISABLE then s else s.(h := s.h.(armed := true, irq := false))
    else if e.id >= s.d.num || e.id !in s.k.flight || s.h.done == [] then s
    else
      s.(busy := Getting,
         d := GetDriver(s.d, e.id),
         k := GetBooks(s.k, e.id),
         h := s.h.(done := s.h.done[1..],
                   pages := s.h.pages - {e.id},
                   returned := s.h.returned + [(s.d.states[e.id].data, e.len)],
                   armed := false))
  }

  ghost function DoFetch(s: Sys): Sys
    requires |s.desc| == s.d.num > 0
  {
    var t := Walk(s.desc, s.tables, s.dev.fetched, s.d.num, s.d.num);
    s.(dev := s.dev.(fetched := s.dev.fetched + t.slots, taken := s.dev.taken + [t]),
       h := s.h.(avail := if s.h.avail == [] then [] else s.h.avail[1..]))
  }

  ghost function DoWriteBody(s: Sys, i: nat, len: int): Sys
    requires |s.desc| == s.d.num > 0 && i < |s.dev.taken|
  {
    var w := Slot(s.dev.written, s.d.num);
    s.(desc := s.desc[w := s.desc[w].(id := s.dev.taken[i].id, len := len)],
       dev := s.dev.(writing := Element(i, len)))
  }

  ghost function DoWriteFlags(s: Sys, f: Flags): Sys
    requires |s.desc| == s.d.num > 0 && s.dev.writing.Element? && s.dev.writing.index < |s.dev.taken|
    requires s.dev.taken[s.dev.writing.index].id in s.k.flight
  {
    var w := Slot(s.dev.written, s.d.num);
    var i, len := s.dev.writing.index, s.dev.writing.len;
    var t := s.dev.taken[i];
    s.(desc := s.desc[w := s.desc[w].(flags := f)],
       dev := s.dev.(written := s.dev.written + t.slots, writing := Nothing,
                     taken := s.dev.taken[..i] + s.dev.taken[i + 1..]),
       h := s.h.(done := s.h.done + [Done(t.id, t.slots, len)],
                 completed := s.h.completed + [(s.k.flight[t.id].token, len)]))
  }

  // ---------------------------------------------------------------- invariant

  /** Flag bits by region of the window `[reclaimed, reclaimed + num)`. */
  ghost predicate MarksOk(desc: seq<Desc>, num: nat, u: nat, w: nat, a: nat, hidden: nat)
    requires |desc| == num > 0
  {
    && (forall p: nat | u <= p < a :: desc[Slot(p, num)].flags.avail == Phase(p, num))
    && (forall p: nat | a <= p < u + num && !(a < p < a + hidden) :: desc[Slot(p, num)].flags.avail == !Phase(p, num))
    && (forall p: nat | w <= p < a :: desc[Slot(p, num)].flags.used == !Phase(p, num))
  }

  /** A booked buffer is in the ring exactly as submitted. */
  ghost predicate ChainVisible(desc: seq<Desc>, tables: map<int, seq<Desc>>, num: nat, head: nat, b: Booking,
                               page: Page)
    requires |desc| == num > 0
  {
    match page
    case At(phys) =>
      && |b.ids| == 1
      && desc[Slot(b.start, num)] == Desc(phys, 16 * |b.segs|, head, Or(INDIRECT, AvailUsed(Phase(b.start, num))))
      && phys in tables && TableSegs(tables[phys]) == b.segs
    case NoPage =>
      && |b.ids| == |b.segs|
      && forall j | 0 <= j < |b.segs| :: desc[Slot(b.start + j, num)] == ChainDesc(head, b, num, j)
  }

  function ChainDesc(head: nat, b: Booking, num: nat, j: nat): Desc
    requires num > 0 && j < |b.segs|
  {
    Desc(b.segs[j].addr, b.segs[j].len, head,
         ChainFlags(AvailUsed(Phase(b.start + j, num)), b.segs[j].write, j != |b.segs| - 1))
  }

  function PageOf(pages: map<nat, int>, head: nat): Page {
    if head in pages then At(pages[head]) else NoPage
  }

  /** Published chains tile `[from, to)` in order. */
  ghost predicate Laid(flight: map<nat, Booking>, heads: seq<nat>, from: nat, to: nat) {
    if heads == [] then from == to
    else
      && heads[0] in flight && flight[heads[0]].start == from
      && Laid(flight, heads[1..], from + |flight[heads[0]].ids|, to)
  }

  /** Used elements tile `[from, to)` in completion order. */
  ghost predicate UsedLaid(flight: map<nat, Booking>, desc: seq<Desc>, num: nat, done: seq<Done>, from: nat, to: nat)
    requires |desc| == num > 0
  {
    if done == [] then from == to
    else
      var e := desc[Slot(from, num)];
      && done[0].id in flight && done[0].slots == |flight[done[0].id].ids| > 0
      && e.id == done[0].id && e.len == done[0].len && LooksUsed(e.flags, Phase(from, num))
      && UsedLaid(flight, desc, num, done[1..], from + done[0].slots, to)
  }

  function SumSlots(taken: seq<Taken>): nat {
    if taken == [] then 0 else taken[0].slots + SumSlots(taken[1..])
  }

  ghost predicate TakenOk(flight: map<nat, Booking>, taken: seq<Taken>) {
    forall i | 0 <= i < |taken| ::
      && taken[i].id in flight && taken[i].slots == |flight[taken[i].id].ids| > 0
      && taken[i].segs == flight[taken[i].id].segs
  }

  function TakenIds(taken: seq<Taken>): (r: seq<nat>)
    ensures |r| == |taken|
  {
    seq(|taken|, i requires 0 <= i < |taken| => taken[i].id)
  }

  function DoneIds(done: seq<Done>): (r: seq<nat>)
    ensures |r| == |done|
  {
    seq(|done|, i requires 0 <= i < |done| => done[i].id)
  }

  ghost predicate HeadsOk(flight: map<nat, Booking>, done: seq<Done>, taken: seq<Taken>, avail: seq<nat>) {
    multiset(DoneIds(done)) + multiset(TakenIds(taken)) + multiset(avail) == multiset(flight.Keys)
  }

  ghost predicate InWindow(slot: nat, base: nat, n: nat, num: nat)
    requires num > 0
  {
    exists p: nat :: base <= p < base + n && Slot(p, num) == slot
  }

  /** The stores still to be made stay inside the new chain and leave its head hidden until the last one. */
  ghost predicate TodoOk(todo: seq<Store>, base: nat, n: nat, num: nat)
    requires num > 0
  {
    && todo != []
    && (forall i | 0 <= i < |todo| :: InWindow(todo[i].slot, base, n, num))
    && (forall i | 0 <= i < |todo| - 1 && todo[i].SetFlags? :: todo[i].slot != Slot(base, num))
  }

  ghost function NewBooking(s: Sys): Booking
    requires s.busy.Adding? && s.busy.slots <= |s.k.free|
  {
    Booking(s.k.free[..s.busy.slots], s.busy.token, s.k.published, s.busy.segs)
  }

  ghost predicate AddingOk(s: Sys)
    requires s.busy.Adding? && |s.desc| == s.d.num > 0
  {
    && 0 < s.busy.slots <= s.d.numFree == |s.k.free| && s.busy.token != 0 && (s.busy.page.At? ==> s.busy.slots == 1)
    && TodoOk(s.busy.todo, s.k.published, s.busy.slots, s.d.num)
    && (s.busy.page.At? ==> s.busy.page.phys !in s.h.pages.Values)
    && ChainVisible(ApplyAll(s.desc, s.busy.todo), s.tables, s.d.num, s.d.freeHead, NewBooking(s), s.busy.page)
  }

  ghost predicate PagesOk(flight: map<nat, Booking>, pages: map<nat, int>) {
    && pages.Keys <= flight.Keys
    && forall g, h | g in pages && h in pages && g != h :: pages[g] != pages[h]
  }

  ghost predicate WritingOk(s: Sys)
    requires |s.desc| == s.d.num > 0
  {
    s.dev.writing.Element? ==>
      && s.dev.writing.index < |s.dev.taken|
      && s.desc[Slot(s.dev.written, s.d.num)].id == s.dev.taken[s.dev.writing.index].id
      && s.desc[Slot(s.dev.written, s.d.num)].len == s.dev.writing.len
  }

  ghost predicate VisibleAll(s: Sys)
    requires |s.desc| == s.d.num > 0
  {
    forall h | h in s.h.avail && h in s.k.flight ::
      ChainVisible(s.desc, s.tables, s.d.num, h, s.k.flight[h], PageOf(s.h.pages, h))
  }

  /** Used elements, chains in the device and chains not yet fetched tile `[u, a)` in this order. */
  ghost predicate Tiled(flight: map<nat, Booking>, desc: seq<Desc>, num: nat, done: seq<Done>, taken: seq<Taken>,
                        avail: seq<nat>, u: nat, w: nat, d: nat, a: nat)
    requires |desc| == num > 0
  {
    && UsedLaid(flight, desc, num, done, u, w)
    && w + SumSlots(taken) == d && TakenOk(flight, taken)
    && Laid(flight, avail, d, a)
  }

  ghost predicate RingOk(s: Sys)
    requires |s.desc| == s.d.num > 0
  {
    && MarksOk(s.desc, s.d.num, s.k.reclaimed, s.dev.written, s.k.published, if s.busy.Adding? then s.busy.slots else 0)
    && Tiled(s.k.flight, s.desc, s.d.num, s.h.done, s.dev.taken, s.h.avail,
             s.k.reclaimed, s.dev.written, s.dev.fetched, s.k.published)
    && VisibleAll(s)
    && PagesOk(s.k.flight, s.h.pages)
    && WritingOk(s)
    && (s.busy.Adding? ==> AddingOk(s))
  }

  function Tokens(flight: map<nat, Booking>, ids: seq<nat>): (r: seq<nat>)
    ensures |r| == |ids|
  {
    seq(|ids|, i requires 0 <= i < |ids| => if ids[i] in flight then flight[ids[i]].token else 0)
  }

  function Outcomes(flight: map<nat, Booking>, done: seq<Done>): (r: seq<(nat, int)>)
    ensures |r| == |done|
  {
    seq(|done|, i requires 0 <= i < |done| => (if done[i].id in flight then flight[done[i].id].token else 0,
                                               done[i].len))
  }

  function Firsts(s: seq<(nat, int)>): (r: seq<nat>)
    ensures |r| == |s|
  {
    seq(|s|, i requires 0 <= i < |s| => s[i].0)
  }

  /** Tokens in the driver's hands or the device's: handed out exactly once, in completion order. */
  ghost predicate DeliveryOk(flight: map<nat, Booking>, taken: seq<Taken>, h: History) {
    && HeadsOk(flight, h.done, taken, h.avail)
    && h.completed == h.returned + Outcomes(flight, h.done)
    && multiset(h.added) == multiset(Firsts(h.completed)) + multiset(Tokens(flight, TakenIds(taken)))
                            + multiset(Tokens(flight, h.avail))
  }

  /** The event area agrees with the driver, and an armed driver cannot miss a completion. */
  ghost predicate EventsOk(s: Sys)
    requires s.d.num > 0
  {
    && s.shadow == s.evFlags && s.shadow <= 2
    && (s.shadow == EVENT_DESC ==> s.suppression)
    && s.dev.checked <= s.dev.written
    && (s.suppression && (s.busy.EnabledOffset? || s.busy.EnabledFlags? ||
                          (s.shadow == EVENT_DESC && !s.busy.Getting?)) ==>
          s.evOffset == PackEvent(Slot(s.k.reclaimed, s.d.num), Phase(s.k.reclaimed, s.d.num)))
    && (s.busy.EnabledFlags? ==> s.shadow != EVENT_DISABLE)
    && (s.busy.EnabledOffset? || s.busy.EnabledFlags? ==> !s.h.armed)
    && (s.h.armed ==>
          && s.shadow != EVENT_DISABLE && !s.busy.Getting?
          && (s.dev.written == s.k.reclaimed || s.h.irq || s.dev.checked <= s.k.reclaimed))
  }

  ghost predicate Inv(s: Sys) {
    && Formed(s) && IdsOk(s.d, s.k) && PhaseOk(s.d, s.k)
    && RingOk(s)
    && DeliveryOk(s.k.flight, s.dev.taken, s.h)
    && EventsOk(s)
  }
}
