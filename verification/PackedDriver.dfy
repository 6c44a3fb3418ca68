/**
  The driver half of a packed virtqueue (section 2.8 of VIRTIO 1.2): its private fields, the
  stores it makes to the shared descriptor ring, and the bookkeeping that ties both to
  unbounded ring positions.  The functions say what each operation computes; the driver as it
  runs is the class of `PackedQueue`.
 */
module PackedDriver {
  import opened RingMath
  import opened Common
  import opened FlagWord

  // ---------------------------------------------------------------- descriptor flag words

  const EVENT_ENABLE := 0
  const EVENT_DISABLE := 1
  const EVENT_DESC := 2

  /** The AVAIL/USED pair with which the driver marks slots of a lap with wrap counter `ph`. */
  function AvailUsed(ph: bool): Flags {
    NONE.(avail := ph, used := !ph)
  }

  function ChainFlags(base: Flags, write: bool, next: bool): Flags {
    Or(base, NONE.(write := write, next := next))
  }

  /** What the driver takes for a used element: both bits equal to its wrap counter. */
  predicate LooksUsed(f: Flags, wrap: bool) {
    f.avail == f.used && f.used == wrap
  }

  /** What the device takes for an available descriptor (section 2.8.1 of VIRTIO 1.2). */
  predicate LooksAvailable(f: Flags, wrap: bool) {
    f.avail == wrap && f.used != wrap
  }

  // ---------------------------------------------------------------- data model

  datatype Desc = Desc(addr: int, len: int, id: nat, flags: Flags)

  /** Per-id bookkeeping; a `data` of 0 is the NULL token. */
  datatype IdState = IdState(data: nat, num: nat, next: nat, last: nat)

  datatype Driver = Driver(
    num: nat,
    numAdded: nat,
    freeHead: nat,
    numFree: nat,
    lastUsed: nat,
    availUsed: Flags,
    availWrap: bool,
    usedWrap: bool,
    nextAvail: nat,
    states: seq<IdState>)

  // ---------------------------------------------------------------- stores to the ring

  datatype Store =
    | SetAddr(slot: nat, addr: int)
    | SetLen(slot: nat, len: int)
    | SetId(slot: nat, id: nat)
    | SetFlags(slot: nat, flags: Flags)

  function Apply(m: seq<Desc>, s: Store): (r: seq<Desc>)
    ensures |r| == |m|
  {
    if s.slot >= |m| then m else
      m[s.slot := match s
                  case SetAddr(i, a) => m[i].(addr := a)
                  case SetLen(i, l) => m[i].(len := l)
                  case SetId(i, x) => m[i].(id := x)
                  case SetFlags(i, f) => m[i].(flags := f)]
  }

  function ApplyAll(m: seq<Desc>, ss: seq<Store>): (r: seq<Desc>)
    ensures |r| == |m|
  {
    if ss == [] then m else Apply(ApplyAll(m, ss[..|ss| - 1]), ss[|ss| - 1])
  }

  lemma ApplySnoc(m: seq<Desc>, ss: seq<Store>, s: Store)
    ensures ApplyAll(m, ss + [s]) == Apply(ApplyAll(m, ss), s)
  {
    assert (ss + [s])[..|ss|] == ss;
  }

  /** Slot index of the `j`-th descriptor of a chain that starts at index `head`. */
  function Wrapped(head: nat, j: nat, num: nat): (r: nat)
    requires head < num && j <= num
    ensures r < num
  {
    if head + j >= num then head + j - num else head + j
  }

  function MarkAt(d: Driver, j: nat): Flags {
    if d.nextAvail + j >= d.num then Toggle(d.availUsed) else d.availUsed
  }

  /** Stores of loop iteration `j`: the head's flags are held back. */
  function IterStores(d: Driver, segs: seq<Seg>, j: nat): (r: seq<Store>)
    requires j < |segs| <= d.num && d.nextAvail < d.num
  {
    var s := Wrapped(d.nextAvail, j, d.num);
    [SetAddr(s, segs[j].addr), SetLen(s, segs[j].len), SetId(s, d.freeHead)] +
    if j == 0 then [] else [SetFlags(s, ChainFlags(MarkAt(d, j), segs[j].write, j != |segs| - 1))]
  }

  function BodyStores(d: Driver, segs: seq<Seg>, n: nat): (r: seq<Store>)
    requires n <= |segs| <= d.num && d.nextAvail < d.num
  {
    if n == 0 then [] else BodyStores(d, segs, n - 1) + IterStores(d, segs, n - 1)
  }

  /** The store that makes the whole chain visible to the device. */
  function DirectPublish(d: Driver, segs: seq<Seg>): Store
    requires 0 < |segs|
  {
    SetFlags(d.nextAvail, ChainFlags(d.availUsed, segs[0].write, 1 != |segs|))
  }

  function DirectStores(d: Driver, segs: seq<Seg>): seq<Store>
    requires 0 < |segs| <= d.num && d.nextAvail < d.num
  {
    BodyStores(d, segs, |segs|) + [DirectPublish(d, segs)]
  }

  function IndirectStores(d: Driver, k: nat, phys: int): seq<Store> {
    [SetAddr(d.nextAvail, phys), SetLen(d.nextAvail, 16 * k), SetId(d.nextAvail, d.freeHead),
     SetFlags(d.nextAvail, Or(INDIRECT, d.availUsed))]
  }

  // ---------------------------------------------------------------- driver operations

  /** The id reached from `x` after following `next` for `k` steps. */
  function Hops(states: seq<IdState>, x: nat, k: nat): (r: nat)
    requires x < |states| && forall i | 0 <= i < |states| :: states[i].next < |states|
    ensures r < |states|
  {
    if k == 0 then x else states[Hops(states, x, k - 1)].next
  }

  ghost predicate Fits(d: Driver) {
    && 0 < d.num <= 0x8000
    && |d.states| == d.num
    && d.freeHead < d.num && d.nextAvail < d.num && d.lastUsed < d.num && d.numFree <= d.num
    && forall i | 0 <= i < d.num :: d.states[i].next < d.num && d.states[i].last < d.num && d.states[i].num <= d.num
  }

  /** Private fields after a chain of `n` slots was added. */
  ghost function AddDriver(d: Driver, n: nat, token: nat, indirect: bool): Driver
    requires Fits(d) && 0 < n <= d.num && n <= d.numFree
  {
    var next := Wrapped(d.nextAvail, n, d.num);
    var wraps := d.nextAvail + n >= d.num;
    d.(nextAvail := next,
       availUsed := MarkAt(d, n),
       availWrap := if (if indirect then wraps else next < d.nextAvail) then !d.availWrap else d.availWrap,
       numFree := d.numFree - n,
       numAdded := d.numAdded + n,
       freeHead := Hops(d.states, d.freeHead, n),
       states := d.states[d.freeHead := d.states[d.freeHead].(data := token, num := n,
                                                              last := Hops(d.states, d.freeHead, n - 1))])
  }

  /** Private fields after the chain headed by `id` went back to the free list. */
  function DetachDriver(d: Driver, id: nat): Driver
    requires id < |d.states| && d.states[id].last < |d.states|
  {
    var cleared := d.states[id := d.states[id].(data := 0)];
    var last := cleared[id].last;
    d.(states := cleared[last := cleared[last].(next := d.freeHead)],
       freeHead := id,
       numFree := d.numFree + d.states[id].num)
  }

  /** The used position moves past `n` slots. */
  function AdvanceUsed(d: Driver, n: nat): Driver {
    var moved := Trunc16(d.lastUsed + n);
    if moved >= d.num then d.(lastUsed := Trunc16(moved - d.num), usedWrap := !d.usedWrap)
    else d.(lastUsed := moved)
  }

  function GetDriver(d: Driver, id: nat): Driver
    requires id < |d.states| && d.states[id].last < |d.states|
  {
    AdvanceUsed(DetachDriver(d, id), d.states[id].num)
  }

  // ---------------------------------------------------------------- bookkeeping

  /** A buffer in flight: the ids it borrowed, its token, its first position, its meaning. */
  datatype Booking = Booking(ids: seq<nat>, token: nat, start: nat, segs: seq<Seg>)

  /**
    `published` and `reclaimed` count slots since the ring was created; `fullAdds` counts direct chains
    of `num` slots.
   */
  datatype Books = Books(free: seq<nat>, flight: map<nat, Booking>, published: nat, reclaimed: nat, fullAdds: nat)

  ghost predicate Linked(states: seq<IdState>, s: seq<nat>)
    requires Below(s, |states|)
  {
    forall i, j | 0 <= i && j == i + 1 && j < |s| :: states[s[i]].next == s[j]
  }

  ghost predicate FreeOk(d: Driver, free: seq<nat>) {
    && |free| == d.numFree
    && Below(free, |d.states|) && NoDup(free) && Linked(d.states, free)
    && (free != [] ==> free[0] == d.freeHead)
  }

  ghost predicate BookingOk(states: seq<IdState>, h: nat, b: Booking) {
    && b.ids != [] && b.ids[0] == h
    && Below(b.ids, |states|) && NoDup(b.ids) && Linked(states, b.ids)
    && states[h].data == b.token != 0
    && states[h].num == |b.ids|
    && states[h].last == b.ids[|b.ids| - 1]
  }

  ghost predicate Owned(x: nat, k: Books) {
    x in k.free || exists h | h in k.flight :: x in k.flight[h].ids
  }

  /**
    The ids split into the free list and the chains in flight, whatever the device did to the ring.
   */
  ghost predicate IdsOk(d: Driver, k: Books) {
    && Fits(d)
    && FreeOk(d, k.free)
    && FlightOk(d.states, k.flight)
    && Separate(k)
    && Covered(d.num, k)
    && OnlyHeadsHold(d.states, k.flight)
  }

  ghost predicate FlightOk(states: seq<IdState>, flight: map<nat, Booking>) {
    forall h | h in flight :: BookingOk(states, h, flight[h])
  }

  ghost predicate Separate(k: Books) {
    && (forall h | h in k.flight :: Apart(k.free, k.flight[h].ids))
    && (forall g, h | g in k.flight && h in k.flight && g != h :: Apart(k.flight[g].ids, k.flight[h].ids))
  }

  ghost predicate Covered(n: nat, k: Books) {
    forall x | 0 <= x < n :: Owned(x, k)
  }

  ghost predicate OnlyHeadsHold(states: seq<IdState>, flight: map<nat, Booking>) {
    forall x | 0 <= x < |states| && x !in flight :: states[x].data == 0
  }

  /**
    The 16-bit indices, wrap counters and mark word are the slots and lap parities of two
    unbounded counters.
   */
  ghost predicate PhaseOk(d: Driver, k: Books)
    requires d.num > 0
  {
    && k.reclaimed + (d.num - d.numFree) == k.published
    && d.numAdded <= k.published
    && d.nextAvail == Slot(k.published, d.num)
    && d.availUsed == AvailUsed(Phase(k.published, d.num))
    && d.lastUsed == Slot(k.reclaimed, d.num)
    && d.usedWrap == Phase(k.reclaimed, d.num)
    && d.availWrap == (Phase(k.published, d.num) == (k.fullAdds % 2 == 0))
  }

  lemma {:induction false} HopsFollow(d: Driver, free: seq<nat>, k: nat)
    requires Fits(d) && FreeOk(d, free) && k < |free|
    ensures Hops(d.states, d.freeHead, k) == free[k]
  {
    if k > 0 {
      HopsFollow(d, free, k - 1);
    }
  }

  // ---------------------------------------------------------------- add

  ghost function AddBooks(d: Driver, k: Books, n: nat, token: nat, segs: seq<Seg>, indirect: bool): Books
    requires 0 < n <= |k.free|
  {
    k.(free := k.free[n..],
       flight := k.flight[k.free[0] := Booking(k.free[..n], token, k.published, segs)],
       published := k.published + n,
       fullAdds := if !indirect && n == d.num then k.fullAdds + 1 else k.fullAdds)
  }

  lemma AddKeepsIds(d: Driver, k: Books, n: nat, token: nat, segs: seq<Seg>, indirect: bool)
    requires IdsOk(d, k) && 0 < n <= d.numFree && token != 0
    ensures IdsOk(AddDriver(d, n, token, indirect), AddBooks(d, k, n, token, segs, indirect))
  {
    AddSplitsFree(d, k, n, token, indirect);
    AddKeepsFlight(d, k, n, token, segs, indirect);
    AddKeepsSeparate(d, k, n, token, segs, indirect);
    forall x | 0 <= x < d.num
      ensures Owned(x, AddBooks(d, k, n, token, segs, indirect))
    {
      AddKeepsOwner(d, k, n, token, segs, indirect, x);
    }
  }

  lemma AddKeepsFlight(d: Driver, k: Books, n: nat, token: nat, segs: seq<Seg>, indirect: bool)
    requires IdsOk(d, k) && 0 < n <= d.numFree && token != 0
    ensures d.freeHead !in k.flight
    ensures FlightOk(AddDriver(d, n, token, indirect).states, AddBooks(d, k, n, token, segs, indirect).flight)
  {
    AddSplitsFree(d, k, n, token, indirect);
    forall h | h in k.flight
      ensures h != d.freeHead && BookingOk(AddDriver(d, n, token, indirect).states, h, k.flight[h])
    {
      AddKeepsOther(d, k, n, token, indirect, h);
    }
  }

  lemma AddKeepsSeparate(d: Driver, k: Books, n: nat, token: nat, segs: seq<Seg>, indirect: bool)
    requires IdsOk(d, k) && 0 < n <= d.numFree
    ensures Separate(AddBooks(d, k, n, token, segs, indirect))
  {
    var k' := AddBooks(d, k, n, token, segs, indirect);
    var id := d.freeHead;
    assert forall i | 0 <= i < n :: k'.flight[id].ids[i] == k.free[i];
    assert forall i | 0 <= i < |k'.free| :: k'.free[i] == k.free[i + n];
  }

  lemma AddSplitsFree(d: Driver, k: Books, n: nat, token: nat, indirect: bool)
    requires Fits(d) && FreeOk(d, k.free) && 0 < n <= d.numFree && token != 0
    ensures var d' := AddDriver(d, n, token, indirect);
            && Fits(d') && FreeOk(d', k.free[n..]) && Apart(k.free[n..], k.free[..n])
            && forall start, segs :: BookingOk(d'.states, d.freeHead, Booking(k.free[..n], token, start, segs))
  {
    HopsFollow(d, k.free, n - 1);
    if n < |k.free| { HopsFollow(d, k.free, n); }
  }

  lemma AddKeepsOther(d: Driver, k: Books, n: nat, token: nat, indirect: bool, h: nat)
    requires Fits(d) && FreeOk(d, k.free) && 0 < n <= d.numFree
    requires h in k.flight && BookingOk(d.states, h, k.flight[h]) && Apart(k.free, k.flight[h].ids)
    ensures h != d.freeHead && BookingOk(AddDriver(d, n, token, indirect).states, h, k.flight[h])
  {
    assert k.flight[h].ids[0] == h && k.free[0] == d.freeHead;
  }

  lemma AddKeepsOwner(d: Driver, k: Books, n: nat, token: nat, segs: seq<Seg>, indirect: bool, x: nat)
    requires 0 < n <= |k.free| && k.free[0] !in k.flight && Owned(x, k)
    ensures Owned(x, AddBooks(d, k, n, token, segs, indirect))
  {
    var k' := AddBooks(d, k, n, token, segs, indirect);
    if x in k.free {
      var i :| 0 <= i < |k.free| && k.free[i] == x;
      if i < n {
        assert x == k'.flight[k.free[0]].ids[i];
      } else {
        assert x == k'.free[i - n];
      }
    } else {
      var h :| h in k.flight && x in k.flight[h].ids;
      assert h in k'.flight && k'.flight[h] == k.flight[h];
    }
  }

  lemma AddKeepsPhase(d: Driver, k: Books, n: nat, token: nat, segs: seq<Seg>, indirect: bool)
    requires IdsOk(d, k) && PhaseOk(d, k) && 0 < n <= d.numFree && (indirect ==> n == 1)
    ensures PhaseOk(AddDriver(d, n, token, indirect), AddBooks(d, k, n, token, segs, indirect))
  {
    SlotAdd(k.published, n, d.num);
  }

  // ---------------------------------------------------------------- get and detach

  ghost function DetachBooks(k: Books, id: nat): Books
    requires id in k.flight
  {
    k.(free := k.flight[id].ids + k.free, flight := k.flight - {id})
  }

  ghost function GetBooks(k: Books, id: nat): Books
    requires id in k.flight
  {
    DetachBooks(k, id).(reclaimed := k.reclaimed + |k.flight[id].ids|)
  }

  lemma DetachKeepsIds(d: Driver, k: Books, id: nat)
    requires IdsOk(d, k) && id in k.flight
    ensures IdsOk(DetachDriver(d, id), DetachBooks(k, id))
  {
    DetachKeepsFree(d, k, id);
    forall h | h in k.flight && h != id
      ensures BookingOk(DetachDriver(d, id).states, h, k.flight[h])
    {
      DetachKeepsOther(d, k, id, h);
    }
    DetachKeepsSeparate(k, id);
    forall x | 0 <= x < d.num
      ensures Owned(x, DetachBooks(k, id))
    {
      DetachKeepsOwner(k, id, x);
    }
  }

  lemma DetachKeepsSeparate(k: Books, id: nat)
    requires Separate(k) && id in k.flight
    ensures Separate(DetachBooks(k, id))
  {
    var k' := DetachBooks(k, id);
    forall h | h in k'.flight
      ensures Apart(k'.free, k'.flight[h].ids)
    {
      assert Apart(k.free, k.flight[h].ids) && Apart(k.flight[id].ids, k.flight[h].ids);
    }
  }

  lemma DetachKeepsFree(d: Driver, k: Books, id: nat)
    requires Fits(d) && FreeOk(d, k.free) && id in k.flight
    requires BookingOk(d.states, id, k.flight[id]) && Apart(k.free, k.flight[id].ids)
    ensures Fits(DetachDriver(d, id)) && FreeOk(DetachDriver(d, id), k.flight[id].ids + k.free)
  {
    var d', ids := DetachDriver(d, id), k.flight[id].ids;
    var free', last := ids + k.free, ids[|ids| - 1];
    assert Apart(ids, k.free);
    JoinNoDup(ids, k.free, d.num);
    forall i, j | 0 <= i && j == i + 1 && j < |free'|
      ensures d'.states[free'[i]].next == free'[j]
    {
      if j < |ids| {
        assert free'[i] == ids[i] != last && free'[j] == ids[j];
      } else if j == |ids| {
        assert free'[i] == last && free'[j] == k.free[0];
      } else {
        assert free'[i] == k.free[i - |ids|] != last && free'[j] == k.free[j - |ids|];
      }
    }
  }

  lemma DetachKeepsOwner(k: Books, id: nat, x: nat)
    requires id in k.flight && Owned(x, k)
    ensures Owned(x, DetachBooks(k, id))
  {
    var k' := DetachBooks(k, id);
    if x in k.free {
      assert x in k'.free;
    } else {
      var h :| h in k.flight && x in k.flight[h].ids;
      if h == id {
        assert x in k'.free;
      } else {
        assert h in k'.flight && k'.flight[h] == k.flight[h];
      }
    }
  }

  lemma DetachKeepsOther(d: Driver, k: Books, id: nat, h: nat)
    requires IdsOk(d, k) && id in k.flight && h in k.flight && h != id
    ensures BookingOk(DetachDriver(d, id).states, h, k.flight[h])
  {
    var a, b := k.flight[id].ids, k.flight[h].ids;
    assert Apart(a, b);
    assert a[0] == id && a[|a| - 1] == d.states[id].last;
    var d' := DetachDriver(d, id);
    forall i | 0 <= i < |b|
      ensures d'.states[b[i]] == d.states[b[i]]
    {
      assert a[0] != b[i] && a[|a| - 1] != b[i];
    }
    assert b[0] == h;
  }

  lemma DetachRoom(d: Driver, k: Books, id: nat)
    requires IdsOk(d, k) && id in k.flight
    ensures d.numFree + d.states[id].num <= d.num
  {
    JoinNoDup(k.flight[id].ids, k.free, d.num);
  }

  lemma AdvanceMovesUsed(d: Driver, n: nat, u: nat)
    requires 0 < d.num <= 0x8000 && n <= d.num
    requires d.lastUsed == Slot(u, d.num) && d.usedWrap == Phase(u, d.num)
    ensures AdvanceUsed(d, n).lastUsed == Slot(u + n, d.num)
    ensures AdvanceUsed(d, n).usedWrap == Phase(u + n, d.num)
  {
    SlotAdd(u, n, d.num);
  }

  lemma GetKeepsPhase(d: Driver, k: Books, id: nat)
    requires IdsOk(d, k) && PhaseOk(d, k) && id in k.flight
    ensures PhaseOk(GetDriver(d, id), GetBooks(k, id))
  {
    DetachRoom(d, k, id);
    assert BookingOk(d.states, id, k.flight[id]);
    PhaseAfterGet(d, k, id);
  }

  lemma PhaseAfterGet(d: Driver, k: Books, id: nat)
    requires 0 < d.num <= 0x8000 && PhaseOk(d, k) && d.numFree <= d.num
    requires id < |d.states| && d.states[id].last < |d.states| && id in k.flight
    requires d.states[id].num == |k.flight[id].ids| && d.numFree + d.states[id].num <= d.num
    ensures PhaseOk(GetDriver(d, id), GetBooks(k, id))
  {
    AdvanceMovesUsed(DetachDriver(d, id), d.states[id].num, k.reclaimed);
  }

  lemma AdvanceKeepsIds(d: Driver, k: Books, n: nat)
    requires IdsOk(d, k) && n <= d.num
    ensures IdsOk(AdvanceUsed(d, n), k.(reclaimed := k.reclaimed + n))
  {
    var d', k' := AdvanceUsed(d, n), k.(reclaimed := k.reclaimed + n);
    assert Fits(d') && FreeOk(d', k.free) && Separate(k');
    forall x | 0 <= x < d.num
      ensures Owned(x, k')
    {
      assert Owned(x, k);
    }
  }

  lemma GetKeepsIds(d: Driver, k: Books, id: nat)
    requires IdsOk(d, k) && id in k.flight
    ensures IdsOk(GetDriver(d, id), GetBooks(k, id))
  {
    DetachKeepsIds(d, k, id);
    assert BookingOk(d.states, id, k.flight[id]);
    AdvanceKeepsIds(DetachDriver(d, id), DetachBooks(k, id), d.states[id].num);
  }
}
