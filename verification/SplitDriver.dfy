/**
  The driver half of a split virtqueue (section 2.7 of VIRTIO 1.2): the descriptor table with
  the free list threaded through it, and what adding and reclaiming a chain do to it.
 */
module SplitDriver {
  import opened RingMath
  import opened Common
  import opened FlagWord

  function DirFlags(write: bool, next: bool): Flags {
    NONE.(write := write, next := next)
  }

  // ---------------------------------------------------------------- data model

  datatype Desc = Desc(addr: int, len: int, flags: Flags, next: nat)
  datatype Page = NoPage | At(phys: int)

  /** Descriptor table, tokens (0 is NULL) and free-list registers. */
  datatype Pool = Pool(num: nat, desc: seq<Desc>, tokens: seq<nat>, firstUnused: nat, numUnused: nat)

  ghost predicate Fits(p: Pool) {
    && 0 < p.num <= 0x8000 && |p.desc| == |p.tokens| == p.num
    && p.firstUnused < p.num && p.numUnused <= p.num
    && forall i | 0 <= i < p.num :: p.desc[i].next < p.num
  }

  // ---------------------------------------------------------------- operations

  /** The descriptor reached from `x` after `k` links. */
  function Hops(desc: seq<Desc>, x: nat, k: nat): (r: nat)
    requires x < |desc| && forall i | 0 <= i < |desc| :: desc[i].next < |desc|
    ensures r < |desc|
  {
    if k == 0 then x else desc[Hops(desc, x, k - 1)].next
  }

  /** The table after the first `k` elements of a direct chain were written, all linked onwards. */
  function Filled(desc: seq<Desc>, first: nat, segs: seq<Seg>, k: nat): (r: seq<Desc>)
    requires first < |desc| && (forall i | 0 <= i < |desc| :: desc[i].next < |desc|) && k <= |segs|
    ensures |r| == |desc|
  {
    if k == 0 then desc
    else
      var x := Hops(desc, first, k - 1);
      Filled(desc, first, segs, k - 1)[x := Desc(segs[k - 1].addr, segs[k - 1].len, DirFlags(segs[k - 1].write, true),
                                                 desc[x].next)]
  }

  /** The whole direct chain: as `Filled`, and the last element ends it. */
  function ChainDesc(desc: seq<Desc>, first: nat, segs: seq<Seg>): (r: seq<Desc>)
    requires first < |desc| && (forall i | 0 <= i < |desc| :: desc[i].next < |desc|) && 0 < |segs|
    ensures |r| == |desc|
  {
    var m := Filled(desc, first, segs, |segs|);
    var last := Hops(desc, first, |segs| - 1);
    m[last := m[last].(flags := ClearNext(m[last].flags))]
  }

  function IndirectDesc(desc: seq<Desc>, first: nat, count: nat, phys: int): (r: seq<Desc>)
    requires first < |desc|
    ensures |r| == |desc|
  {
    desc[first := Desc(phys, 16 * count, INDIRECT, desc[first].next)]
  }

  function SlotsOf(segs: seq<Seg>, page: Page): nat {
    if page.At? then 1 else |segs|
  }

  function AddPool(p: Pool, segs: seq<Seg>, token: nat, page: Page): Pool
    requires p.firstUnused < |p.desc| == |p.tokens| && (forall i | 0 <= i < |p.desc| :: p.desc[i].next < |p.desc|)
    requires 0 < |segs| && SlotsOf(segs, page) <= p.numUnused
  {
    p.(desc := if page.At? then IndirectDesc(p.desc, p.firstUnused, |segs|, page.phys)
               else ChainDesc(p.desc, p.firstUnused, segs),
       tokens := p.tokens[p.firstUnused := token],
       firstUnused := Hops(p.desc, p.firstUnused, SlotsOf(segs, page)),
       numUnused := p.numUnused - SlotsOf(segs, page))
  }

  /** The end of the chain that starts at `x`, and its length, following NEXT for at most `fuel` links. */
  function ChainEnd(desc: seq<Desc>, x: nat, fuel: nat): (r: (nat, nat))
    requires x < |desc| && forall i | 0 <= i < |desc| :: desc[i].next < |desc|
    ensures r.0 < |desc| && r.1 > 0
    decreases fuel
  {
    if desc[x].flags.next && fuel > 0 then
      var r := ChainEnd(desc, desc[x].next, fuel - 1);
      (r.0, r.1 + 1)
    else (x, 1)
  }

  /** The chain that starts at `x` goes back to the front of the free list. */
  function PutPool(p: Pool, x: nat): Pool
    requires x < |p.desc| == |p.tokens| && (forall i | 0 <= i < |p.desc| :: p.desc[i].next < |p.desc|)
  {
    var (last, n) := ChainEnd(p.desc, x, |p.desc|);
    p.(desc := p.desc[last := p.desc[last].(flags := NEXT, next := p.firstUnused)],
       tokens := p.tokens[x := 0],
       firstUnused := x,
       numUnused := p.numUnused + n)
  }

  // ---------------------------------------------------------------- bookkeeping

  datatype Booking = Booking(ids: seq<nat>, token: nat, segs: seq<Seg>, page: Page)

  /** `published` and `reclaimed` count buffers since the ring was created. */
  datatype Books = Books(free: seq<nat>, flight: map<nat, Booking>, published: nat, reclaimed: nat)

  ghost predicate Linked(desc: seq<Desc>, s: seq<nat>)
    requires Below(s, |desc|)
  {
    forall i, j | 0 <= i && j == i + 1 && j < |s| :: desc[s[i]].next == s[j]
  }

  ghost predicate FreeOk(p: Pool, free: seq<nat>) {
    && |free| == p.numUnused
    && Below(free, |p.desc|) && NoDup(free) && Linked(p.desc, free)
    && (free != [] ==> free[0] == p.firstUnused)
  }

  /** The descriptors of a chain in flight say what was submitted. */
  ghost predicate Written(desc: seq<Desc>, b: Booking)
    requires Below(b.ids, |desc|)
  {
    match b.page
    case At(phys) =>
      |b.ids| == 1 && desc[b.ids[0]].addr == phys && desc[b.ids[0]].len == 16 * |b.segs| &&
        desc[b.ids[0]].flags == INDIRECT
    case NoPage =>
      |b.ids| == |b.segs| &&
      forall j | 0 <= j < |b.ids| ::
        && desc[b.ids[j]].addr == b.segs[j].addr && desc[b.ids[j]].len == b.segs[j].len
        && desc[b.ids[j]].flags == DirFlags(b.segs[j].write, j != |b.ids| - 1)
  }

  ghost predicate ChainOk(desc: seq<Desc>, h: nat, b: Booking) {
    && b.ids != [] && b.ids[0] == h && b.segs != []
    && Below(b.ids, |desc|) && NoDup(b.ids) && Linked(desc, b.ids) && Written(desc, b)
  }

  ghost predicate FlightOk(desc: seq<Desc>, flight: map<nat, Booking>) {
    forall h | h in flight :: ChainOk(desc, h, flight[h])
  }

  ghost predicate TokensOk(tokens: seq<nat>, flight: map<nat, Booking>) {
    && (forall h | h in flight :: h < |tokens| && tokens[h] == flight[h].token != 0)
    && (forall x | 0 <= x < |tokens| && x !in flight :: tokens[x] == 0)
  }

  ghost predicate Separate(k: Books) {
    && (forall h | h in k.flight :: Apart(k.free, k.flight[h].ids))
    && (forall g, h | g in k.flight && h in k.flight && g != h :: Apart(k.flight[g].ids, k.flight[h].ids))
  }

  ghost predicate Owned(x: nat, k: Books) {
    x in k.free || exists h | h in k.flight :: x in k.flight[h].ids
  }

  ghost predicate Covered(n: nat, k: Books) {
    forall x | 0 <= x < n :: Owned(x, k)
  }

  /** Free list and chains in flight split the descriptor table. */
  ghost predicate IdsOk(p: Pool, k: Books) {
    && Fits(p) && FreeOk(p, k.free) && FlightOk(p.desc, k.flight) && TokensOk(p.tokens, k.flight)
    && Separate(k) && Covered(p.num, k)
  }

  /** 16-bit indices and unbounded counters; one available-ring entry per buffer in flight. */
  ghost predicate CountsOk(availIdx: nat, lastUsed: nat, k: Books) {
    && availIdx == Trunc16(k.published) && lastUsed == Trunc16(k.reclaimed)
    && k.published == k.reclaimed + |k.flight|
  }

  /** Heads in flight are distinct descriptors, none of them free: fewer than `num` while any is free. */
  lemma FlightCount(p: Pool, k: Books)
    requires IdsOk(p, k)
    ensures |k.flight| + p.numUnused <= p.num
  {
    DistinctCount(k.free);
    assert forall h | h in k.flight :: ChainOk(p.desc, h, k.flight[h]);
    assert forall h | h in k.flight :: Apart(k.free, k.flight[h].ids);
    assert k.flight.Keys !! Elems(k.free) by {
      forall h | h in k.flight
        ensures h !in k.free
      {
        assert k.flight[h].ids[0] == h;
      }
    }
    var both := k.flight.Keys + Elems(k.free);
    assert |both| == |k.flight.Keys| + |Elems(k.free)|;
    assert both <= Range(p.num);
    SubsetCount(both, Range(p.num));
  }

  // ---------------------------------------------------------------- add

  lemma {:induction false} HopsFollow(p: Pool, free: seq<nat>, k: nat)
    requires Fits(p) && FreeOk(p, free) && k < |free|
    ensures Hops(p.desc, p.firstUnused, k) == free[k]
  {
    if k > 0 {
      HopsFollow(p, free, k - 1);
    }
  }

  /** `Filled`, entry by entry. */
  lemma {:induction false} FilledAt(p: Pool, free: seq<nat>, segs: seq<Seg>, k: nat)
    requires Fits(p) && FreeOk(p, free) && k <= |segs| <= |free|
    ensures forall j | 0 <= j < k ::
              Filled(p.desc, p.firstUnused, segs, k)[free[j]]
              == Desc(segs[j].addr, segs[j].len, DirFlags(segs[j].write, true), p.desc[free[j]].next)
    ensures forall x | 0 <= x < p.num && x !in free[..k] :: Filled(p.desc, p.firstUnused, segs, k)[x] == p.desc[x]
  {
    if k > 0 {
      FilledAt(p, free, segs, k - 1);
      HopsFollow(p, free, k - 1);
      assert free[..k] == free[..k - 1] + [free[k - 1]];
    }
  }

  lemma ChainDescAt(p: Pool, free: seq<nat>, segs: seq<Seg>)
    requires Fits(p) && FreeOk(p, free) && 0 < |segs| <= |free|
    ensures forall j | 0 <= j < |segs| ::
              ChainDesc(p.desc, p.firstUnused, segs)[free[j]]
              == Desc(segs[j].addr, segs[j].len, DirFlags(segs[j].write, j != |segs| - 1), p.desc[free[j]].next)
    ensures forall x | 0 <= x < p.num && x !in free[..|segs|] :: ChainDesc(p.desc, p.firstUnused, segs)[x] == p.desc[x]
  {
    var n := |segs|;
    FilledAt(p, free, segs, n);
    HopsFollow(p, free, n - 1);
    var desc' := ChainDesc(p.desc, p.firstUnused, segs);
    forall j | 0 <= j < n
      ensures desc'[free[j]] == Desc(segs[j].addr, segs[j].len, DirFlags(segs[j].write, j != n - 1),
                                     p.desc[free[j]].next)
    {
      assert j < n - 1 ==> free[j] != free[n - 1];
    }
    assert free[n - 1] == free[..n][n - 1];
  }

  lemma ChainDescNext(p: Pool, free: seq<nat>, segs: seq<Seg>, x: nat)
    requires Fits(p) && FreeOk(p, free) && 0 < |segs| <= |free| && x < p.num
    ensures ChainDesc(p.desc, p.firstUnused, segs)[x].next == p.desc[x].next
  {
    ChainDescAt(p, free, segs);
    if x in free[..|segs|] {
      var j :| 0 <= j < |segs| && free[..|segs|][j] == x;
      assert free[j] == x;
    }
  }

  /** What an add leaves in the table: the new chain on the first free descriptors, all else untouched. */
  lemma AddedDesc(p: Pool, free: seq<nat>, segs: seq<Seg>, token: nat, page: Page)
    requires Fits(p) && FreeOk(p, free) && 0 < |segs| && SlotsOf(segs, page) <= |free|
    ensures var desc' := AddPool(p, segs, token, page).desc;
            var n := SlotsOf(segs, page);
            && ChainOk(desc', p.firstUnused, Booking(free[..n], token, segs, page))
            && (forall x | 0 <= x < p.num && x !in free[..n] :: desc'[x] == p.desc[x])
            && (forall x | 0 <= x < p.num :: desc'[x].next == p.desc[x].next)
  {
    match page
    case At(phys) =>
      assert free[..1] == [p.firstUnused];
    case NoPage =>
      ChainDescAt(p, free, segs);
      forall x | 0 <= x < p.num
        ensures ChainDesc(p.desc, p.firstUnused, segs)[x].next == p.desc[x].next
      {
        ChainDescNext(p, free, segs, x);
      }
      NewChainOk(p, free, segs, token, ChainDesc(p.desc, p.firstUnused, segs));
  }

  lemma NewChainOk(p: Pool, free: seq<nat>, segs: seq<Seg>, token: nat, desc': seq<Desc>)
    requires Fits(p) && FreeOk(p, free) && 0 < |segs| <= |free| && |desc'| == p.num
    requires forall j | 0 <= j < |segs| ::
               desc'[free[j]] == Desc(segs[j].addr, segs[j].len, DirFlags(segs[j].write, j != |segs| - 1),
                                      p.desc[free[j]].next)
    ensures ChainOk(desc', p.firstUnused, Booking(free[..|segs|], token, segs, NoPage))
  {
  }

  ghost function AddBooks(k: Books, segs: seq<Seg>, token: nat, page: Page): Books
    requires 0 < |segs| && SlotsOf(segs, page) <= |k.free|
  {
    var n := SlotsOf(segs, page);
    k.(free := k.free[n..],
       flight := k.flight[k.free[0] := Booking(k.free[..n], token, segs, page)],
       published := k.published + 1)
  }

  lemma AddKeepsFree(p: Pool, k: Books, segs: seq<Seg>, token: nat, page: Page)
    requires Fits(p) && FreeOk(p, k.free) && 0 < |segs| && SlotsOf(segs, page) <= |k.free|
    ensures var p' := AddPool(p, segs, token, page); Fits(p') && FreeOk(p', AddBooks(k, segs, token, page).free)
  {
    var n := SlotsOf(segs, page);
    AddedDesc(p, k.free, segs, token, page);
    if n < |k.free| {
      HopsFollow(p, k.free, n);
    }
  }

  lemma FreshHead(p: Pool, k: Books)
    requires IdsOk(p, k) && k.free != []
    ensures k.free[0] == p.firstUnused && k.free[0] !in k.flight
  {
    forall h | h in k.flight
      ensures h != k.free[0]
    {
      assert ChainOk(p.desc, h, k.flight[h]) && Apart(k.free, k.flight[h].ids);
      assert k.flight[h].ids[0] == h;
    }
  }

  lemma ChainFrame(desc: seq<Desc>, desc': seq<Desc>, h: nat, b: Booking)
    requires |desc| == |desc'| && ChainOk(desc, h, b)
    requires forall i | 0 <= i < |b.ids| :: desc'[b.ids[i]] == desc[b.ids[i]]
    ensures ChainOk(desc', h, b)
  {
  }

  lemma AddKeepsFlight(p: Pool, k: Books, segs: seq<Seg>, token: nat, page: Page)
    requires IdsOk(p, k) && 0 < |segs| && SlotsOf(segs, page) <= |k.free|
    ensures FlightOk(AddPool(p, segs, token, page).desc, AddBooks(k, segs, token, page).flight)
  {
    var n, desc' := SlotsOf(segs, page), AddPool(p, segs, token, page).desc;
    AddedDesc(p, k.free, segs, token, page);
    FreshHead(p, k);
    forall h | h in k.flight
      ensures ChainOk(desc', h, k.flight[h])
    {
      assert Apart(k.free, k.flight[h].ids);
      forall i | 0 <= i < |k.flight[h].ids|
        ensures desc'[k.flight[h].ids[i]] == p.desc[k.flight[h].ids[i]]
      {
        assert k.flight[h].ids[i] !in k.free[..n];
      }
      ChainFrame(p.desc, desc', h, k.flight[h]);
    }
  }

  lemma AddKeepsOwner(k: Books, segs: seq<Seg>, token: nat, page: Page, x: nat)
    requires 0 < |segs| && SlotsOf(segs, page) <= |k.free| && k.free[0] !in k.flight && Owned(x, k)
    ensures Owned(x, AddBooks(k, segs, token, page))
  {
    var n, k' := SlotsOf(segs, page), AddBooks(k, segs, token, page);
    if x in k.free {
      var i :| 0 <= i < |k.free| && k.free[i] == x;
      if i < n {
        assert x == k'.flight[k.free[0]].ids[i];
      } else {
        assert x == k'.free[i - n];
      }
    } else {
      var h :| h in k.flight && x in k.flight[h].ids;
      assert h in k'.flight && k'.flight[h] == k.flight[h];
    }
  }

  lemma AddKeepsSeparate(k: Books, segs: seq<Seg>, token: nat, page: Page)
    requires Separate(k) && NoDup(k.free) && 0 < |segs| && SlotsOf(segs, page) <= |k.free|
    ensures Separate(AddBooks(k, segs, token, page))
  {
    var n, k' := SlotsOf(segs, page), AddBooks(k, segs, token, page);
    assert forall i | 0 <= i < n :: k'.flight[k.free[0]].ids[i] == k.free[i];
    assert forall i | 0 <= i < |k'.free| :: k'.free[i] == k.free[i + n];
  }

  lemma AddKeepsIds(p: Pool, k: Books, segs: seq<Seg>, token: nat, page: Page)
    requires IdsOk(p, k) && 0 < |segs| && SlotsOf(segs, page) <= p.numUnused && token != 0
    ensures IdsOk(AddPool(p, segs, token, page), AddBooks(k, segs, token, page))
  {
    AddKeepsFree(p, k, segs, token, page);
    AddKeepsFlight(p, k, segs, token, page);
    FreshHead(p, k);
    AddKeepsSeparate(k, segs, token, page);
    forall x | 0 <= x < p.num
      ensures Owned(x, AddBooks(k, segs, token, page))
    {
      AddKeepsOwner(k, segs, token, page, x);
    }
  }

  lemma AddKeepsCounts(p: Pool, k: Books, availIdx: nat, lastUsed: nat, segs: seq<Seg>, token: nat, page: Page)
    requires CountsOk(availIdx, lastUsed, k) && 0 < |segs| && SlotsOf(segs, page) <= |k.free| && k.free[0] !in k.flight
    ensures CountsOk(Trunc16(availIdx + 1), lastUsed, AddBooks(k, segs, token, page))
  {
    assert |AddBooks(k, segs, token, page).flight| == |k.flight| + 1;
  }

  // ---------------------------------------------------------------- reclaim

  lemma {:induction false} EndOfChain(desc: seq<Desc>, h: nat, b: Booking, j: nat, fuel: nat)
    requires ChainOk(desc, h, b) && (forall i | 0 <= i < |desc| :: desc[i].next < |desc|)
    requires j < |b.ids| <= j + fuel
    ensures ChainEnd(desc, b.ids[j], fuel) == (b.ids[|b.ids| - 1], |b.ids| - j)
    decreases fuel
  {
    if j < |b.ids| - 1 {
      EndOfChain(desc, h, b, j + 1, fuel - 1);
    }
  }

  /** Reclaiming a chain in flight, in terms of its booked descriptors. */
  lemma PutMeaning(p: Pool, k: Books, h: nat)
    requires IdsOk(p, k) && h in k.flight
    ensures h < p.num
    ensures var ids := k.flight[h].ids;
            var last := ids[|ids| - 1];
            && last < p.num
            && PutPool(p, h) == p.(desc := p.desc[last := p.desc[last].(flags := NEXT, next := p.firstUnused)],
                                   tokens := p.tokens[h := 0], firstUnused := h, numUnused := p.numUnused + |ids|)
  {
    assert ChainOk(p.desc, h, k.flight[h]);
    Pigeonhole(k.flight[h].ids, p.num);
    EndOfChain(p.desc, h, k.flight[h], 0, p.num);
  }

  ghost function PutBooks(k: Books, h: nat): Books
    requires h in k.flight
  {
    k.(free := k.flight[h].ids + k.free, flight := k.flight - {h})
  }

  ghost function GetBooks(k: Books, h: nat): Books
    requires h in k.flight
  {
    PutBooks(k, h).(reclaimed := k.reclaimed + 1)
  }

  ghost function DetachBooks(k: Books, h: nat): Books
    requires h in k.flight && k.published > 0
  {
    PutBooks(k, h).(published := k.published - 1)
  }

  lemma PutKeepsFree(p: Pool, k: Books, h: nat)
    requires IdsOk(p, k) && h in k.flight
    ensures Fits(PutPool(p, h)) && FreeOk(PutPool(p, h), k.flight[h].ids + k.free)
  {
    PutMeaning(p, k, h);
    assert ChainOk(p.desc, h, k.flight[h]) && Apart(k.free, k.flight[h].ids);
    PutLinks(p, k.free, k.flight[h].ids);
  }

  lemma PutLinks(p: Pool, free: seq<nat>, ids: seq<nat>)
    requires Fits(p) && FreeOk(p, free) && ids != [] && Below(ids, p.num) && NoDup(ids) && Linked(p.desc, ids)
    requires Apart(free, ids)
    ensures var last := ids[|ids| - 1];
            var p' := p.(desc := p.desc[last := p.desc[last].(flags := NEXT, next := p.firstUnused)],
                         firstUnused := ids[0], numUnused := p.numUnused + |ids|);
            FreeOk(p', ids + free) && p'.numUnused <= p.num
  {
    var last := ids[|ids| - 1];
    var desc' := p.desc[last := p.desc[last].(flags := NEXT, next := p.firstUnused)];
    var free' := ids + free;
    assert Apart(ids, free);
    JoinNoDup(ids, free, p.num);
    forall i, j | 0 <= i && j == i + 1 && j < |free'|
      ensures desc'[free'[i]].next == free'[j]
    {
      if j < |ids| {
        assert free'[i] == ids[i] != last && free'[j] == ids[j];
      } else if j == |ids| {
        assert free'[i] == last && free'[j] == free[0];
      } else {
        assert free'[i] == free[i - |ids|] != last && free'[j] == free[j - |ids|];
      }
    }
  }

  lemma PutKeepsFlight(p: Pool, k: Books, h: nat)
    requires IdsOk(p, k) && h in k.flight
    ensures FlightOk(PutPool(p, h).desc, k.flight - {h}) && TokensOk(PutPool(p, h).tokens, k.flight - {h})
  {
    PutMeaning(p, k, h);
    var a := k.flight[h].ids;
    forall g | g in k.flight && g != h
      ensures ChainOk(PutPool(p, h).desc, g, k.flight[g])
    {
      assert Apart(a, k.flight[g].ids);
      assert ChainOk(p.desc, g, k.flight[g]);
      forall i | 0 <= i < |k.flight[g].ids|
        ensures k.flight[g].ids[i] != a[|a| - 1]
      {
      }
      ChainFrame(p.desc, PutPool(p, h).desc, g, k.flight[g]);
    }
  }

  lemma PutKeepsOwner(k: Books, h: nat, x: nat)
    requires h in k.flight && Owned(x, k)
    ensures Owned(x, PutBooks(k, h))
  {
    var k' := PutBooks(k, h);
    if x in k.free {
      assert x in k'.free;
    } else {
      var g :| g in k.flight && x in k.flight[g].ids;
      if g == h {
        assert x in k'.free;
      } else {
        assert g in k'.flight && k'.flight[g] == k.flight[g];
      }
    }
  }

  lemma PutKeepsSeparate(k: Books, h: nat)
    requires Separate(k) && h in k.flight
    ensures Separate(PutBooks(k, h))
  {
    var k' := PutBooks(k, h);
    forall g | g in k'.flight
      ensures Apart(k'.free, k'.flight[g].ids)
    {
      assert Apart(k.free, k.flight[g].ids) && Apart(k.flight[h].ids, k.flight[g].ids);
    }
  }

  lemma PutKeepsIds(p: Pool, k: Books, h: nat)
    requires IdsOk(p, k) && h in k.flight
    ensures h < p.num && IdsOk(PutPool(p, h), PutBooks(k, h))
  {
    PutMeaning(p, k, h);
    PutKeepsFree(p, k, h);
    PutKeepsFlight(p, k, h);
    PutKeepsSeparate(k, h);
    forall x | 0 <= x < p.num
      ensures Owned(x, PutBooks(k, h))
    {
      PutKeepsOwner(k, h, x);
    }
  }

  /** Only the three id components of the books matter to `IdsOk`. */
  lemma IdsIgnoreCounts(p: Pool, k: Books, k': Books)
    requires IdsOk(p, k) && k'.free == k.free && k'.flight == k.flight
    ensures IdsOk(p, k')
  {
    forall x | 0 <= x < p.num
      ensures Owned(x, k')
    {
      assert Owned(x, k);
    }
  }

  lemma FlightShrinks(k: Books, h: nat)
    requires h in k.flight
    ensures |k.flight - {h}| == |k.flight| - 1
  {
    assert (k.flight - {h}).Keys == k.flight.Keys - {h};
  }

  lemma PutKeepsCounts(k: Books, h: nat, availIdx: nat, lastUsed: nat)
    requires CountsOk(availIdx, lastUsed, k) && h in k.flight
    ensures CountsOk(availIdx, Trunc16(lastUsed + 1), GetBooks(k, h))
    ensures k.published > 0 && CountsOk(Trunc16(availIdx - 1), lastUsed, DetachBooks(k, h))
  {
    FlightShrinks(k, h);
  }
}
