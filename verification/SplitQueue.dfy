/**
  The split virtqueue driver as it runs, tied to the functions of `SplitDriver`.  What the
  device wrote (used ring, used index, event fields) comes in as parameters.
 */
module SplitQueue {
  import opened RingMath
  import opened Common
  import opened FlagWord
  import opened SplitDriver

  datatype GetResult = Empty | OutOfRange | Got(token: nat, len: int)

  predicate KickDecision(availIdx: nat, numAdded: nat, suppression: bool, availEvent: nat, noNotify: bool) {
    if suppression then numAdded >= U16 || NeedEvent(availEvent, availIdx, Trunc16(availIdx - numAdded))
    else !noNotify
  }

  lemma {:induction false} FilledNext(desc: seq<Desc>, first: nat, segs: seq<Seg>, k: nat)
    requires first < |desc| && (forall i | 0 <= i < |desc| :: desc[i].next < |desc|) && k <= |segs|
    ensures forall x | 0 <= x < |desc| :: Filled(desc, first, segs, k)[x].next == desc[x].next
  {
    if k > 0 {
      FilledNext(desc, first, segs, k - 1);
    }
  }

  class Virtqueue {
    const num: nat
    const desc: array<Desc>
    const availRing: array<nat>
    const tokens: array<nat>
    const suppression: bool
    var availIdx: nat
    var sharedIdx: nat
    var noInterrupt: bool
    var sharedNoInterrupt: bool
    var usedEvent: nat
    var numUnused: nat
    var numAdded: nat
    var firstUnused: nat
    var lastUsed: nat
    ghost var books: Books

    function View(): Pool
      reads this`firstUnused, this`numUnused, desc, tokens
    {
      Pool(num, desc[..], tokens[..], firstUnused, numUnused)
    }

    ghost predicate Valid()
      reads this, desc, tokens
    {
      && tokens != availRing && availRing.Length == num && IsPow2(num)
      && IdsOk(View(), books) && CountsOk(availIdx, lastUsed, books) && sharedIdx == availIdx
    }

    constructor FromZeroed(num: nat, pages: array<Desc>, ring: array<nat>, suppression: bool)
      requires 0 < num <= 0x8000 && IsPow2(num) && pages.Length == num == ring.Length
      requires forall i | 0 <= i < num :: pages[i] == Desc(0, 0, NONE, 0)
      modifies pages
      ensures Valid() && fresh(tokens)
      ensures this.num == num && desc == pages && availRing == ring && this.suppression == suppression
      ensures numUnused == num && books == Books(seq(num, i => i), map[], 0, 0)
      ensures numAdded == 0 && !noInterrupt && !sharedNoInterrupt && usedEvent == 0
    {
      this.num := num;
      desc, availRing := pages, ring;
      this.suppression := suppression;
      availIdx, sharedIdx, lastUsed := 0, 0, 0;
      noInterrupt, sharedNoInterrupt, usedEvent := false, false, 0;
      numUnused, numAdded, firstUnused := num, 0, 0;
      tokens := new nat[num](_ => 0);
      books := Books(seq(num, i => i), map[], 0, 0);
      new;
      for i := 0 to num - 1
        modifies pages
        invariant View() == Pool(num, desc[..], seq(num, _ => 0), 0, num)
        invariant forall x | 0 <= x < i :: desc[x].next == x + 1
        invariant forall x | i <= x < num :: desc[x].next == 0
      {
        desc[i] := desc[i].(flags := NEXT, next := i + 1);
      }
      forall x | 0 <= x < num
        ensures Owned(x, books)
      {
        assert books.free[x] == x;
      }
    }

    /** Creates a queue, or refuses a size that is not a power of two. */
    static method New(num: nat, pages: array<Desc>, ring: array<nat>, suppression: bool) returns (q: Virtqueue?)
      requires 0 < num <= 0x8000 && pages.Length == num == ring.Length
      requires forall i | 0 <= i < num :: pages[i] == Desc(0, 0, NONE, 0)
      modifies pages
      ensures q != null <==> IsPow2(num)
      ensures q != null ==> q.Valid() && q.num == num && q.desc == pages && q.numUnused == num && fresh(q)
    {
      PowerOfTwoTest(num);
      if BitAnd(num, num - 1) != 0 {
        return null;
      }
      q := new Virtqueue.FromZeroed(num, pages, ring, suppression);
    }

    method GetUnusedDesc() returns (idx: nat)
      requires 0 < numUnused && firstUnused < desc.Length
      modifies this`firstUnused, this`numUnused
      ensures idx == old(firstUnused) && firstUnused == desc[idx].next && numUnused == old(numUnused) - 1
    {
      idx := firstUnused;
      firstUnused := desc[idx].next;
      numUnused := numUnused - 1;
    }

    /** Takes the next free descriptor and writes element `i` of the chain into it. */
    method WriteElement(buf: Buf, write: bool, ghost d0: seq<Desc>, ghost first: nat, ghost segs: seq<Seg>,
                        ghost i: nat)
      returns (last: nat)
      requires first < |d0| && (forall x | 0 <= x < |d0| :: d0[x].next < |d0|) && i < |segs|
      requires segs[i] == Seg(buf.addr, buf.len, write)
      requires desc[..] == Filled(d0, first, segs, i) && firstUnused == Hops(d0, first, i) && numUnused > 0
      modifies this`firstUnused, this`numUnused, desc
      ensures desc[..] == Filled(d0, first, segs, i + 1) && firstUnused == Hops(d0, first, i + 1)
      ensures last == Hops(d0, first, i) && numUnused == old(numUnused) - 1
    {
      FilledNext(d0, first, segs, i);
      last := GetUnusedDesc();
      desc[last] := desc[last].(addr := buf.addr, len := buf.len, flags := DirFlags(write, true), next := firstUnused);
    }

    /** The last element ends the chain. */
    method EndChain(last: nat, ghost p0: Pool, ghost segs: seq<Seg>, ghost token: nat)
      requires Fits(p0) && p0.num == num && 0 < |segs| <= p0.numUnused
      requires last == Hops(p0.desc, p0.firstUnused, |segs| - 1) && last < desc.Length
      requires desc[..] == Filled(p0.desc, p0.firstUnused, segs, |segs|)
      requires tokens[..] == p0.tokens[p0.firstUnused := token]
      requires firstUnused == Hops(p0.desc, p0.firstUnused, |segs|) && numUnused == p0.numUnused - |segs|
      modifies desc
      ensures View() == AddPool(p0, segs, token, NoPage)
    {
      hide Hops, Filled, ClearNext, Segs;
      desc[last] := desc[last].(flags := ClearNext(desc[last].flags));
    }

    method WriteDirect(sg: seq<Buf>, out: nat, token: nat)
      requires Fits(View()) && 0 < |sg| <= numUnused && out <= |sg|
      modifies this`firstUnused, this`numUnused, desc, tokens
      ensures View() == AddPool(old(View()), Segs(sg, out), token, NoPage)
    {
      ghost var p0, segs := View(), Segs(sg, out);
      var idx := firstUnused;
      tokens[idx] := token;
      assert Filled(p0.desc, idx, segs, 0) == p0.desc && Hops(p0.desc, idx, 0) == idx;
      hide Filled, Hops;
      var last := WriteElement(sg[0], 0 >= out, p0.desc, idx, segs, 0);
      for i := 1 to |sg|
        invariant desc[..] == Filled(p0.desc, idx, segs, i)
        invariant firstUnused == Hops(p0.desc, idx, i) && last == Hops(p0.desc, idx, i - 1)
        invariant numUnused == p0.numUnused - i
        invariant tokens[..] == p0.tokens[idx := token]
      {
        last := WriteElement(sg[i], i >= out, p0.desc, idx, segs, i);
      }
      EndChain(last, p0, segs, token);
    }

    method WriteIndirect(count: nat, token: nat, phys: int, ghost segs: seq<Seg>)
      requires Fits(View()) && 0 < numUnused && count == |segs| > 0
      modifies this`firstUnused, this`numUnused, desc, tokens
      ensures View() == AddPool(old(View()), segs, token, At(phys))
    {
      ghost var p0 := View();
      var idx := GetUnusedDesc();
      desc[idx] := desc[idx].(flags := INDIRECT, addr := phys, len := 16 * count);
      tokens[idx] := token;
      assert Hops(p0.desc, idx, 1) == p0.desc[Hops(p0.desc, idx, 0)].next;
    }

    method FillTable(sg: seq<Buf>, out: nat, table: array<Desc>)
      requires 0 < |sg| <= table.Length && |sg| < U16 && out <= |sg|
      modifies table
      ensures TableHolds(table[..|sg|], Segs(sg, out))
    {
      for i := 0 to |sg|
        invariant forall x | 0 <= x < i :: table[x] == Desc(sg[x].addr, sg[x].len, DirFlags(x >= out, true), x + 1)
      {
        table[i] := Desc(sg[i].addr, sg[i].len, DirFlags(i >= out, true), i + 1);
      }
      var last := |sg| - 1;
      table[last] := table[last].(flags := ClearNext(table[last].flags));
    }

    /** Puts the head into the available ring and publishes it. */
    method Publish(idx: nat)
      requires 0 < num <= 0x8000 && availRing.Length == num && IsPow2(num) && availIdx == Trunc16(books.published)
      modifies this`availIdx, this`sharedIdx, this`numAdded, availRing
      ensures availRing[..] == old(availRing[..])[Slot(books.published, num) := idx]
      ensures availIdx == sharedIdx == Trunc16(old(availIdx) + 1) && numAdded == old(numAdded) + 1
    {
      MaskedIndexIsSlot(books.published, num);
      availRing[BitAnd(availIdx, num - 1)] := idx;
      availIdx := Trunc16(availIdx + 1);
      sharedIdx := availIdx;
      numAdded := numAdded + 1;
    }

    /** Publishes the chain just written and books it. */
    method Finish(idx: nat, ghost p0: Pool, ghost segs: seq<Seg>, token: nat, ghost page: Page)
      requires 0 < |segs| && token != 0 && idx == p0.firstUnused && IdsOk(p0, books)
      requires SlotsOf(segs, page) <= p0.numUnused
      requires View() == AddPool(p0, segs, token, page) && CountsOk(availIdx, lastUsed, books)
      requires 0 < num <= 0x8000 && |books.free| == p0.numUnused && availIdx == Trunc16(books.published)
      requires tokens != availRing && availRing.Length == num && IsPow2(num)
      modifies this`availIdx, this`sharedIdx, this`numAdded, this`books, availRing
      ensures Valid() && View() == old(View()) && numAdded == old(numAdded) + 1
      ensures books == AddBooks(old(books), segs, token, page)
      ensures availRing[..] == old(availRing[..])[Slot(old(books).published, num) := idx]
    {
      hide IdsOk, AddPool, CountsOk;
      ghost var k0, idx0 := books, availIdx;
      AddKeepsIds(p0, k0, segs, token, page);
      FreshHead(p0, k0);
      AddKeepsCounts(p0, k0, idx0, lastUsed, segs, token, page);
      Publish(idx);
      books := AddBooks(k0, segs, token, page);
    }

    method AddBuf(sg: seq<Buf>, out: nat, token: nat, table: array?<Desc>, phys: int) returns (r: int)
      requires Valid() && 0 < |sg| && out <= |sg| && token != 0
      requires table != null ==> table != desc && |sg| <= table.Length && |sg| < U16
      modifies this`availIdx, this`sharedIdx, this`numAdded, this`firstUnused, this`numUnused, this`books
      modifies desc, tokens, availRing, table
      ensures Valid() && (r == 0 || r == -ENOSPC)
      ensures r == 0 <==> (table != null && |sg| > 1 && old(numUnused) > 0) || |sg| <= old(numUnused)
      ensures r != 0 ==>
                View() == old(View()) && books == old(books) && availIdx == old(availIdx) &&
                  availRing[..] == old(availRing[..])
      ensures r == 0 ==>
                var page := if table != null && |sg| > 1 then At(phys) else NoPage;
                && View() == AddPool(old(View()), Segs(sg, out), token, page)
                && books == AddBooks(old(books), Segs(sg, out), token, page)
                && availRing[..] == old(availRing[..])[Slot(old(books).published, num) := old(firstUnused)]
                && numAdded == old(numAdded) + 1
                && (page.At? ==> TableHolds(table[..|sg|], Segs(sg, out)))
    {
      if table != null && |sg| > 1 && numUnused > 0 {
        AddIndirect(sg, out, token, table, phys);
        return 0;
      }
      if |sg| > numUnused {
        return -ENOSPC;
      }
      AddDirect(sg, out, token);
      return 0;
    }

    method AddIndirect(sg: seq<Buf>, out: nat, token: nat, table: array<Desc>, phys: int)
      requires Valid() && 0 < |sg| && out <= |sg| && token != 0 && numUnused > 0
      requires table != desc && |sg| <= table.Length && |sg| < U16
      modifies this`availIdx, this`sharedIdx, this`numAdded, this`firstUnused, this`numUnused, this`books
      modifies desc, tokens, availRing, table
      ensures Valid() && numAdded == old(numAdded) + 1
      ensures View() == AddPool(old(View()), Segs(sg, out), token, At(phys))
      ensures books == AddBooks(old(books), Segs(sg, out), token, At(phys))
      ensures availRing[..] == old(availRing[..])[Slot(old(books).published, num) := old(firstUnused)]
      ensures TableHolds(table[..|sg|], Segs(sg, out))
    {
      ghost var p0, segs := View(), Segs(sg, out);
      var idx := firstUnused;
      FillTable(sg, out, table);
      WriteIndirect(|sg|, token, phys, segs);
      Finish(idx, p0, segs, token, At(phys));
    }

    method AddDirect(sg: seq<Buf>, out: nat, token: nat)
      requires Valid() && 0 < |sg| <= numUnused && out <= |sg| && token != 0
      modifies this`availIdx, this`sharedIdx, this`numAdded, this`firstUnused, this`numUnused, this`books
      modifies desc, tokens, availRing
      ensures Valid() && numAdded == old(numAdded) + 1
      ensures View() == AddPool(old(View()), Segs(sg, out), token, NoPage)
      ensures books == AddBooks(old(books), Segs(sg, out), token, NoPage)
      ensures availRing[..] == old(availRing[..])[Slot(old(books).published, num) := old(firstUnused)]
    {
      ghost var p0, segs := View(), Segs(sg, out);
      var idx := firstUnused;
      WriteDirect(sg, out, token);
      Finish(idx, p0, segs, token, NoPage);
    }

    /** Returns the chain starting at `start` to the free list, walking it by its NEXT flags. */
    method PutUnusedDescChain(start: nat)
      requires IdsOk(View(), books) && start in books.flight
      modifies this`firstUnused, this`numUnused, desc, tokens
      ensures View() == PutPool(old(View()), start)
    {
      ghost var p0, ids := View(), books.flight[start].ids;
      PutMeaning(p0, books, start);
      assert ChainOk(p0.desc, start, books.flight[start]);
      ghost var b := books.flight[start];
      tokens[start] := 0;
      var idx := start;
      ghost var i := 0;
      while desc[idx].flags.next
        invariant 0 <= i < |ids| && idx == ids[i] && numUnused == p0.numUnused + i
        invariant desc[idx].flags.next == (i != |ids| - 1)
        invariant desc[..] == p0.desc && tokens[..] == p0.tokens[start := 0] && firstUnused == p0.firstUnused
        decreases |ids| - i
      {
        idx := desc[idx].next;
        numUnused := numUnused + 1;
        i := i + 1;
      }
      desc[idx] := desc[idx].(flags := NEXT, next := firstUnused);
      numUnused := numUnused + 1;
      firstUnused := start;
    }

    /** Takes the token of `h`, frees its chain and moves to the books `k`. */
    method Reclaim(h: nat, ghost k: Books) returns (token: nat)
      requires IdsOk(View(), books) && h in books.flight
      requires k.free == PutBooks(books, h).free && k.flight == PutBooks(books, h).flight
      modifies this`firstUnused, this`numUnused, this`books, desc, tokens
      ensures token == old(books).flight[h].token != 0
      ensures View() == PutPool(old(View()), h) && books == k && IdsOk(View(), k)
    {
      PutKeepsIds(View(), books, h);
      IdsIgnoreCounts(PutPool(View(), h), PutBooks(books, h), k);
      token := tokens[h];
      PutUnusedDescChain(h);
      books := k;
    }

    method SetUsed(next: nat)
      requires tokens != availRing && availRing.Length == num && IsPow2(num) && sharedIdx == availIdx
      requires IdsOk(View(), books) && CountsOk(availIdx, next, books)
      modifies this`lastUsed
      ensures Valid() && lastUsed == next
    {
      hide IdsOk, PutPool, AddPool;
      lastUsed := next;
    }

    method SetAvail(prev: nat)
      requires tokens != availRing && availRing.Length == num && IsPow2(num)
      requires IdsOk(View(), books) && CountsOk(prev, lastUsed, books)
      modifies this`availIdx, this`sharedIdx
      ensures Valid() && availIdx == prev
    {
      hide IdsOk, PutPool, AddPool;
      availIdx := prev;
      sharedIdx := prev;
    }

    method Consume(h: nat) returns (token: nat)
      requires Valid() && h in books.flight
      modifies this`firstUnused, this`numUnused, this`lastUsed, this`books, desc, tokens
      ensures Valid() && token == old(books).flight[h].token && lastUsed == Trunc16(old(lastUsed) + 1)
      ensures View() == PutPool(old(View()), h) && books == GetBooks(old(books), h)
    {
      hide IdsOk, PutPool, AddPool;
      PutKeepsCounts(books, h, availIdx, lastUsed);
      ghost var k := GetBooks(books, h);
      var next := Trunc16(lastUsed + 1);
      token := Reclaim(h, k);
      SetUsed(next);
    }

    method PullBack(h: nat) returns (token: nat)
      requires Valid() && h in books.flight
      modifies this`firstUnused, this`numUnused, this`availIdx, this`sharedIdx, this`books, desc, tokens
      ensures Valid() && token == old(books).flight[h].token != 0 && old(books).published > 0
      ensures View() == PutPool(old(View()), h) && books == DetachBooks(old(books), h)
    {
      hide IdsOk, PutPool, AddPool;
      PutKeepsCounts(books, h, availIdx, lastUsed);
      ghost var k := DetachBooks(books, h);
      var prev := Trunc16(availIdx - 1);
      token := Reclaim(h, k);
      SetAvail(prev);
    }

    /** The effect of handling used element `e`: an id outside the table is skipped, any other reclaimed. */
    twostate predicate Took(e: (nat, int), r: GetResult)
      requires old(Valid()) && (e.0 < num ==> e.0 in old(books).flight)
      reads this, desc, tokens
    {
      && lastUsed == Trunc16(old(lastUsed) + 1)
      && if e.0 >= num then r == OutOfRange && View() == old(View()) && books == old(books) &&
        usedEvent == old(usedEvent)
         else
           && Valid() && r == Got(old(books).flight[e.0].token, e.1)
           && View() == PutPool(old(View()), e.0) && books == GetBooks(old(books), e.0)
           && usedEvent == if suppression && !noInterrupt then lastUsed else old(usedEvent)
    }

    /** Handles one used element. */
    method TakeElement(e: (nat, int)) returns (r: GetResult)
      requires Valid() && (e.0 < num ==> e.0 in books.flight)
      modifies this`firstUnused, this`numUnused, this`lastUsed, this`usedEvent, this`books, desc, tokens
      ensures Took(e, r)
    {
      hide IdsOk, PutPool, AddPool;
      if e.0 >= num {
        lastUsed := Trunc16(lastUsed + 1);
        return OutOfRange;
      }
      var token := Consume(e.0);
      if suppression && !noInterrupt {
        usedEvent := lastUsed;
      }
      return Got(token, e.1);
    }

    method UsedSlot() returns (idx: nat)
      requires Valid()
      ensures 0 < num && idx == Slot(books.reclaimed, num)
    {
      MaskedIndexIsSlot(books.reclaimed, num);
      idx := BitAnd(lastUsed, num - 1);
    }

    /**
      Returns the next completed buffer.  A conforming device only names heads of buffers in
      flight; an id outside the table is skipped.
     */
    method GetBuf(usedIdx: nat, used: seq<(nat, int)>) returns (r: GetResult)
      requires Valid() && |used| == num && usedIdx < U16
      requires var e := used[Slot(books.reclaimed, num)]; lastUsed != usedIdx && e.0 < num ==> e.0 in books.flight
      modifies this`firstUnused, this`numUnused, this`lastUsed, this`usedEvent, this`books, desc, tokens
      ensures old(lastUsed) == usedIdx ==>
                r == Empty && Valid() && View() == old(View()) && books == old(books) && usedEvent == old(usedEvent)
      ensures old(lastUsed) != usedIdx ==> Took(used[Slot(old(books).reclaimed, num)], r)
    {
      hide IdsOk, PutPool, AddPool, CountsOk;
      if lastUsed == usedIdx {
        return Empty;
      }
      var idx := UsedSlot();
      r := TakeElement(used[idx]);
    }

    /** The smallest head in flight, or `num`. */
    method FirstInFlight() returns (idx: nat)
      requires Valid()
      ensures idx <= num && (forall g | g in books.flight :: idx <= g)
      ensures idx < num <==> books.flight != map[]
      ensures idx < num ==> idx in books.flight
    {
      assert TokensOk(tokens[..], books.flight) && tokens.Length == num;
      hide IdsOk, CountsOk;
      idx := 0;
      while idx < num && tokens[idx] == 0
        invariant idx <= num
        invariant forall h | h in books.flight :: idx <= h < num
      {
        idx := idx + 1;
      }
      assert idx < num || forall h | h in books.flight :: false;
    }

    /** Pulls back one buffer the device never returned: the one with the smallest head. */
    method DetachUnusedBuf() returns (token: nat, ghost head: nat)
      requires Valid()
      modifies this`firstUnused, this`numUnused, this`availIdx, this`sharedIdx, this`books, desc, tokens
      ensures Valid() && lastUsed == old(lastUsed)
      ensures token == 0 <==> old(books).flight == map[]
      ensures token == 0 ==> View() == old(View()) && books == old(books)
      ensures token != 0 ==>
                && head in old(books).flight && (forall g | g in old(books).flight :: head <= g)
                && token == old(books).flight[head].token && old(books).published > 0
                && View() == PutPool(old(View()), head) && books == DetachBooks(old(books), head)
    {
      hide IdsOk, PutPool, AddPool, CountsOk;
      var idx := FirstInFlight();
      head := idx;
      if idx == num {
        return 0, head;
      }
      token := PullBack(idx);
    }

    /**
      What shutdown code does with the queue: detach until NULL.  Every token still in flight
      comes back exactly once; then all descriptors are free and the available index meets the
      used one.
     */
    method DrainUnused() returns (drained: seq<nat>, ghost heads: seq<nat>)
      requires Valid()
      modifies this`firstUnused, this`numUnused, this`availIdx, this`sharedIdx, this`books, desc, tokens
      ensures Valid() && books.flight == map[] && numUnused == num && availIdx == lastUsed == old(lastUsed)
      ensures |drained| == |heads| && NoDup(heads) && (forall h :: h in heads <==> h in old(books).flight)
      ensures forall i | 0 <= i < |heads| ::
                heads[i] in old(books).flight && drained[i] == old(books).flight[heads[i]].token
    {
      ghost var flight := books.flight;
      drained, heads := [], [];
      while true
        invariant Valid() && lastUsed == old(lastUsed)
        invariant Drained(flight, books.flight, drained, heads)
        decreases |books.flight|
      {
        ghost var before := books.flight;
        var token;
        ghost var head;
        token, head := DetachUnusedBuf();
        if token == 0 {
          break;
        }
        DrainedMore(flight, before, drained, heads, head);
        drained, heads := drained + [token], heads + [head];
        assert books.flight.Keys == before.Keys - {head};
      }
      AllFree(View(), books);
    }

    method DisableCb()
      modifies this`noInterrupt, this`sharedNoInterrupt
      ensures noInterrupt
      ensures sharedNoInterrupt == if suppression || old(noInterrupt) then old(sharedNoInterrupt) else true
    {
      if !noInterrupt {
        noInterrupt := true;
        if !suppression {
          sharedNoInterrupt := noInterrupt;
        }
      }
    }

    method EnableCb(usedIdx: nat) returns (none: bool)
      modifies this`noInterrupt, this`sharedNoInterrupt, this`usedEvent
      ensures !noInterrupt && usedEvent == lastUsed
      ensures sharedNoInterrupt == if suppression || !old(noInterrupt) then old(sharedNoInterrupt) else false
      ensures none <==> lastUsed == usedIdx
    {
      if noInterrupt {
        noInterrupt := false;
        if !suppression {
          sharedNoInterrupt := noInterrupt;
        }
      }
      usedEvent := lastUsed;
      return lastUsed == usedIdx;
    }

    method KickPrepare(availEvent: nat, noNotify: bool) returns (kick: bool)
      modifies this`numAdded
      ensures numAdded == 0 && kick == KickDecision(availIdx, old(numAdded), suppression, availEvent, noNotify)
    {
      var wrapAround := numAdded >= U16;
      var older := Trunc16(availIdx - numAdded);
      var newer := availIdx;
      numAdded := 0;
      if suppression {
        return wrapAround || NeedEvent(availEvent, newer, older);
      }
      return !noNotify;
    }
  }

  predicate TableHolds(t: seq<Desc>, segs: seq<Seg>) {
    |t| == |segs| &&
    forall i | 0 <= i < |t| :: t[i] == Desc(segs[i].addr, segs[i].len, DirFlags(segs[i].write, i != |t| - 1), i + 1)
  }

  /** `heads` left `flight` for `rest`, and `drained` are their tokens. */
  ghost predicate Drained(flight: map<nat, Booking>, rest: map<nat, Booking>, drained: seq<nat>, heads: seq<nat>) {
    && |drained| == |heads| && NoDup(heads)
    && (forall h :: h in flight <==> h in heads || h in rest)
    && (forall h | h in heads :: h !in rest)
    && (forall h | h in rest && h in flight :: rest[h] == flight[h])
    && (forall i | 0 <= i < |heads| :: heads[i] in flight && drained[i] == flight[heads[i]].token)
  }

  lemma DrainedMore(flight: map<nat, Booking>, rest: map<nat, Booking>, drained: seq<nat>, heads: seq<nat>, h: nat)
    requires Drained(flight, rest, drained, heads) && h in rest
    ensures h in flight && Drained(flight, rest - {h}, drained + [flight[h].token], heads + [h])
  {
    assert forall x :: x in heads + [h] <==> x in heads || x == h;
  }

  /** With nothing in flight every descriptor is free. */
  lemma AllFree(p: Pool, k: Books)
    requires IdsOk(p, k) && k.flight == map[]
    ensures p.numUnused == p.num
  {
    forall x: nat | x < p.num
      ensures x in k.free
    {
      assert Owned(x, k);
    }
    DistinctCount(k.free);
    assert Range(p.num) <= Elems(k.free);
    SubsetCount(Range(p.num), Elems(k.free));
  }
}
