/**
  The command-buffer pool: two circular doubly linked lists threaded through the buffers
  themselves, one of free buffers and one of buffers in use.  Addresses are indices; the two
  list heads are the last two.
 */
module BufferPool {
  import opened Common

  // ---------------------------------------------------------------- circular lists

  /** The `i`-th node of the circle: the head, the elements, the head again. */
  function Node(head: nat, s: seq<nat>, i: nat): nat {
    if 1 <= i <= |s| then s[i - 1] else head
  }

  /** `flink` and `blink` thread `s` through `head`, forwards and backwards. */
  ghost predicate Ring(fl: seq<nat>, bl: seq<nat>, head: nat, s: seq<nat>) {
    && |fl| == |bl| && head < |fl| && Below(s, |fl|) && NoDup(s) && head !in s
    && (forall i: nat | i <= |s| :: Joined(fl, bl, Node(head, s, i), Node(head, s, i + 1)))
  }

  ghost predicate Joined(fl: seq<nat>, bl: seq<nat>, a: nat, b: nat) {
    a < |fl| && b < |bl| && fl[a] == b && bl[b] == a
  }

  lemma RingEnds(fl: seq<nat>, bl: seq<nat>, head: nat, s: seq<nat>)
    requires Ring(fl, bl, head, s)
    ensures fl[head] == Node(head, s, 1) && bl[head] == Node(head, s, |s|)
    ensures fl[head] == head <==> s == []
  {
    assert Joined(fl, bl, Node(head, s, 0), Node(head, s, 1));
    assert Joined(fl, bl, Node(head, s, |s|), Node(head, s, |s| + 1));
  }

  lemma RingAt(fl: seq<nat>, bl: seq<nat>, head: nat, s: seq<nat>, k: nat)
    requires Ring(fl, bl, head, s) && k < |s|
    ensures bl[s[k]] == Node(head, s, k) && fl[s[k]] == Node(head, s, k + 2)
  {
    assert Joined(fl, bl, Node(head, s, k), Node(head, s, k + 1));
    assert Joined(fl, bl, Node(head, s, k + 1), Node(head, s, k + 2));
  }

  function Appended(fl: seq<nat>, bl: seq<nat>, head: nat, e: nat): (seq<nat>, seq<nat>)
    requires head < |fl| == |bl| && e < |fl| && bl[head] < |fl|
  {
    var tail := bl[head];
    (fl[e := head][tail := e], bl[e := tail][head := e])
  }

  lemma AppendKeeps(fl: seq<nat>, bl: seq<nat>, head: nat, s: seq<nat>, e: nat)
    requires Ring(fl, bl, head, s) && e < |fl| && e != head && e !in s
    ensures bl[head] < |fl|
    ensures var (fl', bl') := Appended(fl, bl, head, e); Ring(fl', bl', head, s + [e])
  {
    RingEnds(fl, bl, head, s);
    var s' := s + [e];
    var (fl', bl') := Appended(fl, bl, head, e);
    forall i: nat | i <= |s'|
      ensures Joined(fl', bl', Node(head, s', i), Node(head, s', i + 1))
    {
      if i < |s| {
        assert Joined(fl, bl, Node(head, s, i), Node(head, s, i + 1));
        assert Node(head, s, i) != Node(head, s, |s|);
      } else if i == |s| {
        assert Node(head, s', i) == Node(head, s, i) && Node(head, s', i + 1) == e;
      }
    }
  }

  function Without(s: seq<nat>, k: nat): seq<nat>
    requires k < |s|
  {
    s[..k] + s[k + 1..]
  }

  lemma WithoutElems(s: seq<nat>, k: nat, n: nat)
    requires k < |s| && NoDup(s) && Below(s, n)
    ensures NoDup(Without(s, k)) && Below(Without(s, k), n)
    ensures forall x: nat :: x in Without(s, k) <==> x in s && x != s[k]
  {
    var r := Without(s, k);
    forall x: nat
      ensures x in r <==> x in s && x != s[k]
    {
      if x in s && x != s[k] {
        var i :| 0 <= i < |s| && s[i] == x;
        assert x == if i < k then r[i] else r[i - 1];
      }
      if x in r {
        var i :| 0 <= i < |r| && r[i] == x;
        assert x == if i < k then s[i] else s[i + 1];
      }
    }
  }

  function Removed(fl: seq<nat>, bl: seq<nat>, e: nat): (seq<nat>, seq<nat>)
    requires e < |fl| == |bl| && fl[e] < |fl| && bl[e] < |fl|
  {
    (fl[bl[e] := fl[e]], bl[fl[e] := bl[e]])
  }

  lemma RemoveKeeps(fl: seq<nat>, bl: seq<nat>, head: nat, s: seq<nat>, k: nat)
    requires Ring(fl, bl, head, s) && k < |s|
    ensures fl[s[k]] < |fl| && bl[s[k]] < |fl|
    ensures var (fl', bl') := Removed(fl, bl, s[k]); Ring(fl', bl', head, Without(s, k))
  {
    RingAt(fl, bl, head, s, k);
    WithoutElems(s, k, |fl|);
    var s' := Without(s, k);
    var (fl', bl') := Removed(fl, bl, s[k]);
    forall i: nat | i <= |s'|
      ensures Joined(fl', bl', Node(head, s', i), Node(head, s', i + 1))
    {
      if i < k {
        assert Joined(fl, bl, Node(head, s, i), Node(head, s, i + 1));
        assert Node(head, s', i) == Node(head, s, i) && Node(head, s', i + 1) == Node(head, s, i + 1);
      } else if i == k {
        assert Node(head, s', i) == Node(head, s, i) && Node(head, s', i + 1) == Node(head, s, i + 2);
      } else {
        assert Joined(fl, bl, Node(head, s, i + 1), Node(head, s, i + 2));
        assert Node(head, s', i) == Node(head, s, i + 1) && Node(head, s', i + 1) == Node(head, s, i + 2);
      }
    }
  }

  /** Links outside a circle do not matter to it. */
  lemma OtherRing(fl: seq<nat>, bl: seq<nat>, fl': seq<nat>, bl': seq<nat>, head: nat, s: seq<nat>)
    requires Ring(fl, bl, head, s) && |fl'| == |bl'| == |fl|
    requires fl'[head] == fl[head] && bl'[head] == bl[head]
    requires forall i | 0 <= i < |s| :: fl'[s[i]] == fl[s[i]] && bl'[s[i]] == bl[s[i]]
    ensures Ring(fl', bl', head, s)
  {
    forall i: nat | i <= |s|
      ensures Joined(fl', bl', Node(head, s, i), Node(head, s, i + 1))
    {
      assert Joined(fl, bl, Node(head, s, i), Node(head, s, i + 1));
    }
  }

  // ---------------------------------------------------------------- the pool

  const MAX_INLINE_RESP_SIZE := 24

  /** Sizes of what hangs off a buffer; a larger response and any data are separate allocations. */
  datatype Held = Held(size: nat, respSize: nat, dataSize: nat)

  predicate OwnsNothing(h: Held) {
    h.respSize <= MAX_INLINE_RESP_SIZE && h.dataSize == 0
  }

  datatype Lists = Lists(free: seq<nat>, used: seq<nat>)

  /** The two lists split the buffers `0..n`. */
  ghost predicate Split(l: Lists, n: nat) {
    && NoDup(l.free) && NoDup(l.used) && Below(l.free, n) && Below(l.used, n) && Apart(l.free, l.used)
    && |l.free| + |l.used| == n
  }

  function Got(l: Lists): Lists
    requires l.free != []
  {
    Lists(l.free[1..], l.used + [l.free[0]])
  }

  function Freed(l: Lists, k: nat): Lists
    requires k < |l.used|
  {
    Lists(l.free + [l.used[k]], Without(l.used, k))
  }

  lemma GotKeeps(l: Lists, n: nat)
    requires Split(l, n) && l.free != []
    ensures Split(Got(l), n)
  {
  }

  lemma FreedKeeps(l: Lists, k: nat, n: nat)
    requires Split(l, n) && k < |l.used|
    ensures Split(Freed(l, k), n)
  {
    WithoutElems(l.used, k, n);
    var b, used' := l.used[k], Without(l.used, k);
    forall j | 0 <= j < |used'|
      ensures used'[j] != b && used'[j] in l.used
    {
      assert used'[j] in used';
    }
    assert Apart(l.free + [b], used');
  }

  /** With two split lists every buffer is in exactly one of them. */
  lemma EveryBuffer(l: Lists, n: nat, x: nat)
    requires Split(l, n) && x < n
    ensures x in l.free <==> x !in l.used
  {
    if x !in l.free && x !in l.used {
      JoinNoDup(l.free, l.used, n);
      var all := l.free + l.used + [x];
      assert NoDup(all) && Below(all, n);
      Pigeonhole(all, n);
    }
  }

  class VioGpuBuf {
    const count: nat
    const flink: array<nat>
    const blink: array<nat>
    const held: array<Held>
    ghost var lists: Lists

    ghost predicate Links()
      reads this, flink, blink
    {
      && flink.Length == blink.Length == count + 2 && flink != blink
      && Ring(flink[..], blink[..], count, lists.free) && Ring(flink[..], blink[..], count + 1, lists.used)
      && Below(lists.free, count) && Below(lists.used, count) && Apart(lists.free, lists.used)
    }

    ghost predicate Valid()
      reads this, flink, blink, held
    {
      && Links() && Split(lists, count) && held.Length == count
      && forall i | 0 <= i < |lists.free| :: OwnsNothing(held[lists.free[i]])
    }

    constructor Init(n: nat)
      ensures Valid() && count == n && fresh(flink) && fresh(blink) && fresh(held)
      ensures lists == Lists(seq(n, i => i), [])
    {
      count := n;
      flink := new nat[n + 2](i => i);
      blink := new nat[n + 2](i => i);
      held := new Held[n](_ => Held(0, 0, 0));
      lists := Lists([], []);
      new;
      for i := 0 to n
        modifies this, flink, blink
        invariant Links() && lists == Lists(seq(i, j => j), []) && held[..] == seq(n, _ => Held(0, 0, 0))
      {
        InsertFree(i);
        assert seq(i, j => j) + [i] == seq(i + 1, j => j);
      }
      assert forall i | 0 <= i < n :: held[i] == held[..][i];
    }

    /** `InsertTailList`, in its order of stores. */
    method InsertTail(head: nat, e: nat)
      requires head < flink.Length == blink.Length && flink != blink && e < flink.Length && blink[head] < flink.Length
      requires e != head
      modifies flink, blink
      ensures (flink[..], blink[..]) == Appended(old(flink[..]), old(blink[..]), head, e)
    {
      var tail := blink[head];
      flink[e] := head;
      blink[e] := tail;
      flink[tail] := e;
      blink[head] := e;
    }

    /** `RemoveEntryList`. */
    method Remove(e: nat)
      requires e < flink.Length == blink.Length && flink != blink && flink[e] < flink.Length && blink[e] < flink.Length
      modifies flink, blink
      ensures (flink[..], blink[..]) == Removed(old(flink[..]), old(blink[..]), e)
    {
      var next, prev := flink[e], blink[e];
      flink[prev] := next;
      blink[next] := prev;
    }

    method InsertFree(e: nat)
      requires Links() && e < count && e !in lists.free && e !in lists.used
      modifies this, flink, blink
      ensures Links() && lists == old(lists).(free := old(lists).free + [e])
    {
      RingEnds(flink[..], blink[..], count, lists.free);
      AppendKeeps(flink[..], blink[..], count, lists.free, e);
      ghost var fl, bl := flink[..], blink[..];
      InsertTail(count, e);
      AppendOther(fl, bl, count, lists.free, e, count + 1, lists.used);
      lists := lists.(free := lists.free + [e]);
    }

    method InsertUsed(e: nat)
      requires Links() && e < count && e !in lists.free && e !in lists.used
      modifies this, flink, blink
      ensures Links() && lists == old(lists).(used := old(lists).used + [e])
    {
      RingEnds(flink[..], blink[..], count + 1, lists.used);
      AppendKeeps(flink[..], blink[..], count + 1, lists.used, e);
      ghost var fl, bl := flink[..], blink[..];
      InsertTail(count + 1, e);
      AppendOther(fl, bl, count + 1, lists.used, e, count, lists.free);
      lists := lists.(used := lists.used + [e]);
    }

    /** `RemoveHeadList` of the free list. */
    method TakeFree() returns (e: nat)
      requires Links() && lists.free != []
      modifies this, flink, blink
      ensures Links() && e == old(lists).free[0] && lists == old(lists).(free := old(lists).free[1..])
    {
      RingEnds(flink[..], blink[..], count, lists.free);
      RemoveKeeps(flink[..], blink[..], count, lists.free, 0);
      RemoveOther(flink[..], blink[..], count, lists.free, 0, count + 1, lists.used);
      e := flink[count];
      Remove(e);
      assert Without(lists.free, 0) == lists.free[1..];
      lists := lists.(free := lists.free[1..]);
    }

    method RemoveUsed(ghost k: nat, e: nat)
      requires Links() && k < |lists.used| && e == lists.used[k]
      modifies this, flink, blink
      ensures Links() && lists == old(lists).(used := Without(old(lists).used, k))
    {
      RemoveKeeps(flink[..], blink[..], count + 1, lists.used, k);
      RemoveOther(flink[..], blink[..], count + 1, lists.used, k, count, lists.free);
      WithoutElems(lists.used, k, count);
      Remove(e);
      ghost var used' := Without(lists.used, k);
      forall j | 0 <= j < |used'|
        ensures used'[j] in lists.used
      {
        assert used'[j] in used';
      }
      lists := lists.(used := used');
    }

    /** Takes the oldest free buffer, or none. */
    method GetBuf(size: nat, respSize: nat) returns (found: bool, b: nat)
      requires Valid()
      modifies this, flink, blink, held
      ensures Valid() && found == (old(lists).free != [])
      ensures found ==> b == old(lists).free[0] && lists == Got(old(lists)) && held[b] == Held(size, respSize, 0)
      ensures found ==> lists.free == old(lists).free[1..] && lists.used == old(lists).used + [b]
      ensures forall x | 0 <= x < count && (found ==> x != b) :: held[x] == old(held[x])
      ensures !found ==> lists == old(lists)
    {
      RingEnds(flink[..], blink[..], count, lists.free);
      if flink[count] == count {
        return false, 0;
      }
      GotKeeps(lists, count);
      b := TakeFree();
      held[b] := Held(size, respSize, 0);
      InsertUsed(b);
      return true, b;
    }

    /** Attaches separately allocated data to a buffer in use. */
    method Attach(b: nat, dataSize: nat)
      requires Valid() && b in lists.used
      modifies held
      ensures Valid() && held[b] == old(held[b]).(dataSize := dataSize)
    {
      held[b] := held[b].(dataSize := dataSize);
    }

    /** Walks the list in use up to `b`; terminates because `b` is on it. */
    method Search(b: nat, ghost k: nat) returns (cur: nat)
      requires Links() && k < |lists.used| && lists.used[k] == b
      ensures cur == b
    {
      RingEnds(flink[..], blink[..], count + 1, lists.used);
      cur := flink[count + 1];
      ghost var i: nat := 0;
      while cur != b
        invariant i <= k && cur == lists.used[i]
        decreases k - i
      {
        RingAt(flink[..], blink[..], count + 1, lists.used, i);
        assert i < k;
        cur := flink[cur];
        i := i + 1;
      }
    }

    /** Finds the buffer in the list in use and moves it to the free list. */
    method FreeBuf(b: nat, ghost k: nat)
      requires Valid() && k < |lists.used| && lists.used[k] == b
      modifies this, flink, blink, held
      ensures Valid() && lists == Freed(old(lists), k) && OwnsNothing(held[b])
      ensures lists.free == old(lists).free + [b]
      ensures forall x: nat :: x in lists.used <==> x in old(lists).used && x != b
      ensures held[b] == Held(old(held[b]).size, if old(held[b]).respSize > 24 then 0 else old(held[b]).respSize, 0)
      ensures forall x | 0 <= x < count && x != b :: held[x] == old(held[x])
    {
      FreedKeeps(lists, k, count);
      WithoutElems(lists.used, k, count);
      var cur := Search(b, k);
      RemoveUsed(k, cur);
      if held[b].respSize > MAX_INLINE_RESP_SIZE {
        held[b] := held[b].(respSize := 0);
      }
      if held[b].dataSize > 0 {
        held[b] := held[b].(dataSize := 0);
      }
      InsertFree(b);
    }

    method DrainUsed() returns (deleted: seq<nat>)
      requires Links()
      modifies this, flink, blink
      ensures deleted == old(lists).used && Links() && lists == Lists(old(lists).free, [])
    {
      hide Ring;
      ghost var l0 := lists;
      deleted := [];
      RingEnds(flink[..], blink[..], count + 1, lists.used);
      while flink[count + 1] != count + 1
        invariant Links() && lists.free == l0.free && deleted + lists.used == l0.used
        invariant flink[count + 1] == Node(count + 1, lists.used, 1)
        decreases |lists.used|
      {
        var e := flink[count + 1];
        deleted := deleted + [e];
        RemoveUsed(0, e);
        RingEnds(flink[..], blink[..], count + 1, lists.used);
      }
      RingEnds(flink[..], blink[..], count + 1, lists.used);
    }

    method DrainFree() returns (deleted: seq<nat>)
      requires Links()
      modifies this, flink, blink
      ensures deleted == old(lists).free && Links() && lists == Lists([], old(lists).used)
    {
      hide Ring;
      ghost var l0 := lists;
      deleted := [];
      RingEnds(flink[..], blink[..], count, lists.free);
      while flink[count] != count
        invariant Links() && lists.used == l0.used && deleted + lists.free == l0.free
        invariant flink[count] == Node(count, lists.free, 1)
        decreases |lists.free|
      {
        var e := TakeFree();
        deleted := deleted + [e];
        RingEnds(flink[..], blink[..], count, lists.free);
      }
      RingEnds(flink[..], blink[..], count, lists.free);
    }

    /** Deletes every buffer, those in use first, each once. */
    method Close() returns (deleted: seq<nat>)
      requires Valid()
      modifies this, flink, blink
      ensures deleted == old(lists).used + old(lists).free && lists == Lists([], []) && Links()
      ensures NoDup(deleted) && |deleted| == count
    {
      assert Apart(lists.used, lists.free);
      JoinNoDup(lists.used, lists.free, count);
      deleted := DrainUsed();
      var rest := DrainFree();
      deleted := deleted + rest;
    }
  }

  lemma AppendOther(fl: seq<nat>, bl: seq<nat>, head: nat, s: seq<nat>, e: nat, head': nat, s': seq<nat>)
    requires Ring(fl, bl, head, s) && Ring(fl, bl, head', s') && Apart(s, s')
    requires head != head' && head !in s' && head' !in s && e != head && e != head' && e !in s && e !in s' && e < |fl|
    ensures bl[head] < |fl| && var (fl', bl') := Appended(fl, bl, head, e); Ring(fl', bl', head', s')
  {
    RingEnds(fl, bl, head, s);
    var (fl', bl') := Appended(fl, bl, head, e);
    OtherRing(fl, bl, fl', bl', head', s');
  }

  lemma RemoveOther(fl: seq<nat>, bl: seq<nat>, head: nat, s: seq<nat>, k: nat, head': nat, s': seq<nat>)
    requires Ring(fl, bl, head, s) && Ring(fl, bl, head', s') && Apart(s, s') && k < |s|
    requires head != head' && head !in s' && head' !in s
    ensures fl[s[k]] < |fl| && bl[s[k]] < |fl| && var (fl', bl') := Removed(fl, bl, s[k]); Ring(fl', bl', head', s')
  {
    RingAt(fl, bl, head, s, k);
    var (fl', bl') := Removed(fl, bl, s[k]);
    OtherRing(fl, bl, fl', bl', head', s');
  }
}
