/**
  What both virtqueue layouts share: scatter-gather elements, and finite lists of distinct ids.
 */
module Common {

  /** One scatter-gather element, and the same element with its direction. */
  datatype Buf = Buf(addr: int, len: int)
  datatype Seg = Seg(addr: int, len: int, write: bool)

  /** The first `out` elements are read by the device, the rest are written by it. */
  function Segs(bufs: seq<Buf>, out: nat): (r: seq<Seg>)
    ensures |r| == |bufs|
  {
    seq(|bufs|, i requires 0 <= i < |bufs| => Seg(bufs[i].addr, bufs[i].len, i >= out))
  }

  const ENOSPC := 28

  ghost predicate NoDup(s: seq<nat>) {
    forall i, j | 0 <= i < j < |s| :: s[i] != s[j]
  }

  ghost predicate Below(s: seq<nat>, n: nat) {
    forall i | 0 <= i < |s| :: s[i] < n
  }

  ghost predicate Apart(a: seq<nat>, b: seq<nat>) {
    forall i, j | 0 <= i < |a| && 0 <= j < |b| :: a[i] != b[j]
  }

  function Range(n: nat): (s: set<nat>)
    ensures forall x: nat :: x in s <==> x < n
    ensures |s| == n
  {
    if n == 0 then {} else Range(n - 1) + {n - 1}
  }

  ghost function Elems(s: seq<nat>): set<nat> {
    set x | x in s
  }

  lemma {:induction false} SubsetCount(a: set<nat>, b: set<nat>)
    requires a <= b
    ensures |a| <= |b|
  {
    if a != {} {
      var x :| x in a;
      SubsetCount(a - {x}, b - {x});
    }
  }

  lemma {:induction false} DistinctCount(s: seq<nat>)
    requires NoDup(s)
    ensures |Elems(s)| == |s|
  {
    if s != [] {
      var t := s[..|s| - 1];
      DistinctCount(t);
      assert s == t + [s[|s| - 1]];
      assert Elems(s) == Elems(t) + {s[|s| - 1]};
    }
  }

  lemma Pigeonhole(s: seq<nat>, n: nat)
    requires NoDup(s) && Below(s, n)
    ensures |s| <= n
  {
    DistinctCount(s);
    assert Elems(s) <= Range(n);
    SubsetCount(Elems(s), Range(n));
  }

  lemma JoinNoDup(a: seq<nat>, b: seq<nat>, n: nat)
    requires NoDup(a) && NoDup(b) && Apart(a, b) && Below(a, n) && Below(b, n)
    ensures NoDup(a + b) && Below(a + b, n) && |a| + |b| <= n
  {
    Pigeonhole(a + b, n);
  }

  lemma MemberCount(s: seq<nat>, i: nat)
    requires i < |s|
    ensures multiset(s)[s[i]] >= 1
  {
    assert s[i] in multiset(s);
  }

  lemma Cancel(a: multiset<nat>, b: multiset<nat>, x: nat)
    requires a + multiset{x} == b + multiset{x}
    ensures a == b
  {
    assert a == a + multiset{x} - multiset{x};
    assert b == b + multiset{x} - multiset{x};
  }
}
