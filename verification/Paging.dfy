/**
  Pages: rounding byte counts up, and bytes of virtual memory behind a page map.
 */
module Paging {

  const PAGE := 4096

  /** The number of pages that hold `bytes` bytes. */
  function Pages(bytes: nat): (n: nat)
    ensures (n - 1) * PAGE < bytes <= n * PAGE || bytes == n == 0
  {
    (bytes + PAGE - 1) / PAGE
  }

  lemma PagesMonotone(a: nat, b: nat)
    requires a <= b
    ensures Pages(a) <= Pages(b)
  {
  }

  /** Physical base address of each virtual page; 0 where nothing is mapped. */
  type PageMap = nat -> nat

  function Phys(m: PageMap, va: nat): nat {
    m(va / PAGE) + va % PAGE
  }

  /** Physical address of the `i`-th byte at `va`, and at physical address `pa`. */
  function Byte(m: PageMap, va: nat, i: nat): nat {
    Phys(m, va + i)
  }

  function Plus(pa: nat, i: nat): nat {
    pa + i
  }

  /** Physical addresses of the `n` bytes at `va`, in order. */
  function PhysRange(m: PageMap, va: nat, n: nat): (r: seq<nat>)
    ensures |r| == n
  {
    seq(n, i requires 0 <= i < n => Byte(m, va, i))
  }

  /** `n` consecutive physical addresses. */
  function Consecutive(pa: nat, n: nat): (r: seq<nat>)
    ensures |r| == n
  {
    seq(n, i requires 0 <= i < n => Plus(pa, i))
  }

  /** Within one page, physical addresses are consecutive. */
  lemma OnePage(m: PageMap, va: nat, n: nat)
    requires va % PAGE + n <= PAGE
    ensures PhysRange(m, va, n) == Consecutive(Phys(m, va), n)
  {
    forall i: nat | i < n
      ensures Byte(m, va, i) == Plus(Phys(m, va), i)
    {
      assert (va + i) / PAGE == va / PAGE && (va + i) % PAGE == va % PAGE + i;
    }
  }

  lemma RangeSplit(m: PageMap, va: nat, a: nat, b: nat)
    ensures PhysRange(m, va, a + b) == PhysRange(m, va, a) + PhysRange(m, va + a, b)
  {
    var r := PhysRange(m, va, a + b);
    forall i | a <= i < a + b
      ensures r[i] == Byte(m, va + a, i - a)
    {
      assert va + i == va + a + (i - a);
    }
  }
}
