/**
  From a validated frame to the descriptors of its create-blob command: the page list of a
  locked segment, the memory entries sent to the host, and the scatter-gather list of a queued
  command buffer.
 */
module SgList {
  import opened Paging

  // ---------------------------------------------------------------- request validation

  const MAX_SCAN_OUT := 4
  const MAX_WIDTH_SIZE := 3840
  const MAX_HEIGHT_SIZE := 2160
  const U32 := 0x1_0000_0000

  datatype ColorFormat = Invalid | Bgra | Rgba | Rgba10 | Yuv420 | Unknown(code: nat)

  /** All integers are 32 bits wide. */
  datatype FrameMetaData = FrameMetaData(width: nat, height: nat, format: ColorFormat, pitch: nat, stride: nat,
                                         addr: nat, screen: nat)

  datatype Status = Success | InvalidParameter | NotSupported

  function ValidateFrame(f: FrameMetaData): Status {
    if f.screen >= MAX_SCAN_OUT then InvalidParameter
    else if f.width == 0 || f.height == 0 then InvalidParameter
    else if f.width > MAX_WIDTH_SIZE || f.height > MAX_HEIGHT_SIZE then InvalidParameter
    else if f.stride == 0 then InvalidParameter
    else if f.stride > (MAX_WIDTH_SIZE * MAX_HEIGHT_SIZE * 4) / f.height then InvalidParameter
    else if f.pitch < f.width * 4 || f.pitch > MAX_WIDTH_SIZE * 4 then InvalidParameter
    else if f.format.Invalid? || f.format.Unknown? then InvalidParameter
    else if f.format.Rgba10? then NotSupported
    else Success
  }

  /** Bytes of backing memory, before rounding to pages. */
  function FrameBytes(f: FrameMetaData): nat {
    f.pitch * f.height
  }

  /** A frame that passes has at most 8100 pages, and none of its sizes overflows 32 bits. */
  lemma ValidatedFrame(f: FrameMetaData)
    requires ValidateFrame(f).Success?
    ensures 0 < Pages(FrameBytes(f)) <= 8100
    ensures Pages(FrameBytes(f)) * PAGE < U32 && f.stride * f.height * 4 < U32
  {
    Product(f.pitch, f.height, 15360, 2160);
    PagesMonotone(FrameBytes(f), 15360 * 2160);
    assert Pages(15360 * 2160) == 8100;
    StrideBound(f.stride, f.height, 33177600);
  }

  /** Exactly the frames that pass: up to 3840 by 2160, rows and sizes within bounds, in three formats. */
  lemma AcceptedIff(f: FrameMetaData)
    ensures ValidateFrame(f).Success? <==>
            && f.screen <= 3 && 1 <= f.width <= 3840 && 1 <= f.height <= 2160
            && 1 <= f.stride && f.stride * f.height <= 3840 * 2160 * 4
            && 4 * f.width <= f.pitch <= 15360
            && (f.format.Bgra? || f.format.Rgba? || f.format.Yuv420?)
  {
    if f.height > 0 {
      QuotientBound(f.stride, f.height, 33177600);
    }
  }

  lemma QuotientBound(a: nat, b: nat, max: nat)
    requires b > 0
    ensures a <= max / b <==> a * b <= max
  {
    var q := max / b;
    assert q * b <= max < (q + 1) * b;
    if a <= q {
      assert a * b <= q * b;
    } else {
      assert (q + 1) * b <= a * b;
    }
  }

  /** Every ordinary frame passes. */
  lemma OrdinaryAccepted(f: FrameMetaData)
    requires f.screen < 4 && 1 <= f.width <= 3840 && 1 <= f.height <= 2160
    requires f.pitch == 4 * f.stride && f.width <= f.stride <= 3840
    requires f.format.Bgra? || f.format.Rgba? || f.format.Yuv420?
    ensures ValidateFrame(f).Success?
  {
    Product(f.stride, f.height, 3840, 2160);
    AcceptedIff(f);
  }

  lemma Product(a: nat, b: nat, x: nat, y: nat)
    requires 0 < a <= x && 0 < b <= y
    ensures 0 < a * b <= x * y
  {
    assert a * b <= x * b <= x * y;
  }

  lemma StrideBound(stride: nat, height: nat, max: nat)
    requires height > 0 && stride <= max / height
    ensures stride * height <= max
  {
    assert stride * height <= (max / height) * height <= max;
  }

  // ---------------------------------------------------------------- the segment's page list

  datatype Entry = Entry(addr: nat, length: nat)

  /** Where the `i`-th page at `va` is. */
  function PageAt(m: PageMap, va: nat, i: nat): nat {
    m(va / PAGE + i)
  }

  /** Entries of the first `n` pages at `va`, up to the first page that is not mapped. */
  function PageEntries(m: PageMap, va: nat, n: nat): (r: seq<Entry>)
    ensures |r| <= n
  {
    if n == 0 then []
    else
      var before := PageEntries(m, va, n - 1);
      var pa := PageAt(m, va, n - 1);
      if |before| == n - 1 && pa != 0 then before + [Entry(pa, PAGE)] else before
  }

  ghost predicate Mapped(m: PageMap, va: nat, n: nat) {
    forall i: nat | i < n :: PageAt(m, va, i) != 0
  }

  lemma {:induction false} EntriesAt(m: PageMap, va: nat, n: nat)
    ensures forall i | 0 <= i < |PageEntries(m, va, n)| :: PageEntries(m, va, n)[i] == Entry(PageAt(m, va, i), PAGE)
    ensures |PageEntries(m, va, n)| == n <==> Mapped(m, va, n)
    ensures forall i | 0 <= i < |PageEntries(m, va, n)| :: PageAt(m, va, i) != 0
  {
    if n > 0 {
      EntriesAt(m, va, n - 1);
      if Mapped(m, va, n) {
        assert Mapped(m, va, n - 1);
      }
    }
  }

  function TotalLength(ents: seq<Entry>): nat {
    if ents == [] then 0 else TotalLength(ents[..|ents| - 1]) + ents[|ents| - 1].length
  }

  lemma {:induction false} EntriesLength(ents: seq<Entry>)
    requires forall i | 0 <= i < |ents| :: ents[i].length == PAGE
    ensures TotalLength(ents) == |ents| * PAGE
  {
    if ents != [] {
      EntriesLength(ents[..|ents| - 1]);
    }
  }

  /** The bytes a list of entries covers, in order. */
  function Covered(ents: seq<Entry>): seq<nat> {
    if ents == [] then [] else Covered(ents[..|ents| - 1]) + Consecutive(ents[|ents| - 1].addr, ents[|ents| - 1].length)
  }

  /** With every page mapped, the entries are exactly the frame's memory, byte for byte, in order. */
  lemma {:induction false} EntriesCover(m: PageMap, va: nat, n: nat)
    requires va % PAGE == 0 && Mapped(m, va, n)
    ensures Covered(PageEntries(m, va, n)) == PhysRange(m, va, n * PAGE)
  {
    EntriesAt(m, va, n);
    if n == 0 {
      assert PhysRange(m, va, 0) == [];
    } else {
      assert Mapped(m, va, n - 1);
      EntriesAt(m, va, n - 1);
      EntriesCover(m, va, n - 1);
      var ents := PageEntries(m, va, n);
      assert ents == PageEntries(m, va, n - 1) + [Entry(PageAt(m, va, n - 1), PAGE)];
      hide PageEntries, PhysRange, Consecutive, PageAt, Mapped, Covered;
      CoverMore(PageEntries(m, va, n - 1), Entry(PageAt(m, va, n - 1), PAGE));
      PageOf(m, va, n - 1);
      RangeSplit(m, va, (n - 1) * PAGE, PAGE);
      assert (n - 1) * PAGE + PAGE == n * PAGE;
    }
  }

  lemma CoverMore(ents: seq<Entry>, e: Entry)
    ensures Covered(ents + [e]) == Covered(ents) + Consecutive(e.addr, e.length)
  {
    assert (ents + [e])[..|ents|] == ents;
  }

  lemma PageOf(m: PageMap, va: nat, k: nat)
    requires va % PAGE == 0
    ensures PhysRange(m, va + k * PAGE, PAGE) == Consecutive(PageAt(m, va, k), PAGE)
  {
    var v := va + k * PAGE;
    assert v / PAGE == va / PAGE + k && v % PAGE == 0;
    OnePage(m, v, PAGE);
  }

  /** Builds the segment's list: looks pages up one by one and stops at the first unmapped one. */
  method BuildPageList(m: PageMap, va: nat, list: array<Entry>) returns (count: nat)
    modifies list
    ensures count == |PageEntries(m, va, list.Length)|
    ensures list[..count] == PageEntries(m, va, list.Length)
  {
    EntriesAt(m, va, list.Length);
    count := 0;
    for i := 0 to list.Length
      invariant count == i == |PageEntries(m, va, i)|
      invariant list[..i] == PageEntries(m, va, i)
    {
      var pa := PageAt(m, va, i);
      if pa == 0 {
        Stuck(m, va, i, list.Length);
        return;
      }
      list[i] := Entry(pa, PAGE);
      count := count + 1;
      assert list[..i + 1] == list[..i] + [Entry(pa, PAGE)];
    }
  }

  lemma {:induction false} Stuck(m: PageMap, va: nat, i: nat, n: nat)
    requires i < n && |PageEntries(m, va, i)| == i && PageAt(m, va, i) == 0
    ensures PageEntries(m, va, n) == PageEntries(m, va, i)
  {
    if n > i + 1 {
      Stuck(m, va, i, n - 1);
    }
  }

  /** Size announced to the host for a blob of this frame. */
  function BlobSize(stride: nat, height: nat): nat {
    Pages(stride * height * 4) * PAGE
  }

  lemma Regroup(a: nat, b: nat)
    ensures a * b * 4 == (4 * a) * b
  {
  }

  /** With `pitch == 4 * stride` the announced size is the memory attached, iff every page is mapped. */
  lemma BlobSizeIff(f: FrameMetaData, m: PageMap)
    requires ValidateFrame(f).Success? && f.pitch == 4 * f.stride
    ensures var n := Pages(FrameBytes(f));
            BlobSize(f.stride, f.height) == TotalLength(PageEntries(m, f.addr, n)) <==> Mapped(m, f.addr, n)
  {
    var n := Pages(FrameBytes(f));
    Regroup(f.stride, f.height);
    EntriesAt(m, f.addr, n);
    EntriesLength(PageEntries(m, f.addr, n));
  }

  // ---------------------------------------------------------------- queueing a command buffer

  const SGLIST_SIZE := 64
  const MAX_INLINE_CMD_SIZE := 96
  const MAX_INLINE_RESP_SIZE := 24
  const CREATE_BLOB_SIZE := 56
  const CTRL_HDR_SIZE := 24
  const MEM_ENTRY_SIZE := 16

  datatype Sg = Sg(phys: nat, length: nat)

  /** A command buffer: command, optional attached data, response. */
  datatype VBuffer = VBuffer(buf: nat, size: nat, data: nat, dataSize: nat, resp: nat, respSize: nat)

  /** Pool memory: small allocations stay within a page, larger ones start on one. */
  ghost predicate PoolAllocated(va: nat, size: nat) {
    va % PAGE == 0 || va % PAGE + size <= PAGE
  }

  datatype Queued = Refused | Submitted(sg: seq<Sg>, out: nat)

  function Min(a: nat, b: nat): nat {
    if a < b then a else b
  }

  /** The bytes a scatter-gather list hands over, in order. */
  function Gathered(sg: seq<Sg>): seq<nat> {
    if sg == [] then [] else Gathered(sg[..|sg| - 1]) + Consecutive(sg[|sg| - 1].phys, sg[|sg| - 1].length)
  }

  lemma GatherMore(sg: seq<Sg>, e: Sg)
    ensures Gathered(sg + [e]) == Gathered(sg) + Consecutive(e.phys, e.length)
  {
    assert (sg + [e])[..|sg|] == sg;
  }

  /** The device reads exactly command then data, and writes exactly the response area. */
  ghost predicate HandsOver(sg: seq<Sg>, out: nat, m: PageMap, b: VBuffer) {
    && out <= |sg|
    && Gathered(sg[..out]) == PhysRange(m, b.buf, b.size) + PhysRange(m, b.data, b.dataSize)
    && Gathered(sg[out..]) == PhysRange(m, b.resp, b.respSize)
  }

  function SgCount(b: VBuffer): nat {
    (if b.size > 0 then 1 else 0) + Pages(b.dataSize)
  }

  /** Splits the attached data page by page behind what is already in the list. */
  method GatherData(m: PageMap, data: nat, dataSize: nat, sg0: seq<Sg>) returns (full: bool, sg: seq<Sg>)
    requires PoolAllocated(data, dataSize) && |sg0| < SGLIST_SIZE
    ensures full <==> dataSize > 0 && |sg0| + Pages(dataSize) >= SGLIST_SIZE
    ensures !full ==> |sg| == |sg0| + Pages(dataSize) && Gathered(sg) == Gathered(sg0) + PhysRange(m, data, dataSize)
    ensures !full ==> sg0 <= sg
  {
    sg := sg0;
    var left: nat, va: nat := dataSize, data;
    ghost var done: nat := 0;
    assert Aligned(0) && PhysRange(m, data, 0) == [] && Gathered(sg0) + [] == Gathered(sg0);
    PagesLess(dataSize);
    hide PhysRange, Gathered, Pages, PoolAllocated, Aligned, Phys, Min;
    while left > 0
      invariant left <= dataSize && done == dataSize - left
      invariant left > 0 ==> Aligned(done) && va == data + done
      invariant |sg| + Pages(left) == |sg0| + Pages(dataSize) && |sg| < SGLIST_SIZE
      invariant sg0 <= sg && Gathered(sg) == Gathered(sg0) + PhysRange(m, data, done)
    {
      var n := Min(left, PAGE);
      NextChunk(left, done);
      ChunkGathered(m, data, dataSize, done, n, sg, sg0);
      PagesLess(left);
      sg := sg + [Sg(Phys(m, va), n)];
      va := va + PAGE;
      left := left - n;
      done := done + n;
      if |sg| == SGLIST_SIZE {
        return true, sg;
      }
    }
    return false, sg;
  }

  predicate Aligned(n: nat) {
    n % PAGE == 0
  }

  lemma NextChunk(left: nat, done: nat)
    requires left > 0 && Aligned(done)
    ensures var n := Min(left, PAGE);
            && 0 < n <= left && n <= PAGE && (left - n > 0 ==> n == PAGE && Aligned(done + n))
            && (left - n == 0 <==> Pages(left - n) == 0)
  {
  }

  lemma PagesLess(n: nat)
    ensures n > 0 ==> Pages(n) == 1 + Pages(n - Min(n, PAGE))
    ensures n == 0 <==> Pages(n) == 0
  {
  }

  /** One more chunk extends the gathered bytes. */
  lemma ChunkGathered(m: PageMap, data: nat, dataSize: nat, done: nat, n: nat, sg: seq<Sg>, sg0: seq<Sg>)
    requires PoolAllocated(data, dataSize) && Aligned(done) && 0 < n <= PAGE && done + n <= dataSize
    requires Gathered(sg) == Gathered(sg0) + PhysRange(m, data, done)
    ensures Gathered(sg + [Sg(Phys(m, data + done), n)]) == Gathered(sg0) + PhysRange(m, data, done + n)
  {
    hide Gathered, PhysRange, Consecutive, Phys;
    ChunkInPage(data, dataSize, done, n);
    OnePage(m, data + done, n);
    GatherMore(sg, Sg(Phys(m, data + done), n));
    RangeSplit(m, data, done, n);
  }

  lemma ChunkInPage(data: nat, dataSize: nat, done: nat, n: nat)
    requires PoolAllocated(data, dataSize) && done % PAGE == 0 && n <= PAGE && done + n <= dataSize && n > 0
    ensures (data + done) % PAGE + n <= PAGE
  {
    if data % PAGE == 0 {
      assert (data + done) % PAGE == 0;
    } else {
      assert done < PAGE;
      assert done == 0;
    }
  }

  /**
    Queues a command buffer: refused if a part is too big or the list overflows, and otherwise
    the device is handed exactly command then data to read, and the response area to write.
   */
  method QueueBuffer(m: PageMap, b: VBuffer) returns (r: Queued)
    requires b.buf % PAGE + b.size <= PAGE || b.size > PAGE
    requires b.resp % PAGE + b.respSize <= PAGE || b.respSize > PAGE
    requires PoolAllocated(b.data, b.dataSize)
    ensures r.Refused? <==>
            b.size > PAGE || b.respSize > PAGE || (b.dataSize > 0 && SgCount(b) >= SGLIST_SIZE)
    ensures r.Submitted? ==>
              && |r.sg| == SgCount(b) + (if b.respSize > 0 then 1 else 0) <= SGLIST_SIZE && r.out == SgCount(b)
              && HandsOver(r.sg, r.out, m, b)
  {
    if b.size > PAGE {
      return Refused;
    }
    var sg := [];
    OnePage(m, b.buf, b.size);
    if b.size != 0 {
      GatherMore([], Sg(Phys(m, b.buf), b.size));
      sg := [] + [Sg(Phys(m, b.buf), b.size)];
    }
    assert Gathered(sg) == PhysRange(m, b.buf, b.size);
    PagesLess(b.dataSize);
    hide Gathered, PhysRange, Pages, PoolAllocated;
    var full;
    full, sg := GatherData(m, b.data, b.dataSize, sg);
    if full {
      return Refused;
    }
    var out := |sg|;
    if b.respSize > PAGE {
      return Refused;
    }
    ResponseGathered(m, b.resp, b.respSize);
    ghost var outSg := sg;
    if b.respSize != 0 {
      var e := Sg(Phys(m, b.resp), b.respSize);
      assert (sg + [e])[..out] == outSg && (sg + [e])[out..] == [] + [e];
      sg := sg + [e];
    } else {
      assert sg[..out] == outSg && sg[out..] == [];
    }
    return Submitted(sg, out);
  }

  lemma ResponseGathered(m: PageMap, va: nat, n: nat)
    requires va % PAGE + n <= PAGE
    ensures Gathered([] + [Sg(Phys(m, va), n)]) == PhysRange(m, va, n)
    ensures n == 0 ==> Gathered([]) == PhysRange(m, va, n)
  {
    OnePage(m, va, n);
    GatherMore([], Sg(Phys(m, va), n));
  }

  /** The buffer of a create-blob command for a frame of `n` pages. */
  function CreateBlobBuffer(buf: nat, ents: nat, n: nat): VBuffer {
    VBuffer(buf, CREATE_BLOB_SIZE, ents, MEM_ENTRY_SIZE * n, buf + CREATE_BLOB_SIZE, CTRL_HDR_SIZE)
  }

  /** Page-aligned memory. */
  datatype Memory = Memory(va: nat, pages: nat)

  /** What a frame's command names: the client's pages, or without an address the whole segment in place. */
  function Backing(f: FrameMetaData, g: Memory): Memory {
    if f.addr != 0 then Memory(f.addr, Pages(FrameBytes(f))) else g
  }

  function EntriesOf(m: PageMap, k: Memory): seq<Entry> {
    PageEntries(m, k.va, k.pages)
  }

  /** The pages of a frame at an address hold its rows, and one page fewer would not. */
  lemma FramePages(f: FrameMetaData, g: Memory)
    requires ValidateFrame(f).Success? && f.addr != 0
    ensures var k := Backing(f, g);
            k.va == f.addr && (k.pages - 1) * 4096 < f.pitch * f.height <= k.pages * 4096
  {
    ValidatedFrame(f);
  }

  /** More entries than this do not fit the list. */
  const MAX_ENTRIES := 15872

  /**
    The create-blob command of a validated frame at an address takes at most 34 of the 64 elements;
    one that shows the segment in place fits iff that has at most 15872 mapped pages.
   */
  lemma ValidatedFrameFits(f: FrameMetaData, g: Memory, m: PageMap, buf: nat, ents: nat)
    requires ValidateFrame(f).Success?
    ensures var n := |EntriesOf(m, Backing(f, g))|;
            var b := CreateBlobBuffer(buf, ents, n);
            && b.size <= MAX_INLINE_CMD_SIZE && b.respSize <= MAX_INLINE_RESP_SIZE
            && (f.addr != 0 ==> n <= MAX_ENTRIES && SgCount(b) + 1 <= 34)
            && (b.dataSize > 0 && SgCount(b) >= SGLIST_SIZE <==> n > MAX_ENTRIES)
  {
    ValidatedFrame(f);
    var n := |EntriesOf(m, Backing(f, g))|;
    if f.addr != 0 {
      PagesMonotone(MEM_ENTRY_SIZE * n, MEM_ENTRY_SIZE * 8100);
      assert Pages(MEM_ENTRY_SIZE * 8100) == 32;
    }
  }

  /** Command and inline response share a page. */
  lemma InlineParts(buf: nat, ents: nat, n: nat)
    requires buf % PAGE + MAX_INLINE_CMD_SIZE + MAX_INLINE_RESP_SIZE <= PAGE
    ensures var b := CreateBlobBuffer(buf, ents, n);
            b.buf % PAGE + b.size <= PAGE && b.resp % PAGE + b.respSize <= PAGE
  {
  }

  /** Builds the page list of locked memory; its entries are what the command carries. */
  method CountEntries(m: PageMap, k: Memory) returns (count: nat)
    ensures count == |EntriesOf(m, k)|
  {
    var list := new Entry[k.pages](_ => Entry(0, 0));
    count := BuildPageList(m, k.va, list);
  }

  /** Command and response lie in one page, so they share no byte of physical memory either. */
  lemma ResponseApart(m: PageMap, buf: nat)
    requires buf % PAGE + 80 <= PAGE
    ensures forall x | x in PhysRange(m, buf, 56) :: x !in PhysRange(m, buf + 56, 24)
  {
    OnePage(m, buf, 56);
    OnePage(m, buf + 56, 24);
    assert Phys(m, buf + 56) == Phys(m, buf) + 56;
    InRange(Phys(m, buf), 56);
    InRange(Phys(m, buf) + 56, 24);
  }

  lemma InRange(pa: nat, n: nat)
    ensures forall x | x in Consecutive(pa, n) :: pa <= x < pa + n
  {
  }

  /**
    So queueing a frame at an address never fails, whatever pool memory the command was built in.
    The device reads the 56 bytes of the command and the 16 bytes of each entry, and writes the 24
    bytes after the command.
   */
  method SubmitFrame(f: FrameMetaData, g: Memory, m: PageMap, buf: nat, ents: nat) returns (r: Queued)
    requires ValidateFrame(f).Success?
    requires buf % PAGE + MAX_INLINE_CMD_SIZE + MAX_INLINE_RESP_SIZE <= PAGE
    requires PoolAllocated(ents, MEM_ENTRY_SIZE * |EntriesOf(m, Backing(f, g))|)
    ensures r.Submitted? <==> |EntriesOf(m, Backing(f, g))| <= MAX_ENTRIES
    ensures f.addr != 0 ==> r.Submitted? && |r.sg| <= 34
    ensures r.Submitted? ==>
              && r.out <= |r.sg|
              && Gathered(r.sg[..r.out]) ==
                   PhysRange(m, buf, 56) + PhysRange(m, ents, 16 * |EntriesOf(m, Backing(f, g))|)
              && Gathered(r.sg[r.out..]) == PhysRange(m, buf + 56, 24)
    ensures forall x | x in PhysRange(m, buf, 56) :: x !in PhysRange(m, buf + 56, 24)
  {
    hide EntriesOf, ValidateFrame, FrameBytes, Pages, SgCount, PoolAllocated, PhysRange, Gathered;
    ResponseApart(m, buf);
    ValidatedFrameFits(f, g, m, buf, ents);
    var count := CountEntries(m, Backing(f, g));
    InlineParts(buf, ents, count);
    r := QueueBuffer(m, CreateBlobBuffer(buf, ents, count));
  }
}
