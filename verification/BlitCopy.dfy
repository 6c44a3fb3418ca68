/**
  The copying loops of the blitter, proved to compute `Blit`.
 */
module BlitCopy {
  import opened RingMath
  import opened BlitSpec

  // ---------------------------------------------------------------- growing a set of rectangles

  lemma HitMore(rects: seq<Rect>, r: Rect, u: int, v: int)
    ensures Hit(rects + [r], u, v) <==> Hit(rects, u, v) || Contains(r, u, v)
  {
    var all := rects + [r];
    if Contains(r, u, v) {
      assert Contains(all[|rects|], u, v);
    }
    if Hit(rects, u, v) {
      var i :| 0 <= i < |rects| && Contains(rects[i], u, v);
      assert Contains(all[i], u, v);
    }
  }

  lemma FrameMore(b: Surface, rects: seq<Rect>, r: Rect)
    ensures AllInFrame(b, rects + [r]) <==> AllInFrame(b, rects) && InFrame(b, r)
  {
    var all := rects + [r];
    if AllInFrame(b, all) {
      assert InFrame(b, all[|rects|]);
      forall i | 0 <= i < |rects|
        ensures InFrame(b, rects[i])
      {
        assert InFrame(b, all[i]);
      }
    }
  }

  lemma ReadyMore(d: seq<int>, s: seq<int>, dst: Surface, src: Surface, rects: seq<Rect>, r: Rect)
    ensures Ready(d, s, dst, src, rects + [r]) <==>
            Ready(d, s, dst, src, rects) && InFrame(dst, r) && InFrame(src, r)
  {
    FrameMore(dst, rects, r);
    FrameMore(src, rects, r);
  }

  /** Only the set of pixels matters. */
  lemma SameHits(d: seq<int>, s: seq<int>, dst: Surface, src: Surface, a: seq<Rect>, b: seq<Rect>, swizzle: bool)
    requires Ready(d, s, dst, src, a) && Ready(d, s, dst, src, b)
    requires forall u, v :: Hit(a, u, v) <==> Hit(b, u, v)
    ensures Blit(d, s, dst, src, a, swizzle) == Blit(d, s, dst, src, b, swizzle)
  {
    forall j | 0 <= j < |d|
      ensures Byte(d, s, dst, src, a, swizzle, j) == Byte(d, s, dst, src, b, swizzle, j)
    {
    }
  }

  lemma NoRects(d: seq<int>, s: seq<int>, dst: Surface, src: Surface, swizzle: bool)
    requires Ready(d, s, dst, src, [])
    ensures Blit(d, s, dst, src, [], swizzle) == d
  {
  }

  /** The four bytes of one pixel stored at `at`. */
  function Stored(d: seq<int>, at: int, s: seq<int>, from: int, swizzle: bool): (r: seq<int>)
    requires 0 <= at && at + 4 <= |d| && 0 <= from && from + 4 <= |s|
    ensures |r| == |d|
  {
    d[at := s[from + SourceByte(swizzle, 0)]][at + 1 := s[from + 1]]
     [at + 2 := s[from + SourceByte(swizzle, 2)]][at + 3 := s[from + 3]]
  }

  function Part(left: int, v: int, x: int): Rect {
    Rect(left, v, left + x, v + 1)
  }

  lemma PartInFrame(b: Surface, left: int, v: int, x: nat)
    requires InFrame(b, Part(left, v, x + 1))
    ensures InFrame(b, Part(left, v, x)) && OnSurface(b, left + x, v)
  {
    assert Contains(Part(left, v, x + 1), left + x, v);
    forall a, c | Contains(Part(left, v, x), a, c)
      ensures OnSurface(b, a, c)
    {
      assert Contains(Part(left, v, x + 1), a, c);
    }
  }

  /** Storing the next pixel of a row extends the blit by that pixel. */
  lemma PixelStep(d: seq<int>, s: seq<int>, dst: Surface, src: Surface, rects: seq<Rect>, left: int, v: int, x: nat,
                  swizzle: bool)
    requires Ready(d, s, dst, src, rects + [Part(left, v, x + 1)])
    ensures Ready(d, s, dst, src, rects + [Part(left, v, x)])
    ensures 0 <= Address(dst, left + x, v) && Address(dst, left + x, v) + 4 <= |d|
    ensures 0 <= Address(src, left + x, v) && Address(src, left + x, v) + 4 <= |s|
    ensures Blit(d, s, dst, src, rects + [Part(left, v, x + 1)], swizzle)
         == Stored(Blit(d, s, dst, src, rects + [Part(left, v, x)], swizzle), Address(dst, left + x, v),
                   s, Address(src, left + x, v), swizzle)
  {
    ReadyMore(d, s, dst, src, rects, Part(left, v, x + 1));
    PartInFrame(dst, left, v, x);
    PartInFrame(src, left, v, x);
    ReadyMore(d, s, dst, src, rects, Part(left, v, x));
    InBounds(dst, |d|, left + x, v);
    InBounds(src, |s|, left + x, v);
    var a, b := rects + [Part(left, v, x)], rects + [Part(left, v, x + 1)];
    var st := Stored(Blit(d, s, dst, src, a, swizzle), Address(dst, left + x, v), s, Address(src, left + x, v),
                     swizzle);
    forall j: nat | j < |d|
      ensures Byte(d, s, dst, src, b, swizzle, j) == st[j]
    {
      ByteStep(d, s, dst, src, rects, left, v, x, swizzle, j);
    }
  }

  lemma ByteStep(d: seq<int>, s: seq<int>, dst: Surface, src: Surface, rects: seq<Rect>, left: int, v: int, x: nat,
                 swizzle: bool, j: nat)
    requires Ready(d, s, dst, src, rects + [Part(left, v, x + 1)]) && Ready(d, s, dst, src, rects + [Part(left, v, x)])
    requires j < |d| && OnSurface(dst, left + x, v) && OnSurface(src, left + x, v)
    requires 0 <= Address(src, left + x, v) && Address(src, left + x, v) + 4 <= |s|
    ensures Byte(d, s, dst, src, rects + [Part(left, v, x + 1)], swizzle, j) ==
              var k := j - Address(dst, left + x, v);
              if 0 <= k < 4 then s[Address(src, left + x, v) + SourceByte(swizzle, k)]
              else Byte(d, s, dst, src, rects + [Part(left, v, x)], swizzle, j)
  {
    var at := Address(dst, left + x, v);
    if 0 <= j - at < 4 {
      PixelOf(dst, |d|, left + x, v, j - at);
      HitMore(rects, Part(left, v, x + 1), left + x, v);
    } else if InPixel(dst, j) {
      AddressOf(dst, |d|, j);
      var a, c := PixelX(dst, j), PixelY(dst, j);
      HitMore(rects, Part(left, v, x + 1), a, c);
      HitMore(rects, Part(left, v, x), a, c);
      assert (a, c) != (left + x, v);
    }
  }

  // ---------------------------------------------------------------- moving from pixel to pixel

  lemma NextPixel(b: Surface, u: int, v: int)
    requires b.bpp == 32
    ensures Address(b, u + 1, v) == Address(b, u, v) + PixelPitch(b)
    ensures Address(b, u, v + 1) == Address(b, u, v) + RowPitch(b)
  {
    Spread(Row(b, u, v), 1, b.pitch);
    Spread(Row(b, u, v), -1, b.pitch);
  }

  lemma StartPixel(b: Surface, r: Rect)
    requires b.bpp == 32
    ensures RowStart(b, r) == Address(b, r.left, r.top)
  {
    SourceAddress(b, r, 0, 0);
  }

  // ---------------------------------------------------------------- the loops

  method StorePixel(da: array<int>, at: int, sa: array<int>, from: int, swizzle: bool)
    requires da != sa && 0 <= at && at + 4 <= da.Length && 0 <= from && from + 4 <= sa.Length
    modifies da
    ensures da[..] == Stored(old(da[..]), at, sa[..], from, swizzle)
  {
    if swizzle {
      da[at] := sa[from + 2];
      da[at + 1] := sa[from + 1];
      da[at + 2] := sa[from];
      da[at + 3] := sa[from + 3];
    } else {
      da[at], da[at + 1], da[at + 2], da[at + 3] := sa[from], sa[from + 1], sa[from + 2], sa[from + 3];
    }
  }

  /** One row, pixel by pixel, at the pixel pitches of the two surfaces. */
  method CopyRow(da: array<int>, sa: array<int>, dst: Surface, src: Surface, dstRow: int, srcRow: int,
                 ghost left: int, ghost v: int, n: nat, swizzle: bool, ghost d: seq<int>, ghost rects: seq<Rect>)
    requires da != sa && |d| == da.Length && Ready(d, sa[..], dst, src, rects + [Part(left, v, n)])
    requires Ready(d, sa[..], dst, src, rects) && da[..] == Blit(d, sa[..], dst, src, rects, swizzle)
    requires dstRow == Address(dst, left, v) && srcRow == Address(src, left, v)
    modifies da
    ensures da[..] == Blit(d, sa[..], dst, src, rects + [Part(left, v, n)], swizzle)
  {
    EmptyPart(d, sa[..], dst, src, rects, left, v, swizzle);
    var dp, sp := dstRow, srcRow;
    for x := 0 to n
      invariant Ready(d, sa[..], dst, src, rects + [Part(left, v, x)])
      invariant dp == Address(dst, left + x, v) && sp == Address(src, left + x, v)
      invariant da[..] == Blit(d, sa[..], dst, src, rects + [Part(left, v, x)], swizzle)
    {
      PartReady(d, sa[..], dst, src, rects, left, v, x + 1, n);
      PixelStep(d, sa[..], dst, src, rects, left, v, x, swizzle);
      NextPixel(dst, left + x, v);
      NextPixel(src, left + x, v);
      StorePixel(da, dp, sa, sp, swizzle);
      dp := dp + PixelPitch(dst);
      sp := sp + PixelPitch(src);
    }
  }

  lemma PartReady(d: seq<int>, s: seq<int>, dst: Surface, src: Surface, rects: seq<Rect>, left: int, v: int, x: nat,
                  n: nat)
    requires Ready(d, s, dst, src, rects + [Part(left, v, n)]) && x <= n
    ensures Ready(d, s, dst, src, rects + [Part(left, v, x)])
  {
    ReadyMore(d, s, dst, src, rects, Part(left, v, n));
    ReadyMore(d, s, dst, src, rects, Part(left, v, x));
    SubRect(dst, Part(left, v, n), Part(left, v, x));
    SubRect(src, Part(left, v, n), Part(left, v, x));
  }

  lemma SubRect(b: Surface, r: Rect, q: Rect)
    requires InFrame(b, r) && q.left <= q.right && q.top <= q.bottom
    requires forall u, v | Contains(q, u, v) :: Contains(r, u, v)
    ensures InFrame(b, q)
  {
  }

  lemma EmptyPart(d: seq<int>, s: seq<int>, dst: Surface, src: Surface, rects: seq<Rect>, left: int, v: int,
                  swizzle: bool)
    requires Ready(d, s, dst, src, rects)
    ensures Ready(d, s, dst, src, rects + [Part(left, v, 0)])
    ensures Blit(d, s, dst, src, rects + [Part(left, v, 0)], swizzle) == Blit(d, s, dst, src, rects, swizzle)
  {
    ReadyMore(d, s, dst, src, rects, Part(left, v, 0));
    forall a, c
      ensures Hit(rects + [Part(left, v, 0)], a, c) <==> Hit(rects, a, c)
    {
      HitMore(rects, Part(left, v, 0), a, c);
    }
    SameHits(d, s, dst, src, rects + [Part(left, v, 0)], rects, swizzle);
  }

  /** `n` whole pixels copied in one go. */
  function Spliced(d: seq<int>, at: int, s: seq<int>, from: int, bytes: nat): (r: seq<int>)
    requires 0 <= at && at + bytes <= |d| && 0 <= from && from + bytes <= |s|
    ensures |r| == |d|
  {
    d[..at] + s[from..from + bytes] + d[at + bytes..]
  }

  /** Without rotation, a bulk copy of a row is that row pixel by pixel. */
  lemma {:induction false} BulkRow(d: seq<int>, s: seq<int>, dst: Surface, src: Surface, rects: seq<Rect>, left: int,
                                   v: int, n: nat)
    requires Ready(d, s, dst, src, rects) && Ready(d, s, dst, src, rects + [Part(left, v, n)])
    requires dst.rotation.Identity? && src.rotation.Identity? && n > 0
    ensures 0 <= Address(dst, left, v) && Address(dst, left, v) + 4 * n <= |d|
    ensures 0 <= Address(src, left, v) && Address(src, left, v) + 4 * n <= |s|
    ensures Blit(d, s, dst, src, rects + [Part(left, v, n)], false)
         == Spliced(Blit(d, s, dst, src, rects, false), Address(dst, left, v), s, Address(src, left, v), 4 * n)
  {
    PixelStep(d, s, dst, src, rects, left, v, n - 1, false);
    if n == 1 {
      EmptyPart(d, s, dst, src, rects, left, v, false);
      StoredIsSpliced(Blit(d, s, dst, src, rects, false), Address(dst, left, v), s, Address(src, left, v), 0);
    } else {
      BulkRow(d, s, dst, src, rects, left, v, n - 1);
      StoredIsSpliced(Blit(d, s, dst, src, rects, false), Address(dst, left, v), s, Address(src, left, v), 4 * (n - 1));
    }
  }

  lemma StoredIsSpliced(d: seq<int>, at: int, s: seq<int>, from: int, k: nat)
    requires 0 <= at && at + k + 4 <= |d| && 0 <= from && from + k + 4 <= |s|
    ensures Stored(Spliced(d, at, s, from, k), at + k, s, from + k, false) == Spliced(d, at, s, from, k + 4)
    ensures Spliced(d, at, s, from, 0) == d
  {
  }

  /** `RtlCopyMemory`. */
  method CopyMemory(da: array<int>, at: int, sa: array<int>, from: int, bytes: nat)
    requires da != sa && 0 <= at && at + bytes <= da.Length && 0 <= from && from + bytes <= sa.Length
    modifies da
    ensures da[..] == Spliced(old(da[..]), at, sa[..], from, bytes)
  {
    for i := 0 to bytes
      invariant da[..] == Spliced(old(da[..]), at, sa[..], from, i)
    {
      da[at + i] := sa[from + i];
    }
  }

  /** One row as a single copy; both surfaces unrotated. */
  method CopyRowBulk(da: array<int>, sa: array<int>, dst: Surface, src: Surface, dstRow: int, srcRow: int,
                     ghost left: int, ghost v: int, n: nat, ghost d: seq<int>, ghost rects: seq<Rect>)
    requires da != sa && |d| == da.Length && Ready(d, sa[..], dst, src, rects + [Part(left, v, n)])
    requires Ready(d, sa[..], dst, src, rects) && da[..] == Blit(d, sa[..], dst, src, rects, false)
    requires dst.rotation.Identity? && src.rotation.Identity?
    requires dstRow == Address(dst, left, v) && srcRow == Address(src, left, v)
    modifies da
    ensures da[..] == Blit(d, sa[..], dst, src, rects + [Part(left, v, n)], false)
  {
    if n == 0 {
      EmptyPart(d, sa[..], dst, src, rects, left, v, false);
    } else {
      BulkRow(d, sa[..], dst, src, rects, left, v, n);
      CopyMemory(da, dstRow, sa, srcRow, n * 4);
    }
  }

  /** The first `y` rows of a rectangle. */
  function Half(r: Rect, y: int): Rect {
    Rect(r.left, r.top, r.right, r.top + y)
  }

  /** With its next row, a partly copied rectangle is one row longer. */
  lemma RowDone(d: seq<int>, s: seq<int>, dst: Surface, src: Surface, rects: seq<Rect>, r: Rect, y: nat, swizzle: bool)
    requires Ready(d, s, dst, src, rects + [r]) && r.top + y < r.bottom
    ensures var w := r.right - r.left;
            && Ready(d, s, dst, src, rects + [Half(r, y)]) && Ready(d, s, dst, src, rects + [Half(r, y + 1)])
            && Ready(d, s, dst, src, rects + [Half(r, y)] + [Part(r.left, r.top + y, w)])
            && Blit(d, s, dst, src, rects + [Half(r, y)] + [Part(r.left, r.top + y, w)], swizzle)
            == Blit(d, s, dst, src, rects + [Half(r, y + 1)], swizzle)
  {
    var row := Part(r.left, r.top + y, r.right - r.left);
    ReadyMore(d, s, dst, src, rects, r);
    SubRect(dst, r, Half(r, y));
    SubRect(src, r, Half(r, y));
    SubRect(dst, r, Half(r, y + 1));
    SubRect(src, r, Half(r, y + 1));
    SubRect(dst, r, row);
    SubRect(src, r, row);
    ReadyMore(d, s, dst, src, rects, Half(r, y));
    ReadyMore(d, s, dst, src, rects, Half(r, y + 1));
    ReadyMore(d, s, dst, src, rects + [Half(r, y)], row);
    forall u, v
      ensures Hit(rects + [Half(r, y)] + [row], u, v) <==> Hit(rects + [Half(r, y + 1)], u, v)
    {
      HitMore(rects + [Half(r, y)], row, u, v);
      HitMore(rects, Half(r, y), u, v);
      HitMore(rects, Half(r, y + 1), u, v);
    }
    SameHits(d, s, dst, src, rects + [Half(r, y)] + [row], rects + [Half(r, y + 1)], swizzle);
  }

  lemma NoRows(d: seq<int>, s: seq<int>, dst: Surface, src: Surface, rects: seq<Rect>, r: Rect, swizzle: bool)
    requires Ready(d, s, dst, src, rects + [r])
    ensures Ready(d, s, dst, src, rects) && Ready(d, s, dst, src, rects + [Half(r, 0)])
    ensures Blit(d, s, dst, src, rects + [Half(r, 0)], swizzle) == Blit(d, s, dst, src, rects, swizzle)
    ensures Half(r, r.bottom - r.top) == r && r.left <= r.right && r.top <= r.bottom
  {
    ReadyMore(d, s, dst, src, rects, r);
    SubRect(dst, r, Half(r, 0));
    SubRect(src, r, Half(r, 0));
    ReadyMore(d, s, dst, src, rects, Half(r, 0));
    forall u, v
      ensures Hit(rects + [Half(r, 0)], u, v) <==> Hit(rects, u, v)
    {
      HitMore(rects, Half(r, 0), u, v);
    }
    SameHits(d, s, dst, src, rects + [Half(r, 0)], rects, swizzle);
  }

  method CopyRectGeneric(da: array<int>, sa: array<int>, dst: Surface, src: Surface, r: Rect, ghost d: seq<int>,
                         ghost rects: seq<Rect>)
    requires da != sa && |d| == da.Length && Ready(d, sa[..], dst, src, rects + [r])
    requires Ready(d, sa[..], dst, src, rects) && da[..] == Blit(d, sa[..], dst, src, rects, false)
    modifies da
    ensures da[..] == Blit(d, sa[..], dst, src, rects + [r], false)
  {
    NoRows(d, sa[..], dst, src, rects, r, false);
    StartPixel(dst, r);
    StartPixel(src, r);
    var numPixels, numRows := r.right - r.left, r.bottom - r.top;
    var dstRow, srcRow := RowStart(dst, r), RowStart(src, r);
    for y := 0 to numRows
      invariant Ready(d, sa[..], dst, src, rects + [Half(r, y)])
      invariant dstRow == Address(dst, r.left, r.top + y) && srcRow == Address(src, r.left, r.top + y)
      invariant da[..] == Blit(d, sa[..], dst, src, rects + [Half(r, y)], false)
    {
      RowDone(d, sa[..], dst, src, rects, r, y, false);
      CopyRow(da, sa, dst, src, dstRow, srcRow, r.left, r.top + y, numPixels, false, d, rects + [Half(r, y)]);
      NextPixel(dst, r.left, r.top + y);
      NextPixel(src, r.left, r.top + y);
      dstRow := dstRow + RowPitch(dst);
      srcRow := srcRow + RowPitch(src);
    }
  }

  lemma PrefixReady(d: seq<int>, s: seq<int>, dst: Surface, src: Surface, rects: seq<Rect>, i: nat)
    requires Ready(d, s, dst, src, rects) && i <= |rects|
    ensures Ready(d, s, dst, src, rects[..i])
    ensures i < |rects| ==> rects[..i + 1] == rects[..i] + [rects[i]]
    ensures rects[..|rects|] == rects
  {
    assert forall k | 0 <= k < i :: rects[..i][k] == rects[k];
  }

  /** Any two rotations, one pixel at a time; never swizzles. */
  method CopyBitsGeneric(da: array<int>, sa: array<int>, dst: Surface, src: Surface, rects: seq<Rect>)
    requires da != sa && Ready(da[..], sa[..], dst, src, rects)
    modifies da
    ensures da[..] == Blit(old(da[..]), sa[..], dst, src, rects, false)
  {
    ghost var d := da[..];
    PrefixReady(d, sa[..], dst, src, rects, 0);
    NoRects(d, sa[..], dst, src, false);
    for i := 0 to |rects|
      invariant Ready(d, sa[..], dst, src, rects[..i])
      invariant da[..] == Blit(d, sa[..], dst, src, rects[..i], false)
    {
      PrefixReady(d, sa[..], dst, src, rects, i);
      PrefixReady(d, sa[..], dst, src, rects, i + 1);
      CopyRectGeneric(da, sa, dst, src, rects[i], d, rects[..i]);
    }
    PrefixReady(d, sa[..], dst, src, rects, |rects|);
  }

  method CopyRect32(da: array<int>, sa: array<int>, dst: Surface, src: Surface, r: Rect, swizzle: bool,
                    ghost d: seq<int>, ghost rects: seq<Rect>)
    requires da != sa && |d| == da.Length && Ready(d, sa[..], dst, src, rects + [r])
    requires dst.rotation.Identity? && src.rotation.Identity?
    requires Ready(d, sa[..], dst, src, rects) && da[..] == Blit(d, sa[..], dst, src, rects, swizzle)
    modifies da
    ensures da[..] == Blit(d, sa[..], dst, src, rects + [r], swizzle)
  {
    NoRows(d, sa[..], dst, src, rects, r, swizzle);
    var numPixels, numRows := r.right - r.left, r.bottom - r.top;
    var startDst := dst.base + (r.top + dst.offY) * dst.pitch + (r.left + dst.offX) * 4;
    var startSrc := src.base + (r.top + src.offY) * src.pitch + (r.left + src.offX) * 4;
    for y := 0 to numRows
      invariant Ready(d, sa[..], dst, src, rects + [Half(r, y)])
      invariant startDst == Address(dst, r.left, r.top + y) && startSrc == Address(src, r.left, r.top + y)
      invariant da[..] == Blit(d, sa[..], dst, src, rects + [Half(r, y)], swizzle)
    {
      RowDone(d, sa[..], dst, src, rects, r, y, swizzle);
      if swizzle {
        CopyRow(da, sa, dst, src, startDst, startSrc, r.left, r.top + y, numPixels, true, d, rects + [Half(r, y)]);
      } else {
        CopyRowBulk(da, sa, dst, src, startDst, startSrc, r.left, r.top + y, numPixels, d, rects + [Half(r, y)]);
      }
      NextPixel(dst, r.left, r.top + y);
      NextPixel(src, r.left, r.top + y);
      startDst := startDst + dst.pitch;
      startSrc := startSrc + src.pitch;
    }
  }

  predicate NeedsSwizzle(dst: Surface, src: Surface) {
    dst.format.A8B8G8R8? && src.format.A8R8G8B8?
  }

  /** Unrotated surfaces: whole rows at a time, or pixels with red and blue exchanged. */
  method CopyBits32(da: array<int>, sa: array<int>, dst: Surface, src: Surface, rects: seq<Rect>)
    requires da != sa && Ready(da[..], sa[..], dst, src, rects)
    requires dst.rotation.Identity? && src.rotation.Identity?
    modifies da
    ensures da[..] == Blit(old(da[..]), sa[..], dst, src, rects, NeedsSwizzle(dst, src))
  {
    ghost var d := da[..];
    var swizzle := NeedsSwizzle(dst, src);
    PrefixReady(d, sa[..], dst, src, rects, 0);
    NoRects(d, sa[..], dst, src, swizzle);
    for i := 0 to |rects|
      invariant Ready(d, sa[..], dst, src, rects[..i])
      invariant da[..] == Blit(d, sa[..], dst, src, rects[..i], swizzle)
    {
      PrefixReady(d, sa[..], dst, src, rects, i);
      PrefixReady(d, sa[..], dst, src, rects, i + 1);
      CopyRect32(da, sa, dst, src, rects[i], swizzle, d, rects[..i]);
    }
    PrefixReady(d, sa[..], dst, src, rects, |rects|);
  }

  /** The entry point exchanges red and blue only between unrotated surfaces. */
  predicate Exchanges(dst: Surface, src: Surface) {
    dst.rotation.Identity? && src.rotation.Identity? && NeedsSwizzle(dst, src)
  }

  /** The entry point: the fast form where it applies. */
  method BltBits(da: array<int>, sa: array<int>, dst: Surface, src: Surface, rects: seq<Rect>)
    requires da != sa && Ready(da[..], sa[..], dst, src, rects)
    modifies da
    ensures da[..] == Blit(old(da[..]), sa[..], dst, src, rects, Exchanges(dst, src))
  {
    if dst.rotation.Identity? && src.rotation.Identity? {
      CopyBits32(da, sa, dst, src, rects);
    } else {
      CopyBitsGeneric(da, sa, dst, src, rects);
    }
  }

  /** The two forms leave the same memory iff no exchange was due or no copied pixel would show one. */
  lemma FormsAgreeIff(d: seq<int>, s: seq<int>, dst: Surface, src: Surface, rects: seq<Rect>)
    requires Ready(d, s, dst, src, rects)
    ensures Blit(d, s, dst, src, rects, NeedsSwizzle(dst, src)) == Blit(d, s, dst, src, rects, false) <==>
            !NeedsSwizzle(dst, src) || forall u, v | Hit(rects, u, v) :: RedIsBlue(s, src, rects, u, v)
  {
    if NeedsSwizzle(dst, src) {
      var a, b := Blit(d, s, dst, src, rects, true), Blit(d, s, dst, src, rects, false);
      if a == b {
        forall u, v | Hit(rects, u, v)
          ensures RedIsBlue(s, src, rects, u, v)
        {
          BlitMovesPixels(d, s, dst, src, rects, true, u, v, 0);
          BlitMovesPixels(d, s, dst, src, rects, false, u, v, 0);
        }
      }
      if forall u, v | Hit(rects, u, v) :: RedIsBlue(s, src, rects, u, v) {
        forall j: nat | j < |d|
          ensures a[j] == b[j]
        {
          if InPixel(dst, j) && Hit(rects, PixelX(dst, j), PixelY(dst, j)) {
            assert RedIsBlue(s, src, rects, PixelX(dst, j), PixelY(dst, j));
          }
        }
      }
    }
  }

  /** Exchanging red and blue would not change this source pixel. */
  ghost predicate RedIsBlue(s: seq<int>, src: Surface, rects: seq<Rect>, u: int, v: int)
    requires Fits(src, |s|) && AllInFrame(src, rects) && Hit(rects, u, v)
  {
    HitInBounds(s, src, rects, u, v);
    s[Address(src, u, v)] == s[Address(src, u, v) + 2]
  }

  /** The entry point honours the formats of a pair iff it is unrotated, alike, or no pixel would show it. */
  lemma FormatsHonouredIff(d: seq<int>, s: seq<int>, dst: Surface, src: Surface, rects: seq<Rect>)
    requires Ready(d, s, dst, src, rects)
    ensures (Blit(d, s, dst, src, rects, Exchanges(dst, src)) ==
             Blit(d, s, dst, src, rects, NeedsSwizzle(dst, src))) <==>
            || !NeedsSwizzle(dst, src)
            || (dst.rotation.Identity? && src.rotation.Identity?)
            || forall u, v | Hit(rects, u, v) :: RedIsBlue(s, src, rects, u, v)
  {
    FormsAgreeIff(d, s, dst, src, rects);
  }

  /** Which byte of a pixel is red, and which is blue. */
  function RedByte(f: Format): nat {
    match f case A8R8G8B8 => 2 case A8B8G8R8 => 0 case Other => 0
  }

  function BlueByte(f: Format): nat {
    match f case A8R8G8B8 => 0 case A8B8G8R8 => 2 case Other => 0
  }

  /** Pixel (u, v) arrived in `r` with its red and its blue where the formats have them. */
  ghost predicate ColoursArrive(r: seq<int>, s: seq<int>, dst: Surface, src: Surface, rects: seq<Rect>, u: int, v: int)
    requires Fits(dst, |r|) && Fits(src, |s|) && AllInFrame(dst, rects) && AllInFrame(src, rects) && Hit(rects, u, v)
  {
    HitInBounds(r, dst, rects, u, v);
    HitInBounds(s, src, rects, u, v);
    && r[Address(dst, u, v) + RedByte(dst.format)] == s[Address(src, u, v) + RedByte(src.format)]
    && r[Address(dst, u, v) + BlueByte(dst.format)] == s[Address(src, u, v) + BlueByte(src.format)]
  }

  /** Its green and its alpha, which both formats have in the same place. */
  ghost predicate RestArrives(r: seq<int>, s: seq<int>, dst: Surface, src: Surface, rects: seq<Rect>, u: int, v: int)
    requires Fits(dst, |r|) && Fits(src, |s|) && AllInFrame(dst, rects) && AllInFrame(src, rects) && Hit(rects, u, v)
  {
    HitInBounds(r, dst, rects, u, v);
    HitInBounds(s, src, rects, u, v);
    && r[Address(dst, u, v) + 1] == s[Address(src, u, v) + 1]
    && r[Address(dst, u, v) + 3] == s[Address(src, u, v) + 3]
  }

  /**
    The entry point brings every copied pixel's colours across between the two formats exactly if the
    formats are alike, or the destination is A8B8G8R8 and both surfaces are unrotated, or red equals
    blue in every copied pixel.
   */
  lemma ColoursArriveIff(d: seq<int>, s: seq<int>, dst: Surface, src: Surface, rects: seq<Rect>)
    requires Ready(d, s, dst, src, rects) && !dst.format.Other? && !src.format.Other?
    ensures var r := Blit(d, s, dst, src, rects, Exchanges(dst, src));
            && (forall u, v | Hit(rects, u, v) :: RestArrives(r, s, dst, src, rects, u, v))
            && ((forall u, v | Hit(rects, u, v) :: ColoursArrive(r, s, dst, src, rects, u, v)) <==>
                || dst.format == src.format
                || (dst.format.A8B8G8R8? && dst.rotation.Identity? && src.rotation.Identity?)
                || forall u, v | Hit(rects, u, v) :: RedIsBlue(s, src, rects, u, v))
  {
    var r := Blit(d, s, dst, src, rects, Exchanges(dst, src));
    forall u, v | Hit(rects, u, v)
      ensures RestArrives(r, s, dst, src, rects, u, v)
      ensures ColoursArrive(r, s, dst, src, rects, u, v) <==>
              || dst.format == src.format || Exchanges(dst, src) || RedIsBlue(s, src, rects, u, v)
    {
      PixelColours(d, s, dst, src, rects, Exchanges(dst, src), u, v);
    }
  }

  lemma PixelColours(d: seq<int>, s: seq<int>, dst: Surface, src: Surface, rects: seq<Rect>, swizzle: bool,
                     u: int, v: int)
    requires Ready(d, s, dst, src, rects) && Hit(rects, u, v) && !dst.format.Other? && !src.format.Other?
    requires swizzle ==> dst.format != src.format
    ensures var r := Blit(d, s, dst, src, rects, swizzle);
            && RestArrives(r, s, dst, src, rects, u, v)
            && (ColoursArrive(r, s, dst, src, rects, u, v) <==>
                || dst.format == src.format || swizzle || RedIsBlue(s, src, rects, u, v))
  {
    BlitMovesPixels(d, s, dst, src, rects, swizzle, u, v, 0);
    BlitMovesPixels(d, s, dst, src, rects, swizzle, u, v, 1);
    BlitMovesPixels(d, s, dst, src, rects, swizzle, u, v, 2);
    BlitMovesPixels(d, s, dst, src, rects, swizzle, u, v, 3);
  }

  function OnePixel(rotation: Rotation, format: Format): Surface {
    Surface(0, 4, 32, 0, 0, rotation, 1, 1, format)
  }

  function UnitRects(): seq<Rect> {
    [Rect(0, 0, 1, 1)]
  }

  lemma OnePixelReady(d: seq<int>, s: seq<int>, p: Rotation, f: Format, q: Rotation, g: Format)
    requires |d| == |s| == 4
    ensures Ready(d, s, OnePixel(p, f), OnePixel(q, g), UnitRects()) && Hit(UnitRects(), 0, 0)
  {
    assert Contains(UnitRects()[0], 0, 0);
  }

  lemma OnePixelAt(p: Rotation, f: Format, k: nat)
    ensures ByteAt(OnePixel(p, f), 0, 0, k) == k
  {
  }

  lemma OnePixelByte(d: seq<int>, s: seq<int>, p: Rotation, f: Format, q: Rotation, g: Format, swizzle: bool, k: nat)
    requires |d| == |s| == 4 && k < 4 && Ready(d, s, OnePixel(p, f), OnePixel(q, g), UnitRects())
    ensures Blit(d, s, OnePixel(p, f), OnePixel(q, g), UnitRects(), swizzle)[k] == s[SourceByte(swizzle, k)]
  {
    hide Blit, Ready, ByteAt, OnePixel;
    OnePixelReady(d, s, p, f, q, g);
    OnePixelAt(p, f, k);
    OnePixelAt(q, g, SourceByte(swizzle, k));
    BlitMovesPixels(d, s, OnePixel(p, f), OnePixel(q, g), UnitRects(), swizzle, 0, 0, k);
  }

  lemma OnePixelBlit(d: seq<int>, s: seq<int>, p: Rotation, f: Format, q: Rotation, g: Format, swizzle: bool)
    requires |d| == |s| == 4 && Ready(d, s, OnePixel(p, f), OnePixel(q, g), UnitRects())
    ensures Blit(d, s, OnePixel(p, f), OnePixel(q, g), UnitRects(), swizzle)
         == if swizzle then [s[2], s[1], s[0], s[3]] else s
  {
    hide Blit, Ready, OnePixel, UnitRects;
    OnePixelByte(d, s, p, f, q, g, swizzle, 0);
    OnePixelByte(d, s, p, f, q, g, swizzle, 1);
    OnePixelByte(d, s, p, f, q, g, swizzle, 2);
    OnePixelByte(d, s, p, f, q, g, swizzle, 3);
  }

  /** A failing input: a single red pixel, copied to a rotated surface of the other format, turns blue. */
  lemma RotatedRedTurnsBlue()
    ensures var dst, src := OnePixel(Rotate90, A8B8G8R8), OnePixel(Identity, A8R8G8B8);
            var d, s := [0, 0, 0, 0], [0, 0, 255, 255];
            && Ready(d, s, dst, src, UnitRects()) && NeedsSwizzle(dst, src)
            && Blit(d, s, dst, src, UnitRects(), Exchanges(dst, src)) == [0, 0, 255, 255]
            && Blit(d, s, dst, src, UnitRects(), NeedsSwizzle(dst, src)) == [255, 0, 0, 255]
  {
    hide Blit, Ready;
    OnePixelReady([0, 0, 0, 0], [0, 0, 255, 255], Rotate90, A8B8G8R8, Identity, A8R8G8B8);
    OnePixelBlit([0, 0, 0, 0], [0, 0, 255, 255], Rotate90, A8B8G8R8, Identity, A8R8G8B8, true);
    OnePixelBlit([0, 0, 0, 0], [0, 0, 255, 255], Rotate90, A8B8G8R8, Identity, A8R8G8B8, false);
  }
}
