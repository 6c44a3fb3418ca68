/**
  The rotating blitter: logical rectangles copied between two 32-bit surfaces, each with its own
  rotation, pitch and offset.  `Blit` says byte by byte what the destination becomes; both
  copying loops are proved to compute it.
 */
module BlitSpec {
  import opened RingMath

  const BITS_PER_BYTE := 8

  datatype Rotation = Identity | Rotate90 | Rotate180 | Rotate270
  datatype Format = A8R8G8B8 | A8B8G8R8 | Other
  datatype Rect = Rect(left: int, top: int, right: int, bottom: int)

  /** A surface of `width` by `height` pixels in rows `pitch` bytes apart, starting at byte `base` of its memory. */
  datatype Surface = Surface(base: nat, pitch: nat, bpp: nat, offX: int, offY: int, rotation: Rotation, width: nat,
                             height: nat, format: Format)

  // ---------------------------------------------------------------- address arithmetic, as the source computes it

  function PixelPitch(b: Surface): int {
    match b.rotation
    case Identity => b.bpp / BITS_PER_BYTE
    case Rotate90 => 0 - b.pitch
    case Rotate180 => 0 - b.bpp / BITS_PER_BYTE
    case Rotate270 => b.pitch
  }

  function RowPitch(b: Surface): int {
    match b.rotation
    case Identity => b.pitch
    case Rotate90 => b.bpp / BITS_PER_BYTE
    case Rotate180 => 0 - b.pitch
    case Rotate270 => 0 - b.bpp / BITS_PER_BYTE
  }

  function RowStart(b: Surface, r: Rect): int {
    var left, top, bytes := r.left + b.offX, r.top + b.offY, b.bpp / BITS_PER_BYTE;
    match b.rotation
    case Identity => b.base + top * b.pitch + left * bytes
    case Rotate90 => b.base + (b.height - 1 - left) * b.pitch + top * bytes
    case Rotate180 => b.base + (b.height - 1 - top) * b.pitch + (b.width - 1 - left) * bytes
    case Rotate270 => b.base + left * b.pitch + (b.width - 1 - top) * bytes
  }

  // ---------------------------------------------------------------- what rotation means

  /** Where logical pixel (u, v) lies on the surface: column and row. */
  function Column(b: Surface, u: int, v: int): int {
    match b.rotation
    case Identity => u + b.offX
    case Rotate90 => v + b.offY
    case Rotate180 => b.width - 1 - (u + b.offX)
    case Rotate270 => b.width - 1 - (v + b.offY)
  }

  function Row(b: Surface, u: int, v: int): int {
    match b.rotation
    case Identity => v + b.offY
    case Rotate90 => b.height - 1 - (u + b.offX)
    case Rotate180 => b.height - 1 - (v + b.offY)
    case Rotate270 => u + b.offX
  }

  /** And back. */
  function LogicalX(b: Surface, col: int, row: int): int {
    match b.rotation
    case Identity => col - b.offX
    case Rotate90 => b.height - 1 - row - b.offX
    case Rotate180 => b.width - 1 - col - b.offX
    case Rotate270 => row - b.offX
  }

  function LogicalY(b: Surface, col: int, row: int): int {
    match b.rotation
    case Identity => row - b.offY
    case Rotate90 => col - b.offY
    case Rotate180 => b.height - 1 - row - b.offY
    case Rotate270 => b.width - 1 - col - b.offY
  }

  predicate OnSurface(b: Surface, u: int, v: int) {
    0 <= Column(b, u, v) < b.width && 0 <= Row(b, u, v) < b.height
  }

  predicate Contains(r: Rect, u: int, v: int) {
    r.left <= u < r.right && r.top <= v < r.bottom
  }

  function Address(b: Surface, u: int, v: int): int {
    b.base + Row(b, u, v) * b.pitch + Column(b, u, v) * 4
  }

  /** 32-bit pixels, rows that do not overlap, all inside `size` bytes of memory. */
  ghost predicate Fits(b: Surface, size: nat) {
    && b.bpp == 32 && b.width * 4 <= b.pitch && b.width > 0 && b.height > 0
    && b.base + b.height * b.pitch <= size
  }

  ghost predicate InFrame(b: Surface, r: Rect) {
    r.left <= r.right && r.top <= r.bottom && forall u, v | Contains(r, u, v) :: OnSurface(b, u, v)
  }

  lemma LogicalInverse(b: Surface, u: int, v: int)
    ensures LogicalX(b, Column(b, u, v), Row(b, u, v)) == u && LogicalY(b, Column(b, u, v), Row(b, u, v)) == v
  {
  }

  lemma LogicalForward(b: Surface, col: int, row: int)
    ensures Column(b, LogicalX(b, col, row), LogicalY(b, col, row)) == col
    ensures Row(b, LogicalX(b, col, row), LogicalY(b, col, row)) == row
  {
  }

  /** The source's row start and the two pitches lead to the pixel the rotation means. */
  lemma SourceAddress(b: Surface, r: Rect, x: int, y: int)
    requires b.bpp == 32
    ensures RowStart(b, r) + y * RowPitch(b) + x * PixelPitch(b) == Address(b, r.left + x, r.top + y)
  {
    var u, v, p := r.left + x + b.offX, r.top + y + b.offY, b.pitch;
    match b.rotation
    case Identity => Spread(r.top + b.offY, y, p);
    case Rotate90 => Spread(b.height - 1 - (r.left + b.offX), -x, p);
    case Rotate180 => Spread(b.height - 1 - (r.top + b.offY), -y, p);
    case Rotate270 => Spread(r.left + b.offX, x, p);
  }

  lemma Spread(a: int, d: int, p: int)
    ensures (a + d) * p == a * p + d * p
    ensures (-d) * p == -(d * p) && d * (-p) == -(d * p)
  {
  }

  /** Every byte of an on-surface pixel is in bounds. */
  lemma InBounds(b: Surface, size: nat, u: int, v: int)
    requires Fits(b, size) && OnSurface(b, u, v)
    ensures b.base <= Address(b, u, v) && Address(b, u, v) + 4 <= b.base + b.height * b.pitch <= size
  {
    var row := Row(b, u, v);
    MulMono(row + 1, b.height, b.pitch);
    Spread(row, 1, b.pitch);
    assert row * b.pitch >= 0;
  }

  lemma MulMono(a: nat, b: nat, p: nat)
    requires a <= b
    ensures a * p <= b * p
  {
  }

  /** Row and column of a byte address. */
  lemma AddressParts(b: Surface, size: nat, u: int, v: int, k: nat)
    requires Fits(b, size) && OnSurface(b, u, v) && k < 4
    ensures var j := Address(b, u, v) + k - b.base;
            j / b.pitch == Row(b, u, v) && (j % b.pitch) / 4 == Column(b, u, v) && (j % b.pitch) % 4 == k
  {
    DivModUnique(Address(b, u, v) + k - b.base, b.pitch, Row(b, u, v), Column(b, u, v) * 4 + k);
  }

  /** Distinct on-surface pixels occupy distinct bytes. */
  lemma AddressInjective(b: Surface, size: nat, u: int, v: int, k: nat, u': int, v': int, k': nat)
    requires Fits(b, size) && OnSurface(b, u, v) && OnSurface(b, u', v') && k < 4 && k' < 4
    requires Address(b, u, v) + k == Address(b, u', v') + k'
    ensures u == u' && v == v' && k == k'
  {
    AddressParts(b, size, u, v, k);
    AddressParts(b, size, u', v', k');
    LogicalInverse(b, u, v);
    LogicalInverse(b, u', v');
  }

  // ---------------------------------------------------------------- what a blit means

  /** Byte `k` of a pixel comes from this byte of the source pixel. */
  function SourceByte(swizzle: bool, k: nat): nat {
    if swizzle && k == 0 then 2 else if swizzle && k == 2 then 0 else k
  }

  /** The logical pixel a destination byte belongs to, if it belongs to one. */
  predicate InPixel(b: Surface, j: int)
    requires b.pitch > 0
  {
    0 <= j - b.base && (j - b.base) / b.pitch < b.height && ((j - b.base) % b.pitch) / 4 < b.width
  }

  function PixelX(b: Surface, j: int): int
    requires b.pitch > 0
  {
    LogicalX(b, ((j - b.base) % b.pitch) / 4, (j - b.base) / b.pitch)
  }

  function PixelY(b: Surface, j: int): int
    requires b.pitch > 0
  {
    LogicalY(b, ((j - b.base) % b.pitch) / 4, (j - b.base) / b.pitch)
  }

  function ByteInPixel(b: Surface, j: int): nat
    requires b.pitch > 0
  {
    ((j - b.base) % b.pitch) % 4
  }

  /** Some rectangle holds logical pixel (u, v). */
  predicate Hit(rects: seq<Rect>, u: int, v: int) {
    exists i | 0 <= i < |rects| :: Contains(rects[i], u, v)
  }

  ghost predicate AllInFrame(b: Surface, rects: seq<Rect>) {
    forall i | 0 <= i < |rects| :: InFrame(b, rects[i])
  }

  /** Both surfaces fit their memories and hold every rectangle. */
  ghost predicate Ready(d: seq<int>, s: seq<int>, dst: Surface, src: Surface, rects: seq<Rect>) {
    Fits(dst, |d|) && Fits(src, |s|) && AllInFrame(dst, rects) && AllInFrame(src, rects)
  }

  /** What destination byte `j` becomes. */
  ghost function Byte(d: seq<int>, s: seq<int>, dst: Surface, src: Surface, rects: seq<Rect>, swizzle: bool,
                      j: nat): int
    requires Ready(d, s, dst, src, rects) && j < |d|
  {
    if InPixel(dst, j) && Hit(rects, PixelX(dst, j), PixelY(dst, j)) then
      HitInBounds(s, src, rects, PixelX(dst, j), PixelY(dst, j));
      s[Address(src, PixelX(dst, j), PixelY(dst, j)) + SourceByte(swizzle, ByteInPixel(dst, j))]
    else d[j]
  }

  lemma HitInBounds(s: seq<int>, src: Surface, rects: seq<Rect>, u: int, v: int)
    requires Fits(src, |s|) && AllInFrame(src, rects) && Hit(rects, u, v)
    ensures OnSurface(src, u, v) && 0 <= Address(src, u, v) && Address(src, u, v) + 4 <= |s|
  {
    var i :| 0 <= i < |rects| && Contains(rects[i], u, v);
    assert InFrame(src, rects[i]);
    InBounds(src, |s|, u, v);
  }

  ghost function Blit(d: seq<int>, s: seq<int>, dst: Surface, src: Surface, rects: seq<Rect>,
                      swizzle: bool): (r: seq<int>)
    requires Ready(d, s, dst, src, rects)
    ensures |r| == |d|
  {
    seq(|d|, j requires 0 <= j < |d| => Byte(d, s, dst, src, rects, swizzle, j))
  }

  function ByteAt(b: Surface, u: int, v: int, k: nat): int {
    Address(b, u, v) + k
  }

  /** Byte `j` of a surface lies in some pixel of some rectangle. */
  ghost predicate Covered(b: Surface, rects: seq<Rect>, j: int) {
    exists u, v, k: nat :: k < 4 && Hit(rects, u, v) && ByteAt(b, u, v, k) == j
  }

  /** Every logical pixel of every rectangle arrives, and nothing else changes. */
  lemma BlitMovesPixels(d: seq<int>, s: seq<int>, dst: Surface, src: Surface, rects: seq<Rect>, swizzle: bool, u: int,
                        v: int, k: nat)
    requires Ready(d, s, dst, src, rects) && Hit(rects, u, v) && k < 4
    ensures 0 <= ByteAt(dst, u, v, k) < |d| && 0 <= ByteAt(src, u, v, SourceByte(swizzle, k)) < |s|
    ensures Blit(d, s, dst, src, rects, swizzle)[ByteAt(dst, u, v, k)] == s[ByteAt(src, u, v, SourceByte(swizzle, k))]
  {
    HitInBounds(d, dst, rects, u, v);
    HitInBounds(s, src, rects, u, v);
    PixelOf(dst, |d|, u, v, k);
  }

  /** Where the source puts logical pixel (u, v): turned by quarters, measured from the far edges where it must be. */
  lemma RotationPlaces(b: Surface, u: int, v: int, k: nat)
    ensures b.rotation.Identity? ==> ByteAt(b, u, v, k) == b.base + (v + b.offY) * b.pitch + (u + b.offX) * 4 + k
    ensures b.rotation.Rotate90? ==>
              ByteAt(b, u, v, k) == b.base + (b.height - 1 - u - b.offX) * b.pitch + (v + b.offY) * 4 + k
    ensures b.rotation.Rotate180? ==>
              ByteAt(b, u, v, k)
              == b.base + (b.height - 1 - v - b.offY) * b.pitch + (b.width - 1 - u - b.offX) * 4 + k
    ensures b.rotation.Rotate270? ==>
              ByteAt(b, u, v, k) == b.base + (u + b.offX) * b.pitch + (b.width - 1 - v - b.offY) * 4 + k
  {
  }

  lemma HitCovers(b: Surface, size: nat, rects: seq<Rect>, j: nat)
    requires Fits(b, size) && InPixel(b, j) && Hit(rects, PixelX(b, j), PixelY(b, j))
    ensures Covered(b, rects, j)
  {
    AddressOf(b, size, j);
    assert ByteAt(b, PixelX(b, j), PixelY(b, j), ByteInPixel(b, j)) == j;
  }

  lemma BlitKeepsRest(d: seq<int>, s: seq<int>, dst: Surface, src: Surface, rects: seq<Rect>, swizzle: bool, j: nat)
    requires Ready(d, s, dst, src, rects) && j < |d| && !Covered(dst, rects, j)
    ensures Blit(d, s, dst, src, rects, swizzle)[j] == d[j]
  {
    if InPixel(dst, j) && Hit(rects, PixelX(dst, j), PixelY(dst, j)) {
      HitCovers(dst, |d|, rects, j);
    }
  }

  /** The bytes of pixel (u, v) belong to pixel (u, v). */
  lemma PixelOf(b: Surface, size: nat, u: int, v: int, k: nat)
    requires Fits(b, size) && OnSurface(b, u, v) && k < 4
    ensures var j := Address(b, u, v) + k;
            InPixel(b, j) && PixelX(b, j) == u && PixelY(b, j) == v && ByteInPixel(b, j) == k
  {
    AddressParts(b, size, u, v, k);
    LogicalInverse(b, u, v);
    InBounds(b, size, u, v);
  }

  lemma PixelAddress(b: Surface, col: int, row: int)
    ensures Address(b, LogicalX(b, col, row), LogicalY(b, col, row)) == b.base + row * b.pitch + col * 4
    ensures OnSurface(b, LogicalX(b, col, row), LogicalY(b, col, row)) <==> 0 <= col < b.width && 0 <= row < b.height
  {
    LogicalForward(b, col, row);
  }

  lemma Reassemble(o: nat, p: nat)
    requires p > 0
    ensures (o / p) * p + (o % p) / 4 * 4 + (o % p) % 4 == o
  {
  }

  /** A byte that belongs to a pixel is at that pixel's address. */
  lemma AddressOf(b: Surface, size: nat, j: nat)
    requires Fits(b, size) && InPixel(b, j)
    ensures Address(b, PixelX(b, j), PixelY(b, j)) + ByteInPixel(b, j) == j
    ensures OnSurface(b, PixelX(b, j), PixelY(b, j))
  {
    hide Address, OnSurface, LogicalX, LogicalY;
    var o := j - b.base;
    PixelAddress(b, (o % b.pitch) / 4, o / b.pitch);
    Reassemble(o, b.pitch);
  }
}
