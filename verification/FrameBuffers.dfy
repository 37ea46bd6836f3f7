/**
 * kernel/graphics/frame_buffer.cpp and device_pixel_writer.cpp: a byte buffer with scan-line
 * padding, its clipped and colour-keyed copies, and the pixel formats.
 */
module FrameBuffers {
  import opened Arithmetic
  import opened Geometry
  import opened Composition
  import opened Options
  import opened Bytes

  const BPP := 4

  datatype PixelFormat = RGBResv8BitPerColor | BGRResv8BitPerColor

  datatype Color = Color(r: byte, g: byte, b: byte)

  datatype Error = Success | UnknownPixelFormat

  // ----- pixel formats -----

  /** write_to_buf: the reserved byte is always zero. */
  function Encode(f: PixelFormat, c: Color): Pixel {
    match f
    case RGBResv8BitPerColor => [c.r, c.g, c.b, 0]
    case BGRResv8BitPerColor => [c.b, c.g, c.r, 0]
  }

  /** get_pixel_at. */
  function Decode(f: PixelFormat, p: Pixel): Color
    requires |p| == BPP
  {
    match f
    case RGBResv8BitPerColor => Color(p[0], p[1], p[2])
    case BGRResv8BitPerColor => Color(p[2], p[1], p[0])
  }

  datatype Channel = Red | Green | Blue

  /** The channels of a format in the order of their bytes, as the format's name tells them. */
  function ByteOrder(f: PixelFormat): seq<Channel> {
    match f
    case RGBResv8BitPerColor => [Red, Green, Blue]
    case BGRResv8BitPerColor => [Blue, Green, Red]
  }

  function Intensity(c: Color, ch: Channel): byte {
    match ch
    case Red => c.r
    case Green => c.g
    case Blue => c.b
  }

  /** A colour is written with its channels in the format's order and is read back from them. */
  lemma ChannelsInOrder(f: PixelFormat, c: Color, p: Pixel)
    requires |p| == BPP
    ensures |Encode(f, c)| == BPP && Encode(f, c)[3] == 0
    ensures forall k :: 0 <= k < 3 ==>
      Encode(f, c)[k] == Intensity(c, ByteOrder(f)[k]) && p[k] == Intensity(Decode(f, p), ByteOrder(f)[k])
  {
  }

  /** What every pixel written through a writer looks like. */
  predicate WellFormedPixel(p: Pixel) { |p| == BPP && p[3] == 0 }

  /** Skipping by byte equality is skipping by colour, because the reserved byte is kept at zero. */
  lemma KeyedByColour(f: PixelFormat, p: Pixel, c: Color)
    requires WellFormedPixel(p)
    ensures p == Encode(f, c) <==> Decode(f, p) == c
  {
    assert p == [p[0], p[1], p[2], p[3]];
  }

  // ----- clipping -----

  /** `to`/`size` is exactly the part of the copy whose source and destination are both in bounds. */
  ghost predicate IsClip(toSize: Vec, srcSize: Vec, to0: Vec, src0: Vec, size0: Vec, to: Vec, size: Vec) {
    forall x, y :: RectAt(to, size).Contains(x, y) <==>
      && RectAt(to0, size0).Contains(x, y) && RectAt(Vec(0, 0), toSize).Contains(x, y)
      && RectAt(Vec(0, 0), srcSize).Contains(x - to0.x + src0.x, y - to0.y + src0.y)
  }

  /** adjust_coords: clip one copy against both buffers. */
  method AdjustCoords(toSize: Vec, srcSize: Vec, to0: Vec, src0: Vec, size0: Vec) returns (to: Vec, src: Vec, size: Vec)
    requires toSize.x >= 0 && toSize.y >= 0 && srcSize.x >= 0 && srcSize.y >= 0
    ensures to.Sub(src) == to0.Sub(src0)
    ensures size.x > 0 && size.y > 0 ==>
      0 <= to.x && to.x + size.x <= toSize.x && 0 <= to.y && to.y + size.y <= toSize.y &&
      0 <= src.x && src.x + size.x <= srcSize.x && 0 <= src.y && src.y + size.y <= srcSize.y
    ensures IsClip(toSize, srcSize, to0, src0, size0, to, size)
  {
    hide DecreaseBy, IncreaseBy, MaxInt, MinInt;
    to, src, size := to0, src0, size0;
    size := Vec(DecreaseBy(size.x, src.x), DecreaseBy(size.y, src.y));
    to := Vec(IncreaseBy(to.x, src.x), IncreaseBy(to.y, src.y));
    src := src.Max(Vec(0, 0));

    size := Vec(DecreaseBy(size.x, to.x), DecreaseBy(size.y, to.y));
    src := Vec(IncreaseBy(src.x, to.x), IncreaseBy(src.y, to.y));
    to := to.Max(Vec(0, 0));

    var maxSize := toSize.Sub(to).Min(srcSize.Sub(src));
    size := size.Min(maxSize);
    AxisClip(toSize.x, srcSize.x, to0.x, src0.x, size0.x, to.x, src.x, size.x);
    AxisClip(toSize.y, srcSize.y, to0.y, src0.y, size0.y, to.y, src.y, size.y);
    forall x, y ensures RectAt(to, size).Contains(x, y) <==>
        OnAxis(toSize.x, srcSize.x, to0.x, src0.x, size0.x, x) && OnAxis(toSize.y, srcSize.y, to0.y, src0.y, size0.y, y)
    {
    }
  }

  /** The destination coordinate p of a copy along one axis is in both buffers. */
  predicate OnAxis(toSize: int, srcSize: int, to0: int, src0: int, size0: int, p: int) {
    to0 <= p < to0 + size0 && 0 <= p < toSize && 0 <= p - to0 + src0 < srcSize
  }

  /** Clipping along one axis. */
  lemma AxisClip(toSize: int, srcSize: int, to0: int, src0: int, size0: int, to: int, src: int, size: int)
    requires toSize >= 0 && srcSize >= 0
    requires to == MaxInt(IncreaseBy(to0, src0), 0) && src == IncreaseBy(MaxInt(src0, 0), IncreaseBy(to0, src0))
    requires size == MinInt(DecreaseBy(DecreaseBy(size0, src0), IncreaseBy(to0, src0)),
      MinInt(toSize - to, srcSize - src))
    ensures to - src == to0 - src0
    ensures size > 0 ==> 0 <= to && to + size <= toSize && 0 <= src && src + size <= srcSize
    ensures forall p :: to <= p < to + size <==> OnAxis(toSize, srcSize, to0, src0, size0, p)
  {
  }

  function DecreaseBy(v: int, d: int): int { if d < 0 then v + d else v }

  function IncreaseBy(v: int, d: int): int { if d < 0 then v - d else v }

  // ----- memory layout -----

  function Off(stride: nat, x: int, y: int): int { BPP * (stride * y + x) }

  lemma OffInside(stride: nat, height: nat, x: int, y: int)
    requires 0 <= x < stride && 0 <= y < height
    ensures 0 <= Off(stride, x, y) && Off(stride, x, y) + BPP <= BPP * (stride * height)
  {
    LineBelow(stride, y, height);
    MulNonNegative(stride, y);
  }

  lemma OffApart(stride: nat, x: int, y: int, x': int, y': int)
    requires 0 <= x < stride && 0 <= x' < stride && 0 <= y && 0 <= y' && (x, y) != (x', y')
    ensures Off(stride, x, y) + BPP <= Off(stride, x', y') || Off(stride, x', y') + BPP <= Off(stride, x, y)
  {
    if y < y' { LineBelow(stride, y, y'); } else if y' < y { LineBelow(stride, y', y); }
  }

  /** n lines further down. */
  lemma OffDown(stride: nat, x: int, y: int, n: nat)
    ensures Off(stride, x, y + n) == Off(stride, x, y) + n * (BPP * stride)
  {
    Distribute(stride, y, n);
  }

  lemma OffStep(stride: nat, x: int, y: int, i: nat, j: nat)
    ensures Step(Step(Off(stride, x, y), i, BPP * stride), j, BPP) == Off(stride, x + j, y + i)
  {
    StepIsLinear(Off(stride, x, y), i, BPP * stride);
    StepIsLinear(Step(Off(stride, x, y), i, BPP * stride), j, BPP);
    OffDown(stride, x, y, i);
  }

  /** All bytes of cell (x, y); cells with x >= width are scan-line padding. */
  ghost function Cell(mem: seq<byte>, stride: nat, height: nat, x: int, y: int): Pixel
    requires |mem| == BPP * (stride * height) && 0 <= x < stride && 0 <= y < height
  {
    OffInside(stride, height, x, y);
    Slice(mem, Off(stride, x, y), BPP)
  }

  ghost function PictureOf(mem: seq<byte>, width: nat, stride: nat, height: nat): Picture
    requires |mem| == BPP * (stride * height) && width <= stride
  {
    Build(width, height, (x, y) => if 0 <= x < width && 0 <= y < height then Cell(mem, stride, height, x, y) else [])
  }

  lemma PictureOfAt(mem: seq<byte>, width: nat, stride: nat, height: nat)
    requires |mem| == BPP * (stride * height) && width <= stride
    ensures var p := PictureOf(mem, width, stride, height);
      && p.Rectangular() && p.width == width && p.height == height
      && forall x, y :: p.Has(x, y) ==> p.At(x, y) == Cell(mem, stride, height, x, y)
  {
    BuildAt(width, height, (x, y) => if 0 <= x < width && 0 <= y < height then Cell(mem, stride, height, x, y) else []);
  }

  /** A clipped rectangle of a buffer is h rows inside its memory. */
  lemma RectFits(stride: nat, height: nat, x: int, y: int, w: nat, h: nat)
    requires 0 <= x && x + w <= stride && 0 <= y && y + h <= height && w > 0
    ensures 0 <= Off(stride, x, y)
    ensures RowsFit(BPP * (stride * height), Off(stride, x, y), w, BPP, h, BPP * stride)
    ensures Step(0, w, BPP) <= BPP * stride
  {
    MulNonNegative(stride, y);
    StepIsLinear(0, w, BPP);
    forall k: nat | k < h
      ensures Step(Step(Off(stride, x, y), k, BPP * stride), w, BPP) <= BPP * (stride * height)
    {
      OffStep(stride, x, y, k, w);
      OffInside(stride, height, x + w - 1, y + k);
    }
  }

  ghost predicate RectsInside(dst: seq<byte>, dw: nat, dh: nat, src: seq<byte>, sw: nat, sh: nat, to: Vec, from: Vec,
    w: nat, h: nat)
  {
    && |dst| == BPP * (dw * dh) && |src| == BPP * (sw * sh) && w > 0
    && 0 <= to.x && to.x + w <= dw && 0 <= to.y && to.y + h <= dh
    && 0 <= from.x && from.x + w <= sw && 0 <= from.y && from.y + h <= sh
    && RowsFit(|dst|, Off(dw, to.x, to.y), w, BPP, h, BPP * dw)
    && RowsFit(|src|, Off(sw, from.x, from.y), w, BPP, h, BPP * sw)
  }

  ghost function CopyRect(dst: seq<byte>, dw: nat, dh: nat, src: seq<byte>, sw: nat, sh: nat,
      to: Vec, from: Vec, w: nat, h: nat, key: Option<Pixel>): (r: seq<byte>)
    requires RectsInside(dst, dw, dh, src, sw, sh, to, from, w, h)
    ensures |r| == |dst|
  {
    CopyRows(dst, Off(dw, to.x, to.y), src, Off(sw, from.x, from.y), key, w, h, BPP, BPP * dw, BPP * sw)
  }

  /** The byte-level copy of a clipped rectangle, seen cell by cell: cells of the rectangle get the
      source pixel unless it is the key ... */
  lemma CopyRectInside(dst: seq<byte>, dw: nat, dh: nat, src: seq<byte>, sw: nat, sh: nat,
      to: Vec, from: Vec, w: nat, h: nat, key: Option<Pixel>, i: nat, j: nat)
    requires RectsInside(dst, dw, dh, src, sw, sh, to, from, w, h) && i < h && j < w
    ensures var px := Cell(src, sw, sh, from.x + j, from.y + i);
      Cell(CopyRect(dst, dw, dh, src, sw, sh, to, from, w, h, key), dw, dh, to.x + j, to.y + i) ==
        if key == Some(px) then Cell(dst, dw, dh, to.x + j, to.y + i) else px
  {
    hide CopyRows, RowsFit;
    RectFits(dw, dh, to.x, to.y, w, h);
    CopyRowsHit(dst, Off(dw, to.x, to.y), src, Off(sw, from.x, from.y), key, w, h, BPP, BPP * dw, BPP * sw, i, j);
    OffStep(dw, to.x, to.y, i, j);
    OffStep(sw, from.x, from.y, i, j);
  }

  /** ... and all other cells, padding included, keep their bytes. */
  lemma CopyRectOutside(dst: seq<byte>, dw: nat, dh: nat, src: seq<byte>, sw: nat, sh: nat,
      to: Vec, from: Vec, w: nat, h: nat, key: Option<Pixel>, x: int, y: int)
    requires RectsInside(dst, dw, dh, src, sw, sh, to, from, w, h)
    requires 0 <= x < dw && 0 <= y < dh && !RectAt(to, Vec(w, h)).Contains(x, y)
    ensures Cell(CopyRect(dst, dw, dh, src, sw, sh, to, from, w, h, key), dw, dh, x, y) == Cell(dst, dw, dh, x, y)
  {
    hide CopyRows, RowsFit;
    var d := Off(dw, to.x, to.y);
    OffInside(dw, dh, x, y);
    forall k: nat | k < h
      ensures Off(dw, x, y) + BPP <= Step(d, k, BPP * dw) || Step(Step(d, k, BPP * dw), w, BPP) <= Off(dw, x, y)
    {
      CellOutsideRow(dw, to.x, to.y + k, w, x, y);
      OffStep(dw, to.x, to.y, k, 0);
      OffStep(dw, to.x, to.y, k, w);
    }
    CopyRowsMiss(dst, d, src, Off(sw, from.x, from.y), key, w, h, BPP, BPP * dw, BPP * sw, Off(dw, x, y), BPP);
  }

  lemma CellOutsideRow(stride: nat, rx: int, ry: int, w: nat, x: int, y: int)
    requires 0 <= rx && rx + w <= stride && 0 <= x < stride && 0 <= y && 0 <= ry
    requires y != ry || x < rx || rx + w <= x
    ensures Off(stride, x, y) + BPP <= Off(stride, rx, ry) || Off(stride, rx + w, ry) <= Off(stride, x, y)
  {
    if y < ry {
      LineBelow(stride, y, ry);
    } else if ry < y {
      LineBelow(stride, ry, y);
    }
  }

  class FrameBuffer {
    const width: nat
    const height: nat
    const stride: nat          // pixels per scan line
    const format: PixelFormat
    const bytes: array<byte>

    ghost predicate Valid() { width <= stride && bytes.Length == BPP * (stride * height) }

    ghost function Picture(): Picture
      requires Valid()
      reads bytes
    {
      PictureOf(bytes[..], width, stride, height)
    }

    /** The bytes of padding cell (x, y). */
    ghost function CellAt(x: int, y: int): Pixel
      requires Valid() && 0 <= x < stride && 0 <= y < height
      reads bytes
    {
      Cell(bytes[..], stride, height, x, y)
    }

    function Size(): Vec { Vec(width, height) }

    /** A buffer that owns its memory, zero-filled by the vector. */
    constructor (width: nat, height: nat, format: PixelFormat)
      ensures Valid() && fresh(bytes)
      ensures this.width == width && this.height == height && this.stride == width && this.format == format
      ensures forall i :: 0 <= i < bytes.Length ==> bytes[i] == 0
    {
      this.width, this.height, this.stride, this.format := width, height, width, format;
      bytes := new byte[BPP * (width * height)](_ => 0);
    }

    /** A buffer over memory with its own scan-line length, as for the device screen. */
    constructor WithMemory(width: nat, height: nat, stride: nat, format: PixelFormat, mem: seq<byte>)
      requires width <= stride && |mem| == BPP * (stride * height)
      ensures Valid() && fresh(bytes) && bytes[..] == mem
      ensures this.width == width && this.height == height && this.stride == stride && this.format == format
    {
      this.width, this.height, this.stride, this.format := width, height, stride, format;
      bytes := new byte[|mem|](i requires 0 <= i < |mem| => mem[i]);
    }

    /** clone: the same configuration over a copy of the bytes. */
    method Clone() returns (c: FrameBuffer)
      requires Valid()
      ensures fresh(c) && fresh(c.bytes) && c.Valid() && c.bytes[..] == bytes[..]
      ensures c.width == width && c.height == height && c.stride == stride && c.format == format
    {
      c := new FrameBuffer.WithMemory(width, height, stride, format, bytes[..]);
    }

    /** forward: overwrite the whole buffer, padding included. */
    method Forward(src: FrameBuffer)
      requires Valid() && src.Valid() && src.bytes.Length == bytes.Length && src.bytes != bytes
      modifies bytes
      ensures bytes[..] == src.bytes[..]
    {
      MemCopy(bytes, 0, src.bytes, 0, bytes.Length);
    }

    /** copy_self_y: move whole scan lines, overlapping or not. */
    method CopySelfY(dstY: nat, srcY: nat, length: nat)
      requires Valid() && dstY + length <= height && srcY + length <= height
      modifies bytes
      ensures forall x, y :: 0 <= x < stride && 0 <= y < height ==>
        CellAt(x, y) == if dstY <= y < dstY + length then old(CellAt(x, y - dstY + srcY)) else old(CellAt(x, y))
    {
      ghost var was := bytes[..];
      var d, s, n := Off(stride, 0, dstY), Off(stride, 0, srcY), length * (BPP * stride);
      LinesInside(stride, height, dstY, length);
      LinesInside(stride, height, srcY, length);
      forall i | 0 <= i < n { bytes[d + i] := bytes[s + i]; }
      forall x, y | 0 <= x < stride && 0 <= y < height
        ensures CellAt(x, y) == Cell(was, stride, height, x, if dstY <= y < dstY + length then y - dstY + srcY else y)
      {
        OffInside(stride, height, x, y);
        if dstY <= y < dstY + length {
          OffInside(stride, height, x, y - dstY + srcY);
          LineShift(stride, x, y, dstY, srcY, length);
        } else {
          LineOutside(stride, x, y, dstY, length);
        }
      }
    }

    /** PixelWriter::write. The source does not clip here; its callers stay inside. */
    method WritePixel(x: int, y: int, c: Color)
      requires Valid() && 0 <= x < width && 0 <= y < height
      modifies bytes
      ensures forall x', y' :: 0 <= x' < stride && 0 <= y' < height ==>
        CellAt(x', y') == if x' == x && y' == y then Encode(format, c) else old(CellAt(x', y'))
    {
      ghost var was := bytes[..];
      OffInside(stride, height, x, y);
      var at, px := Off(stride, x, y), Encode(format, c);
      forall i | 0 <= i < BPP { bytes[at + i] := px[i]; }
      assert bytes[..] == Put(was, at, px);
      forall x', y' | 0 <= x' < stride && 0 <= y' < height
        ensures CellAt(x', y') == if x' == x && y' == y then px else Cell(was, stride, height, x', y')
      {
        OffInside(stride, height, x', y');
        if (x', y') != (x, y) { OffApart(stride, x', y', x, y); }
        SliceOfPut(was, at, px, Off(stride, x', y'), BPP);
      }
    }

    /** copy_from: copies exactly the pixels of the requested rectangle that lie in both buffers and
        are not the transparent colour; nothing else in the buffer changes, padding included. */
    method CopyFrom(src: FrameBuffer, to0: Vec, from0: Vec, size0: Vec, transparent: Option<Color>) returns (e: Error)
      requires Valid() && src.Valid() && src.bytes != bytes
      modifies bytes
      ensures e == if src.format != format then UnknownPixelFormat else Success
      ensures e != Success ==> bytes[..] == old(bytes[..])
      ensures e == Success ==>
        Picture() == Blit(old(Picture()), src.Picture(), to0, from0, size0, KeyPixel(format, transparent))
      ensures forall x, y :: width <= x < stride && 0 <= y < height ==> CellAt(x, y) == old(CellAt(x, y))
    {
      if src.format != format { return UnknownPixelFormat; }
      var to, from, size := AdjustCoords(Size(), src.Size(), to0, from0, size0);
      ghost var key, was := KeyPixel(format, transparent), bytes[..];
      if size.x > 0 && size.y > 0 {
        CopyClipped(src, to, from, size, transparent);
      }
      BlitIsClipped(was, bytes[..], width, stride, height, src.bytes[..], src.width, src.stride, src.height,
        to0, from0, size0, to, from, size, key);
      return Success;
    }

    /** The copy itself, once the rectangle is known to lie in both buffers. */
    method CopyClipped(src: FrameBuffer, to: Vec, from: Vec, size: Vec, transparent: Option<Color>)
      requires Valid() && src.Valid() && src.bytes != bytes && size.x > 0 && size.y > 0
      requires 0 <= to.x && to.x + size.x <= width && 0 <= to.y && to.y + size.y <= height
      requires 0 <= from.x && from.x + size.x <= src.width && 0 <= from.y && from.y + size.y <= src.height
      modifies bytes
      ensures CellsCopied(old(bytes[..]), bytes[..], stride, height, src.bytes[..], src.stride, src.height,
        to, from, size, KeyPixel(format, transparent))
    {
      ghost var was, srcMem := bytes[..], src.bytes[..];
      var w, h := size.x, size.y;
      RectFits(stride, height, to.x, to.y, w, h);
      RectFits(src.stride, src.height, from.x, from.y, w, h);
      var d, s := Off(stride, to.x, to.y), Off(src.stride, from.x, from.y);
      if transparent.Some? {
        CopyTransparentWords(bytes, d, src.bytes, s, Encode(format, transparent.value), w, h, BPP * stride,
          BPP * src.stride);
      } else {
        CopyOpaque(bytes, d, src.bytes, s, w, h, BPP, BPP * stride, BPP * src.stride);
      }
      CopyRectCells(was, stride, height, srcMem, src.stride, src.height, to, from, w, h, KeyPixel(format, transparent));
    }
  }

  ghost function KeyPixel(format: PixelFormat, transparent: Option<Color>): Option<Pixel> {
    if transparent.Some? then Some(Encode(format, transparent.value)) else None
  }

  /** Cells of the rectangle get the source pixel unless it is the key, all others, padding
      included, keep their bytes. */
  ghost predicate CellsCopied(was: seq<byte>, now: seq<byte>, dw: nat, dh: nat, src: seq<byte>, sw: nat, sh: nat,
      to: Vec, from: Vec, size: Vec, key: Option<Pixel>)
    requires |was| == |now| == BPP * (dw * dh) && |src| == BPP * (sw * sh)
  {
    forall x, y :: 0 <= x < dw && 0 <= y < dh ==>
      var sx, sy := x - to.x + from.x, y - to.y + from.y;
      Cell(now, dw, dh, x, y) ==
        if RectAt(to, size).Contains(x, y) && 0 <= sx < sw && 0 <= sy < sh && key != Some(Cell(src, sw, sh, sx, sy))
        then Cell(src, sw, sh, sx, sy) else Cell(was, dw, dh, x, y)
  }

  lemma CopyRectCells(was: seq<byte>, dw: nat, dh: nat, src: seq<byte>, sw: nat, sh: nat,
      to: Vec, from: Vec, w: nat, h: nat, key: Option<Pixel>)
    requires RectsInside(was, dw, dh, src, sw, sh, to, from, w, h)
    ensures CellsCopied(was, CopyRect(was, dw, dh, src, sw, sh, to, from, w, h, key), dw, dh, src, sw, sh, to, from,
      Vec(w, h), key)
  {
    hide CopyRect, Cell, RowsFit;
    var now := CopyRect(was, dw, dh, src, sw, sh, to, from, w, h, key);
    forall x, y | 0 <= x < dw && 0 <= y < dh
      ensures var sx, sy := x - to.x + from.x, y - to.y + from.y;
        Cell(now, dw, dh, x, y) ==
          if RectAt(to, Vec(w, h)).Contains(x, y) && 0 <= sx < sw && 0 <= sy < sh
            && key != Some(Cell(src, sw, sh, sx, sy))
          then Cell(src, sw, sh, sx, sy) else Cell(was, dw, dh, x, y)
    {
      if RectAt(to, Vec(w, h)).Contains(x, y) {
        CopyRectInside(was, dw, dh, src, sw, sh, to, from, w, h, key, y - to.y, x - to.x);
      } else {
        CopyRectOutside(was, dw, dh, src, sw, sh, to, from, w, h, key, x, y);
      }
    }
  }

  /** Copying the clipped rectangle is the blit of the whole request. */
  lemma BlitIsClipped(was: seq<byte>, now: seq<byte>, width: nat, stride: nat, height: nat,
      src: seq<byte>, sWidth: nat, sStride: nat, sHeight: nat,
      to0: Vec, from0: Vec, size0: Vec, to: Vec, from: Vec, size: Vec, key: Option<Pixel>)
    requires |was| == |now| == BPP * (stride * height) && width <= stride
    requires |src| == BPP * (sStride * sHeight) && sWidth <= sStride
    requires to.Sub(from) == to0.Sub(from0)
    requires IsClip(Vec(width, height), Vec(sWidth, sHeight), to0, from0, size0, to, size)
    requires if size.x > 0 && size.y > 0
      then CellsCopied(was, now, stride, height, src, sStride, sHeight, to, from, size, key) else now == was
    ensures PictureOf(now, width, stride, height) ==
      Blit(PictureOf(was, width, stride, height), PictureOf(src, sWidth, sStride, sHeight), to0, from0, size0, key)
    ensures forall x, y :: width <= x < stride && 0 <= y < height ==>
      Cell(now, stride, height, x, y) == Cell(was, stride, height, x, y)
  {
    hide Cell, Blit, PictureOf;
    PictureOfAt(was, width, stride, height);
    PictureOfAt(now, width, stride, height);
    PictureOfAt(src, sWidth, sStride, sHeight);
    var w, s, n := PictureOf(was, width, stride, height), PictureOf(src, sWidth, sStride, sHeight),
      PictureOf(now, width, stride, height);
    BlitAt(w, s, to0, from0, size0, key);
    forall x, y | n.Has(x, y)
      ensures n.At(x, y) == Blit(w, s, to0, from0, size0, key).At(x, y)
    {
      assert RectAt(to, size).Contains(x, y) <==>
        RectAt(to0, size0).Contains(x, y) && s.Has(x - to0.x + from0.x, y - to0.y + from0.y);
      assert Cell(now, stride, height, x, y) == n.At(x, y);
    }
    SamePixels(n, Blit(w, s, to0, from0, size0, key));
    forall x, y | width <= x < stride && 0 <= y < height
      ensures Cell(now, stride, height, x, y) == Cell(was, stride, height, x, y)
    {
      assert !RectAt(to, size).Contains(x, y);
    }
  }

  // ----- scan lines -----

  lemma LinesInside(stride: nat, height: nat, y: nat, n: nat)
    requires y + n <= height
    ensures 0 <= Off(stride, 0, y) && Off(stride, 0, y) + n * (BPP * stride) <= BPP * (stride * height)
  {
    OffDown(stride, 0, y, n);
    MulMonotone(stride, y + n, height);
    MulNonNegative(stride, y);
  }

  lemma LineShift(stride: nat, x: int, y: int, dstY: nat, srcY: nat, n: nat)
    requires 0 <= x < stride && dstY <= y < dstY + n
    ensures Off(stride, x, y) - Off(stride, 0, dstY) == Off(stride, x, y - dstY + srcY) - Off(stride, 0, srcY)
    ensures 0 <= Off(stride, x, y) - Off(stride, 0, dstY)
    ensures Off(stride, x, y) - Off(stride, 0, dstY) + BPP <= n * (BPP * stride)
  {
    Distribute(stride, dstY, y - dstY);
    Distribute(stride, srcY, y - dstY);
    MulNonNegative(stride, y - dstY);
    OffDown(stride, 0, dstY, n);
    LineBelow(stride, y, dstY + n);
  }

  lemma LineOutside(stride: nat, x: int, y: int, dstY: nat, n: nat)
    requires 0 <= x < stride && 0 <= y && !(dstY <= y < dstY + n)
    ensures Off(stride, x, y) + BPP <= Off(stride, 0, dstY) ||
      Off(stride, 0, dstY) + n * (BPP * stride) <= Off(stride, x, y)
  {
    OffDown(stride, 0, dstY, n);
    if y < dstY { LineBelow(stride, y, dstY); } else { MulMonotone(stride, dstY + n, y); }
  }
}
