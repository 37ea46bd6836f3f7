/**
 * Row-by-row pixel copies over raw byte memory: the colour-keyed loops of frame_buffer.cpp and
 * the function all of them compute.
 */
module Bytes {
  import opened Composition
  import opened Options

  /** The pointer `at` advanced k times by `inc` bytes. */
  function Step(at: int, k: nat, inc: nat): (p: int)
    ensures p >= at
  {
    if k == 0 then at else Step(at, k - 1, inc) + inc
  }

  lemma {:induction false} StepIsLinear(at: int, k: nat, inc: nat)
    ensures Step(at, k, inc) == at + k * inc
  {
    if k > 0 { StepIsLinear(at, k - 1, inc); }
  }

  lemma {:induction false} StepsApart(at: int, i: nat, k: nat, inc: nat)
    requires i < k
    ensures Step(at, i, inc) + inc <= Step(at, k, inc)
  {
    if i < k - 1 { StepsApart(at, i, k - 1, inc); }
  }

  /** h rows of w pixels, `pitch` bytes apart and starting at `at`, lie in a memory of `len` bytes. */
  ghost predicate RowsFit(len: int, at: int, w: nat, bpp: nat, h: nat, pitch: nat) {
    0 <= at && forall k: nat :: k < h ==> Step(Step(at, k, pitch), w, bpp) <= len
  }

  function Slice(mem: seq<byte>, at: int, n: int): (r: seq<byte>)
    requires 0 <= at && 0 <= n && at + n <= |mem|
    ensures |r| == n
  {
    mem[at..at + n]
  }

  function Put(mem: seq<byte>, at: int, px: seq<byte>): (r: seq<byte>)
    requires 0 <= at && at + |px| <= |mem|
    ensures |r| == |mem|
  {
    mem[..at] + px + mem[at + |px|..]
  }

  lemma SliceOfPut(mem: seq<byte>, at: int, px: seq<byte>, o: int, n: int)
    requires 0 <= at && at + |px| <= |mem| && 0 <= o && 0 <= n && o + n <= |mem|
    ensures o == at && n == |px| ==> Slice(Put(mem, at, px), o, n) == px
    ensures o + n <= at || at + |px| <= o ==> Slice(Put(mem, at, px), o, n) == Slice(mem, o, n)
  {
  }

  /** Copy n pixels of bpp bytes from src at s to dst at d, left to right, skipping the key. */
  ghost function CopyRow(dst: seq<byte>, d: int, src: seq<byte>, s: int, key: Option<Pixel>, n: nat,
    bpp: nat): (r: seq<byte>)
    requires 0 <= d && 0 <= s && Step(d, n, bpp) <= |dst| && Step(s, n, bpp) <= |src|
    ensures |r| == |dst|
  {
    if n == 0 then dst
    else
      var left := CopyRow(dst, d, src, s, key, n - 1, bpp);
      var px := Slice(src, Step(s, n - 1, bpp), bpp);
      if key == Some(px) then left else Put(left, Step(d, n - 1, bpp), px)
  }

  ghost function CopyRows(dst: seq<byte>, d: int, src: seq<byte>, s: int, key: Option<Pixel>,
                          w: nat, h: nat, bpp: nat, dstPitch: nat, srcPitch: nat): (r: seq<byte>)
    requires RowsFit(|dst|, d, w, bpp, h, dstPitch) && RowsFit(|src|, s, w, bpp, h, srcPitch)
    ensures |r| == |dst|
  {
    if h == 0 then dst
    else
      CopyRow(CopyRows(dst, d, src, s, key, w, h - 1, bpp, dstPitch, srcPitch),
        Step(d, h - 1, dstPitch), src, Step(s, h - 1, srcPitch), key, w, bpp)
  }

  // ----- what the copy does to one pixel -----

  lemma {:induction false} CopyRowHit(dst: seq<byte>, d: int, src: seq<byte>, s: int, key: Option<Pixel>, n: nat,
    bpp: nat, j: nat)
    requires 0 <= d && 0 <= s && Step(d, n, bpp) <= |dst| && Step(s, n, bpp) <= |src| && j < n
    ensures Step(d, j, bpp) + bpp <= |dst| && Step(s, j, bpp) + bpp <= |src|
    ensures var px := Slice(src, Step(s, j, bpp), bpp);
      Slice(CopyRow(dst, d, src, s, key, n, bpp), Step(d, j, bpp), bpp) ==
        if key == Some(px) then Slice(dst, Step(d, j, bpp), bpp) else px
  {
    hide Put, Slice;
    var left := CopyRow(dst, d, src, s, key, n - 1, bpp);
    var last := Slice(src, Step(s, n - 1, bpp), bpp);
    if j < n - 1 {
      CopyRowHit(dst, d, src, s, key, n - 1, bpp, j);
      StepsApart(d, j, n - 1, bpp);
    } else {
      CopyRowMiss(dst, d, src, s, key, n - 1, bpp, Step(d, j, bpp), bpp);
    }
    SliceOfPut(left, Step(d, n - 1, bpp), last, Step(d, j, bpp), bpp);
  }

  lemma {:induction false} CopyRowMiss(dst: seq<byte>, d: int, src: seq<byte>, s: int, key: Option<Pixel>, n: nat,
    bpp: nat, at: int, len: int)
    requires 0 <= d && 0 <= s && Step(d, n, bpp) <= |dst| && Step(s, n, bpp) <= |src|
    requires 0 <= at && 0 <= len && at + len <= |dst| && (at + len <= d || Step(d, n, bpp) <= at)
    ensures Slice(CopyRow(dst, d, src, s, key, n, bpp), at, len) == Slice(dst, at, len)
  {
    hide Put, Slice;
    if n > 0 {
      CopyRowMiss(dst, d, src, s, key, n - 1, bpp, at, len);
      SliceOfPut(CopyRow(dst, d, src, s, key, n - 1, bpp), Step(d, n - 1, bpp), Slice(src, Step(s, n - 1, bpp), bpp),
        at, len);
    }
  }

  lemma {:induction false} CopyRowsMiss(dst: seq<byte>, d: int, src: seq<byte>, s: int, key: Option<Pixel>,
      w: nat, h: nat, bpp: nat, dstPitch: nat, srcPitch: nat, at: int, len: int)
    requires RowsFit(|dst|, d, w, bpp, h, dstPitch) && RowsFit(|src|, s, w, bpp, h, srcPitch)
    requires 0 <= at && 0 <= len && at + len <= |dst|
    requires forall k: nat :: k < h ==> at + len <= Step(d, k, dstPitch) || Step(Step(d, k, dstPitch), w, bpp) <= at
    ensures Slice(CopyRows(dst, d, src, s, key, w, h, bpp, dstPitch, srcPitch), at, len) == Slice(dst, at, len)
  {
    hide Put, Slice;
    if h > 0 {
      CopyRowsMiss(dst, d, src, s, key, w, h - 1, bpp, dstPitch, srcPitch, at, len);
      CopyRowMiss(CopyRows(dst, d, src, s, key, w, h - 1, bpp, dstPitch, srcPitch),
        Step(d, h - 1, dstPitch), src, Step(s, h - 1, srcPitch), key, w, bpp, at, len);
    }
  }

  lemma PixelInside(len: int, at: int, w: nat, bpp: nat, h: nat, pitch: nat, i: nat, j: nat)
    requires RowsFit(len, at, w, bpp, h, pitch) && i < h && j < w
    ensures 0 <= Step(Step(at, i, pitch), j, bpp) && Step(Step(at, i, pitch), j, bpp) + bpp <= len
  {
    RowEnd(Step(at, i, pitch), j, w, bpp);
  }

  /** Rows before row i end before it starts. */
  lemma RowsBefore(at: int, w: nat, bpp: nat, pitch: nat, i: nat)
    requires Step(0, w, bpp) <= pitch
    ensures forall k: nat :: k < i ==> Step(Step(at, k, pitch), w, bpp) <= Step(at, i, pitch)
  {
    forall k: nat | k < i ensures Step(Step(at, k, pitch), w, bpp) <= Step(at, i, pitch) {
      StepsApart(at, k, i, pitch);
      StepIsLinear(Step(at, k, pitch), w, bpp);
      StepIsLinear(0, w, bpp);
    }
  }

  /** Rows after row i do not touch it. */
  lemma {:induction false} CopyRowsLater(dst: seq<byte>, d: int, src: seq<byte>, s: int, key: Option<Pixel>,
      w: nat, h: nat, bpp: nat, dstPitch: nat, srcPitch: nat, i: nat, at: int)
    requires RowsFit(|dst|, d, w, bpp, h, dstPitch) && RowsFit(|src|, s, w, bpp, h, srcPitch)
    requires i < h && Step(0, w, bpp) <= dstPitch && 0 <= at && at + bpp <= Step(Step(d, i, dstPitch), w, bpp) <= |dst|
    ensures Slice(CopyRows(dst, d, src, s, key, w, h, bpp, dstPitch, srcPitch), at, bpp) ==
            Slice(CopyRows(dst, d, src, s, key, w, i + 1, bpp, dstPitch, srcPitch), at, bpp)
  {
    hide Put, Slice;
    if i < h - 1 {
      CopyRowsLater(dst, d, src, s, key, w, h - 1, bpp, dstPitch, srcPitch, i, at);
      var above, row := CopyRows(dst, d, src, s, key, w, h - 1, bpp, dstPitch, srcPitch), Step(d, h - 1, dstPitch);
      assert at + bpp <= row by { RowsBefore(d, w, bpp, dstPitch, h - 1); }
      CopyRowMiss(above, row, src, Step(s, h - 1, srcPitch), key, w, bpp, at, bpp);
      assert CopyRows(dst, d, src, s, key, w, h, bpp, dstPitch, srcPitch)
        == CopyRow(above, row, src, Step(s, h - 1, srcPitch), key, w, bpp);
    }
  }

  /** Pixel j of row i is the source pixel unless that is the key. */
  lemma {:induction false} CopyRowsHit(dst: seq<byte>, d: int, src: seq<byte>, s: int, key: Option<Pixel>,
      w: nat, h: nat, bpp: nat, dstPitch: nat, srcPitch: nat, i: nat, j: nat)
    requires RowsFit(|dst|, d, w, bpp, h, dstPitch) && RowsFit(|src|, s, w, bpp, h, srcPitch)
    requires i < h && j < w && Step(0, w, bpp) <= dstPitch
    ensures var to, from := Step(Step(d, i, dstPitch), j, bpp), Step(Step(s, i, srcPitch), j, bpp);
      && 0 <= to && to + bpp <= |dst| && 0 <= from && from + bpp <= |src|
      && Slice(CopyRows(dst, d, src, s, key, w, h, bpp, dstPitch, srcPitch), to, bpp) ==
           if key == Some(Slice(src, from, bpp)) then Slice(dst, to, bpp) else Slice(src, from, bpp)
  {
    hide Put, Slice;
    PixelInside(|dst|, d, w, bpp, h, dstPitch, i, j);
    PixelInside(|src|, s, w, bpp, h, srcPitch, i, j);
    var row := Step(d, i, dstPitch);
    var to := Step(row, j, bpp);
    RowEnd(row, j, w, bpp);
    CopyRowsLater(dst, d, src, s, key, w, h, bpp, dstPitch, srcPitch, i, to);
    RowsBefore(d, w, bpp, dstPitch, i);
    CopyRowsMiss(dst, d, src, s, key, w, i, bpp, dstPitch, srcPitch, to, bpp);
    CopyRowHit(CopyRows(dst, d, src, s, key, w, i, bpp, dstPitch, srcPitch), row, src, Step(s, i, srcPitch), key, w,
      bpp, j);
  }

  lemma RowEnd(at: int, j: nat, w: nat, bpp: nat)
    requires j < w
    ensures Step(at, w, bpp) == at + Step(0, w, bpp) && Step(at, j, bpp) + bpp <= Step(at, w, bpp)
  {
    StepIsLinear(at, w, bpp);
    StepIsLinear(0, w, bpp);
    StepsApart(at, j, w, bpp);
  }

  // ----- the loops -----

  /** copy_transparent: compare and copy bpp bytes at a time. */
  method CopyTransparent(dst: array<byte>, d: nat, src: array<byte>, s: nat, key: Pixel,
                         w: nat, h: nat, bpp: nat, dstPitch: nat, srcPitch: nat)
    requires dst != src && |key| == bpp
    requires RowsFit(dst.Length, d, w, bpp, h, dstPitch) && RowsFit(src.Length, s, w, bpp, h, srcPitch)
    modifies dst
    ensures dst[..] == CopyRows(old(dst[..]), d, src[..], s, Some(key), w, h, bpp, dstPitch, srcPitch)
  {
    hide CopyRow, Put, Slice;
    ghost var was := dst[..];
    var dRow, sRow := d, s;
    for y := 0 to h
      invariant dRow == Step(d, y, dstPitch) && sRow == Step(s, y, srcPitch)
      invariant dst[..] == CopyRows(was, d, src[..], s, Some(key), w, y, bpp, dstPitch, srcPitch)
    {
      CopyRowTransparent(dst, dRow, src, sRow, key, w, bpp);
      dRow, sRow := dRow + dstPitch, sRow + srcPitch;
    }
  }

  method CopyRowTransparent(dst: array<byte>, d: nat, src: array<byte>, s: nat, key: Pixel, w: nat, bpp: nat)
    requires dst != src && |key| == bpp
    requires Step(d, w, bpp) <= dst.Length && Step(s, w, bpp) <= src.Length
    modifies dst
    ensures dst[..] == CopyRow(old(dst[..]), d, src[..], s, Some(key), w, bpp)
  {
    ghost var was := dst[..];
    var dx, sx := d, s;
    for x := 0 to w
      invariant dx == Step(d, x, bpp) && sx == Step(s, x, bpp) && dx <= dst.Length && sx <= src.Length
      invariant dst[..] == CopyRow(was, d, src[..], s, Some(key), x, bpp)
    {
      StepsApart(d, x, w, bpp);
      StepsApart(s, x, w, bpp);
      var same := MemEqual(src, sx, key);
      if !same { MemCopy(dst, dx, src, sx, bpp); }
      dx, sx := dx + bpp, sx + bpp;
    }
  }

  method MemEqual(src: array<byte>, s: nat, key: Pixel) returns (same: bool)
    requires s + |key| <= src.Length
    ensures same <==> Slice(src[..], s, |key|) == key
  {
    same := src[s..s + |key|] == key;
    assert src[s..s + |key|] == src[..][s..s + |key|];
  }

  method MemCopy(dst: array<byte>, d: nat, src: array<byte>, s: nat, n: nat)
    requires dst != src && d + n <= dst.Length && s + n <= src.Length
    modifies dst
    ensures dst[..] == Put(old(dst[..]), d, Slice(src[..], s, n))
  {
    forall i | 0 <= i < n { dst[d + i] := src[s + i]; }
  }

  /** A little-endian 32-bit word. */
  function LoadWord(b: seq<byte>): nat
    requires |b| == 4
  {
    b[0] as nat + 0x100 * (b[1] as nat + 0x100 * (b[2] as nat + 0x100 * b[3] as nat))
  }

  lemma LoadWordIsInjective(a: seq<byte>, b: seq<byte>)
    requires |a| == 4 && |b| == 4 && LoadWord(a) == LoadWord(b)
    ensures a == b
  {
    LowByte(a[0], b[0], a[1] as nat + 0x100 * (a[2] as nat + 0x100 * a[3] as nat),
      b[1] as nat + 0x100 * (b[2] as nat + 0x100 * b[3] as nat));
    LowByte(a[1], b[1], a[2] as nat + 0x100 * a[3] as nat, b[2] as nat + 0x100 * b[3] as nat);
    LowByte(a[2], b[2], a[3] as nat, b[3] as nat);
  }

  lemma LowByte(a: byte, b: byte, m: nat, n: nat)
    requires a as nat + 0x100 * m == b as nat + 0x100 * n
    ensures a == b && m == n
  {
  }

  /** copy_transparent_bpp_4: compare and copy little-endian 32-bit words. */
  method CopyTransparentWords(dst: array<byte>, d: nat, src: array<byte>, s: nat, key: Pixel,
                              w: nat, h: nat, dstPitch: nat, srcPitch: nat)
    requires dst != src && |key| == 4
    requires RowsFit(dst.Length, d, w, 4, h, dstPitch) && RowsFit(src.Length, s, w, 4, h, srcPitch)
    modifies dst
    ensures dst[..] == CopyRows(old(dst[..]), d, src[..], s, Some(key), w, h, 4, dstPitch, srcPitch)
  {
    hide CopyRow, Put, Slice;
    ghost var was := dst[..];
    var dRow, sRow := d, s;
    for y := 0 to h
      invariant dRow == Step(d, y, dstPitch) && sRow == Step(s, y, srcPitch)
      invariant dst[..] == CopyRows(was, d, src[..], s, Some(key), w, y, 4, dstPitch, srcPitch)
    {
      CopyRowWords(dst, dRow, src, sRow, key, w);
      dRow, sRow := dRow + dstPitch, sRow + srcPitch;
    }
  }

  method CopyRowWords(dst: array<byte>, d: nat, src: array<byte>, s: nat, key: Pixel, w: nat)
    requires dst != src && |key| == 4
    requires Step(d, w, 4) <= dst.Length && Step(s, w, 4) <= src.Length
    modifies dst
    ensures dst[..] == CopyRow(old(dst[..]), d, src[..], s, Some(key), w, 4)
  {
    ghost var was := dst[..];
    var tc := LoadWord(key);
    var dx, sx := d, s;
    for x := 0 to w
      invariant dx == Step(d, x, 4) && sx == Step(s, x, 4) && dx <= dst.Length && sx <= src.Length
      invariant dst[..] == CopyRow(was, d, src[..], s, Some(key), x, 4)
    {
      StepsApart(d, x, w, 4);
      StepsApart(s, x, w, 4);
      ghost var px := Slice(src[..], sx, 4);
      var word := LoadWord(src[sx..sx + 4]);
      assert src[sx..sx + 4] == px;
      if word == tc {
        LoadWordIsInjective(px, key);
      } else {
        StoreWord(dst, dx, word, px);
      }
      dx, sx := dx + 4, sx + 4;
    }
  }

  method StoreWord(dst: array<byte>, at: nat, word: nat, ghost px: Pixel)
    requires at + 4 <= dst.Length && |px| == 4 && word == LoadWord(px)
    modifies dst
    ensures dst[..] == Put(old(dst[..]), at, px)
  {
    var w1 := word / 0x100;
    var w2 := w1 / 0x100;
    ghost var was := dst[..];
    assert w1 == px[1] as nat + 0x100 * (px[2] as nat + 0x100 * px[3] as nat);
    assert w2 == px[2] as nat + 0x100 * px[3] as nat;
    dst[at] := (word % 0x100) as byte;
    dst[at + 1] := (w1 % 0x100) as byte;
    dst[at + 2] := (w2 % 0x100) as byte;
    dst[at + 3] := (w2 / 0x100) as byte;
    assert dst[at] == px[0] && dst[at + 1] == px[1] && dst[at + 2] == px[2] && dst[at + 3] == px[3];
    assert dst[..] == Put(was, at, px);
  }

  /** The opaque path of copy_from: one memcpy per row. */
  method CopyOpaque(dst: array<byte>, d: nat, src: array<byte>, s: nat, w: nat, h: nat, bpp: nat, dstPitch: nat,
    srcPitch: nat)
    requires dst != src
    requires RowsFit(dst.Length, d, w, bpp, h, dstPitch) && RowsFit(src.Length, s, w, bpp, h, srcPitch)
    modifies dst
    ensures dst[..] == CopyRows(old(dst[..]), d, src[..], s, None, w, h, bpp, dstPitch, srcPitch)
  {
    hide CopyRow, Put, Slice;
    ghost var was := dst[..];
    var dRow, sRow := d, s;
    for y := 0 to h
      invariant dRow == Step(d, y, dstPitch) && sRow == Step(s, y, srcPitch)
      invariant dst[..] == CopyRows(was, d, src[..], s, None, w, y, bpp, dstPitch, srcPitch)
    {
      OpaqueRow(dst[..], dRow, src[..], sRow, w, bpp);
      StepIsLinear(sRow, w, bpp);
      MemCopy(dst, dRow, src, sRow, bpp * w);
      dRow, sRow := dRow + dstPitch, sRow + srcPitch;
    }
  }

  lemma PutJoin(dst: seq<byte>, d: int, src: seq<byte>, s: int, n: nat, m: nat)
    requires 0 <= d && 0 <= s && d + n + m <= |dst| && s + n + m <= |src|
    ensures Put(Put(dst, d, Slice(src, s, n)), d + n, Slice(src, s + n, m)) == Put(dst, d, Slice(src, s, n + m))
    ensures Put(dst, d, Slice(src, s, 0)) == dst
  {
  }

  /** Without a key, copying pixel by pixel is one memcpy of the row. */
  lemma {:induction false} OpaqueRow(dst: seq<byte>, d: int, src: seq<byte>, s: int, n: nat, bpp: nat)
    requires 0 <= d && 0 <= s && Step(d, n, bpp) <= |dst| && Step(s, n, bpp) <= |src|
    ensures Step(s, n, bpp) - s == Step(d, n, bpp) - d
    ensures CopyRow(dst, d, src, s, None, n, bpp) == Put(dst, d, Slice(src, s, Step(s, n, bpp) - s))
  {
    hide Put, Slice;
    if n == 0 {
      PutJoin(dst, d, src, s, 0, 0);
    } else {
      OpaqueRow(dst, d, src, s, n - 1, bpp);
      PutJoin(dst, d, src, s, Step(s, n - 1, bpp) - s, bpp);
    }
  }
}
