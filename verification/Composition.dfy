/**
 * The meaning of a layer stack: pictures, clipped blits, painting bottom to top, and the
 * damage-driven redraw of LayerManager with the theorems that relate the two.
 */
module Composition {
  import opened Geometry
  import opened Options

  newtype byte = b: int | 0 <= b < 256

  /** The raw bytes of one pixel in the device format. */
  type Pixel = seq<byte>

  /** A rectangular pixel map; At is total so that only SamePixels needs the shape. */
  datatype Picture = Picture(width: nat, height: nat, rows: seq<seq<Pixel>>) {
    predicate Has(x: int, y: int) { 0 <= x < width && 0 <= y < height }

    ghost predicate Rectangular() {
      |rows| == height && forall y :: 0 <= y < height ==> |rows[y]| == width
    }

    function At(x: int, y: int): Pixel {
      if 0 <= y < |rows| && 0 <= x < |rows[y]| then rows[y][x] else []
    }

    predicate SameSize(o: Picture) { width == o.width && height == o.height }

    function Size(): Vec { Vec(width, height) }
  }

  ghost function MakeRow(f: (int, int) -> Pixel, y: int, n: nat): seq<Pixel> {
    if n == 0 then [] else MakeRow(f, y, n - 1) + [f(n - 1, y)]
  }

  ghost function MakeRows(f: (int, int) -> Pixel, width: nat, n: nat): seq<seq<Pixel>> {
    if n == 0 then [] else MakeRows(f, width, n - 1) + [MakeRow(f, n - 1, width)]
  }

  ghost function Build(width: nat, height: nat, f: (int, int) -> Pixel): Picture {
    Picture(width, height, MakeRows(f, width, height))
  }

  lemma {:induction false} MakeRowAt(f: (int, int) -> Pixel, y: int, n: nat)
    ensures |MakeRow(f, y, n)| == n && forall x :: 0 <= x < n ==> MakeRow(f, y, n)[x] == f(x, y)
  {
    if n > 0 { MakeRowAt(f, y, n - 1); }
  }

  lemma {:induction false} MakeRowsAt(f: (int, int) -> Pixel, width: nat, n: nat)
    ensures |MakeRows(f, width, n)| == n && forall y :: 0 <= y < n ==> MakeRows(f, width, n)[y] == MakeRow(f, y, width)
  {
    if n > 0 { MakeRowsAt(f, width, n - 1); }
  }

  lemma BuildAt(width: nat, height: nat, f: (int, int) -> Pixel)
    ensures Build(width, height, f).Rectangular()
    ensures forall x, y :: 0 <= x < width && 0 <= y < height ==> Build(width, height, f).At(x, y) == f(x, y)
  {
    MakeRowsAt(f, width, height);
    forall y
      ensures |MakeRow(f, y, width)| == width && forall x :: 0 <= x < width ==> MakeRow(f, y, width)[x] == f(x, y)
    {
      MakeRowAt(f, y, width);
    }
  }

  lemma SamePixels(a: Picture, b: Picture)
    requires a.SameSize(b) && a.Rectangular() && b.Rectangular()
    requires forall x, y :: a.Has(x, y) ==> a.At(x, y) == b.At(x, y)
    ensures a == b
  {
    forall y | 0 <= y < a.height ensures a.rows[y] == b.rows[y] {
      forall x | 0 <= x < a.width ensures a.rows[y][x] == b.rows[y][x] {
        assert a.Has(x, y) && a.At(x, y) == b.At(x, y);
      }
    }
  }

  // ----- clipped blit: what FrameBuffer::copy_from means -----

  /** The pixel a copy of `size` from `from` in `src` to `to` puts at (x, y), if it puts one there. */
  function Copied(src: Picture, to: Vec, from: Vec, size: Vec, key: Option<Pixel>, x: int, y: int): Option<Pixel> {
    var sx, sy := x - to.x + from.x, y - to.y + from.y;
    if RectAt(to, size).Contains(x, y) && src.Has(sx, sy) && (key.None? || src.At(sx, sy) != key.value)
    then Some(src.At(sx, sy)) else None
  }

  function OrElse(o: Option<Pixel>, p: Pixel): Pixel { if o.Some? then o.value else p }

  ghost function Blit(dst: Picture, src: Picture, to: Vec, from: Vec, size: Vec, key: Option<Pixel>): Picture {
    Build(dst.width, dst.height, (x, y) => OrElse(Copied(src, to, from, size, key, x, y), dst.At(x, y)))
  }

  lemma BlitAt(dst: Picture, src: Picture, to: Vec, from: Vec, size: Vec, key: Option<Pixel>)
    ensures Blit(dst, src, to, from, size, key).SameSize(dst) && Blit(dst, src, to, from, size, key).Rectangular()
    ensures forall x, y :: dst.Has(x, y) ==>
      Blit(dst, src, to, from, size, key).At(x, y) == OrElse(Copied(src, to, from, size, key, x, y), dst.At(x, y))
  {
    BuildAt(dst.width, dst.height, (x, y) => OrElse(Copied(src, to, from, size, key, x, y), dst.At(x, y)));
  }

  // ----- layers -----

  /** What a manager can see of a layer: BufferLayer and GroupLayer draw in the same way. */
  datatype LayerView = LayerView(id: nat, pos: Vec, image: Picture, key: Option<Pixel>) {
    function Area(): Rect { RectAt(pos, image.Size()) }

    /** The pixel this layer shows at (x, y) of its manager, if it is there and not keyed out. */
    function Show(x: int, y: int): Option<Pixel> {
      if Area().Contains(x, y) && (key.None? || image.At(x - pos.x, y - pos.y) != key.value)
      then Some(image.At(x - pos.x, y - pos.y)) else None
    }

    ghost function Draw(dst: Picture): Picture { Blit(dst, image, pos, Vec(0, 0), image.Size(), key) }

    ghost function DrawIn(dst: Picture, rect: Rect): Picture {
      if !rect.IsCrossing(Area()) then dst
      else
        var c := rect.Cross(Area());
        Blit(dst, image, c.TopLeft(), c.TopLeft().Sub(pos), c.Size(), key)
    }
  }

  /** The pixel seen from above: that of the topmost layer showing one (the stack is bottom first). */
  function Top(stack: seq<LayerView>, x: int, y: int): Option<Pixel> {
    if stack == [] then None
    else
      var s := stack[|stack| - 1].Show(x, y);
      if s.Some? then s else Top(stack[..|stack| - 1], x, y)
  }

  /** LayerManager::draw_to: every layer, bottom to top, on whatever was there. */
  ghost function Paint(stack: seq<LayerView>, dst: Picture): Picture {
    if stack == [] then dst else stack[|stack| - 1].Draw(Paint(stack[..|stack| - 1], dst))
  }

  /** The drawing loop of draw_damage_to. */
  ghost function PaintIn(stack: seq<LayerView>, dst: Picture, rect: Rect): Picture {
    if stack == [] then dst else stack[|stack| - 1].DrawIn(PaintIn(stack[..|stack| - 1], dst, rect), rect)
  }

  lemma DrawAt(l: LayerView, dst: Picture)
    ensures l.Draw(dst).SameSize(dst) && l.Draw(dst).Rectangular()
    ensures forall x, y :: dst.Has(x, y) ==> l.Draw(dst).At(x, y) == OrElse(l.Show(x, y), dst.At(x, y))
  {
    BlitAt(dst, l.image, l.pos, Vec(0, 0), l.image.Size(), l.key);
  }

  lemma DrawInAt(l: LayerView, dst: Picture, rect: Rect)
    requires dst.Rectangular()
    ensures l.DrawIn(dst, rect).SameSize(dst) && l.DrawIn(dst, rect).Rectangular()
    ensures forall x, y :: dst.Has(x, y) ==>
      l.DrawIn(dst, rect).At(x, y) == if rect.Contains(x, y) then OrElse(l.Show(x, y), dst.At(x, y)) else dst.At(x, y)
  {
    var c := rect.Cross(l.Area());
    BlitAt(dst, l.image, c.TopLeft(), c.TopLeft().Sub(l.pos), c.Size(), l.key);
  }

  lemma {:induction false} PaintAt(stack: seq<LayerView>, dst: Picture)
    requires dst.Rectangular()
    ensures Paint(stack, dst).SameSize(dst) && Paint(stack, dst).Rectangular()
    ensures forall x, y :: dst.Has(x, y) ==> Paint(stack, dst).At(x, y) == OrElse(Top(stack, x, y), dst.At(x, y))
  {
    if stack != [] {
      PaintAt(stack[..|stack| - 1], dst);
      DrawAt(stack[|stack| - 1], Paint(stack[..|stack| - 1], dst));
    }
  }

  lemma {:induction false} PaintInAt(stack: seq<LayerView>, dst: Picture, rect: Rect)
    requires dst.Rectangular()
    ensures PaintIn(stack, dst, rect).SameSize(dst) && PaintIn(stack, dst, rect).Rectangular()
    ensures forall x, y :: dst.Has(x, y) ==>
      PaintIn(stack, dst, rect).At(x, y) == if rect.Contains(x, y) then OrElse(Top(stack, x, y), dst.At(x, y))
        else dst.At(x, y)
  {
    if stack != [] {
      PaintInAt(stack[..|stack| - 1], dst, rect);
      DrawInAt(stack[|stack| - 1], PaintIn(stack[..|stack| - 1], dst, rect), rect);
    }
  }

  lemma {:induction false} TopOfSuffix(stack: seq<LayerView>, k: nat, x: int, y: int)
    requires k <= |stack|
    ensures Top(stack, x, y) == if Top(stack[k..], x, y).Some? then Top(stack[k..], x, y) else Top(stack[..k], x, y)
  {
    if k == |stack| {
      assert stack[..k] == stack;
    } else {
      var n := |stack| - 1;
      TopOfSuffix(stack[..n], k, x, y);
      assert stack[k..][..n - k] == stack[..n][k..];
      assert stack[..n][..k] == stack[..k];
    }
  }

  // ----- consistency of a screen with a stack -----

  /** Every pixel some layer shows is on the screen; pixels no layer shows keep what was there. */
  ghost predicate Consistent(stack: seq<LayerView>, screen: Picture) {
    forall x, y :: screen.Has(x, y) && Top(stack, x, y).Some? ==> screen.At(x, y) == Top(stack, x, y).value
  }

  /** Consistent means that painting every layer bottom to top now would change nothing. */
  lemma ConsistentIffPainted(stack: seq<LayerView>, screen: Picture)
    requires screen.Rectangular()
    ensures Consistent(stack, screen) <==> Paint(stack, screen) == screen
  {
    PaintAt(stack, screen);
    if Consistent(stack, screen) { SamePixels(Paint(stack, screen), screen); }
  }

  /** A full redraw makes any screen consistent. */
  lemma PaintedIsConsistent(stack: seq<LayerView>, screen: Picture)
    requires screen.Rectangular()
    ensures Consistent(stack, Paint(stack, screen))
  {
    PaintAt(stack, screen);
  }

  ghost predicate Covered(stack: seq<LayerView>, width: nat, height: nat) {
    forall x, y :: 0 <= x < width && 0 <= y < height ==> Top(stack, x, y).Some?
  }

  /** On a covered screen the consistent contents are the full painting over any base. */
  lemma CoveredIsFullPaint(stack: seq<LayerView>, screen: Picture, base: Picture)
    requires Covered(stack, screen.width, screen.height)
    requires base.SameSize(screen) && base.Rectangular() && screen.Rectangular()
    ensures Consistent(stack, screen) <==> screen == Paint(stack, base)
  {
    PaintAt(stack, base);
    if Consistent(stack, screen) { SamePixels(screen, Paint(stack, base)); }
  }

  /** Since draw_to never clears its target, being covered is exactly what makes painting
      independent of the previous contents. */
  lemma IndependentIffCovered(stack: seq<LayerView>, width: nat, height: nat)
    ensures Covered(stack, width, height) <==>
      forall a: Picture, b: Picture ::
        a.Rectangular() && b.Rectangular() && a.SameSize(b) && a.width == width && a.height == height ==>
        Paint(stack, a) == Paint(stack, b)
  {
    hide MakeRows, Paint, Top;
    if Covered(stack, width, height) {
      forall a: Picture, b: Picture |
          a.Rectangular() && b.Rectangular() && a.SameSize(b) && a.width == width && a.height == height
        ensures Paint(stack, a) == Paint(stack, b)
      {
        PaintAt(stack, a);
        PaintAt(stack, b);
        SamePixels(Paint(stack, a), Paint(stack, b));
      }
    } else {
      var x, y :| 0 <= x < width && 0 <= y < height && Top(stack, x, y).None?;
      var a, b := TwoBases(width, height);
      PaintAt(stack, a);
      PaintAt(stack, b);
      assert a.Has(x, y) && Paint(stack, a).At(x, y) != Paint(stack, b).At(x, y);
    }
  }

  lemma TwoBases(width: nat, height: nat) returns (a: Picture, b: Picture)
    ensures a.Rectangular() && b.Rectangular() && a.SameSize(b) && a.width == width && a.height == height
    ensures forall x, y :: a.Has(x, y) ==> a.At(x, y) != b.At(x, y)
  {
    hide MakeRows;
    a, b := Build(width, height, (x, y) => [0]), Build(width, height, (x, y) => [1]);
    BuildAt(width, height, (x, y) => [0]);
    BuildAt(width, height, (x, y) => [1]);
  }

  lemma OpaqueBottomCovers(stack: seq<LayerView>, width: nat, height: nat)
    requires stack != [] && stack[0].key.None? && stack[0].Area().Includes(Rect(0, 0, width, height))
    ensures Covered(stack, width, height)
  {
    forall x, y | 0 <= x < width && 0 <= y < height ensures Top(stack, x, y).Some? {
      TopOfSuffix(stack, 1, x, y);
      assert stack[..1] == [stack[0]];
    }
  }

  // ----- the damage redraw -----

  predicate CoversOpaquely(l: LayerView, rect: Rect) { l.key.None? && l.Area().Includes(rect) }

  /** draw_damage_to's downward scan: the topmost opaque layer below n that includes rect, else 0. */
  function CoverBelow(stack: seq<LayerView>, rect: Rect, n: nat): (i: nat)
    requires n <= |stack|
    ensures i <= n && (i < n || n == 0)
    ensures i == 0 || CoversOpaquely(stack[i], rect)
    ensures forall k :: i < k < n ==> !CoversOpaquely(stack[k], rect)
  {
    if n == 0 then 0 else if CoversOpaquely(stack[n - 1], rect) then n - 1 else CoverBelow(stack, rect, n - 1)
  }

  predicate HasId(stack: seq<LayerView>, id: nat) { exists k :: 0 <= k < |stack| && stack[k].id == id }

  ghost function DrawDamage(stack: seq<LayerView>, dst: Picture, id: nat, rect: Rect): Picture {
    var i := CoverBelow(stack, rect, |stack|);
    if !HasId(stack[i..], id) then dst else PaintIn(stack[i..], dst, rect)
  }

  ghost predicate AgreeOutside(before: seq<LayerView>, after: seq<LayerView>, rect: Rect) {
    forall x, y :: !rect.Contains(x, y) ==> Top(before, x, y) == Top(after, x, y)
  }

  predicate IsSuffix<T(==)>(s: seq<T>, t: seq<T>) { |s| <= |t| && t[|t| - |s|..] == s }

  /** Wherever the layer `id` is now strictly below, what lies above it has not changed. */
  ghost predicate SameAbove(before: seq<LayerView>, after: seq<LayerView>, id: nat) {
    forall k :: 0 <= k <= |after| && !HasId(after[k..], id) ==> IsSuffix(after[k..], before)
  }

  /** If only the layer `id` changed, only inside `rect`, and it was not lowered, then redrawing
      `rect` from the topmost covering opaque layer up, or nothing at all when that layer hides
      `id`, makes the screen consistent with the new stack and touches nothing outside `rect`. */
  lemma DamageRedrawIsFullRedraw(before: seq<LayerView>, after: seq<LayerView>, screen: Picture, id: nat, rect: Rect)
    requires screen.Rectangular() && Consistent(before, screen)
    requires AgreeOutside(before, after, rect)
    requires SameAbove(before, after, id)
    ensures var r := DrawDamage(after, screen, id, rect);
      Consistent(after, r) && r.Rectangular() && DiffersWithin(screen, r, rect)
  {
    var i := CoverBelow(after, rect, |after|);
    var r := DrawDamage(after, screen, id, rect);
    PaintInAt(after[i..], screen, rect);
    forall x, y | screen.Has(x, y) && Top(after, x, y).Some?
      ensures r.At(x, y) == Top(after, x, y).value
    {
      TopOfSuffix(after, i, x, y);
      if rect.Contains(x, y) {
        CoverShowsTop(after, rect, x, y);
        if !HasId(after[i..], id) { TopOfSuffix(before, |before| - |after[i..]|, x, y); }
      }
    }
  }

  /** Inside the damage the layers from the cover up already decide the pixel. */
  lemma {:induction false} CoverShowsTop(stack: seq<LayerView>, rect: Rect, x: int, y: int)
    requires rect.Contains(x, y)
    ensures var i := CoverBelow(stack, rect, |stack|); Top(stack, x, y) == Top(stack[i..], x, y)
  {
    var i := CoverBelow(stack, rect, |stack|);
    TopOfSuffix(stack, i, x, y);
    if i > 0 {
      TopOfSuffix(stack[i..], 1, x, y);
      assert stack[i..][..1] == [stack[i]];
    }
  }

  ghost predicate DiffersWithin(was: Picture, now: Picture, rect: Rect) {
    now.SameSize(was) && forall x, y :: was.Has(x, y) && !rect.Contains(x, y) ==> now.At(x, y) == was.At(x, y)
  }

  /** A damage redraw only touches the damaged rectangle ... */
  lemma DamageStaysInside(stack: seq<LayerView>, was: Picture, id: nat, rect: Rect)
    requires was.Rectangular()
    ensures var r := DrawDamage(stack, was, id, rect);
      r.Rectangular() && DiffersWithin(was, r, rect)
  {
    PaintInAt(stack[CoverBelow(stack, rect, |stack|)..], was, rect);
  }

  /** ... so copying that rectangle from the back buffer brings the front buffer in step. */
  lemma CopyingDamageSyncs(was: Picture, now: Picture, rect: Rect)
    requires was.Rectangular() && now.Rectangular() && DiffersWithin(was, now, rect)
    ensures Blit(was, now, rect.TopLeft(), rect.TopLeft(), rect.Size(), None) == now
  {
    BlitAt(was, now, rect.TopLeft(), rect.TopLeft(), rect.Size(), None);
    SamePixels(Blit(was, now, rect.TopLeft(), rect.TopLeft(), rect.Size(), None), now);
  }
}
