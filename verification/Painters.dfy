/**
 * kernel/graphics/painter.cpp with the drawing loops of graphics.cpp and font.cpp: a painter
 * collects the bounding box of what it draws on one layer and reports it as damage at the end.
 */
module Painters {
  import opened Geometry
  import opened Composition
  import opened Options
  import opened StackEdits
  import opened FrameBuffers
  import opened ColourKeys
  import opened Layers

  /** An 8x16 bit pattern; None for characters without a glyph. */
  type Glyph = (int, int) -> bool
  type Font = char -> Option<Glyph>

  const GLYPH_SIZE := Vec(8, 16)

  /** The pixel write_ascii sets at offset (dx, dy) of a character cell. */
  predicate Inked(g: Option<Glyph>, dx: int, dy: int) {
    g.Some? && 0 <= dx < 8 && 0 <= dy < 16 && g.value(dx, dy)
  }

  predicate Inside(r: Rect, fb: FrameBuffer) {
    r.left < r.right && r.top < r.bottom ==> 0 <= r.left && 0 <= r.top && r.right <= fb.width && r.bottom <= fb.height
  }

  /** draw_filled_rectangle. */
  method FillRectangle(fb: FrameBuffer, rect: Rect, c: Color)
    requires fb.Valid() && Inside(rect, fb)
    modifies fb.bytes
    ensures forall x, y :: 0 <= x < fb.stride && 0 <= y < fb.height ==>
      fb.CellAt(x, y) == if rect.Contains(x, y) then Encode(fb.format, c) else old(fb.CellAt(x, y))
  {
    hide Cell;
    var dy := 0;
    while dy < rect.Size().y
      invariant 0 <= dy && (dy <= rect.Size().y || dy == 0)
      invariant forall x, y :: 0 <= x < fb.stride && 0 <= y < fb.height ==>
        fb.CellAt(x, y) == if rect.Contains(x, y) && y < rect.top + dy then Encode(fb.format, c)
          else old(fb.CellAt(x, y))
    {
      FillRow(fb, rect.left, rect.top + dy, rect.Size().x, c);
      dy := dy + 1;
    }
  }

  method FillRow(fb: FrameBuffer, left: int, y0: int, w: int, c: Color)
    requires fb.Valid() && (w > 0 ==> 0 <= left && left + w <= fb.width && 0 <= y0 < fb.height)
    modifies fb.bytes
    ensures forall x, y :: 0 <= x < fb.stride && 0 <= y < fb.height ==>
      fb.CellAt(x, y) == if y == y0 && left <= x < left + w then Encode(fb.format, c) else old(fb.CellAt(x, y))
  {
    hide Cell;
    var dx := 0;
    while dx < w
      invariant 0 <= dx && (dx <= w || dx == 0)
      invariant forall x, y :: 0 <= x < fb.stride && 0 <= y < fb.height ==>
        fb.CellAt(x, y) == if y == y0 && left <= x < left + dx then Encode(fb.format, c) else old(fb.CellAt(x, y))
    {
      fb.WritePixel(left + dx, y0, c);
      dx := dx + 1;
    }
  }

  /** write_ascii. */
  method WriteAscii(fb: FrameBuffer, x0: int, y0: int, g: Option<Glyph>, c: Color)
    requires fb.Valid() && 0 <= x0 && x0 + 8 <= fb.width && 0 <= y0 && y0 + 16 <= fb.height
    modifies fb.bytes
    ensures forall x, y :: 0 <= x < fb.stride && 0 <= y < fb.height ==>
      fb.CellAt(x, y) == if Inked(g, x - x0, y - y0) then Encode(fb.format, c) else old(fb.CellAt(x, y))
  {
    hide Cell;
    if g.None? { return; }
    for dy := 0 to 16
      invariant forall x, y :: 0 <= x < fb.stride && 0 <= y < fb.height ==>
        fb.CellAt(x, y) == if Inked(g, x - x0, y - y0) && y < y0 + dy then Encode(fb.format, c)
          else old(fb.CellAt(x, y))
    {
      for dx := 0 to 8
        invariant forall x, y :: 0 <= x < fb.stride && 0 <= y < fb.height ==>
          fb.CellAt(x, y) == if Inked(g, x - x0, y - y0) && (y < y0 + dy || (y == y0 + dy && x < x0 + dx))
            then Encode(fb.format, c) else old(fb.CellAt(x, y))
      {
        if g.value(dx, dy) { fb.WritePixel(x0 + dx, y0 + dy, c); }
      }
    }
  }

  /** The pixels draw_rectangle writes: top and bottom lines, then left and right lines. */
  predicate OnBorder(r: Rect, x: int, y: int) {
    || (r.left <= x < r.right && (y == r.top || y == r.bottom - 1))
    || (r.top <= y < r.bottom && (x == r.left || x == r.right - 1))
  }

  /** The border lies in the rectangle it is damaged with exactly when the rectangle is not degenerate
      in one direction only: a zero-height border of positive width paints the line above it. */
  lemma BorderInsideIff(r: Rect)
    ensures (forall x, y :: OnBorder(r, x, y) ==> r.Contains(x, y)) <==> (r.left < r.right <==> r.top < r.bottom)
  {
    if r.left < r.right && r.bottom <= r.top {
      assert OnBorder(r, r.left, r.bottom - 1) && !r.Contains(r.left, r.bottom - 1);
    }
    if r.top < r.bottom && r.right <= r.left {
      assert OnBorder(r, r.right - 1, r.top) && !r.Contains(r.right - 1, r.top);
    }
  }

  /** Every pixel draw_rectangle writes is in the buffer. */
  ghost predicate BorderInside(r: Rect, fb: FrameBuffer) {
    forall x, y :: OnBorder(r, x, y) ==> 0 <= x < fb.width && 0 <= y < fb.height
  }

  /** draw_rectangle, also of a rectangle that is empty in one direction or in both. */
  method DrawBorder(fb: FrameBuffer, rect: Rect, c: Color)
    requires fb.Valid() && BorderInside(rect, fb)
    modifies fb.bytes
    ensures forall x, y :: 0 <= x < fb.stride && 0 <= y < fb.height ==>
      fb.CellAt(x, y) == if OnBorder(rect, x, y) then Encode(fb.format, c) else old(fb.CellAt(x, y))
  {
    hide Cell;
    var dx := 0;
    while dx < rect.Size().x
      invariant 0 <= dx && (dx <= rect.Size().x || dx == 0)
      invariant forall x, y :: 0 <= x < fb.stride && 0 <= y < fb.height ==>
        fb.CellAt(x, y) == if rect.left <= x < rect.left + dx && (y == rect.top || y == rect.bottom - 1)
          then Encode(fb.format, c) else old(fb.CellAt(x, y))
    {
      assert OnBorder(rect, rect.left + dx, rect.top) && OnBorder(rect, rect.left + dx, rect.bottom - 1);
      fb.WritePixel(rect.left + dx, rect.top, c);
      fb.WritePixel(rect.left + dx, rect.bottom - 1, c);
      dx := dx + 1;
    }
    var dy := 0;
    while dy < rect.Size().y
      invariant 0 <= dy && (dy <= rect.Size().y || dy == 0)
      invariant forall x, y :: 0 <= x < fb.stride && 0 <= y < fb.height ==>
        fb.CellAt(x, y) == if (rect.left <= x < rect.right && (y == rect.top || y == rect.bottom - 1))
            || (rect.top <= y < rect.top + dy && (x == rect.left || x == rect.right - 1))
          then Encode(fb.format, c) else old(fb.CellAt(x, y))
    {
      assert OnBorder(rect, rect.left, rect.top + dy) && OnBorder(rect, rect.right - 1, rect.top + dy);
      fb.WritePixel(rect.left, rect.top + dy, c);
      fb.WritePixel(rect.right - 1, rect.top + dy, c);
      dy := dy + 1;
    }
  }

  /** A border that is empty in one direction only is drawn outside the rectangle it will be damaged
      with: the program writes a pixel there. */
  method BorderEscapes(fb: FrameBuffer, rect: Rect, c: Color) returns (x: int, y: int)
    requires fb.Valid() && BorderInside(rect, fb) && !(rect.left < rect.right <==> rect.top < rect.bottom)
    modifies fb.bytes
    ensures !rect.Contains(x, y) && 0 <= x < fb.width && 0 <= y < fb.height && fb.CellAt(x, y) == Encode(fb.format, c)
  {
    hide Cell;
    DrawBorder(fb, rect, c);
    if rect.left < rect.right {
      x, y := rect.left, rect.bottom - 1;
    } else {
      x, y := rect.right - 1, rect.top;
    }
    assert OnBorder(rect, x, y);
  }

  class Painter {
    const layer: Layer
    ghost const start: Picture
    var damaged: bool
    var topLeft: Vec
    var bottomRight: Vec

    /** BufferLayer::start_paint. */
    constructor (layer: Layer)
      requires layer.fb.Valid()
      ensures this.layer == layer && start == layer.fb.Picture() && !damaged && Tracks()
    {
      this.layer := layer;
      start := layer.fb.Picture();
      damaged, topLeft, bottomRight := false, Vec(0, 0), Vec(0, 0);
      new;
      assert Tracks();
    }

    function Box(): Rect
      reads this
    {
      Rect(topLeft.x, topLeft.y, bottomRight.x, bottomRight.y)
    }

    /** Every pixel that differs from the start of the session is in the damage box, and reserved bytes
        that were zero still are. */
    ghost predicate Tracks()
      reads this, layer.fb.bytes
    {
      && layer.fb.Valid() && (ReservedZero(start) ==> ReservedZero(layer.fb.Picture()))
      && if damaged then DiffersWithin(start, layer.fb.Picture(), Box()) else layer.fb.Picture() == start
    }

    /** raw_damage. */
    method RawDamage(rect: Rect)
      modifies this
      ensures damaged && Box() == if old(damaged) then old(Box()).Merge(rect) else rect
    {
      if !damaged {
        topLeft, bottomRight, damaged := rect.TopLeft(), rect.BottomRight(), true;
        return;
      }
      topLeft := topLeft.Min(rect.TopLeft());
      bottomRight := bottomRight.Max(rect.BottomRight());
    }

    method DrawFilledRectangle(rect: Rect, c: Color)
      requires Tracks() && Inside(rect, layer.fb)
      modifies this, layer.fb.bytes
      ensures Tracks()
      ensures forall x, y :: 0 <= x < layer.fb.width && 0 <= y < layer.fb.height ==>
        layer.fb.CellAt(x, y) == if rect.Contains(x, y) then Encode(layer.fb.format, c) else old(layer.fb.CellAt(x, y))
    {
      hide Cell, PictureOf, ReservedZero, WellFormedPixel, Encode;
      ghost var before := layer.fb.bytes[..];
      FillRectangle(layer.fb, rect, c);
      EncodedIsReserved(layer.fb.format, c);
      StillReserved(layer.fb, before);
      DrawnWithin(layer.fb, before, rect);
      RawDamage(rect);
      Widened(start, PictureOf(before, layer.fb.width, layer.fb.stride, layer.fb.height), layer.fb.Picture(),
        old(damaged), old(Box()), rect);
    }

    method DrawRectangle(rect: Rect, c: Color)
      requires Tracks() && BorderInside(rect, layer.fb) && (rect.left < rect.right <==> rect.top < rect.bottom)
      modifies this, layer.fb.bytes
      ensures Tracks()
      ensures forall x, y :: 0 <= x < layer.fb.width && 0 <= y < layer.fb.height ==>
        layer.fb.CellAt(x, y) == if OnBorder(rect, x, y) then Encode(layer.fb.format, c) else old(layer.fb.CellAt(x, y))
    {
      hide Cell, PictureOf, ReservedZero, WellFormedPixel, Encode;
      ghost var before := layer.fb.bytes[..];
      DrawBorder(layer.fb, rect, c);
      BorderInsideIff(rect);
      EncodedIsReserved(layer.fb.format, c);
      StillReserved(layer.fb, before);
      DrawnWithin(layer.fb, before, rect);
      RawDamage(rect);
      Widened(start, PictureOf(before, layer.fb.width, layer.fb.stride, layer.fb.height), layer.fb.Picture(),
        old(damaged), old(Box()), rect);
    }

    method DrawAscii(pos: Vec, g: Option<Glyph>, c: Color)
      requires Tracks() && 0 <= pos.x && pos.x + 8 <= layer.fb.width && 0 <= pos.y && pos.y + 16 <= layer.fb.height
      modifies this, layer.fb.bytes
      ensures Tracks()
      ensures forall x, y :: 0 <= x < layer.fb.width && 0 <= y < layer.fb.height ==>
        layer.fb.CellAt(x, y) == if Inked(g, x - pos.x, y - pos.y) then Encode(layer.fb.format, c)
          else old(layer.fb.CellAt(x, y))
    {
      hide Cell, PictureOf, ReservedZero, WellFormedPixel, Encode;
      ghost var before := layer.fb.bytes[..];
      WriteAscii(layer.fb, pos.x, pos.y, g, c);
      EncodedIsReserved(layer.fb.format, c);
      StillReserved(layer.fb, before);
      var rect := RectAt(pos, GLYPH_SIZE);
      DrawnWithin(layer.fb, before, rect);
      RawDamage(rect);
      Widened(start, PictureOf(before, layer.fb.width, layer.fb.stride, layer.fb.height), layer.fb.Picture(),
        old(damaged), old(Box()), rect);
    }

    /** copy_y: move whole lines of the layer. */
    method CopyY(dstY: nat, srcY: nat, srcEndY: nat)
      requires Tracks() && srcY <= srcEndY <= layer.fb.height && dstY + (srcEndY - srcY) <= layer.fb.height
      modifies this, layer.fb.bytes
      ensures Tracks()
      ensures forall x, y :: 0 <= x < layer.fb.width && 0 <= y < layer.fb.height ==>
        layer.fb.CellAt(x, y) ==
          if dstY <= y < dstY + (srcEndY - srcY) then old(layer.fb.CellAt(x, y - dstY + srcY))
            else old(layer.fb.CellAt(x, y))
    {
      hide Cell, PictureOf;
      var height := srcEndY - srcY;
      ghost var before := layer.fb.bytes[..];
      layer.fb.CopySelfY(dstY, srcY, height);
      StillReserved(layer.fb, before);
      var rect := Rect(0, dstY, layer.fb.width, dstY + height);
      DrawnWithin(layer.fb, before, rect);
      RawDamage(rect);
      Widened(start, PictureOf(before, layer.fb.width, layer.fb.stride, layer.fb.height), layer.fb.Picture(),
        old(damaged), old(Box()), rect);
    }

    /** end: report the damage box; afterwards every manager that was fresh shows the new pixels.
        `before` is the manager's stack as it was when painting started. */
    method End(ghost w: World, ghost good: set<LayerManager>, ghost before: seq<LayerView>)
      requires Tracks() && w.Wired() && layer in w.layers && layer.child == null && w.Sound()
      requires good <= w.managers && w.AllFresh(good - {layer.manager})
      requires w.StackWith(layer, start, before) && (layer.manager in good ==> w.StillShows(layer, before))
      modifies w.Arrays()
      ensures w.Wired() && w.Sound() && w.AllFresh(good) && w.Untouched(layer.manager.depth)
      ensures layer.fb.bytes[..] == old(layer.fb.bytes[..])
    {
      hide PictureOf, Consistent, World.Wired, World.AllFresh, World.Sound, ReservedZero;
      GroupInStack(w, layer);
      PaintedWithin(w, before);
      if !damaged {
        NothingPainted(w, good, before);
        return;
      }
      layer.Damage(w, [Box()], good, before);
    }

    lemma PaintedWithin(w: World, before: seq<LayerView>)
      requires Tracks() && w.Wired() && layer in w.layers && layer.manager.Ready() && w.StackWith(layer, start, before)
      ensures ChangedWithin(before, Views(layer.manager.stack), layer.id,
        OffsetAll(if damaged then [Box()] else [], layer.pos))
    {
      hide PictureOf, Views, AgreeOutside, SameAbove, World.Wired, Consistent;
      var stack := layer.manager.stack;
      var views := Views(stack);
      GroupInStack(w, layer);
      if damaged {
        var rect := Box().Offset(layer.pos);
        assert OffsetAll([Box()], layer.pos) == [rect];
        GroupChangeIsLocal(before, views, layer.id, layer.pos, Box(), start, layer.fb.Picture());
      } else {
        assert before == views;
      }
    }

    lemma NothingPainted(w: World, good: set<LayerManager>, before: seq<LayerView>)
      requires Tracks() && !damaged && w.Wired() && layer in w.layers && layer.manager.Ready()
      requires w.StackWith(layer, start, before)
      requires good <= w.managers && w.AllFresh(good - {layer.manager}) && w.Sound()
      requires layer.manager in good ==> w.StillShows(layer, before)
      requires before == Views(layer.manager.stack)
      ensures w.AllFresh(good)
    {
      hide PictureOf, Views, World.WiredManager, World.WiredLayer, Consistent, World.Reserved, ReservedZero;
      GroupInStack(w, layer);
      WiringOf(w, layer.manager);
      if layer.manager in good { assert w.FreshIn(layer.manager); }
      forall o | o in good ensures w.FreshIn(o) { assert o == layer.manager || o in good - {layer.manager}; }
    }
  }

  /** What is known of a layer when painting starts. */
  lemma PaintReady(w: World, good: set<LayerManager>, l: Layer)
    requires w.Wired() && l in w.layers && w.Sound() && good <= w.managers && w.AllFresh(good)
    ensures l.manager in w.managers && l.fb.Valid() && ReservedZero(l.fb.Picture())
    ensures l.manager in good ==> w.FreshIn(l.manager)
  {
    hide ReservedZero, PictureOf, World.FreshIn;
    GroupInStack(w, l);
  }

  /** If every cell was in the buffer before or is well formed, reserved bytes stay zero. */
  lemma StillReserved(fb: FrameBuffer, before: seq<byte>)
    requires fb.Valid() && |before| == fb.bytes.Length
    requires forall x, y :: 0 <= x < fb.width && 0 <= y < fb.height ==>
      || WellFormedPixel(fb.CellAt(x, y))
      || exists v :: 0 <= v < fb.height && fb.CellAt(x, y) == Cell(before, fb.stride, fb.height, x, v)
    ensures ReservedZero(PictureOf(before, fb.width, fb.stride, fb.height)) ==> ReservedZero(fb.Picture())
  {
    hide Cell, PictureOf, WellFormedPixel, ReservedZero;
    ReservedBytes(before, fb.width, fb.stride, fb.height);
    ReservedBytes(fb.bytes[..], fb.width, fb.stride, fb.height);
    if ReservedZero(PictureOf(before, fb.width, fb.stride, fb.height)) {
      forall x, y | 0 <= x < fb.width && 0 <= y < fb.height
        ensures WellFormedPixel(Cell(fb.bytes[..], fb.stride, fb.height, x, y))
      {
        assert fb.CellAt(x, y) == Cell(fb.bytes[..], fb.stride, fb.height, x, y);
      }
    }
  }

  /** If all changed cells are in the rectangle, so are all changed pixels. */
  lemma DrawnWithin(fb: FrameBuffer, before: seq<byte>, rect: Rect)
    requires fb.Valid() && |before| == fb.bytes.Length
    requires forall x, y :: 0 <= x < fb.width && 0 <= y < fb.height && !rect.Contains(x, y) ==>
      fb.CellAt(x, y) == Cell(before, fb.stride, fb.height, x, y)
    ensures DiffersWithin(PictureOf(before, fb.width, fb.stride, fb.height), fb.Picture(), rect)
  {
    hide Cell, PictureOf;
    PictureOfAt(before, fb.width, fb.stride, fb.height);
    PictureOfAt(fb.bytes[..], fb.width, fb.stride, fb.height);
  }

  /** Growing the damage box by the next rectangle keeps it around all changes. */
  lemma Widened(start: Picture, before: Picture, now: Picture, damaged: bool, box: Rect, rect: Rect)
    requires if damaged then DiffersWithin(start, before, box) else before == start
    requires DiffersWithin(before, now, rect)
    ensures DiffersWithin(start, now, if damaged then box.Merge(rect) else rect)
  {
    if damaged {
      var m := box.Merge(rect);
      forall x, y | start.Has(x, y) && !m.Contains(x, y) ensures now.At(x, y) == start.At(x, y) {
        assert before.Has(x, y) && !rect.Contains(x, y) && !box.Contains(x, y);
      }
    }
  }
}
