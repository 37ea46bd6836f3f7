/**
 * Colour keys are compared byte by byte. Every pixel a writer stores has a zero reserved byte, every
 * redraw keeps it so, and therefore a layer hides exactly the pixels of its transparent colour.
 */
module ColourKeys {
  import opened Geometry
  import opened Composition
  import opened Options
  import opened FrameBuffers

  ghost predicate ReservedZero(p: Picture) {
    forall x, y :: p.Has(x, y) ==> WellFormedPixel(p.At(x, y))
  }

  ghost predicate AllReservedZero(stack: seq<LayerView>) {
    forall k :: 0 <= k < |stack| ==> ReservedZero(stack[k].image)
  }

  lemma {:induction false} TopIsWellFormed(stack: seq<LayerView>, x: int, y: int)
    requires AllReservedZero(stack)
    ensures Top(stack, x, y).Some? ==> WellFormedPixel(Top(stack, x, y).value)
  {
    if stack != [] {
      var l := stack[|stack| - 1];
      if l.Area().Contains(x, y) { assert l.image.Has(x - l.pos.x, y - l.pos.y); }
      TopIsWellFormed(stack[..|stack| - 1], x, y);
    }
  }

  /** A group's or the screen's buffer composed of well-formed layers stays well-formed. */
  lemma DamageKeepsReserved(stack: seq<LayerView>, was: Picture, id: nat, rect: Rect)
    requires was.Rectangular() && ReservedZero(was) && AllReservedZero(stack)
    ensures ReservedZero(DrawDamage(stack, was, id, rect))
  {
    var above := stack[CoverBelow(stack, rect, |stack|)..];
    PaintInAt(above, was, rect);
    forall x, y | was.Has(x, y) ensures Top(above, x, y).Some? ==> WellFormedPixel(Top(above, x, y).value) {
      TopIsWellFormed(above, x, y);
    }
  }

  /** So does painting all layers. */
  lemma PaintKeepsReserved(stack: seq<LayerView>, was: Picture)
    requires was.Rectangular() && ReservedZero(was) && AllReservedZero(stack)
    ensures ReservedZero(Paint(stack, was))
  {
    PaintAt(stack, was);
    forall x, y | was.Has(x, y) ensures Top(stack, x, y).Some? ==> WellFormedPixel(Top(stack, x, y).value) {
      TopIsWellFormed(stack, x, y);
    }
  }

  /** Cell by cell. */
  lemma ReservedBytes(mem: seq<byte>, width: nat, stride: nat, height: nat)
    requires |mem| == BPP * (stride * height) && width <= stride
    ensures ReservedZero(PictureOf(mem, width, stride, height)) <==>
      forall x, y :: 0 <= x < width && 0 <= y < height ==> WellFormedPixel(Cell(mem, stride, height, x, y))
  {
    hide PictureOf, Cell, WellFormedPixel;
    PictureOfAt(mem, width, stride, height);
    var p := PictureOf(mem, width, stride, height);
    if ReservedZero(p) {
      forall x, y | 0 <= x < width && 0 <= y < height
        ensures WellFormedPixel(Cell(mem, stride, height, x, y))
      {
        assert p.Has(x, y);
      }
    }
    if forall x, y :: 0 <= x < width && 0 <= y < height ==> WellFormedPixel(Cell(mem, stride, height, x, y)) {
      forall x, y | p.Has(x, y)
        ensures WellFormedPixel(p.At(x, y))
      {
        assert WellFormedPixel(Cell(mem, stride, height, x, y));
      }
    }
  }

  lemma EncodedIsReserved(format: PixelFormat, c: Color)
    ensures WellFormedPixel(Encode(format, c))
  {
  }

  /** The picture of zero-filled memory. */
  ghost function Zeros(width: nat, height: nat): Picture { Build(width, height, (x, y) => [0, 0, 0, 0]) }

  lemma ZeroFilledIsBlank(fb: FrameBuffer)
    requires fb.Valid() && forall i :: 0 <= i < fb.bytes.Length ==> fb.bytes[i] == 0
    ensures fb.Picture() == Zeros(fb.width, fb.height)
  {
    hide PictureOf, Cell;
    PictureOfAt(fb.bytes[..], fb.width, fb.stride, fb.height);
    BuildAt(fb.width, fb.height, (x, y) => [0, 0, 0, 0]);
    forall x, y | 0 <= x < fb.width && 0 <= y < fb.height
      ensures fb.Picture().At(x, y) == [0, 0, 0, 0]
    {
      ZeroCell(fb.bytes[..], fb.stride, fb.height, x, y);
    }
    SamePixels(fb.Picture(), Zeros(fb.width, fb.height));
  }

  /** The zero-filled memory of a new layer. */
  lemma ZeroFilledIsReserved(fb: FrameBuffer)
    requires fb.Valid() && forall i :: 0 <= i < fb.bytes.Length ==> fb.bytes[i] == 0
    ensures ReservedZero(fb.Picture())
  {
    hide PictureOf, Cell, WellFormedPixel;
    ReservedBytes(fb.bytes[..], fb.width, fb.stride, fb.height);
    forall x, y | 0 <= x < fb.width && 0 <= y < fb.height
      ensures WellFormedPixel(Cell(fb.bytes[..], fb.stride, fb.height, x, y))
    {
      ZeroCell(fb.bytes[..], fb.stride, fb.height, x, y);
    }
  }

  lemma ZeroCell(mem: seq<byte>, stride: nat, height: nat, x: int, y: int)
    requires |mem| == BPP * (stride * height) && 0 <= x < stride && 0 <= y < height
    requires forall i :: 0 <= i < |mem| ==> mem[i] == 0
    ensures Cell(mem, stride, height, x, y) == [0, 0, 0, 0] && WellFormedPixel(Cell(mem, stride, height, x, y))
  {
    hide Off;
    OffInside(stride, height, x, y);
  }

  /** In both formats a keyed layer shows nothing exactly where its pixel has the key's colour. */
  lemma HiddenIffKeyColour(l: LayerView, format: PixelFormat, c: Color, x: int, y: int)
    requires l.key == Some(Encode(format, c)) && ReservedZero(l.image) && l.Area().Contains(x, y)
    ensures l.image.Has(x - l.pos.x, y - l.pos.y)
    ensures l.Show(x, y).None? <==> Decode(format, l.image.At(x - l.pos.x, y - l.pos.y)) == c
  {
    assert l.image.Has(x - l.pos.x, y - l.pos.y);
    KeyedByColour(format, l.image.At(x - l.pos.x, y - l.pos.y), c);
  }
}
