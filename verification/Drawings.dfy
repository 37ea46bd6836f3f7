/**
 * What drawing calls mean: each maps a picture to a picture, and a painter's calls leave the layer
 * with the picture they map the old one to, one after the other.
 */
module Drawings {
  import opened Geometry
  import opened Composition
  import opened FrameBuffers
  import opened ColourKeys
  import opened Layers
  import opened Painters

  /** One call on a painter. */
  datatype Draw =
    | Filled(rect: Rect, color: Color)
    | Border(rect: Rect, color: Color)
    | Character(pos: Vec, ch: char, color: Color)
    | Lines(to: nat, from: nat, end: nat)

  /** It stays inside a layer of that size and inside the rectangle it damages; the code relies on that. */
  predicate StaysIn(d: Draw, width: nat, height: nat) {
    match d
    case Filled(rect, _) => Within(rect, width, height)
    case Border(rect, _) => (rect.left < rect.right <==> rect.top < rect.bottom) && Within(rect, width, height)
    case Character(pos, _, _) => 0 <= pos.x && pos.x + 8 <= width && 0 <= pos.y && pos.y + 16 <= height
    case Lines(to, from, end) => from <= end <= height && to + (end - from) <= height
  }

  predicate Within(r: Rect, width: nat, height: nat) {
    r.left < r.right && r.top < r.bottom ==> 0 <= r.left && 0 <= r.top && r.right <= width && r.bottom <= height
  }

  predicate Stays(d: Draw, fb: FrameBuffer) { StaysIn(d, fb.width, fb.height) }

  /** In the rectangle, but not in its inner part. */
  predicate OnEdge(rect: Rect, x: int, y: int) {
    rect.Contains(x, y) && !Rect(rect.left + 1, rect.top + 1, rect.right - 1, rect.bottom - 1).Contains(x, y)
  }

  /** The pixel at (x, y) after a call: the colour where the call draws, the pixel of another line where
      lines are moved, otherwise the old one. */
  function DrawnPixel(d: Draw, font: Font, f: PixelFormat, was: Picture, x: int, y: int): Pixel {
    match d
    case Filled(rect, c) => if rect.Contains(x, y) then Encode(f, c) else was.At(x, y)
    case Border(rect, c) => if OnEdge(rect, x, y) then Encode(f, c) else was.At(x, y)
    case Character(pos, ch, c) => if Inked(font(ch), x - pos.x, y - pos.y) then Encode(f, c) else was.At(x, y)
    case Lines(to, from, end) => was.At(x, if to <= y < to + (end - from) then from + (y - to) else y)
  }

  ghost function DrawnOn(d: Draw, font: Font, f: PixelFormat, was: Picture): Picture {
    Build(was.width, was.height, (x, y) => DrawnPixel(d, font, f, was, x, y))
  }

  /** The picture after a sequence of calls. */
  ghost function Drawing(draws: seq<Draw>, font: Font, f: PixelFormat, was: Picture): Picture {
    if draws == [] then was
    else DrawnOn(draws[|draws| - 1], font, f, Drawing(draws[..|draws| - 1], font, f, was))
  }

  lemma DrawnAt(d: Draw, font: Font, f: PixelFormat, was: Picture)
    ensures DrawnOn(d, font, f, was).SameSize(was) && DrawnOn(d, font, f, was).Rectangular()
    ensures forall x, y :: was.Has(x, y) ==> DrawnOn(d, font, f, was).At(x, y) == DrawnPixel(d, font, f, was, x, y)
  {
    hide DrawnPixel, MakeRows;
    BuildAt(was.width, was.height, (x, y) => DrawnPixel(d, font, f, was, x, y));
  }

  /** A border whose rectangle is empty in no direction, or in both, is the edge of the rectangle. */
  lemma BorderIsEdge(rect: Rect, x: int, y: int)
    requires rect.left < rect.right <==> rect.top < rect.bottom
    ensures OnBorder(rect, x, y) <==> OnEdge(rect, x, y)
  {
  }

  /** If every cell holds the drawn pixel, the buffer shows the drawn picture. */
  lemma ShowsDrawn(fb: FrameBuffer, before: seq<byte>, d: Draw, font: Font)
    requires fb.Valid() && |before| == fb.bytes.Length
    requires var was := PictureOf(before, fb.width, fb.stride, fb.height);
      forall x, y :: 0 <= x < fb.width && 0 <= y < fb.height ==>
        fb.CellAt(x, y) == DrawnPixel(d, font, fb.format, was, x, y)
    ensures fb.Picture() == DrawnOn(d, font, fb.format, PictureOf(before, fb.width, fb.stride, fb.height))
  {
    hide Cell, PictureOf, DrawnPixel, DrawnOn;
    var was := PictureOf(before, fb.width, fb.stride, fb.height);
    PictureOfAt(before, fb.width, fb.stride, fb.height);
    PictureOfAt(fb.bytes[..], fb.width, fb.stride, fb.height);
    DrawnAt(d, font, fb.format, was);
    SamePixels(fb.Picture(), DrawnOn(d, font, fb.format, was));
  }

  method DrawOne(painter: Painter, font: Font, d: Draw)
    requires painter.Tracks() && Stays(d, painter.layer.fb)
    modifies painter, painter.layer.fb.bytes
    ensures painter.Tracks()
    ensures painter.layer.fb.Picture() == DrawnOn(d, font, painter.layer.fb.format, old(painter.layer.fb.Picture()))
  {
    hide Cell, PictureOf, ReservedZero, Encode, Painter.Tracks, DrawnOn;
    var fb := painter.layer.fb;
    ghost var before := fb.bytes[..];
    assert fb.Valid() by { TrackedIsValid(painter); }
    PictureOfAt(before, fb.width, fb.stride, fb.height);
    match d {
      case Filled(rect, c) =>
        painter.DrawFilledRectangle(rect, c);
      case Border(rect, c) =>
        painter.DrawRectangle(rect, c);
        forall x, y ensures OnBorder(rect, x, y) <==> OnEdge(rect, x, y) { BorderIsEdge(rect, x, y); }
      case Character(pos, ch, c) =>
        painter.DrawAscii(pos, font(ch), c);
      case Lines(to, from, end) =>
        painter.CopyY(to, from, end);
    }
    ShowsDrawn(fb, before, d, font);
  }

  lemma TrackedIsValid(p: Painter)
    requires p.Tracks()
    ensures p.layer.fb.Valid()
  {
  }

  /** Any sequence of drawing calls leaves the picture they map the old one to. */
  method DrawMany(painter: Painter, font: Font, draws: seq<Draw>)
    requires painter.Tracks() && forall k :: 0 <= k < |draws| ==> Stays(draws[k], painter.layer.fb)
    modifies painter, painter.layer.fb.bytes
    ensures painter.Tracks()
    ensures painter.layer.fb.Picture() ==
      Drawing(draws, font, painter.layer.fb.format, old(painter.layer.fb.Picture()))
  {
    hide Painter.Tracks, PictureOf, DrawnOn;
    TrackedIsValid(painter);
    ghost var was := painter.layer.fb.Picture();
    for k := 0 to |draws|
      invariant painter.Tracks() && painter.layer.fb.Valid()
      invariant painter.layer.fb.Picture() == Drawing(draws[..k], font, painter.layer.fb.format, was)
    {
      DrawOne(painter, font, draws[k]);
      TrackedIsValid(painter);
      assert draws[..k + 1][..k] == draws[..k];
    }
    assert draws[..|draws|] == draws;
  }

  // ----- what sequences of calls show -----

  /** Each call draws over what the calls before it have drawn. */
  lemma DrawSeen(draws: seq<Draw>, k: nat, font: Font, f: PixelFormat, was: Picture, x: int, y: int)
    requires k < |draws| && was.Rectangular() && was.Has(x, y)
    ensures Drawing(draws[..k + 1], font, f, was).At(x, y) ==
      DrawnPixel(draws[k], font, f, Drawing(draws[..k], font, f, was), x, y)
  {
    hide DrawnPixel, DrawnOn;
    assert draws[..k + 1][..k] == draws[..k];
    DrawingShape(draws[..k], font, f, was);
    DrawnAt(draws[k], font, f, Drawing(draws[..k], font, f, was));
  }

  lemma {:induction false} DrawingShape(draws: seq<Draw>, font: Font, f: PixelFormat, was: Picture)
    requires was.Rectangular()
    ensures Drawing(draws, font, f, was).SameSize(was) && Drawing(draws, font, f, was).Rectangular()
    decreases |draws|
  {
    hide DrawnOn;
    if draws != [] {
      var front := draws[..|draws| - 1];
      DrawingShape(front, font, f, was);
      DrawnAt(draws[|draws| - 1], font, f, Drawing(front, font, f, was));
    }
  }
}
