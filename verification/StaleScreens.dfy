/**
 * Screens that are wrong after hide, a lowering up_down or set_transparent_color until the next draw:
 * one failing input for each, in either pixel format, for any two colours.
 */
module StaleScreens {
  import opened Geometry
  import opened Composition
  import opened Options
  import opened Seqs
  import opened StackEdits
  import opened FrameBuffers

  /** An opaque layer of one pixel in the corner. */
  function Dot(id: nat, px: Pixel): LayerView { LayerView(id, Vec(0, 0), Picture(1, 1, [[px]]), None) }

  lemma DotShows(id: nat, px: Pixel, x: int, y: int)
    ensures Dot(id, px).Show(x, y) == if x == 0 && y == 0 then Some(px) else None
  {
  }

  /** One dot above the other, and a screen that shows the upper one. */
  function Dots(format: PixelFormat, below: Color, above: Color): seq<LayerView> {
    [Dot(1, Encode(format, below)), Dot(2, Encode(format, above))]
  }

  function Screen(format: PixelFormat, c: Color): Picture { Picture(1, 1, [[Encode(format, c)]]) }

  lemma DotsConsistent(format: PixelFormat, below: Color, above: Color)
    ensures var v, s := Dots(format, below, above), Screen(format, above);
      && UniqueIds(v) && s.Rectangular() && Consistent(v, s) && s.At(0, 0) == Encode(format, above)
      && Top(v, 0, 0) == Some(Encode(format, above)) && Top([v[0]], 0, 0) == Some(Encode(format, below))
  {
    hide Encode;
    var v, s := Dots(format, below, above), Screen(format, above);
    forall x, y
      ensures v[0].Show(x, y) == if x == 0 && y == 0 then Some(Encode(format, below)) else None
      ensures v[1].Show(x, y) == if x == 0 && y == 0 then Some(Encode(format, above)) else None
    {
      DotShows(1, Encode(format, below), x, y);
      DotShows(2, Encode(format, above), x, y);
    }
    assert v[..1] == [v[0]];
    assert forall x, y :: s.Has(x, y) ==> x == 0 && y == 0;
  }

  lemma DifferentPixels(format: PixelFormat, a: Color, b: Color)
    ensures Encode(format, a) == Encode(format, b) ==> a == b
  {
    assert Encode(format, a)[0] == Encode(format, b)[0] ==> format.RGBResv8BitPerColor? ==> a.r == b.r;
    KeyedByColour(format, Encode(format, a), b);
  }

  lemma HidingCanLeaveStalePixels(format: PixelFormat, below: Color, above: Color)
    requires below != above
    ensures var v, s := Dots(format, below, above), Screen(format, above);
      Consistent(v, s) && !Consistent(Without(v, 1), s)
  {
    hide Encode;
    DotsConsistent(format, below, above);
    DifferentPixels(format, below, above);
    var v, s := Dots(format, below, above), Screen(format, above);
    assert Without(v, 1) == [v[0]];
    assert s.Has(0, 0);
  }

  lemma LoweringCanLeaveStalePixels(format: PixelFormat, below: Color, above: Color)
    requires below != above
    ensures var v, s := Dots(format, below, above), Screen(format, above); var after := With(Without(v, 1), 0, v[1]);
      Consistent(v, s) && !Consistent(after, DrawDamage(after, s, v[1].id, v[1].Area()))
  {
    hide Encode, Top, DrawDamage, Consistent;
    DotsConsistent(format, below, above);
    DifferentPixels(format, below, above);
    var v, s := Dots(format, below, above), Screen(format, above);
    LowerExact(v, 1, 0, s);
    assert Without(v, 1) == [v[0]];
    assert CoversOpaquely([v[0]][0], v[1].Area());
    assert Buried([v[0]], 0, v[1]);
    assert v[2..] == [] && Top([], 0, 0) == None by { NothingOnTop(); }
    DotShows(2, Encode(format, above), 0, 0);
    assert s.Has(0, 0) && SeenAt(v, 1, 0, 0);
  }

  lemma NothingOnTop()
    ensures Top([], 0, 0) == None
  {
  }

  /** Making the upper dot's own colour transparent uncovers the lower one, but not on the screen. */
  lemma RekeyingCanLeaveStalePixels(format: PixelFormat, below: Color, above: Color)
    requires below != above
    ensures var v, s := Dots(format, below, above), Screen(format, above);
      Consistent(v, s) && !Consistent(v[1 := v[1].(key := Some(Encode(format, above)))], s)
  {
    hide Encode;
    DotsConsistent(format, below, above);
    DifferentPixels(format, below, above);
    var v, s := Dots(format, below, above), Screen(format, above);
    var after := v[1 := v[1].(key := Some(Encode(format, above)))];
    assert after[1].Show(0, 0) == None;
    assert after[..1] == [v[0]];
    assert Top(after, 0, 0) == Some(Encode(format, below)) && s.Has(0, 0);
  }
}
