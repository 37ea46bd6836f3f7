/**
 * Groups nested to any depth: a screen kept fresh level by level shows the recursive composition
 * of the whole tree of layers.
 */
module NestedComposition {
  import opened Geometry
  import opened Composition
  import opened Options
  import opened FrameBuffers
  import opened Layers

  /** The managers at least as deep as m: shrinks on the way into a group. */
  ghost function Below(w: World, m: LayerManager): set<LayerManager> {
    set o | o in w.managers && o.depth >= m.depth
  }

  lemma ChildIsBelow(w: World, m: LayerManager, l: Layer)
    requires w.Wired() && m in w.managers && l in m.stack && l.child != null
    ensures l.child in w.managers && Below(w, l.child) < Below(w, m) && l.fb.Valid()
  {
    assert w.WiredManager(m) && w.WiredLayer(l);
    assert m in Below(w, m) && m !in Below(w, l.child);
  }

  /** What the lowest n layers of m show at (x, y) when every group is composed afresh from its own
      layers. Only where a group shows nothing of its own does its buffer keep an older pixel. */
  ghost function DeepTop(w: World, m: LayerManager, n: nat, x: int, y: int): Option<Pixel>
    requires w.Wired() && m in w.managers && n <= |m.stack|
    reads w.managers, w.layers, w.Arrays()
    decreases Below(w, m), n
  {
    if n == 0 then None
    else
      InStack(w, m, n - 1);
      var l := m.stack[n - 1];
      var s := DeepShow(w, m, l, x, y);
      if s.Some? then s else DeepTop(w, m, n - 1, x, y)
  }

  ghost function DeepShow(w: World, m: LayerManager, l: Layer, x: int, y: int): Option<Pixel>
    requires w.Wired() && m in w.managers && l in m.stack && l in w.layers && l.fb.Valid()
    reads w.managers, w.layers, w.Arrays()
    decreases Below(w, m), 0
  {
    if !l.ManagerArea().Contains(x, y) then None
    else
      var px := DeepPixel(w, m, l, x - l.pos.x, y - l.pos.y);
      if KeyPixel(l.fb.format, l.transparent) == Some(px) then None else Some(px)
  }

  ghost function DeepPixel(w: World, m: LayerManager, l: Layer, x: int, y: int): Pixel
    requires w.Wired() && m in w.managers && l in m.stack && l in w.layers && l.fb.Valid()
    reads w.managers, w.layers, w.Arrays()
    decreases Below(w, m), 0, 0
  {
    if l.child == null then l.fb.Picture().At(x, y)
    else
      ChildIsBelow(w, m, l);
      OrElse(DeepTop(w, l.child, |l.child.stack|, x, y), l.fb.Picture().At(x, y))
  }

  lemma InStack(w: World, m: LayerManager, k: nat)
    requires w.Wired() && m in w.managers && k < |m.stack|
    ensures m.stack[k] in w.layers && m.stack[k].fb.Valid() && m.stack[k].fb.bytes in w.Arrays()
  {
    assert w.WiredManager(m);
  }

  /** With every manager fresh, seeing the top of one stack is seeing into all groups. */
  lemma {:induction false} FreshIsDeep(w: World, m: LayerManager, n: nat, x: int, y: int)
    requires w.Wired() && m in w.managers && n <= |m.stack| && w.AllFresh(w.managers) && m.Ready()
    ensures Top(Views(m.stack)[..n], x, y) == DeepTop(w, m, n, x, y)
    decreases Below(w, m), n
  {
    hide PictureOf, DeepShow, Consistent, World.Wired, World.AllFresh, Top, LayerView.Show;
    if n > 0 {
      InStack(w, m, n - 1);
      FreshIsDeep(w, m, n - 1, x, y);
      FreshShowsDeep(w, m, m.stack[n - 1], x, y);
      TopStep(Views(m.stack)[..n], x, y);
      assert Views(m.stack)[..n][..n - 1] == Views(m.stack)[..n - 1];
    } else {
      TopStep(Views(m.stack)[..0], x, y);
    }
  }

  lemma TopStep(s: seq<LayerView>, x: int, y: int)
    ensures s == [] ==> Top(s, x, y) == None
    ensures s != [] ==>
      var show := s[|s| - 1].Show(x, y);
      Top(s, x, y) == if show.Some? then show else Top(s[..|s| - 1], x, y)
  {
  }

  lemma {:induction false} FreshShowsDeep(w: World, m: LayerManager, l: Layer, x: int, y: int)
    requires w.Wired() && m in w.managers && l in m.stack && l in w.layers && l.fb.Valid() && w.AllFresh(w.managers)
    ensures l.View().Show(x, y) == DeepShow(w, m, l, x, y)
    decreases Below(w, m), 0
  {
    hide PictureOf, World.Wired, World.AllFresh, Top, DeepTop;
    PictureOfShape(l.fb);
    if l.child != null {
      ChildIsBelow(w, m, l);
      var c, cx, cy := l.child, x - l.pos.x, y - l.pos.y;
      GroupIsFresh(w, l);
      FreshIsDeep(w, c, |c.stack|, cx, cy);
      assert Views(c.stack)[..|c.stack|] == Views(c.stack);
    }
  }

  lemma GroupIsFresh(w: World, l: Layer)
    requires w.Wired() && l in w.layers && l.child != null && l.child in w.managers && w.AllFresh(w.managers)
    ensures l.child.Ready() && l.fb.Valid() && Consistent(Views(l.child.stack), l.fb.Picture())
  {
    hide PictureOf, Views, Consistent;
    assert w.WiredLayer(l) && w.FreshIn(l.child);
    WiringOf(w, l.child);
  }

  /** The screen, front and back, is the recursive composition of all layers, at any depth. */
  lemma ScreenIsDeepComposition(w: World, x: int, y: int)
    requires w.Wired() && w.AllFresh(w.managers) && w.root in w.managers && w.root.buffer != null && w.root.Ready()
    requires 0 <= x < w.root.buffer.width && 0 <= y < w.root.buffer.height
    requires DeepTop(w, w.root, |w.root.stack|, x, y).Some?
    ensures w.root.buffer.Picture().At(x, y) == DeepTop(w, w.root, |w.root.stack|, x, y).value
    ensures w.root.Target().Picture().At(x, y) == DeepTop(w, w.root, |w.root.stack|, x, y).value
  {
    hide PictureOf, Views, DeepTop;
    var m := w.root;
    assert w.FreshIn(m);
    FreshIsDeep(w, m, |m.stack|, x, y);
    assert Views(m.stack)[..|m.stack|] == Views(m.stack);
    PictureOfShape(m.buffer);
    if m.double { PictureOfShape(m.back); }
    assert m.Target().Picture().Has(x, y);
  }

  /** The bottom layer of the root is opaque and covers the screen. */
  ghost predicate HasBackground(w: World)
    reads w.root, w.root.stack
  {
    && w.root.buffer != null && w.root.stack != [] && w.root.stack[0].transparent.None?
    && w.root.stack[0].ManagerArea().Includes(Rect(0, 0, w.root.buffer.width, w.root.buffer.height))
  }

  /** Over an opaque background the screen, front and back, is what painting every layer bottom to
      top gives, over whatever was there before, */
  lemma ScreenIsFullPaint(w: World, base: Picture)
    requires w.Wired() && w.root in w.managers && w.AllFresh({w.root}) && w.root.Ready() && HasBackground(w)
    requires base.Rectangular() && base.width == w.root.buffer.width && base.height == w.root.buffer.height
    ensures w.root.buffer.Picture() == w.root.Target().Picture() == Paint(Views(w.root.stack), base)
  {
    hide PictureOf, Paint, Consistent;
    var m := w.root;
    assert w.FreshIn(m);
    PictureOfShape(m.buffer);
    if m.double { PictureOfShape(m.back); }
    BackgroundCovers(w);
    CoveredIsFullPaint(Views(m.stack), m.Target().Picture(), base);
  }

  /** and every one of its pixels is that of the recursive composition. */
  lemma ScreenIsFullComposition(w: World, x: int, y: int)
    requires w.Wired() && w.AllFresh(w.managers) && w.root in w.managers && w.root.Ready() && HasBackground(w)
    requires 0 <= x < w.root.buffer.width && 0 <= y < w.root.buffer.height
    ensures DeepTop(w, w.root, |w.root.stack|, x, y) == Some(w.root.buffer.Picture().At(x, y))
  {
    hide PictureOf, Views, DeepTop;
    var m := w.root;
    BackgroundCovers(w);
    FreshIsDeep(w, m, |m.stack|, x, y);
    assert Views(m.stack)[..|m.stack|] == Views(m.stack);
    ScreenIsDeepComposition(w, x, y);
  }

  lemma BackgroundCovers(w: World)
    requires w.Wired() && w.root.Ready() && HasBackground(w)
    ensures Covered(Views(w.root.stack), w.root.buffer.width, w.root.buffer.height)
  {
    hide PictureOf, Top;
    PictureOfShape(w.root.stack[0].fb);
    OpaqueBottomCovers(Views(w.root.stack), w.root.buffer.width, w.root.buffer.height);
  }

  // ----- opaque backgrounds everywhere -----

  /** What the lowest n layers of m show at (x, y), computed from plain layers alone. */
  ghost function PlainTop(w: World, m: LayerManager, n: nat, x: int, y: int): Option<Pixel>
    requires w.Wired() && m in w.managers && n <= |m.stack|
    reads w.managers, w.layers, w.Arrays()
    decreases Below(w, m), n
  {
    if n == 0 then None
    else
      InStack(w, m, n - 1);
      var l := m.stack[n - 1];
      var s := PlainShow(w, m, l, x, y);
      if s.Some? then s else PlainTop(w, m, n - 1, x, y)
  }

  ghost function PlainShow(w: World, m: LayerManager, l: Layer, x: int, y: int): Option<Pixel>
    requires w.Wired() && m in w.managers && l in m.stack && l in w.layers && l.fb.Valid()
    reads w.managers, w.layers, w.Arrays()
    decreases Below(w, m), 0
  {
    if !l.ManagerArea().Contains(x, y) then None
    else
      var px := PlainPixel(w, m, l, x - l.pos.x, y - l.pos.y);
      if KeyPixel(l.fb.format, l.transparent) == Some(px) then None else Some(px)
  }

  /** A group's own buffer is never looked at. */
  ghost function PlainPixel(w: World, m: LayerManager, l: Layer, x: int, y: int): Pixel
    requires w.Wired() && m in w.managers && l in m.stack && l in w.layers && l.fb.Valid()
    reads w.managers, w.layers, w.Arrays()
    decreases Below(w, m), 0, 0
  {
    if l.child == null then l.fb.Picture().At(x, y)
    else
      ChildIsBelow(w, m, l);
      OrElse(PlainTop(w, l.child, |l.child.stack|, x, y), [])
  }

  /** The bottom layer of every manager is opaque and covers the manager's buffer. */
  ghost predicate AllBackgrounds(w: World)
    reads w.managers, w.layers
  {
    forall m :: m in w.managers && m.buffer != null ==>
      && m.stack != [] && m.stack[0] in w.layers && m.stack[0].transparent.None?
      && m.stack[0].ManagerArea().Includes(Rect(0, 0, m.buffer.width, m.buffer.height))
  }

  lemma CoversItsBuffer(w: World, m: LayerManager)
    requires w.Wired() && m in w.managers && m.buffer != null && AllBackgrounds(w)
    ensures m.Ready() && Covered(Views(m.stack), m.buffer.width, m.buffer.height)
  {
    hide PictureOf, Top;
    WiringOf(w, m);
    PictureOfShape(m.stack[0].fb);
    OpaqueBottomCovers(Views(m.stack), m.buffer.width, m.buffer.height);
  }

  lemma {:induction false} PlainIsDeep(w: World, m: LayerManager, n: nat, x: int, y: int)
    requires w.Wired() && m in w.managers && n <= |m.stack| && w.AllFresh(w.managers) && AllBackgrounds(w)
    ensures PlainTop(w, m, n, x, y) == DeepTop(w, m, n, x, y)
    decreases Below(w, m), n
  {
    hide PictureOf, DeepShow, PlainShow, Consistent, World.Wired, World.AllFresh, AllBackgrounds;
    if n > 0 {
      InStack(w, m, n - 1);
      PlainIsDeep(w, m, n - 1, x, y);
      PlainShowsDeep(w, m, m.stack[n - 1], x, y);
    }
  }

  lemma {:induction false} PlainShowsDeep(w: World, m: LayerManager, l: Layer, x: int, y: int)
    requires w.Wired() && m in w.managers && l in m.stack && l in w.layers && l.fb.Valid() && w.AllFresh(w.managers)
    requires AllBackgrounds(w)
    ensures PlainShow(w, m, l, x, y) == DeepShow(w, m, l, x, y)
    decreases Below(w, m), 0
  {
    hide PictureOf, Consistent, World.Wired, World.AllFresh, AllBackgrounds, PlainTop, DeepTop, Top;
    if l.child != null && l.ManagerArea().Contains(x, y) {
      ChildIsBelow(w, m, l);
      var c, cx, cy := l.child, x - l.pos.x, y - l.pos.y;
      PlainIsDeep(w, c, |c.stack|, cx, cy);
      GroupIsFresh(w, l);
      FreshIsDeep(w, c, |c.stack|, cx, cy);
      assert Views(c.stack)[..|c.stack|] == Views(c.stack);
      GroupBuffer(w, l);
      CoversItsBuffer(w, c);
    }
  }

  lemma GroupBuffer(w: World, l: Layer)
    requires w.Wired() && l in w.layers && l.child != null
    ensures l.child in w.managers && l.child.buffer == l.fb
  {
    assert w.WiredLayer(l);
  }

  /** Then every screen pixel is a function of the plain layers' pixels, at whatever depth they are. */
  lemma ScreenIsPlainComposition(w: World, x: int, y: int)
    requires w.Wired() && w.AllFresh(w.managers) && w.root in w.managers && w.root.Ready() && AllBackgrounds(w)
    requires w.root.buffer != null && 0 <= x < w.root.buffer.width && 0 <= y < w.root.buffer.height
    ensures PlainTop(w, w.root, |w.root.stack|, x, y) == Some(w.root.buffer.Picture().At(x, y))
    ensures PlainTop(w, w.root, |w.root.stack|, x, y) == Some(w.root.Target().Picture().At(x, y))
  {
    hide PictureOf, Views, DeepTop, PlainTop, Top;
    var m := w.root;
    CoversItsBuffer(w, m);
    FreshIsDeep(w, m, |m.stack|, x, y);
    assert Views(m.stack)[..|m.stack|] == Views(m.stack);
    PlainIsDeep(w, m, |m.stack|, x, y);
    ScreenIsDeepComposition(w, x, y);
  }
}
