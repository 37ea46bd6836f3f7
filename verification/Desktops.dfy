/**
 * initialize_graphics in kernel/graphics/graphics.cpp: the desktop is built, shown and drawn. What the
 * windows and the mouse cursor look like is not modelled.
 */
module Desktops {
  import opened Geometry
  import opened Composition
  import opened Options
  import opened Seqs
  import opened StackEdits
  import opened FrameBuffers
  import opened ColourKeys
  import opened Layers
  import opened NestedComposition
  import opened Painters
  import opened Drawings
  import S = Sessions

  /** The pictures of the plain layers. */
  type Pictures = map<Layer?, Picture>

  /** Everything is wired and shows what it should, and each plain layer has its picture. */
  ghost predicate Settled(w: World, pics: Pictures)
    reads w.root, w.managers, w.layers, w.Arrays()
  {
    w.Wired() && w.Sound() && w.AllFresh(w.managers) && Pictured(w, pics)
  }

  ghost predicate Pictured(w: World, pics: Pictures)
    reads set l | l in w.layers :: l.fb.bytes
  {
    forall l :: l in w.layers && l.child == null ==> l in pics && l.fb.Valid() && l.fb.Picture() == pics[l]
  }

  /** The root manager, still without layers and without a screen. */
  method NewRoot(format: PixelFormat) returns (root: LayerManager, ghost w: World)
    ensures fresh(root) && w == World(root, {root}, {}) && Settled(w, map[]) && w.Arrays() == {}
    ensures root.format == format && root.double && root.stack == [] && root.buffer == null
  {
    root := new LayerManager(format, true, 0);
    w := World(root, {root}, {});
  }

  /** A plain layer of that manager, at that place, without a transparent colour. */
  ghost predicate PlainAt(l: Layer, m: LayerManager, area: Rect)
    reads l
  {
    l.manager == m && l.child == null && l.transparent == None && l.ManagerArea() == area
  }

  /** new_layer and move. */
  method AddLayer(ghost w: World, ghost pics: Pictures, m: LayerManager, width: nat, height: nat, pos: Vec)
    returns (l: Layer, ghost w': World)
    requires Settled(w, pics) && m in w.managers
    modifies m`layers, m`latestId, w.Arrays()
    ensures fresh(l) && fresh(l.fb.bytes)
    ensures PlainAt(l, m, Rect(pos.x, pos.y, pos.x + width, pos.y + height))
    ensures w' == w.(layers := w.layers + {l}) && Settled(w', pics[l := Zeros(width, height)]) && l !in m.stack
    ensures w'.Arrays() == old(w.Arrays()) + {l.fb.bytes} && l.fb.format == m.format
    ensures l.fb.width == width && l.fb.height == height
  {
    hide World.Wired, World.Sound, World.AllFresh, World.Arrays, LayerManager.OwnArrays, PictureOf, Zeros;
    NotShown(w, m);
    l, w' := m.NewBufferLayer(w, w.managers, width, height);
    ArraysGrow(w, w', l);
    l.Move(w', w'.managers, pos);
  }

  lemma ArraysGrow(w: World, w': World, l: Layer)
    requires w'.root == w.root && w'.layers == w.layers + {l}
    ensures w'.Arrays() == w.Arrays() + {l.fb.bytes}
  {
    hide LayerManager.OwnArrays;
  }

  lemma NotShown(w: World, m: LayerManager)
    requires w.Wired() && m in w.managers
    ensures forall k :: k in m.stack ==> k in w.layers
  {
    assert w.WiredManager(m);
  }

  /** up_down of a hidden layer. */
  method ShowLayer(ghost w: World, ghost pics: Pictures, l: Layer, height: nat)
    requires Settled(w, pics) && l in w.layers && l !in l.manager.stack
    modifies l.manager`stack, w.Arrays()
    ensures w.Arrays() == old(w.Arrays())
    ensures Settled(w, pics) && l.manager.stack == With(old(l.manager.stack), MinInt(height, |old(l.manager.stack)|), l)
  {
    hide World.Wired, World.Sound, World.AllFresh, World.FreshIn, HiddenUnseen, LoweredUnseen, Views, With, Without;
    GroupInStack(w, l);
    var m := l.manager;
    OneLayerPerId(m, l, m.FindLayer(l.id));
    m.UpDown(w, w.managers, l.id, height);
  }

  /** set_transparent_color on a layer of a manager that has no buffer yet. */
  method SetKeyOffScreen(ghost w: World, ghost pics: Pictures, l: Layer, key: Option<Color>)
    requires Settled(w, pics) && l in w.layers && l.manager.buffer == null
    modifies l`transparent
    ensures Settled(w, pics) && l.transparent == key && w.Arrays() == old(w.Arrays())
  {
    hide World.Wired, World.Sound;
    l.SetTransparentColor(w, w.managers, key);
    GroupInStack(w, l);
    NoBufferIsFresh(w, l.manager);
  }

  lemma NoBufferIsFresh(w: World, m: LayerManager)
    requires w.Wired() && m in w.managers && m.buffer == null && w.AllFresh(w.managers - {m})
    ensures w.AllFresh(w.managers)
  {
    hide World.WiredManager, World.WiredLayer;
    forall o | o in w.managers ensures w.FreshIn(o) {
      if o != m { assert o in w.managers - {m}; } else { WiringOf(w, m); }
    }
  }

  /** An empty group of that manager. */
  ghost predicate GroupAt(l: Layer, m: LayerManager, area: Rect)
    reads l, l.child
  {
    && l.manager == m && l.child != null && l.transparent == None && l.ManagerArea() == area
    && l.child.stack == [] && l.child.format == m.format
  }

  /** new_layer<GroupLayer> and move. */
  method AddGroup(ghost w: World, ghost pics: Pictures, m: LayerManager, width: nat, height: nat, pos: Vec)
    returns (l: Layer, ghost w': World)
    requires Settled(w, pics) && m in w.managers
    modifies m`layers, m`latestId, w.Arrays()
    ensures GroupAt(l, m, Rect(pos.x, pos.y, pos.x + width, pos.y + height))
    ensures fresh(l) && fresh(l.fb.bytes) && fresh(l.child)
    ensures w' == World(w.root, w.managers + {l.child}, w.layers + {l}) && Settled(w', pics) && l !in m.stack
    ensures w'.Arrays() == old(w.Arrays()) + {l.fb.bytes}
  {
    hide World.Wired, World.Sound, World.AllFresh, World.Arrays, LayerManager.OwnArrays, PictureOf;
    NotShown(w, m);
    l, w' := m.NewGroupLayer(w, w.managers, width, height);
    ArraysGrow(w, w', l);
    l.Move(w', w'.managers, pos);
  }

  /** start_paint, the drawing calls, and the painter's end. */
  method PaintOn(ghost w: World, ghost pics: Pictures, l: Layer, font: Font, draws: seq<Draw>)
    requires Settled(w, pics) && l in w.layers && l in pics && l.child == null
    requires forall k :: 0 <= k < |draws| ==> Stays(draws[k], l.fb)
    modifies w.Arrays()
    ensures Settled(w, pics[l := Drawing(draws, font, l.fb.format, pics[l])]) && w.Arrays() == old(w.Arrays())
  {
    hide World.Wired, World.Sound, World.AllFresh, PictureOf, Drawing;
    S.PaintLayer(w, w.managers, l, font, draws);
  }

  /** The picture of a new layer after these calls. */
  ghost function Painted(draws: seq<Draw>, font: Font, f: PixelFormat, width: nat, height: nat): Picture {
    Drawing(draws, font, f, Zeros(width, height))
  }

  /** new_layer, move, and painting. */
  method AddPainted(ghost w: World, ghost pics: Pictures, m: LayerManager, width: nat, height: nat, pos: Vec,
      font: Font, draws: seq<Draw>)
    returns (l: Layer, ghost w': World)
    requires Settled(w, pics) && m in w.managers && forall k :: 0 <= k < |draws| ==> StaysIn(draws[k], width, height)
    modifies m`layers, m`latestId, w.Arrays()
    ensures fresh(l) && fresh(l.fb.bytes)
    ensures PlainAt(l, m, Rect(pos.x, pos.y, pos.x + width, pos.y + height))
    ensures w' == w.(layers := w.layers + {l}) && l !in m.stack
    ensures Settled(w', pics[l := Painted(draws, font, m.format, width, height)])
    ensures w'.Arrays() == old(w.Arrays()) + {l.fb.bytes}
  {
    hide Settled, World.Arrays, Zeros, Drawing, StaysIn;
    l, w' := AddLayer(w, pics, m, width, height, pos);
    PaintOn(w', pics[l := Zeros(width, height)], l, font, draws);
    assert pics[l := Zeros(width, height)][l := Painted(draws, font, m.format, width, height)] ==
      pics[l := Painted(draws, font, m.format, width, height)];
  }

  const GREEN := Color(0x00, 0xff, 0x00)
  const TASK_BAR := Color(1, 8, 17)

  /** The desktop with its task bar, a start button and a red square. */
  function BackgroundDraws(width: nat, height: nat, desktop: Color): seq<Draw> {
    [Filled(Rect(0, 0, width, height - 50), desktop), Filled(Rect(0, height - 50, width, height), TASK_BAR),
     Filled(Rect(0, height - 50, width / 5, height), Color(80, 80, 80)),
     Border(Rect(10, height - 40, 40, height - 10), Color(160, 160, 160)),
     Filled(Rect(500, 500, 600, 600), Color(255, 0, 0))]
  }

  const BACK_DRAWS := [Filled(Rect(0, 0, 500, 500), GREEN)]

  const SQUARE_DRAWS := [
    Filled(Rect(0, 0, 100, 100), Color(0xff, 0x00, 0xff)),
    Filled(Rect(30, 30, 80, 80), Color(0xff, 0xff, 0x00))
  ]

  /** An opaque layer as large as the screen, with the desktop painted on it. */
  ghost predicate IsBackground(l: Layer, pics: Pictures, font: Font, width: nat, height: nat, desktop: Color)
    reads l
  {
    && PlainAt(l, l.manager, Rect(0, 0, width, height))
    && l in pics && pics[l] == Painted(BackgroundDraws(width, height, desktop), font, l.manager.format, width, height)
  }

  /** A group with a square, through whose transparent colour everything else behind is seen. */
  ghost predicate ShowsSquare(group: Layer, pics: Pictures, font: Font)
    reads group, group.child, if group.child == null then {} else set k | k in group.child.stack
  {
    && group.child != null && |group.child.stack| == 2 && group.transparent == Some(GREEN)
    && group.ManagerArea() == Rect(0, 0, 500, 500)
    && var back, square := group.child.stack[0], group.child.stack[1];
    && PlainAt(back, group.child, Rect(0, 0, 500, 500)) && PlainAt(square, group.child, Rect(10, 10, 110, 110))
    && back in pics && pics[back] == Painted(BACK_DRAWS, font, group.child.format, 500, 500)
    && square in pics && pics[square] == Painted(SQUARE_DRAWS, font, group.child.format, 100, 100)
  }

  /** The two layers of the group, painted but not yet stacked, and the group's transparent colour. */
  method CreatePair(ghost w: World, ghost pics: Pictures, group: Layer, font: Font)
    returns (back: Layer, square: Layer, ghost w': World)
    requires Settled(w, pics) && group in w.layers && group.child != null && group.child in w.managers
    requires group.manager.buffer == null
    modifies group`transparent, group.child`layers, group.child`latestId, w.Arrays()
    ensures w' == w.(layers := w.layers + {back} + {square}) && fresh(back) && fresh(square)
    ensures w'.Arrays() == old(w.Arrays()) + {back.fb.bytes} + {square.fb.bytes}
    ensures fresh(back.fb.bytes) && fresh(square.fb.bytes) && group.transparent == Some(GREEN) && back != square
    ensures PlainAt(back, group.child, Rect(0, 0, 500, 500)) && PlainAt(square, group.child, Rect(10, 10, 110, 110))
    ensures Settled(w', pics[back := Painted(BACK_DRAWS, font, group.child.format, 500, 500)][
      square := Painted(SQUARE_DRAWS, font, group.child.format, 100, 100)])
  {
    hide Settled, World.Arrays, Drawing, Zeros;
    var m := group.child;
    back, w' := AddLayer(w, pics, m, 500, 500, Vec(0, 0));
    ghost var blank, full := pics[back := Zeros(500, 500)], Painted(BACK_DRAWS, font, m.format, 500, 500);
    SetKeyOffScreen(w', blank, group, Some(GREEN));
    assert blank[back := full] == pics[back := full] && full == Drawing(BACK_DRAWS, font, m.format, Zeros(500, 500));
    PaintOn(w', blank, back, font, BACK_DRAWS);
    square, w' := AddPainted(w', pics[back := full], m, 100, 100, Vec(10, 10), font, SQUARE_DRAWS);
  }

  /** The inner manager of the group: an opaque background as large as the group, in the key colour all
      over, and a square in front of it. */
  method FillGroup(ghost w: World, ghost pics: Pictures, group: Layer, font: Font)
    returns (back: Layer, square: Layer, ghost w': World, ghost pics': Pictures)
    requires Settled(w, pics) && group in w.layers && group.child != null && group.child in w.managers
    requires group.child.stack == []
    requires group.manager.buffer == null && group.ManagerArea() == Rect(0, 0, 500, 500)
    modifies group`transparent, group.child`layers, group.child`latestId, group.child`stack, w.Arrays()
    ensures w' == w.(layers := w.layers + {back} + {square}) && fresh(back) && fresh(square)
    ensures w'.Arrays() == old(w.Arrays()) + {back.fb.bytes} + {square.fb.bytes}
    ensures fresh(back.fb.bytes) && fresh(square.fb.bytes)
    ensures forall l :: l in pics && l != back && l != square ==> l in pics' && pics'[l] == pics[l]
    ensures group.child.stack == [back, square] && ShowsSquare(group, pics', font) && Settled(w', pics')
  {
    hide Settled, World.Arrays, Drawing, Zeros;
    back, square, w' := CreatePair(w, pics, group, font);
    pics' := pics[back := Painted(BACK_DRAWS, font, group.child.format, 500, 500)][
      square := Painted(SQUARE_DRAWS, font, group.child.format, 100, 100)];
    ShowLayer(w', pics', back, 0);
    ShowLayer(w', pics', square, 1);
  }

  /** set_buffer and draw: the prepared layers appear on the screen. */
  method ShowDesktop(ghost w: World, ghost pics: Pictures, root: LayerManager, screen: FrameBuffer)
    requires Settled(w, pics) && root == w.root && screen.Valid() && screen.format == root.format
    requires root.buffer == null && forall l :: l in w.layers ==> l.fb.bytes != screen.bytes
    modifies root`buffer, root`back, screen.bytes
    ensures Settled(w, pics) && root.buffer == screen
  {
    hide World.Wired, World.AllFresh, Views, Paint, PictureOf, Consistent;
    RootIsManager(w);
    WiringOf(w, root);
    SomeFresh(w, w.managers, w.managers - {root});
    root.SetBuffer(w, w.managers, screen);
    root.Draw(w, w.managers - {root});
    assert w.managers - {root} - ParentOf(root) + {root} == w.managers;
  }

  lemma RootIsManager(w: World)
    requires w.Wired()
    ensures w.root in w.managers && w.root.parent == null
  {
  }

  /** Hidden layers of one manager, all different. */
  ghost predicate Lined(w: World, m: LayerManager, ls: seq<Layer>) {
    && (forall i :: 0 <= i < |ls| ==> ls[i] in w.layers && ls[i].manager == m)
    && (forall i, j :: 0 <= i < j < |ls| ==> ls[i] != ls[j])
  }

  method CreateBackground(root: LayerManager, width: nat, height: nat, font: Font, desktop: Color, ghost start: World)
    returns (l: Layer, ghost w: World)
    requires width >= 600 && height >= 600
    requires start == World(root, {root}, {}) && Settled(start, map[]) && start.Arrays() == {}
    modifies root`layers, root`latestId
    ensures Settled(w, map[l := Painted(BackgroundDraws(width, height, desktop), font, root.format, width, height)])
    ensures w == start.(layers := {l}) && fresh(w.Arrays()) && fresh(l) && PlainAt(l, root, Rect(0, 0, width, height))
  {
    hide Settled, World.Arrays, Painted;
    l, w := AddPainted(start, map[], root, width, height, Vec(0, 0), font, BackgroundDraws(width, height, desktop));
  }

  /** The two layers at the back: the desktop and the console. */
  method CreateBack(root: LayerManager, width: nat, height: nat, font: Font, desktop: Color, ghost start: World)
    returns (background: Layer, console: Layer, ghost w: World)
    requires width >= 600 && height >= 600
    requires start == World(root, {root}, {}) && Settled(start, map[]) && start.Arrays() == {}
    modifies root`layers, root`latestId
    ensures Settled(w, map[background :=
      Painted(BackgroundDraws(width, height, desktop), font, root.format, width, height)][console := Zeros(640, 400)])
    ensures w == start.(layers := {background, console}) && fresh(w.Arrays()) && background != console
    ensures fresh(background) && PlainAt(background, root, Rect(0, 0, width, height))
    ensures fresh(console) && PlainAt(console, root, Rect(200, 150, 840, 550))
    ensures console.fb.width == 640 && console.fb.height == 400
  {
    hide Settled, World.Arrays, Painted, Zeros;
    background, w := CreateBackground(root, width, height, font, desktop, start);
    ghost var pics: Pictures :=
      map[background := Painted(BackgroundDraws(width, height, desktop), font, root.format, width, height)];
    console, w := AddLayer(w, pics, root, 640, 400, Vec(200, 150));
  }

  /** The mouse cursor and the group. */
  method CreateGroup(ghost w: World, ghost pics: Pictures, root: LayerManager)
    returns (mouse: Layer, group: Layer, ghost w': World)
    requires Settled(w, pics) && root == w.root && root in w.managers
    modifies root`layers, root`latestId, w.Arrays()
    ensures GroupAt(group, root, Rect(0, 0, 500, 500)) && PlainAt(mouse, root, Rect(200, 200, 215, 224))
    ensures w' == w.Plus(mouse).Plus(group)
    ensures w'.Arrays() == old(w.Arrays()) + {mouse.fb.bytes} + {group.fb.bytes}
    ensures fresh(mouse) && fresh(group) && mouse != group && fresh(mouse.fb.bytes) && fresh(group.fb.bytes)
    ensures fresh(group.child)
    ensures Settled(w', pics[mouse := Zeros(15, 24)])
  {
    hide Settled, World.Arrays, Zeros;
    mouse, w' := AddLayer(w, pics, root, 15, 24, Vec(200, 200));
    group, w' := AddGroup(w', pics[mouse := Zeros(15, 24)], root, 500, 500, Vec(0, 0));
  }

  /** The three layers in front. */
  method CreateFront(ghost w: World, ghost pics: Pictures, root: LayerManager)
    returns (mouse: Layer, group: Layer, window: Layer, ghost w': World)
    requires Settled(w, pics) && root == w.root && root in w.managers
    modifies root`layers, root`latestId, w.Arrays()
    ensures GroupAt(group, root, Rect(0, 0, 500, 500)) && PlainAt(mouse, root, Rect(200, 200, 215, 224))
    ensures PlainAt(window, root, Rect(300, 300, 460, 368)) && fresh(group.child) && fresh({mouse, group, window})
    ensures w' == w.Plus(mouse).Plus(group).Plus(window)
    ensures fresh({mouse.fb.bytes} + {group.fb.bytes} + {window.fb.bytes}) && window != mouse
    ensures w'.Arrays() == old(w.Arrays()) + {mouse.fb.bytes} + {group.fb.bytes} + {window.fb.bytes}
    ensures Settled(w', pics[mouse := Zeros(15, 24)][window := Zeros(160, 68)])
  {
    hide Settled, World.Arrays, Zeros;
    mouse, group, w' := CreateGroup(w, pics, root);
    window, w' := AddLayer(w', pics[mouse := Zeros(15, 24)], root, 160, 68, Vec(300, 300));
  }

  /** A group of 500 x 500 pixels whose manager is the only inner one. */
  ghost predicate OnlyGroup(w: World, group: Layer) {
    && group in w.layers && group.child != null && w.managers == {w.root, group.child} && group.child != w.root
    && group.fb.width == 500 && group.fb.height == 500
  }

  /** Console, window and cursor are plain layers at their places; the group is the third of the five. */
  ghost predicate Placed(ls: seq<Layer>, root: LayerManager)
    reads if |ls| == 5 then {ls[1], ls[3], ls[4]} else {}
  {
    && |ls| == 5 && PlainAt(ls[1], root, Rect(200, 150, 840, 550)) && PlainAt(ls[3], root, Rect(300, 300, 460, 368))
    && PlainAt(ls[4], root, Rect(200, 200, 215, 224))
  }

  /** The five layers of the desktop, back to front, not yet shown. */
  method CreateLayers(root: LayerManager, width: nat, height: nat, font: Font, desktop: Color, ghost start: World)
    returns (ls: seq<Layer>, group: Layer, ghost w: World, ghost pics: Pictures)
    requires width >= 600 && height >= 600
    requires start == World(root, {root}, {}) && Settled(start, map[]) && start.Arrays() == {}
    modifies root`layers, root`latestId
    ensures Settled(w, pics) && w.root == root && fresh(w.Arrays())
    ensures Lined(w, root, ls) && |ls| == 5 && Placed(ls, root)
    ensures IsBackground(ls[0], pics, font, width, height, desktop)
    ensures ls[1].child == null && ls[1].fb.width == 640 && ls[1].fb.height == 400
    ensures OnlyGroup(w, group) && group == ls[2] && fresh(group) && fresh(group.child) && group.child.stack == []
    ensures group.child.format == root.format && group.ManagerArea() == Rect(0, 0, 500, 500)
  {
    hide Settled, World.Arrays, Lined, Painted, Zeros, OnlyGroup, IsBackground, World.Plus;
    var background, console, window, mouse;
    background, console, w := CreateBack(root, width, height, font, desktop, start);
    ghost var behind := w.Arrays();
    pics := map[background := Painted(BackgroundDraws(width, height, desktop), font, root.format, width, height)][
      console := Zeros(640, 400)];
    mouse, group, window, w := CreateFront(w, pics, root);
    pics := pics[mouse := Zeros(15, 24)][window := Zeros(160, 68)];
    assert w.Arrays() == behind + {mouse.fb.bytes} + {group.fb.bytes} + {window.fb.bytes};
    ls := [background, console, group, window, mouse];
    FiveLined(root, background, console, group, window, mouse);
    BackgroundIs(root, background, pics, font, width, height, desktop);
  }

  lemma BackgroundIs(root: LayerManager, l: Layer, pics: Pictures, font: Font, width: nat, height: nat, desktop: Color)
    requires PlainAt(l, root, Rect(0, 0, width, height)) && l in pics
    requires pics[l] == Painted(BackgroundDraws(width, height, desktop), font, root.format, width, height)
    ensures IsBackground(l, pics, font, width, height, desktop)
  {
  }

  /** Three layers are created in front of two. */
  lemma FiveLined(root: LayerManager, a: Layer, b: Layer, group: Layer, window: Layer, mouse: Layer)
    requires a.manager == root && b.manager == root && mouse.manager == root && window.manager == root && a != b
    requires mouse !in {a, b} && group !in {a, b, mouse} && window !in {a, b, mouse, group}
    requires window.child == null && mouse.child == null && group.child != root
    requires GroupAt(group, root, Rect(0, 0, 500, 500))
    ensures var w := World(root, {root}, {a, b}).Plus(mouse).Plus(group).Plus(window);
      Lined(w, root, [a, b, group, window, mouse]) && OnlyGroup(w, group) && w.root == root
  {
    hide Lined, OnlyGroup;
    InOneLine(World(root, {root}, {a, b}).Plus(mouse).Plus(group).Plus(window), root, a, b, group, window, mouse);
    OneGroup(root, {a, b, mouse}, group, window);
    assert {a, b} + {mouse} == {a, b, mouse};
  }

  lemma InOneLine(w: World, m: LayerManager, a: Layer, b: Layer, c: Layer, d: Layer, e: Layer)
    requires a in w.layers && b in w.layers && c in w.layers && d in w.layers && e in w.layers
    requires a.manager == m && b.manager == m && c.manager == m && d.manager == m && e.manager == m
    requires a != b && c !in {a, b} && d !in {a, b, c} && e !in {a, b, c, d}
    ensures Lined(w, m, [a, b, c, d, e])
  {
  }

  lemma OneGroup(root: LayerManager, layers: set<Layer>, group: Layer, window: Layer)
    requires window.child == null && GroupAt(group, root, Rect(0, 0, 500, 500)) && group.child != root
    ensures OnlyGroup(World(root, {root}, layers).Plus(group).Plus(window), group)
  {
    assert World(root, {root}, layers).Plus(group).managers == {root} + {group.child} == {root, group.child};
  }

  /** One up_down after the other stacks them in order. */
  method ShowAll(ghost w: World, ghost pics: Pictures, root: LayerManager, ls: seq<Layer>)
    requires Settled(w, pics) && Lined(w, root, ls) && root.stack == []
    modifies root`stack, w.Arrays()
    ensures Settled(w, pics) && root.stack == ls && w.Arrays() == old(w.Arrays())
  {
    hide Settled, World.Arrays;
    for i := 0 to |ls|
      invariant Settled(w, pics) && root.stack == ls[..i] && w.Arrays() == old(w.Arrays())
    {
      ShowLayer(w, pics, ls[i], i);
      assert With(ls[..i], i, ls[i]) == ls[..i + 1];
    }
    assert ls[..|ls|] == ls;
  }

  /** The prepared layers are stacked and shown: every pixel of the screen is that of the plain layers. */
  method PutOnScreen(ghost w: World, ghost pics: Pictures, root: LayerManager, screen: FrameBuffer, ls: seq<Layer>,
      ghost group: Layer)
    requires Settled(w, pics) && w.root == root && root.buffer == null && root.stack == [] && Lined(w, root, ls)
    requires screen.Valid() && screen.format == root.format && screen.bytes !in w.Arrays()
    requires ls != [] && ls[0].transparent == None && ls[0].ManagerArea() == Rect(0, 0, screen.width, screen.height)
    requires OnlyGroup(w, group) && group.child.stack != [] && group.child.stack[0].transparent == None
    requires group.child.stack[0].ManagerArea() == Rect(0, 0, 500, 500)
    modifies root`stack, root`buffer, root`back, screen.bytes, w.Arrays()
    ensures Settled(w, pics) && root.buffer == screen && root.stack == ls
    ensures AllBackgrounds(w) && S.ShowsPlainLayers(w)
  {
    hide Settled, World.Arrays, S.ShowsPlainLayers, AllBackgrounds, OnlyGroup, Lined;
    OnlyGroupIs(w, group);
    ShowAll(w, pics, root, ls);
    BytesAreArrays(w);
    ShowDesktop(w, pics, root, screen);
    BothHaveBackgrounds(w, pics, group);
    EachPixelShows(w, pics);
  }

  /** All layers are created and painted, those of the group are stacked. */
  method Prepare(format: PixelFormat, width: nat, height: nat, font: Font, desktop: Color)
    returns (root: LayerManager, ls: seq<Layer>, group: Layer, ghost w: World, ghost pics: Pictures)
    requires width >= 600 && height >= 600
    ensures fresh(root) && root.format == format && root.buffer == null && root.stack == []
    ensures Settled(w, pics) && w.root == root && fresh(w.Arrays())
    ensures Lined(w, root, ls) && |ls| == 5 && Placed(ls, root)
    ensures IsBackground(ls[0], pics, font, width, height, desktop)
    ensures ls[1].child == null && ls[1].fb.width == 640 && ls[1].fb.height == 400
    ensures OnlyGroup(w, group) && group == ls[2] && ShowsSquare(group, pics, font)
  {
    hide Settled, World.Arrays, OnlyGroup, Lined, Painted, ShowsSquare, Placed;
    root, w := NewRoot(format);
    ls, group, w, pics := CreateLayers(root, width, height, font, desktop, w);
    OnlyGroupIs(w, group);
    InLine(w, root, ls, 2);
    ghost var outer, arrays := w, w.Arrays();
    var back, square;
    back, square, w, pics := FillGroup(w, pics, group, font);
    LinedMore(outer, w, root, ls);
    OnlyGroupMore(outer, w, group);
    assert w.Arrays() == arrays + {back.fb.bytes} + {square.fb.bytes};
  }

  /** initialize_graphics: whatever was on the screen, afterwards each of its pixels is that of the
      recursive composition of the plain layers, among them the painted background and the square. */
  method InitializeGraphics(screen: FrameBuffer, font: Font, desktop: Color)
    returns (root: LayerManager, console: Layer, ghost w: World, ghost pics: Pictures)
    requires screen.Valid() && screen.width >= 600 && screen.height >= 600
    modifies screen.bytes
    ensures fresh(root) && Settled(w, pics) && w.root == root && root.buffer == screen && Placed(root.stack, root)
    ensures console == root.stack[1] && console in w.layers && console.fb.width == 640 && console.fb.height == 400
    ensures AllBackgrounds(w) && S.ShowsPlainLayers(w)
    ensures IsBackground(root.stack[0], pics, font, screen.width, screen.height, desktop)
    ensures ShowsSquare(root.stack[2], pics, font)
  {
    hide Settled, World.Arrays, S.ShowsPlainLayers, AllBackgrounds, OnlyGroup, Lined, Painted;
    var ls, group;
    root, ls, group, w, pics := Prepare(screen.format, screen.width, screen.height, font, desktop);
    OnlyGroupIs(w, group);
    InLine(w, root, ls, 1);
    PutOnScreen(w, pics, root, screen, ls, group);
    console := ls[1];
  }

  lemma OnlyGroupIs(w: World, group: Layer)
    requires OnlyGroup(w, group)
    ensures group in w.layers && group.child != null && group.child in w.managers && group.child != w.root
  {
  }

  lemma OnlyGroupMore(w: World, w': World, group: Layer)
    requires OnlyGroup(w, group) && w'.root == w.root && w'.managers == w.managers && w.layers <= w'.layers
    ensures OnlyGroup(w', group)
  {
  }

  lemma InLine(w: World, m: LayerManager, ls: seq<Layer>, k: nat)
    requires Lined(w, m, ls) && k < |ls|
    ensures ls[k] in w.layers && ls[k].manager == m
  {
  }

  lemma LinedMore(w: World, w': World, m: LayerManager, ls: seq<Layer>)
    requires Lined(w, m, ls) && w.layers <= w'.layers
    ensures Lined(w', m, ls)
  {
  }

  lemma BytesAreArrays(w: World)
    ensures forall l :: l in w.layers ==> l.fb.bytes in w.Arrays()
  {
  }

  lemma BothHaveBackgrounds(w: World, pics: Pictures, group: Layer)
    requires Settled(w, pics) && HasBackground(w) && OnlyGroup(w, group)
    requires group.child.stack != [] && group.child.stack[0].transparent == None
    requires group.child.stack[0].ManagerArea() == Rect(0, 0, 500, 500)
    ensures AllBackgrounds(w)
  {
    hide World.AllFresh, World.Sound, World.WiredLayer, World.WiredManager;
    GroupBuffer(w, group);
    NotShown(w, w.root);
    NotShown(w, group.child);
  }

  lemma EachPixelShows(w: World, pics: Pictures)
    requires Settled(w, pics) && AllBackgrounds(w) && w.root.buffer != null
    ensures S.ShowsPlainLayers(w)
  {
    hide World.Wired, World.AllFresh, World.Sound, AllBackgrounds, S.ShowsPlainLayers;
    S.AllFreshShows(S.Known(w, w.Arrays(), w.managers));
  }

  // ----- what is seen -----

  const MAGENTA := Color(0xff, 0x00, 0xff)
  const YELLOW := Color(0xff, 0xff, 0x00)

  /** The colour of the background at (x, y). */
  function DesktopColor(width: int, height: int, desktop: Color, x: int, y: int): Color {
    if Rect(500, 500, 600, 600).Contains(x, y) then Color(255, 0, 0)
    else if OnEdge(Rect(10, height - 40, 40, height - 10), x, y) then Color(160, 160, 160)
    else if y < height - 50 then desktop
    else if x < width / 5 then Color(80, 80, 80)
    else TASK_BAR
  }

  lemma BackgroundPixel(font: Font, f: PixelFormat, width: nat, height: nat, desktop: Color, x: int, y: int)
    requires width >= 600 && height >= 600 && 0 <= x < width && 0 <= y < height
    ensures Painted(BackgroundDraws(width, height, desktop), font, f, width, height).At(x, y) ==
      Encode(f, DesktopColor(width, height, desktop, x, y))
  {
    hide DrawnOn, Encode, Drawing, MakeRows;
    var draws, zeros := BackgroundDraws(width, height, desktop), Zeros(width, height);
    BuildAt(width, height, (x, y) => [0, 0, 0, 0]);
    DrawSeen(draws, 0, font, f, zeros, x, y);
    DrawSeen(draws, 1, font, f, zeros, x, y);
    DrawSeen(draws, 2, font, f, zeros, x, y);
    DrawSeen(draws, 3, font, f, zeros, x, y);
    DrawSeen(draws, 4, font, f, zeros, x, y);
    assert draws[..5] == draws;
  }

  lemma SquarePixel(font: Font, f: PixelFormat, x: int, y: int)
    requires 0 <= x < 100 && 0 <= y < 100
    ensures Painted(SQUARE_DRAWS, font, f, 100, 100).At(x, y) ==
      Encode(f, if Rect(30, 30, 80, 80).Contains(x, y) then YELLOW else MAGENTA)
  {
    hide DrawnOn, Encode, Drawing, MakeRows;
    BuildAt(100, 100, (x, y) => [0, 0, 0, 0]);
    DrawSeen(SQUARE_DRAWS, 0, font, f, Zeros(100, 100), x, y);
    DrawSeen(SQUARE_DRAWS, 1, font, f, Zeros(100, 100), x, y);
    assert SQUARE_DRAWS[..2] == SQUARE_DRAWS;
  }

  lemma BackPixel(font: Font, f: PixelFormat, x: int, y: int)
    requires 0 <= x < 500 && 0 <= y < 500
    ensures Painted(BACK_DRAWS, font, f, 500, 500).At(x, y) == Encode(f, GREEN)
  {
    hide DrawnOn, Encode, Drawing, MakeRows;
    BuildAt(500, 500, (x, y) => [0, 0, 0, 0]);
    DrawSeen(BACK_DRAWS, 0, font, f, Zeros(500, 500), x, y);
    assert BACK_DRAWS[..1] == BACK_DRAWS;
  }

  /** The group shows its square and nothing else. */
  lemma GroupShowsSquare(w: World, pics: Pictures, group: Layer, font: Font, x: int, y: int)
    requires Settled(w, pics) && ShowsSquare(group, pics, font) && group in w.layers && group in group.manager.stack
    ensures group.manager in w.managers && group.fb.Valid()
    ensures PlainShow(w, group.manager, group, x, y) ==
      if Rect(40, 40, 90, 90).Contains(x, y) then Some(Encode(group.fb.format, YELLOW))
      else if Rect(10, 10, 110, 110).Contains(x, y) then Some(Encode(group.fb.format, MAGENTA))
      else None
  {
    hide PictureOf, World.Wired, World.AllFresh, World.Sound, Painted, PlainTop;
    GroupInStack(w, group);
    ChildIsBelow(w, group.manager, group);
    GroupFormat(w, group);
    if 0 <= x < 500 && 0 <= y < 500 { InnerTop(w, pics, group, font, x, y); }
  }

  lemma GroupFormat(w: World, group: Layer)
    requires w.Wired() && group in w.layers && group.child != null
    ensures group.child in w.managers && group.fb.format == group.child.format && group.child.Ready()
  {
    assert w.WiredLayer(group) && w.WiredManager(group.child);
  }

  /** Inside the group: the square, and the green behind it. */
  lemma InnerTop(w: World, pics: Pictures, group: Layer, font: Font, x: int, y: int)
    requires Settled(w, pics) && ShowsSquare(group, pics, font) && group.child in w.managers
    requires 0 <= x < 500 && 0 <= y < 500
    ensures PlainTop(w, group.child, 2, x, y) == Some(Encode(group.child.format,
      if Rect(40, 40, 90, 90).Contains(x, y) then YELLOW
      else if Rect(10, 10, 110, 110).Contains(x, y) then MAGENTA
      else GREEN))
  {
    hide PictureOf, World.Wired, World.AllFresh, World.Sound, Painted, Encode;
    var m, f := group.child, group.child.format;
    InStack(w, m, 0);
    InStack(w, m, 1);
    BackPixel(font, f, x, y);
    assert PlainPixel(w, m, m.stack[0], x, y) == Encode(f, GREEN);
    assert PlainTop(w, m, 1, x, y) == PlainShow(w, m, m.stack[0], x, y) == Some(Encode(f, GREEN));
    if Rect(10, 10, 110, 110).Contains(x, y) {
      SquarePixel(font, f, x - 10, y - 10);
      assert PlainPixel(w, m, m.stack[1], x - 10, y - 10) ==
        Encode(f, if Rect(40, 40, 90, 90).Contains(x, y) then YELLOW else MAGENTA);
    }
  }

  lemma IsWired(w: World, pics: Pictures)
    requires Settled(w, pics)
    ensures w.Wired()
  {
  }

  lemma StackFormats(w: World)
    requires w.Wired()
    ensures w.root in w.managers && w.root.Ready() && forall k :: 0 <= k < |w.root.stack| ==>
      var l := w.root.stack[k];
      l in w.layers && l.manager == w.root && l.fb.Valid() && l.fb.format == w.root.format
  {
    hide World.WiredLayer;
    assert w.WiredManager(w.root);
  }

  lemma NotInArea(w: World, k: nat, x: int, y: int)
    requires w.Wired() && w.root in w.managers && k < |w.root.stack| && !w.root.stack[k].ManagerArea().Contains(x, y)
    ensures PlainTop(w, w.root, k + 1, x, y) == PlainTop(w, w.root, k, x, y)
  {
    hide World.Wired, PlainPixel;
    InStack(w, w.root, k);
  }

  /** With layers 1, 3 and 4 elsewhere, layer 2 is seen, and layer 0 behind it. */
  lemma TopOfFive(w: World, x: int, y: int)
    requires w.Wired() && w.root in w.managers && |w.root.stack| == 5
    requires forall k :: k == 1 || k == 3 || k == 4 ==> !w.root.stack[k].ManagerArea().Contains(x, y)
    ensures forall k :: 0 <= k < 5 ==> w.root.stack[k] in w.layers && w.root.stack[k].fb.Valid()
    ensures var behind, front :=
        PlainShow(w, w.root, w.root.stack[0], x, y), PlainShow(w, w.root, w.root.stack[2], x, y);
      PlainTop(w, w.root, 5, x, y) == if front.Some? then front else behind
  {
    hide World.Wired, PlainShow;
    forall k | 0 <= k < 5 ensures w.root.stack[k] in w.layers && w.root.stack[k].fb.Valid() { InStack(w, w.root, k); }
    NotInArea(w, 4, x, y);
    NotInArea(w, 3, x, y);
    NotInArea(w, 1, x, y);
    assert PlainTop(w, w.root, 0, x, y) == None;
  }

  lemma BackgroundShown(w: World, pics: Pictures, font: Font, desktop: Color, x: int, y: int)
    requires Settled(w, pics) && w.root in w.managers && |w.root.stack| > 0 && w.root.buffer != null
    requires w.root.buffer.width >= 600 && w.root.buffer.height >= 600
    requires w.root.stack[0] in w.layers && w.root.stack[0].fb.Valid()
    requires IsBackground(w.root.stack[0], pics, font, w.root.buffer.width, w.root.buffer.height, desktop)
    requires 0 <= x < w.root.buffer.width && 0 <= y < w.root.buffer.height
    ensures PlainShow(w, w.root, w.root.stack[0], x, y) ==
      Some(Encode(w.root.format, DesktopColor(w.root.buffer.width, w.root.buffer.height, desktop, x, y)))
  {
    hide PictureOf, World.Wired, World.AllFresh, World.Sound, Painted, Encode, DesktopColor;
    StackFormats(w);
    BackgroundPixel(font, w.root.format, w.root.buffer.width, w.root.buffer.height, desktop, x, y);
  }

  /** After initialize_graphics, outside the console's area, which the window and the mouse cursor lie in,
      the screen shows the square of the group, and elsewhere the desktop. */
  lemma DesktopIsSeen(w: World, pics: Pictures, font: Font, desktop: Color, x: int, y: int)
    requires Settled(w, pics) && AllBackgrounds(w) && S.ShowsPlainLayers(w) && Placed(w.root.stack, w.root)
    requires w.root.buffer.width >= 600 && w.root.buffer.height >= 600
    requires var screen, stack := w.root.buffer, w.root.stack;
      && IsBackground(stack[0], pics, font, screen.width, screen.height, desktop)
      && ShowsSquare(stack[2], pics, font) && 0 <= x < screen.width && 0 <= y < screen.height
      && !Rect(200, 150, 840, 550).Contains(x, y)
    ensures w.root.buffer.Valid()
    ensures w.root.buffer.Picture().At(x, y) == Encode(w.root.format,
      if Rect(40, 40, 90, 90).Contains(x, y) then YELLOW
      else if Rect(10, 10, 110, 110).Contains(x, y) then MAGENTA
      else DesktopColor(w.root.buffer.width, w.root.buffer.height, desktop, x, y))
  {
    hide PictureOf, World.Wired, World.AllFresh, World.Sound, AllBackgrounds, Encode, ShowsSquare, IsBackground,
      PlainShow, PlainTop, DesktopColor, Settled, Layer.ManagerArea;
    assert w.Wired() by { IsWired(w, pics); }
    StackFormats(w);
    GroupShowsSquare(w, pics, w.root.stack[2], font, x, y);
    TopOfFive(w, x, y);
    BackgroundShown(w, pics, font, desktop, x, y);
  }
}
