/**
 * Whole runs of the compositor: layers and groups are created, moved, restacked, painted with any
 * sequence of drawing calls, given transparent colours and redrawn, at any depth and in any order.
 * A session knows which managers are fresh: calls that repaint keep all of them, the others may
 * make one stale until it is drawn again.
 */
module Sessions {
  import opened Geometry
  import opened Composition
  import opened Options
  import opened Seqs
  import opened StackEdits
  import opened FrameBuffers
  import opened ColourKeys
  import opened Layers
  import opened NestedComposition
  import opened Painters
  import opened Drawings
  import opened Scenes
  import opened Depictions

  /** start_paint, the drawing calls, and the painter's end: the layer has the picture the calls map its
      old one to, and what was fresh shows the new pixels. */
  method PaintLayer(ghost w: World, ghost good: set<LayerManager>, layer: Layer, font: Font, draws: seq<Draw>)
    requires w.Wired() && w.Sound() && good <= w.managers && w.AllFresh(good) && layer in w.layers
    requires layer.child == null
    requires forall k :: 0 <= k < |draws| ==> Stays(draws[k], layer.fb)
    modifies w.Arrays()
    ensures w.Wired() && w.Sound() && w.AllFresh(good)
    ensures layer.fb.Valid() && w.KeepsPlain(layer)
    ensures layer.fb.Picture() == Drawing(draws, font, layer.fb.format, old(layer.fb.Picture()))
  {
    hide PictureOf, Cell, Consistent, World.Wired, World.AllFresh, World.FreshIn, World.Sound, ReservedZero,
      Painter.Tracks, Drawing;
    GroupInStack(w, layer);
    assert layer.fb.Valid();
    ghost var before := Views(layer.manager.stack);
    PaintReady(w, good, layer);
    var painter := new Painter(layer);
    DrawMany(painter, font, draws);
    TrackedIsReserved(painter);
    w.PaintingIsLocal(layer);
    OwnMemory(w, layer);
    painter.End(w, good, before);
  }

  lemma OwnMemory(w: World, layer: Layer)
    requires w.Wired() && layer in w.layers
    ensures forall l :: l in w.layers && l != layer ==> l.fb.bytes != layer.fb.bytes
  {
  }

  lemma TrackedIsReserved(p: Painter)
    requires p.Tracks() && ReservedZero(p.start)
    ensures p.layer.fb.Valid() && ReservedZero(p.layer.fb.Picture())
  {
  }

  // ----- sessions -----

  /** Commands after which everything that was fresh still is. */
  predicate Repaints(c: Command) { !c.Restack? && !c.Rekey? && !c.Redraw? }

  /** How they are wired, their pixels, and which managers are known to be fresh. */
  datatype Known = Known(w: World, arrays: set<array<byte>>, good: set<LayerManager>) {
    ghost predicate Holds()
      reads w.root, w.managers, w.layers, arrays
    {
      arrays == w.Arrays() && w.Wired() && w.Sound() && good <= w.managers && w.AllFresh(good)
    }
  }

  ghost predicate Describes(k: Known, d: Desk)
    reads d.managers`parent
  {
    && k.w.managers == (set m | m in d.managers) && k.w.layers == (set l | l in d.layers) && k.good <= k.w.managers
    && |d.managers| >= 1 && d.managers[0] == d.root == k.w.root && Ordered(d.managers)
    && Distinct(d.managers)
  }

  /** A group's manager is created after the manager of the group. */
  ghost predicate Ordered(managers: seq<LayerManager>)
    reads managers`parent
  {
    forall i :: 0 <= i < |managers| && managers[i].parent != null ==> managers[i].parent.manager in managers[..i]
  }

  /** A double-buffered root manager without a screen and without layers. */
  method NewDesk(format: PixelFormat, font: Font) returns (d: Desk, ghost k: Known)
    ensures k.Holds() && Describes(k, d) && k.good == k.w.managers && k.w == World(d.root, {d.root}, {})
    ensures k.arrays == {}
    ensures fresh(d.root) && d.font == font && d.root.format == format && d.root.buffer == null && d.root.stack == []
    ensures d.layers == [] && Depicts(d, EMPTY_SCENE)
  {
    var root := new LayerManager(format, true, 0);
    d := Desk(root, font, [root], []);
    k := Known(World(root, {root}, {}), {}, {root});
  }

  /** The desk gets its screen and is drawn on it: everything is fresh. */
  method Boot(screen: FrameBuffer, font: Font) returns (d: Desk, ghost k: Known)
    requires screen.Valid()
    modifies screen.bytes
    ensures k.Holds() && Describes(k, d) && k.good == k.w.managers && d.root.buffer == screen
    ensures fresh(k.w.managers) && k.w.layers == {} && fresh(k.arrays - {screen.bytes})
    ensures Depicts(d, EMPTY_SCENE) && d.font == font && d.root.format == screen.format
  {
    hide World.Wired, World.AllFresh, World.FreshIn, Views, PictureOf, Paint, Consistent, ReservedZero;
    d, k := NewDesk(screen.format, font);
    d.root.SetBuffer(k.w, k.good, screen);
    d.root.Draw(k.w, k.good - {d.root});
    assert k.good - {d.root} - ParentOf(d.root) + {d.root} == k.good;
    k := k.(arrays := k.w.Arrays());
  }

  method AddLayer(d: Desk, ghost k: Known, ghost s: Scene, ghost i: nat, m: LayerManager, width: nat, height: nat)
    returns (d': Desk, ghost k': Known)
    requires k.Holds() && Describes(k, d) && Depicts(d, s) && i < |d.managers| && d.managers[i] == m
    modifies m`layers, m`latestId
    ensures k'.Holds() && Describes(k', d') && k'.good == k.good && k'.w.managers == k.w.managers
    ensures k'.w.root == k.w.root
    ensures d' == d.(layers := d'.layers) && |d'.layers| == |d.layers| + 1 && d'.layers[..|d.layers|] == d.layers
    ensures k'.w.layers == k.w.layers + {d'.layers[|d.layers|]}
    ensures fresh(d'.layers[|d.layers|]) && k'.arrays == k.arrays + {d'.layers[|d.layers|].fb.bytes}
    ensures fresh(d'.layers[|d.layers|].fb.bytes)
    ensures Depicts(d', Added(s, i, width, height, Plain(Zeros(width, height))))
  {
    hide World.Wired, World.Sound, World.AllFresh, Numbers, PictureOf, Zeros;
    var l;
    ghost var w';
    l, w' := m.NewBufferLayer(k.w, k.good, width, height);
    d' := d.(layers := d.layers + [l]);
    k' := Known(w', k.arrays + {l.fb.bytes}, k.good);
    Depiction(d, s).Stays();
    DepictsMore(d, s, l, SceneLayer(i, width, height, Vec(0, 0), None, Plain(Zeros(width, height))));
  }

  method AddGroup(d: Desk, ghost k: Known, ghost s: Scene, ghost i: nat, m: LayerManager, width: nat, height: nat)
    returns (d': Desk, ghost k': Known)
    requires k.Holds() && Describes(k, d) && Depicts(d, s) && i < |d.managers| && d.managers[i] == m
    modifies m`layers, m`latestId
    ensures k'.Holds() && Describes(k', d') && |d'.layers| == |d.layers| + 1 && |d'.managers| == |d.managers| + 1
    ensures d'.layers[..|d.layers|] == d.layers && d'.managers[..|d.managers|] == d.managers && d'.root == d.root
    ensures d'.font == d.font
    ensures k'.good == k.good + {d'.managers[|d.managers|]}
    ensures k'.w.managers == k.w.managers + {d'.managers[|d.managers|]} && k'.w.root == k.w.root
    ensures k'.w.layers == k.w.layers + {d'.layers[|d.layers|]}
    ensures fresh(d'.managers[|d.managers|]) && fresh(d'.layers[|d.layers|]) && fresh(d'.layers[|d.layers|].fb.bytes)
    ensures k'.arrays == k.arrays + {d'.layers[|d.layers|].fb.bytes}
    ensures Depicts(d', Added(s, i, width, height, Inner(|s.stacks|)).(stacks := s.stacks + [[]]))
  {
    hide World.Wired, World.Sound, World.AllFresh, Describes, Depicts, PictureOf;
    assert m in k.w.managers by { InDesk(k, d); }
    var l;
    ghost var w';
    l, w' := m.NewGroupLayer(k.w, k.good, width, height);
    d' := d.(layers := d.layers + [l], managers := d.managers + [l.child]);
    k' := Known(w', k.arrays + {l.fb.bytes}, k.good + {l.child});
    GroupParent(w', l);
    assert l.child !in d.managers by { InDesk(k, d); }
    DeskGrows(k, d, l, w');
    Depiction(d, s).Stays();
    Sizes(d, s);
    DepictsManager(d, s, l.child);
    DepictsMore(d.(managers := d'.managers), s.(stacks := s.stacks + [[]]), l,
      SceneLayer(i, width, height, Vec(0, 0), None, Inner(|s.stacks|)));
  }

  lemma InDesk(k: Known, d: Desk)
    requires Describes(k, d)
    ensures Distinct(d.managers)
    ensures forall m :: m in d.managers <==> m in k.w.managers
    ensures forall l :: l in d.layers <==> l in k.w.layers
  {
  }

  lemma DeskGrows(k: Known, d: Desk, l: Layer, w: World)
    requires Describes(k, d) && l.child != null && l.child.parent == l && l.manager in d.managers
    requires l.child !in d.managers
    requires w == World(k.w.root, k.w.managers + {l.child}, k.w.layers + {l})
    ensures var d' := d.(layers := d.layers + [l], managers := d.managers + [l.child]);
      Describes(Known(w, k.arrays + {l.fb.bytes}, k.good + {l.child}), d')
  {
    hide Ordered, Distinct;
    OrderedSnoc(d.managers, l.child);
    DistinctSnoc(d.managers, l.child);
    LayersSnoc(d.layers, l);
  }

  lemma DistinctSnoc(managers: seq<LayerManager>, m: LayerManager)
    requires Distinct(managers) && m !in managers
    ensures Distinct(managers + [m])
  {
  }

  lemma LayersSnoc(layers: seq<Layer>, l: Layer)
    ensures (set k | k in layers + [l]) == (set k | k in layers) + {l}
  {
  }

  lemma OrderedSnoc(managers: seq<LayerManager>, m: LayerManager)
    requires Ordered(managers) && (m.parent != null ==> m.parent.manager in managers)
    ensures Ordered(managers + [m]) && (managers + [m])[..|managers|] == managers
    ensures (set o | o in managers + [m]) == (set o | o in managers) + {m}
  {
    var all := managers + [m];
    forall i | 0 <= i < |all| && all[i].parent != null ensures all[i].parent.manager in all[..i] {
      assert i < |managers| ==> all[..i] == managers[..i];
      assert i == |managers| ==> all[..i] == managers;
    }
  }

  lemma GroupParent(w: World, l: Layer)
    requires w.Wired() && l in w.layers && l.child != null
    ensures l.child.parent == l
  {
    assert w.WiredLayer(l);
  }

  /** Hiding a shown layer, or moving it down. */
  predicate Lowers(l: Layer, newHeight: int)
    reads l.manager
  {
    var was := Place(l.manager.stack, l.id, 0);
    was < |l.manager.stack| && (newHeight < 0 || MinInt(newHeight, |l.manager.stack| - 1) < was)
  }

  /** up_down: the manager may be stale afterwards only if the layer was hidden or lowered. */
  method Reheight(ghost k: Known, l: Layer, newHeight: int) returns (ghost k': Known)
    requires k.Holds() && l in k.w.layers
    modifies l.manager`stack, k.arrays
    ensures k'.Holds() && k' == k.(good := if old(Lowers(l, newHeight)) then k.good - {l.manager} else k.good)
    ensures l.manager.stack == Restacked(old(l.manager.stack), l, newHeight) && k.w.KeepsPlain(null)
  {
    hide World.Wired, World.Sound, World.AllFresh, World.FreshIn, HiddenUnseen, LoweredUnseen, Views, With, Without,
      PictureOf, Position;
    GroupInStack(k.w, l);
    PlaceIsPosition(k.w, l);
    RestackedCases(l.manager.stack, l, newHeight);
    OneLayerPerId(l.manager, l, l.manager.FindLayer(l.id));
    ghost var lowers := Lowers(l, newHeight);
    l.manager.UpDown(k.w, k.good, l.id, newHeight);
    k' := if lowers then k.(good := k.good - {l.manager}) else k;
  }

  lemma RestackedCases(stack: seq<Layer>, l: Layer, height: int)
    ensures var was := Position(stack, l);
      Restacked(stack, l, height) ==
        if height < 0 then (if was < |stack| then Without(stack, was) else stack)
        else if was < |stack| then With(Without(stack, was), MinInt(height, |stack| - 1), l)
        else With(stack, MinInt(height, |stack|), l)
  {
  }

  /** The same for a layer of a desk. */
  method BringTo(d: Desk, ghost k: Known, ghost s: Scene, layer: Layer, ghost l: nat, newHeight: int)
    returns (ghost k': Known)
    requires k.Holds() && Describes(k, d) && Depicts(d, s) && s.Valid() && l < |d.layers| && d.layers[l] == layer
    modifies layer.manager`stack, k.arrays
    ensures k'.Holds() && l < |s.layers| && Depicts(d, Reheighted(s, l, newHeight))
    ensures k' == k.(good := if old(Lowers(layer, newHeight)) then k.good - {layer.manager} else k.good)
  {
    hide Known.Holds, Depicts, Restacked, Reheighted, Scene.Valid, Lowers;
    KnownManager(k, layer);
    k' := Reheight(k, layer, newHeight);
    Depiction(d, s).HeightEdited(l);
  }

  method Recolour(d: Desk, ghost k: Known, ghost s: Scene, layer: Layer, ghost l: nat, key: Option<Color>)
    returns (ghost k': Known)
    requires k.Holds() && Describes(k, d) && Depicts(d, s) && l < |d.layers| && d.layers[l] == layer
    modifies layer`transparent
    ensures k'.Holds() && k' == k.(good := k.good - {layer.manager})
    ensures l < |s.layers| && Depicts(d, s.(layers := s.layers[l := s.layers[l].(key := key)]))
  {
    hide World.Wired, World.Sound, World.AllFresh, World.FreshIn, RekeyedUnseen, Views, PictureOf, Depicts;
    GroupInStack(k.w, layer);
    Sizes(d, s);
    layer.SetTransparentColor(k.w, k.good, key);
    k' := k.(good := k.good - {layer.manager});
    assert LayerIs(d, layer, s.layers[l].(key := key));
    Depiction(d, s).LayerEdited(l);
  }

  method DrawManager(ghost k: Known, m: LayerManager) returns (ghost k': Known)
    requires k.Holds() && m in k.w.managers
    modifies k.arrays
    ensures k'.Holds() && k' == k.(good := k.good - ParentOf(m) + {m}) && k.w.KeepsPlain(null)
  {
    hide World.Wired, World.AllFresh, World.FreshIn, Views, PictureOf, Paint;
    WiringOf(k.w, m);
    m.Draw(k.w, k.good);
    k' := k.(good := k.good - ParentOf(m) + {m});
  }

  method DrawOn(d: Desk, ghost k: Known, ghost s: Scene, m: LayerManager) returns (ghost k': Known)
    requires k.Holds() && Describes(k, d) && Depicts(d, s) && m in d.managers
    modifies k.arrays
    ensures k'.Holds() && k' == k.(good := k.good - ParentOf(m) + {m}) && Depicts(d, s)
  {
    hide Known.Holds, Depicts, Describes;
    InDesk(k, d);
    k' := DrawManager(k, m);
    Depiction(d, s).Stays();
  }

  // ----- whole runs -----

  /** Every manager that is not in `stale` is known to be fresh. */
  ghost predicate StaleIn(k: Known, d: Desk, stale: set<nat>) {
    forall i :: 0 <= i < |d.managers| && i !in stale ==> d.managers[i] in k.good
  }

  lemma NothingStale(k: Known, d: Desk)
    requires k.Holds() && Describes(k, d) && StaleIn(k, d, {})
    ensures k.good == k.w.managers
  {
  }

  /** The manager a command may leave stale. */
  ghost function MayGoStale(d: Desk, c: Command): set<LayerManager>
    reads d.managers, d.layers, set l | l in d.layers :: l.manager
  {
    match c
    case Restack(l, newHeight) => if l < |d.layers| && Lowers(d.layers[l], newHeight) then {d.layers[l].manager} else {}
    case Rekey(l, _) => if l < |d.layers| then {d.layers[l].manager} else {}
    case Redraw(m) => if m < |d.managers| then ParentOf(d.managers[m]) else {}
    case _ => {}
  }

  /** Run one command; one that names nothing, paints a group or strays outside its layer is not issued.
      The objects depict what the command makes of the scene they depicted. */
  method Execute(d: Desk, ghost k: Known, ghost s: Scene, c: Command) returns (d': Desk, ghost k': Known)
    requires k.Holds() && Describes(k, d) && Depicts(d, s) && s.Valid()
    modifies k.w.managers`layers, k.w.managers`latestId, k.w.managers`stack, k.w.layers, k.arrays
    ensures k'.Holds() && Describes(k', d') && d'.root == d.root && d'.font == d.font && d.managers <= d'.managers
    ensures k.w.managers <= k'.w.managers && k.w.layers <= k'.w.layers && k.arrays <= k'.arrays
    ensures fresh(k'.w.managers - k.w.managers) && fresh(k'.w.layers - k.w.layers) && fresh(k'.arrays - k.arrays)
    ensures k.good - old(MayGoStale(d, c)) <= k'.good && k'.w.managers - k.w.managers <= k'.good
    ensures c.Redraw? && c.manager < |d.managers| ==> d.managers[c.manager] in k'.good
    ensures Depicts(d', Apply(s, d.font, d.root.format, c))
    ensures forall stale :: StaleIn(k, d, stale) ==> StaleIn(k', d', StaleAfter(s, stale, c))
  {
    hide Known.Holds, Describes, Depicts, Apply, Scene.Valid, StaleIn, StaleAfter, MayGoStale;
    ghost var may := MayGoStale(d, c);
    StaleCovers(d, k, s, c);
    InDesk(k, d);
    if c.NewLayer? || c.NewGroup? {
      d', k' := Create(d, k, s, c);
    } else {
      d' := d;
      k' := Edit(d, k, s, c);
    }
    InDesk(k', d');
    forall stale | StaleIn(k, d, stale) ensures StaleIn(k', d', StaleAfter(s, stale, c)) {
      GoodStays(k, d, k', d', may, stale, StaleAfter(s, stale, c));
    }
  }

  /** The managers a command may leave stale, by their numbers. */
  lemma StaleCovers(d: Desk, k: Known, s: Scene, c: Command)
    requires k.Holds() && Describes(k, d) && Depicts(d, s) && s.Valid()
    ensures forall stale: set<nat>, i :: 0 <= i < |d.managers| ==>
      && (d.managers[i] in MayGoStale(d, c) ==> i in StaleAfter(s, stale, c))
      && (i in stale && i !in StaleAfter(s, stale, c) ==> c.Redraw? && i == c.manager)
  {
    hide Known.Holds, Depicts, Scene.Valid, Lowers, LowersIn, Describes;
    Sizes(d, s);
    InDesk(k, d);
    match c {
      case Restack(l, height) => if l < |d.layers| { LowersAlike(d, k, s, l, height); }
      case Rekey(_, _) =>
      case Redraw(m) => if m < |d.managers| { ParentShows(d, k, s, m); }
      case _ =>
    }
  }

  lemma ParentShows(d: Desk, k: Known, s: Scene, m: nat)
    requires k.Holds() && Describes(k, d) && Depicts(d, s) && m < |d.managers|
    ensures forall i :: 0 <= i < |d.managers| && d.managers[i] in ParentOf(d.managers[m]) ==> i in ShownBy(s, m)
  {
    hide World.Wired, World.Sound, World.AllFresh, PictureOf, Depicts, Describes;
    Sizes(d, s);
    InDesk(k, d);
    WiringOf(k.w, d.managers[m]);
    if d.managers[m].parent != null {
      var l :| 0 <= l < |d.layers| && d.layers[l] == d.managers[m].parent;
      assert LayerIs(d, d.layers[l], s.layers[l]);
      assert s.layers[l].content == Inner(m) && s.layers[l].manager in ShownBy(s, m);
    }
  }

  lemma GoodStays(k: Known, d: Desk, k': Known, d': Desk, may: set<LayerManager>, stale: set<nat>, stale': set<nat>)
    requires d.managers <= d'.managers && Distinct(d'.managers)
    requires forall m :: m in d.managers <==> m in k.w.managers
    requires forall m :: m in d'.managers <==> m in k'.w.managers
    requires k.good - may <= k'.good && k'.w.managers - k.w.managers <= k'.good
    requires forall i :: 0 <= i < |d.managers| && d.managers[i] in may ==> i in stale'
    requires forall i :: 0 <= i < |d.managers| && i in stale && i !in stale' ==> d.managers[i] in k'.good
    requires StaleIn(k, d, stale)
    ensures StaleIn(k', d', stale')
  {
  }

  method Create(d: Desk, ghost k: Known, ghost s: Scene, c: Command) returns (d': Desk, ghost k': Known)
    requires k.Holds() && Describes(k, d) && Depicts(d, s) && s.Valid() && (c.NewLayer? || c.NewGroup?)
    modifies k.w.managers`layers, k.w.managers`latestId
    ensures k'.Holds() && Describes(k', d') && d'.root == d.root && d'.font == d.font && d.managers <= d'.managers
    ensures k.w.managers <= k'.w.managers && k.w.layers <= k'.w.layers && k.arrays <= k'.arrays
    ensures fresh(k'.w.managers - k.w.managers) && fresh(k'.w.layers - k.w.layers) && fresh(k'.arrays - k.arrays)
    ensures k.good <= k'.good && k'.w.managers - k.w.managers <= k'.good
    ensures Depicts(d', Apply(s, d.font, d.root.format, c))
  {
    hide Known.Holds, Describes, Depicts, Scene.Valid;
    d', k' := d, k;
    Sizes(d, s);
    if c.manager < |d.managers| {
      InDesk(k, d);
      if c.NewLayer? {
        d', k' := AddLayer(d, k, s, c.manager, d.managers[c.manager], c.width, c.height);
      } else {
        d', k' := AddGroup(d, k, s, c.manager, d.managers[c.manager], c.width, c.height);
      }
    }
  }

  method Edit(d: Desk, ghost k: Known, ghost s: Scene, c: Command) returns (ghost k': Known)
    requires k.Holds() && Describes(k, d) && Depicts(d, s) && s.Valid() && !c.NewLayer? && !c.NewGroup?
    modifies k.w.managers`stack, k.w.layers, k.arrays
    ensures k'.Holds() && Describes(k', d) && k'.w == k.w && k'.arrays == k.arrays
    ensures k.good - old(MayGoStale(d, c)) <= k'.good
    ensures c.Redraw? && c.manager < |d.managers| ==> d.managers[c.manager] in k'.good
    ensures Depicts(d, Apply(s, d.font, d.root.format, c))
  {
    hide Known.Holds, Depicts, Scene.Valid, Describes, Apply, MayGoStale;
    if c.Move? || c.Painting? || c.Rekey? {
      k' := EditLayer(d, k, s, c);
    } else {
      k' := EditStack(d, k, s, c);
    }
  }

  /** Commands that change a layer. */
  method EditLayer(d: Desk, ghost k: Known, ghost s: Scene, c: Command) returns (ghost k': Known)
    requires k.Holds() && Describes(k, d) && Depicts(d, s) && s.Valid() && (c.Move? || c.Painting? || c.Rekey?)
    modifies k.w.managers`stack, k.w.layers, k.arrays
    ensures k'.Holds() && Describes(k', d) && k'.w == k.w && k'.arrays == k.arrays
    ensures k.good - old(MayGoStale(d, c)) <= k'.good
    ensures Depicts(d, Apply(s, d.font, d.root.format, c))
  {
    hide Known.Holds, Depicts, Scene.Valid, Drawing, PictureOf, Reheighted, Lowers, LowersIn, Describes;
    InDesk(k, d);
    k' := k;
    Sizes(d, s);
    match c {
      case Move(l, to) =>
        if l < |d.layers| { MoveTo(d, k, s, d.layers[l], l, to); }
      case Painting(l, draws) =>
        if l < |d.layers| && d.layers[l].child == null
          && (forall i :: 0 <= i < |draws| ==> Stays(draws[i], d.layers[l].fb)) {
          PaintWith(d, k, s, d.layers[l], l, draws);
        }
      case Rekey(l, key) =>
        if l < |d.layers| { k' := Recolour(d, k, s, d.layers[l], l, key); }
    }
    Redescribed(k, k', d);
  }

  /** Commands that restack a manager or draw it. */
  method EditStack(d: Desk, ghost k: Known, ghost s: Scene, c: Command) returns (ghost k': Known)
    requires k.Holds() && Describes(k, d) && Depicts(d, s) && s.Valid() && (c.Show? || c.Restack? || c.Redraw?)
    modifies k.w.managers`stack, k.w.layers, k.arrays
    ensures k'.Holds() && Describes(k', d) && k'.w == k.w && k'.arrays == k.arrays
    ensures k.good - old(MayGoStale(d, c)) <= k'.good
    ensures c.Redraw? && c.manager < |d.managers| ==> d.managers[c.manager] in k'.good
    ensures Depicts(d, Apply(s, d.font, d.root.format, c))
  {
    hide Known.Holds, Depicts, Scene.Valid, Drawing, PictureOf, Reheighted, Lowers, LowersIn, Describes;
    InDesk(k, d);
    k' := k;
    Sizes(d, s);
    match c {
      case Show(l, height) =>
        if l < |d.layers| {
          LowersAlike(d, k, s, l, height);
          if !Lowers(d.layers[l], height) { k' := BringTo(d, k, s, d.layers[l], l, height); }
        }
      case Restack(l, newHeight) =>
        if l < |d.layers| { k' := BringTo(d, k, s, d.layers[l], l, newHeight); }
      case Redraw(m) =>
        if m < |d.managers| { k' := DrawOn(d, k, s, d.managers[m]); }
    }
    Redescribed(k, k', d);
  }

  lemma Redescribed(k: Known, k': Known, d: Desk)
    requires Describes(k, d) && k'.Holds() && k'.w == k.w
    ensures Describes(k', d)
  {
  }


  lemma LowersAlike(d: Desk, k: Known, s: Scene, l: nat, height: int)
    requires k.Holds() && Describes(k, d) && Depicts(d, s) && l < |d.layers|
    ensures l < |s.layers| && s.layers[l].manager < |s.stacks|
    ensures LowersIn(s.stacks[s.layers[l].manager], l, height) <==> Lowers(d.layers[l], height)
  {
    hide World.Wired, World.Sound, World.AllFresh, Place, Position, PictureOf;
    var m := s.layers[l].manager;
    assert LayerIs(d, d.layers[l], s.layers[l]);
    SamePosition(d.managers[m].stack, d.layers, s.stacks[m], l);
    PlaceIsPosition(k.w, d.layers[l]);
  }

  /** The screen shows all layers painted bottom to top, over whatever was there before. */
  ghost predicate ShowsPainting(w: World)
    reads w.root, w.root.stack, w.root.Arrays()
  {
    && w.root.Ready() && w.root.buffer != null
    && forall base: Picture ::
         base.Rectangular() && base.width == w.root.buffer.width && base.height == w.root.buffer.height ==>
         w.root.buffer.Picture() == w.root.Target().Picture() == Paint(Views(w.root.stack), base)
  }

  /** Each of its pixels is that of the recursive composition of the plain layers. */
  ghost predicate ShowsPlainLayers(w: World)
    reads w.root, w.managers, w.layers, w.Arrays()
  {
    && w.Wired() && w.root.Ready() && w.root.buffer != null
    && forall x, y :: 0 <= x < w.root.buffer.width && 0 <= y < w.root.buffer.height ==>
         PlainTop(w, w.root, |w.root.stack|, x, y) == Some(w.root.buffer.Picture().At(x, y))
  }

  lemma FreshRootShows(k: Known)
    requires k.Holds() && k.w.root in k.good && HasBackground(k.w)
    ensures ShowsPainting(k.w)
  {
    hide PictureOf, Paint, Consistent, World.Wired, World.Sound;
    var w := k.w;
    SomeFresh(w, k.good, {w.root});
    WiringOf(w, w.root);
    forall base: Picture |
        base.Rectangular() && base.width == w.root.buffer.width && base.height == w.root.buffer.height
      ensures w.root.buffer.Picture() == w.root.Target().Picture() == Paint(Views(w.root.stack), base)
    {
      ScreenIsFullPaint(w, base);
    }
  }

  lemma AllFreshShows(k: Known)
    requires k.Holds() && k.good == k.w.managers && k.w.root.buffer != null && AllBackgrounds(k.w)
    ensures ShowsPlainLayers(k.w)
  {
    hide PictureOf, PlainTop, World.AllFresh, World.Sound, AllBackgrounds;
    var w := k.w;
    WiringOf(w, w.root);
    forall x, y | 0 <= x < w.root.buffer.width && 0 <= y < w.root.buffer.height
      ensures PlainTop(w, w.root, |w.root.stack|, x, y) == Some(w.root.buffer.Picture().At(x, y))
    {
      ScreenIsPlainComposition(w, x, y);
    }
  }

  /** Every run: whatever the commands, what is known to be fresh is the composition of its stack, and
      the front buffer is equal to the back buffer; the objects depict the scene the commands describe. If
      everything was fresh and every command repaints, everything still is. A fresh root over a background
      shows the painting of all layers; with everything fresh over backgrounds the screen is a function of
      the plain layers alone, and each of its pixels is that of the scene. */
  method Run(d: Desk, ghost k: Known, ghost s: Scene, script: seq<Command>) returns (d': Desk, ghost k': Known)
    requires k.Holds() && Describes(k, d) && Depicts(d, s) && s.Valid()
    modifies k.w.managers`layers, k.w.managers`latestId, k.w.managers`stack, k.w.layers, k.arrays
    ensures k'.Holds() && Describes(k', d') && d'.root == d.root
    ensures k.good == k.w.managers && (forall i :: 0 <= i < |script| ==> Repaints(script[i])) ==>
      k'.good == k'.w.managers
    ensures d'.root in k'.good && HasBackground(k'.w) ==> ShowsPainting(k'.w)
    ensures k'.good == k'.w.managers && d'.root.buffer != null && AllBackgrounds(k'.w) ==> ShowsPlainLayers(k'.w)
    ensures Depicts(d', ApplyAll(s, d.font, d.root.format, script))
    ensures k'.good == k'.w.managers ==> ShowsScene(d', ApplyAll(s, d.font, d.root.format, script))
    ensures forall stale :: StaleIn(k, d, stale) ==> StaleIn(k', d', StaleAll(s, stale, d.font, d.root.format, script))
  {
    hide Known.Holds, ShowsPainting, ShowsPlainLayers, HasBackground, AllBackgrounds, Ordered, Depicts, ApplyAll,
      Scene.Valid, Apply, ShowsScene, StaleIn, StaleAll, StaleAfter;
    d', k' := d, k;
    AppliedStep(s, d.font, d.root.format, script, 0);
    forall stale { StaleStep(s, stale, d.font, d.root.format, script, 0); }
    for i := 0 to |script|
      invariant k'.Holds() && Describes(k', d') && d'.root == d.root && d'.font == d.font
      invariant k.w.managers <= k'.w.managers && fresh(k'.w.managers - k.w.managers)
      invariant k.w.layers <= k'.w.layers && fresh(k'.w.layers - k.w.layers)
      invariant k.arrays <= k'.arrays && fresh(k'.arrays - k.arrays)
      invariant k.good == k.w.managers && (forall j :: 0 <= j < i ==> Repaints(script[j])) ==> k'.good == k'.w.managers
      invariant Depicts(d', ApplyAll(s, d.font, d.root.format, script[..i]))
      invariant forall stale :: StaleIn(k, d, stale) ==>
        StaleIn(k', d', StaleAll(s, stale, d.font, d.root.format, script[..i]))
    {
      forall stale { StaleStep(s, stale, d.font, d.root.format, script, i); }
      AppliedStep(s, d.font, d.root.format, script, i);
      d', k' := Execute(d', k', ApplyAll(s, d.font, d.root.format, script[..i]), script[i]);
    }
    assert script[..|script|] == script;
    if d'.root in k'.good && HasBackground(k'.w) { FreshRootShows(k'); }
    if k'.good == k'.w.managers && d'.root.buffer != null && AllBackgrounds(k'.w) { AllFreshShows(k'); }
    if k'.good == k'.w.managers { SceneIsShown(k', d', ApplyAll(s, d.font, d.root.format, script)); }
  }

  /** Over backgrounds, each pixel of the screen is that of the scene. */
  ghost predicate ShowsScene(d: Desk, s: Scene)
    requires s.Valid()
    reads d.root, if d.root.buffer == null then {} else {d.root.buffer.bytes}
  {
    d.root.buffer != null && Backgrounds(s, d.root.buffer.width, d.root.buffer.height) ==>
      d.root.buffer.Valid() && ScreenShows(d.root.buffer, s, d.root.format)
  }

  lemma SceneIsShown(k: Known, d: Desk, s: Scene)
    requires k.Holds() && Describes(k, d) && Depicts(d, s) && s.Valid() && k.good == k.w.managers
    ensures ShowsScene(d, s)
  {
    hide PictureOf, World.AllFresh, World.Sound, AllBackgrounds, PlainTop, SceneTop, Backgrounds, Depicts, Ordered;
    var w, root := k.w, d.root;
    if root.buffer != null && Backgrounds(s, root.buffer.width, root.buffer.height) {
      BackgroundsAreAll(d, s, w);
      WiringOf(w, root);
      forall x, y | 0 <= x < root.buffer.width && 0 <= y < root.buffer.height
        ensures SceneTop(s, root.format, 0, |s.stacks[0]|, x, y) == Some(root.buffer.Picture().At(x, y))
      {
        ScreenIsPlainComposition(w, x, y);
        StackDepicted(d, s, 0);
        PlainIsScene(d, s, w, 0, |s.stacks[0]|, x, y);
      }
    }
  }

  /** From the start: whatever the screen showed and whatever commands follow, the screen keeps showing
      what is known to be fresh; as long as every command repaints, that is everything. The commands alone
      tell which managers may be stale, and, when none is, each pixel of the screen. */
  method RunFromBoot(screen: FrameBuffer, font: Font, script: seq<Command>) returns (d: Desk, ghost k: Known)
    requires screen.Valid()
    modifies screen.bytes
    ensures k.Holds() && Describes(k, d) && d.root.buffer == screen
    ensures (forall i :: 0 <= i < |script| ==> Repaints(script[i])) ==> k.good == k.w.managers
    ensures d.root in k.good && HasBackground(k.w) ==> ShowsPainting(k.w)
    ensures k.good == k.w.managers && AllBackgrounds(k.w) ==> ShowsPlainLayers(k.w)
    ensures Depicts(d, Told(script, font, screen.format))
    ensures StaleTold(script, font, screen.format) == {} ==> ShowsScene(d, Told(script, font, screen.format))
    ensures k.good == k.w.managers ==> ShowsScene(d, Told(script, font, screen.format))
  {
    hide Known.Holds, ShowsPainting, ShowsPlainLayers, HasBackground, AllBackgrounds, Ordered, Distinct, Depicts,
      ApplyAll, ShowsScene, StaleAll;
    d, k := Boot(screen, font);
    assert EMPTY_SCENE.Valid();
    assert StaleIn(k, d, {});
    d, k := Run(d, k, EMPTY_SCENE, script);
    if StaleTold(script, font, screen.format) == {} { NothingStale(k, d); }
  }

  /** In every state a run reaches, a keyed layer shows nothing exactly where its pixel has the key's
      colour, although pixels are compared byte by byte. */
  lemma HiddenByColour(k: Known, l: Layer, c: Color, x: int, y: int)
    requires k.Holds() && l in k.w.layers && l.transparent == Some(c) && l.ManagerArea().Contains(x, y)
    ensures l.fb.Valid() && |l.fb.Picture().At(x - l.pos.x, y - l.pos.y)| == BPP
    ensures l.View().Show(x, y).None? <==> Decode(l.fb.format, l.fb.Picture().At(x - l.pos.x, y - l.pos.y)) == c
  {
    hide PictureOf, World.AllFresh, World.Wired;
    GroupInStack(k.w, l);
    PictureOfShape(l.fb);
    HiddenIffKeyColour(l.View(), l.fb.format, c, x, y);
  }

  /** Drawing every manager, the last created first, makes everything fresh again: a group is drawn
      before the manager that shows it. */
  method RedrawAll(d: Desk, ghost k: Known) returns (ghost k': Known)
    requires k.Holds() && Describes(k, d)
    modifies k.arrays
    ensures k'.Holds() && k'.w == k.w && k'.good == k.w.managers
  {
    hide Known.Holds;
    k' := k;
    for i := |d.managers| downto 0
      invariant k'.Holds() && k'.w == k.w && k'.arrays == k.arrays
      invariant forall j :: i <= j < |d.managers| ==> d.managers[j] in k'.good
    {
      ghost var before := k'.good;
      k' := DrawManager(k', d.managers[i]);
      forall j | i <= j < |d.managers| ensures d.managers[j] in k'.good {
        if j > i { ParentsComeFirst(d.managers, i, j); }
      }
    }
    assert k'.good == k.w.managers by { GoodIsKnown(k'); }
  }

  lemma GoodIsKnown(k: Known)
    requires k.Holds()
    ensures k.good <= k.w.managers
  {
  }

  /** A later manager is not the one a group of an earlier manager is in. */
  lemma ParentsComeFirst(managers: seq<LayerManager>, i: nat, j: nat)
    requires Ordered(managers) && i < j < |managers|
    requires Distinct(managers)
    ensures managers[j] !in ParentOf(managers[i])
  {
    if managers[i].parent != null {
      var a :| 0 <= a < i && managers[a] == managers[i].parent.manager;
    }
  }

  lemma KnownManager(k: Known, l: Layer)
    requires k.Holds() && l in k.w.layers
    ensures l.manager in k.w.managers
  {
    hide World.Sound, World.AllFresh;
    assert k.w.WiredLayer(l);
  }

  method MoveTo(d: Desk, ghost k: Known, ghost s: Scene, layer: Layer, ghost l: nat, to: Vec)
    requires k.Holds() && Describes(k, d) && Depicts(d, s) && l < |d.layers| && d.layers[l] == layer
    modifies layer`pos, k.arrays
    ensures k.Holds() && l < |s.layers| && Depicts(d, s.(layers := s.layers[l := s.layers[l].(pos := to)]))
  {
    hide World.Wired, World.Sound, World.AllFresh, PictureOf, Depicts;
    Sizes(d, s);
    layer.Move(k.w, k.good, to);
    assert LayerIs(d, layer, s.layers[l].(pos := to));
    Depiction(d, s).LayerEdited(l);
  }

  method PaintWith(d: Desk, ghost k: Known, ghost s: Scene, layer: Layer, ghost l: nat, draws: seq<Draw>)
    requires k.Holds() && Describes(k, d) && Depicts(d, s)
    requires l < |d.layers| && d.layers[l] == layer && layer.child == null
    requires forall i :: 0 <= i < |draws| ==> Stays(draws[i], layer.fb)
    modifies k.arrays
    ensures k.Holds() && l < |s.layers| && s.layers[l].content.Plain?
    ensures Depicts(d, s.(layers := s.layers[l := s.layers[l].(content :=
      Plain(Drawing(draws, d.font, d.root.format, s.layers[l].content.image)))]))
  {
    hide World.Wired, World.Sound, World.AllFresh, PictureOf, Drawing, Depicts, Describes, Ordered;
    InDesk(k, d);
    Sizes(d, s);
    PaintLayer(k.w, k.good, layer, d.font, draws);
    assert LayerIs(d, layer, s.layers[l].(content :=
      Plain(Drawing(draws, d.font, d.root.format, s.layers[l].content.image))));
    Depiction(d, s).LayerEdited(l);
  }
}
