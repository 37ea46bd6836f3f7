/**
 * kernel/graphics/{layer,buffer_layer,group_layer,layer_manager}.cpp as objects: managers hold a
 * stack of layers over a frame buffer, a group layer owns a child manager that draws into the
 * group's own buffer, and damage travels from a manager to its parent layer's manager.
 */
module Layers {
  import opened Geometry
  import opened Composition
  import opened Options
  import opened Seqs
  import opened StackEdits
  import opened FrameBuffers
  import opened ColourKeys

  /** A BufferLayer when child is null, a GroupLayer otherwise. */
  class Layer {
    const id: nat
    const manager: LayerManager
    const fb: FrameBuffer
    const child: LayerManager?
    var pos: Vec
    var transparent: Option<Color>

    /** BufferLayer::BufferLayer. */
    constructor Buffer(manager: LayerManager, id: nat, format: PixelFormat, width: nat, height: nat)
      ensures this.manager == manager && this.id == id && child == null && pos == Vec(0, 0) && transparent == None
      ensures fb.Valid() && fb.format == format && fb.width == width && fb.height == height && fresh(fb)
      ensures fresh(fb.bytes)
      ensures ReservedZero(fb.Picture()) && fb.Picture() == Zeros(width, height)
    {
      this.manager, this.id, child := manager, id, null;
      pos, transparent := Vec(0, 0), None;
      fb := new FrameBuffer(width, height, format);
      new;
      ZeroFilledIsReserved(fb);
      ZeroFilledIsBlank(fb);
    }

    /** GroupLayer::GroupLayer: the child manager draws into the group's own buffer. */
    constructor Group(manager: LayerManager, id: nat, format: PixelFormat, width: nat, height: nat)
      ensures this.manager == manager && this.id == id && child != null && pos == Vec(0, 0) && transparent == None
      ensures fb.Valid() && fb.format == format && fb.width == width && fb.height == height && fresh(fb)
      ensures fresh(fb.bytes)
      ensures fresh(child) && NewChild(child, this) && child.depth == manager.depth + 1 && ReservedZero(fb.Picture())
    {
      this.manager, this.id := manager, id;
      pos, transparent := Vec(0, 0), None;
      fb := new FrameBuffer(width, height, format);
      child := new LayerManager(format, false, manager.depth + 1);
      new;
      child.parent := this;
      child.buffer := fb;
      ZeroFilledIsReserved(fb);
    }

    ghost function View(): LayerView
      requires fb.Valid()
      reads this, fb.bytes
    {
      LayerView(id, pos, fb.Picture(), KeyPixel(fb.format, transparent))
    }

    predicate HasTransparency()
      reads this
    {
      transparent.Some?
    }

    function ManagerArea(): Rect
      reads this
    {
      RectAt(pos, fb.Size())
    }

    method DrawTo(dst: FrameBuffer)
      requires fb.Valid() && dst.Valid() && dst.bytes != fb.bytes && dst.format == fb.format
      modifies dst.bytes
      ensures dst.Picture() == View().Draw(old(dst.Picture()))
    {
      var e := dst.CopyFrom(fb, pos, Vec(0, 0), fb.Size(), transparent);
    }

    method DrawToIn(dst: FrameBuffer, damage: Rect)
      requires fb.Valid() && dst.Valid() && dst.bytes != fb.bytes && dst.format == fb.format
      modifies dst.bytes
      ensures dst.Picture() == View().DrawIn(old(dst.Picture()), damage)
    {
      var area := ManagerArea();
      if !damage.IsCrossing(area) { return; }
      var cross := damage.Cross(area);
      var e := dst.CopyFrom(fb, cross.TopLeft(), cross.TopLeft().Sub(pos), cross.Size(), transparent);
    }

    /** Layer::damage: translate to the manager's coordinates. If the change is within the damage,
        every manager in `good`, the layer's own included, is fresh afterwards. */
    method Damage(ghost w: World, rects: seq<Rect>, ghost good: set<LayerManager>, ghost before: seq<LayerView>)
      requires w.Wired() && this in w.layers && good <= w.managers
      requires w.Sound() && w.AllFresh(good - {manager})
      requires manager in good && manager.buffer != null ==>
        && Consistent(before, manager.Target().Picture())
        && ChangedWithin(before, Views(manager.stack), id, OffsetAll(rects, pos))
      modifies w.Arrays()
      ensures w.Wired() && w.Sound() && w.AllFresh(good)
      ensures w.Untouched(manager.depth)
      decreases manager.depth, 1
    {
      hide DrawDamage, Views, PictureOf, Consistent, AgreeOutside, SameAbove;
      var res := OffsetAll(rects, pos);
      ghost var views := Views(manager.stack);
      if manager.buffer != null { PictureOfShape(manager.Target()); }
      manager.Damage(w, id, res, good - {manager});
      w.StackUntouched(manager);
      if manager in good && manager.buffer != null && rects != [] {
        DamageRedrawIsFullRedraw(before, views, old(manager.Target().Picture()), id, MergeAll(res));
      }
    }

    /** set_transparent_color does not repaint: this layer's manager stays fresh exactly when no stale
        pixel is left, all others stay fresh. */
    method SetTransparentColor(ghost w: World, ghost good: set<LayerManager>, c: Option<Color>)
      requires w.Wired() && this in w.layers && w.Sound() && good <= w.managers && w.AllFresh(good)
      modifies this`transparent
      ensures transparent == c && w.Wired() && w.Sound() && w.AllFresh(good - {manager})
      ensures manager in good && this !in manager.stack ==> w.AllFresh(good)
      ensures manager in good ==> forall j :: 0 <= j < |manager.stack| && manager.stack[j] == this ==>
        (w.FreshIn(manager) <==>
          RekeyedUnseen(old(Views(manager.stack)), j, KeyPixel(fb.format, c), old(manager.Shown())))
    {
      hide Views, PictureOf, World.AllFresh, World.Sound, World.Wired, Consistent, World.FreshIn, RekeyedUnseen,
        ReservedZero;
      GroupInStack(w, this);
      WiringOf(w, manager);
      if manager in good {
        SomeFresh(w, good, {manager});
        FreshMeansConsistent(w, manager);
      }
      transparent := c;
      w.StaysReserved();
      w.EditIsLocal(manager);
      RekeyedViews(this);
      if manager in good { Rekeyed(w, good, this, old(Views(manager.stack))); }
    }

    /** Layer::move. */
    method Move(ghost w: World, ghost good: set<LayerManager>, p: Vec)
      requires w.Wired() && this in w.layers && w.Sound() && good <= w.managers && w.AllFresh(good)
      modifies this`pos, w.Arrays()
      ensures pos == p
      ensures w.Wired() && w.Sound() && w.AllFresh(good) && w.Untouched(manager.depth)
    {
      hide DrawDamage, Views, PictureOf, World.AllFresh, World.Sound, World.Wired, Consistent, World.FreshIn,
        ReservedZero;
      GroupInStack(w, this);
      WiringOf(w, manager);
      if manager in good {
        SomeFresh(w, good, {manager});
        FreshMeansConsistent(w, manager);
      }
      ghost var v0 := Views(manager.stack);
      var before := ManagerArea();
      pos := p;
      var after := ManagerArea();
      w.StaysReserved();
      w.EditIsLocal(manager);
      MovedWithin(this);
      ghost var v1 := Views(manager.stack);
      if manager.buffer != null { PictureOfShape(manager.Target()); }
      label Edited:
      manager.Damage(w, id, [before, after], good - {manager});
      w.StackUntouched@Edited(manager);
      EditRedrawn(w, good, manager, v0, v1, old@Edited(manager.Shown()), id, [before, after]);
    }

    method MoveRelative(ghost w: World, ghost good: set<LayerManager>, d: Vec)
      requires w.Wired() && this in w.layers && w.Sound() && good <= w.managers && w.AllFresh(good)
      modifies this`pos, w.Arrays()
      ensures pos == old(pos).Add(d)
      ensures forall x, y :: ManagerArea().Contains(x + d.x, y + d.y) <==> old(ManagerArea()).Contains(x, y)
      ensures w.Wired() && w.Sound() && w.AllFresh(good) && w.Untouched(manager.depth)
    {
      Move(w, good, pos.Add(d));
    }
  }

  ghost function Views(stack: seq<Layer>): (r: seq<LayerView>)
    requires forall l :: l in stack ==> l.fb.Valid()
    reads stack, set l | l in stack :: l.fb.bytes
    ensures |r| == |stack| && forall k :: 0 <= k < |stack| ==> r[k] == stack[k].View()
  {
    if stack == [] then [] else Views(stack[..|stack| - 1]) + [stack[|stack| - 1].View()]
  }

  /** find_layer_stack_itr: the first layer with this id from `begin` on, else the end. */
  function Place(s: seq<Layer>, id: nat, begin: nat): (k: nat)
    requires begin <= |s|
    ensures begin <= k <= |s| && (k < |s| ==> s[k].id == id) && forall j :: begin <= j < k ==> s[j].id != id
    decreases |s| - begin
  {
    if begin == |s| || s[begin].id == id then begin else Place(s, id, begin + 1)
  }

  lemma PlaceMeansHasId(s: seq<Layer>, id: nat, begin: nat)
    requires begin <= |s| && forall l :: l in s ==> l.fb.Valid()
    ensures Place(s, id, begin) < |s| <==> HasId(Views(s)[begin..], id)
  {
    hide Views, Layer.View;
    var k, above := Place(s, id, begin), Views(s)[begin..];
    assert forall j :: 0 <= j < |above| ==> above[j].id == s[begin + j].id by { ViewIds(s); }
    if k < |s| { assert above[k - begin].id == id; }
  }

  lemma ViewIds(s: seq<Layer>)
    requires forall l :: l in s ==> l.fb.Valid()
    ensures forall k :: 0 <= k < |s| ==> Views(s)[k].id == s[k].id
  {
    hide Views, PictureOf;
  }

  lemma ViewsOfSuffix(stack: seq<Layer>, i: nat)
    requires i <= |stack| && forall l :: l in stack ==> l.fb.Valid()
    ensures Views(stack[i..]) == Views(stack)[i..]
  {
  }

  ghost predicate DrawableTo(ls: seq<Layer>, target: FrameBuffer) {
    target.Valid() && forall l :: l in ls ==> l.fb.Valid() && l.fb.format == target.format && l.fb.bytes != target.bytes
  }

  /** The loop of draw_to. */
  method DrawLayers(ls: seq<Layer>, target: FrameBuffer)
    requires DrawableTo(ls, target)
    modifies target.bytes
    ensures target.Picture() == Paint(old(Views(ls)), old(target.Picture()))
  {
    hide Paint, PictureOf, LayerView.Draw, Layer.View;
    ghost var was, views := target.Picture(), Views(ls);
    PaintSteps(views, 0, was);
    for k := 0 to |ls|
      invariant forall j :: 0 <= j < |ls| ==> ls[j].View() == views[j]
      invariant target.Picture() == Paint(views[..k], was)
    {
      ls[k].DrawTo(target);
      PaintSteps(views, k, was);
    }
    assert views[..|ls|] == views;
  }

  lemma PaintSteps(views: seq<LayerView>, k: nat, was: Picture)
    requires k <= |views|
    ensures Paint(views[..0], was) == was
    ensures k < |views| ==> Paint(views[..k + 1], was) == views[k].Draw(Paint(views[..k], was))
  {
    assert k < |views| ==> views[..k + 1][..k] == views[..k];
  }

  lemma PaintInSteps(views: seq<LayerView>, k: nat, was: Picture, rect: Rect)
    requires k <= |views|
    ensures PaintIn(views[..0], was, rect) == was
    ensures k < |views| ==> PaintIn(views[..k + 1], was, rect) == views[k].DrawIn(PaintIn(views[..k], was, rect), rect)
  {
    assert k < |views| ==> views[..k + 1][..k] == views[..k];
  }

  /** The upward loop of draw_damage_to. */
  method DrawLayersIn(ls: seq<Layer>, target: FrameBuffer, rect: Rect)
    requires DrawableTo(ls, target)
    modifies target.bytes
    ensures target.Picture() == PaintIn(old(Views(ls)), old(target.Picture()), rect)
  {
    hide PaintIn, PictureOf, LayerView.DrawIn, Layer.View;
    ghost var was, views := target.Picture(), Views(ls);
    PaintInSteps(views, 0, was, rect);
    for k := 0 to |ls|
      invariant forall j :: 0 <= j < |ls| ==> ls[j].View() == views[j]
      invariant target.Picture() == PaintIn(views[..k], was, rect)
    {
      ls[k].DrawToIn(target, rect);
      PaintInSteps(views, k, was, rect);
    }
    assert views[..|ls|] == views;
  }

  /** Layers of one manager, each at most once. */
  ghost predicate Stackable(stack: seq<Layer>, layers: seq<Layer>) {
    (forall l :: l in stack ==> l in layers) && forall i, j :: 0 <= i < j < |stack| ==> stack[i].id != stack[j].id
  }

  lemma WithoutIsStackable(stack: seq<Layer>, layers: seq<Layer>, j: nat)
    requires Stackable(stack, layers) && j < |stack|
    ensures Stackable(Without(stack, j), layers) && |Without(stack, j)| == |stack| - 1
    ensures forall k :: k in Without(stack, j) ==> k.id != stack[j].id
  {
    var s := Without(stack, j);
    assert forall k :: 0 <= k < |s| ==> s[k] == stack[if k < j then k else k + 1];
  }

  lemma WithIsStackable(stack: seq<Layer>, layers: seq<Layer>, j: nat, l: Layer)
    requires Stackable(stack, layers) && j <= |stack| && l in layers && forall k :: k in stack ==> k.id != l.id
    ensures Stackable(With(stack, j, l), layers)
  {
    var s := With(stack, j, l);
    assert forall k :: 0 <= k < |s| && k != j ==> s[k] == stack[if k < j then k else k - 1];
  }

  ghost predicate Twins(a: FrameBuffer, b: FrameBuffer) {
    a.bytes != b.bytes && a.width == b.width && a.height == b.height && a.stride == b.stride && a.format == b.format
  }

  // ----- the tree of managers -----

  /** The managers reachable from the root and all layers they hold, shown or hidden. */
  datatype World = World(root: LayerManager, managers: set<LayerManager>, layers: set<Layer>) {
    ghost function Arrays(): set<array<byte>>
      reads root`buffer, root`back
    {
      (set l | l in layers :: l.fb.bytes) + root.OwnArrays()
    }

    ghost predicate Wired()
      reads managers
    {
      && root in managers && root.parent == null
      && (forall m :: m in managers ==> WiredManager(m))
      && (forall l :: l in layers ==> WiredLayer(l))
      && (forall l, k :: l in layers && k in layers && l != k ==> l.fb.bytes != k.fb.bytes)
      && (forall l :: l in layers ==> l.fb.bytes !in root.OwnArrays())
    }

    ghost predicate WiredManager(m: LayerManager)
      reads m
    {
      && m.Ready() && (forall l :: l in m.layers ==> l in layers)
      && (m != root ==> m.parent != null && m.parent in layers && m.parent.child == m)
    }

    ghost predicate WiredLayer(l: Layer)
      reads managers
    {
      && l.manager in managers && l in l.manager.layers
      && (l.child != null ==>
            && l.child in managers && l.child.parent == l && l.child.buffer == l.fb
            && !l.child.double && l.manager.depth < l.child.depth)
    }

    ghost predicate FreshIn(m: LayerManager)
      requires Wired() && m in managers
      reads managers, layers, Arrays()
    {
      OwnedArrays(this, m);
      m.Fresh()
    }

    /** The buffers of these managers are the compositions of their stacks. */
    ghost predicate AllFresh(ms: set<LayerManager>)
      requires Wired() && ms <= managers
      reads managers, layers, Arrays()
    {
      forall m :: m in ms ==> FreshIn(m)
    }

    /** The reserved byte of every pixel of every layer, shown or hidden, is zero. */
    ghost predicate Reserved()
      reads set l | l in layers :: l.fb.bytes
    {
      forall l :: l in layers && l.fb.Valid() ==> ReservedZero(l.fb.Picture())
    }

    /** The front buffer is equal to the back buffer, and reserved bytes are zero. */
    ghost predicate Sound()
      requires Wired()
      reads managers, layers, Arrays()
    {
      OwnedArrays(this, root);
      root.InSync() && Reserved()
    }

    /** Redrawing m leaves every other manager but its parent's as fresh as it was. */
    twostate lemma OthersUnchanged(m: LayerManager)
      requires old(Wired()) && Wired() && m in managers && unchanged(managers) && unchanged(layers)
      requires forall a :: a in Arrays() && a !in m.OwnArrays() ==> unchanged(a)
      ensures forall o :: o in managers && o != m && o !in ParentOf(m) ==> FreshIn(o) == old(FreshIn(o))
    {
      hide LayerManager.Fresh, LayerManager.InSync, World.WiredLayer;
      forall o | o in managers && o != m && o !in ParentOf(m) ensures FreshIn(o) == old(FreshIn(o)) {
        OnlyParentSees(this, m, o);
        OwnedArrays(this, o);
        FreshnessFramed(o);
      }
    }

    twostate lemma OthersStayFresh(m: LayerManager)
      requires old(Wired()) && Wired() && m in managers && unchanged(managers) && unchanged(layers)
      requires forall a :: a in Arrays() && a !in m.OwnArrays() ==> unchanged(a)
      ensures forall good: set<LayerManager> :: good <= managers && m !in good && old(AllFresh(good)) ==>
        AllFresh(good - ParentOf(m))
    {
      hide World.FreshIn, World.WiredManager, World.WiredLayer;
      OthersUnchanged(m);
      forall good: set<LayerManager> | good <= managers && m !in good && old(AllFresh(good))
        ensures AllFresh(good - ParentOf(m))
      {
        forall o | o in good - ParentOf(m) ensures FreshIn(o) { assert old(FreshIn(o)); }
      }
    }

    twostate lemma StaysSound(m: LayerManager)
      requires old(Wired()) && Wired() && m in managers && unchanged(managers) && unchanged(layers)
      requires forall a :: a in Arrays() && a !in m.OwnArrays() ==> unchanged(a)
      requires old(Sound()) && m.Ready() && m.InSync()
      requires m != root && m.buffer != null ==> ReservedZero(m.buffer.Picture())
      ensures Sound()
    {
      hide Views, PictureOf, Consistent, ReservedZero;
      if m != root {
        assert WiredManager(m) && WiredLayer(m.parent);
        forall a | a in root.OwnArrays() ensures a !in m.OwnArrays() { }
      }
      forall l | l in layers && l.fb.Valid() ensures ReservedZero(l.fb.Picture()) {
        assert l.fb.bytes in Arrays();
        if l.fb.bytes in m.OwnArrays() { assert l == m.parent; }
      }
    }

    /** Layers whose memory is untouched keep their reserved bytes. */
    twostate lemma PixelsKept()
      requires old(Reserved()) && forall l :: l in layers ==> unchanged(l.fb.bytes)
      ensures Reserved()
    {
      hide PictureOf, ReservedZero;
    }

    twostate lemma StaysReserved()
      requires old(Wired()) && old(Sound()) && forall l :: l in layers ==> unchanged(l.fb.bytes)
      ensures Reserved()
    {
      hide PictureOf, ReservedZero, Wired;
      PixelsKept();
    }

    /** The layers of a manager are not touched by redrawing it and its ancestors. */
    twostate lemma StackUntouched(m: LayerManager)
      requires old(Wired()) && Wired() && m in managers && unchanged(managers) && unchanged(layers)
      requires Untouched(m.depth)
      ensures Views(m.stack) == old(Views(m.stack))
    {
      hide PictureOf;
      forall k | 0 <= k < |m.stack| ensures m.stack[k].View() == old(m.stack[k].View()) {
        assert WiredLayer(m.stack[k]);
      }
    }

    /** Buffers of plain layers, and of groups deeper than `depth`. */
    twostate predicate Untouched(depth: nat)
      reads set l | l in layers :: l.fb.bytes
    {
      forall l :: l in layers && (l.child == null || depth < l.child.depth) ==> unchanged(l.fb.bytes)
    }

    /** Plain layers but `except` keep their pixels. */
    twostate predicate KeepsPlain(except: Layer?)
      reads set l | l in layers :: l.fb.bytes
    {
      forall l :: l in layers && l.child == null && l != except ==> unchanged(l.fb.bytes)
    }

    twostate lemma GroupRedrawn(m: LayerManager)
      requires old(Wired()) && Wired() && m in managers && unchanged(managers) && unchanged(layers)
      requires m.parent != null && m.buffer != null
      requires forall a :: a in Arrays() && a !in m.OwnArrays() ==> unchanged(a)
      ensures var l := m.parent; forall rects: seq<Rect> ::
        rects != [] && DiffersWithin(old(m.Target().Picture()), m.Target().Picture(), MergeAll(rects)) ==>
          ChangedWithin(old(Views(l.manager.stack)), Views(l.manager.stack), l.id, OffsetAll(rects, l.pos))
    {
      hide PictureOf, AgreeOutside, SameAbove, Wired;
      var l, stack := m.parent, m.parent.manager.stack;
      ParentStackChanged(m);
      forall rects: seq<Rect> | rects != [] &&
          DiffersWithin(old(m.Target().Picture()), m.Target().Picture(), MergeAll(rects))
        ensures ChangedWithin(old(Views(stack)), Views(stack), l.id, OffsetAll(rects, l.pos))
      {
        GroupChangeIsLocal(old(Views(stack)), Views(stack), l.id, l.pos, MergeAll(rects), old(l.fb.Picture()),
          l.fb.Picture());
        OffsetCommutesWithMerge(rects, l.pos);
      }
    }

    /** The parent's screen still shows the composition from before the group was redrawn. */
    twostate lemma ParentScreenUnchanged(m: LayerManager)
      requires old(Wired()) && Wired() && m in managers && unchanged(managers) && unchanged(layers)
      requires forall a :: a in Arrays() && a !in m.OwnArrays() ==> unchanged(a)
      requires m.parent != null && m.parent.manager.buffer != null
      requires m.parent.manager in managers && old(AllFresh({m.parent.manager}))
      ensures m.parent.manager.Ready()
      ensures Consistent(old(Views(m.parent.manager.stack)), m.parent.manager.Target().Picture())
    {
      hide PictureOf, Consistent, Views;
      var o := m.parent.manager;
      WiringOf(this, m);
      WiringOf(this, o);
      assert o.Target().bytes !in m.OwnArrays() by {
        if o == root {
          assert m.parent.fb.bytes !in o.OwnArrays();
        }
      }
      assert old(FreshIn(o));
      assert o.Target().Picture() == old(o.Target().Picture());
    }

    twostate lemma ParentStackChanged(m: LayerManager)
      requires old(Wired()) && Wired() && m in managers && unchanged(managers) && unchanged(layers)
      requires m.parent != null && m.buffer != null
      requires forall a :: a in Arrays() && a !in m.OwnArrays() ==> unchanged(a)
      ensures var l, stack := m.parent, m.parent.manager.stack;
        && l in layers && l.manager in managers && l.manager.Ready() && old(l.manager.Ready()) && m.Target() == l.fb
        && l.fb.Valid()
        && (forall k :: 0 <= k < |stack| && stack[k].id != l.id ==> stack[k].View() == old(stack[k].View()))
        && (forall k :: 0 <= k < |stack| && stack[k].id == l.id ==> stack[k] == l)
    {
      hide PictureOf, Views;
      var l, stack := m.parent, m.parent.manager.stack;
      WiringOf(this, m);
      GroupInStack(this, l);
      forall k | 0 <= k < |stack| && stack[k].id != l.id ensures stack[k].View() == old(stack[k].View()) {
        assert stack[k].fb.bytes in Arrays() && stack[k].fb.bytes !in m.OwnArrays();
      }
    }

    /** Only m's stack, its layers' fields and its plain layers' pixels have changed. */
    twostate predicate OnlyEdited(m: LayerManager)
      reads root, m, managers, layers, Arrays()
    {
      && (forall o :: o in managers && o != m ==> unchanged(o))
      && m.buffer == old(m.buffer) && m.back == old(m.back) && m.parent == old(m.parent)
      && (forall l :: l in layers && l.manager != m ==> unchanged(l))
      && (forall l :: l in layers && (l.manager != m || l.child != null) ==> unchanged(l.fb.bytes))
      && root.OwnArrays() == old(root.OwnArrays()) && (forall a :: a in root.OwnArrays() ==> unchanged(a))
    }

    /** Then every other manager is as fresh as before, and m's buffer shows what it showed. */
    twostate lemma EditIsLocal(m: LayerManager)
      requires old(Wired()) && Wired() && m in managers && OnlyEdited(m) && old(Sound()) && Reserved()
      ensures Sound()
      ensures forall good: set<LayerManager> :: good <= managers && old(AllFresh(good)) ==> AllFresh(good - {m})
      ensures m.buffer != null ==> m.Target().Picture() == old(m.Target().Picture())
      ensures m.buffer != null && old(FreshIn(m)) ==> Consistent(old(Views(m.stack)), m.Target().Picture())
    {
      hide PictureOf, Consistent, Views, World.WiredManager, World.WiredLayer, ReservedZero;
      EditSpares(m);
      forall good: set<LayerManager> | good <= managers && old(AllFresh(good)) ensures AllFresh(good - {m}) {
        forall o | o in good - {m} ensures FreshIn(o) {
          FreshnessFramed(o);
          assert old(FreshIn(o));
        }
      }
      EditSparesBuffers(m);
      if m.buffer != null {
        assert m.buffer.bytes in m.OwnArrays() && m.buffer.Picture() == old(m.buffer.Picture());
        if m.double { assert m.back.bytes in m.OwnArrays() && m.back.Picture() == old(m.back.Picture()); }
      }
      if m != root { FreshnessFramed(root); }
    }

    twostate predicate Spared(o: LayerManager)
      reads o, o.stack, o.Arrays()
    {
      && o.stack == old(o.stack) && o.buffer == old(o.buffer) && o.back == old(o.back)
      && (forall l :: l in o.stack ==> unchanged(l)) && (forall a :: a in o.Arrays() ==> unchanged(a))
    }

    twostate lemma EditSpares(m: LayerManager)
      requires old(Wired()) && Wired() && m in managers && OnlyEdited(m)
      ensures forall o :: o in managers && o != m ==> old(o.Ready()) && o.Ready() && Spared(o)
    {
      forall o | o in managers && o != m ensures old(o.Ready()) && o.Ready() && Spared(o) {
        assert WiredManager(o);
        forall l | l in o.stack ensures unchanged(l) && unchanged(l.fb.bytes) { assert l.manager == o; }
        if o != root { assert WiredLayer(o.parent); }
      }
    }

    twostate lemma EditSparesBuffers(m: LayerManager)
      requires old(Wired()) && Wired() && m in managers && OnlyEdited(m)
      ensures old(m.Ready()) && m.Ready()
      ensures forall a :: a in m.OwnArrays() ==> unchanged(a)
    {
      assert WiredManager(m) && old(WiredManager(m));
      if m != root { assert WiredLayer(m.parent); }
    }

    /** Any stack of distinct layers of the manager is well wired. */
    twostate lemma RestackedIsWired(m: LayerManager)
      requires old(Wired()) && m in managers && (forall o :: o in managers && o != m ==> unchanged(o))
      requires m.buffer == old(m.buffer) && m.back == old(m.back) && m.parent == old(m.parent)
      requires m.layers == old(m.layers) && m.latestId == old(m.latestId)
      requires Stackable(m.stack, m.layers)
      ensures Wired()
    {
      assert old(WiredManager(m));
      forall o | o in managers ensures WiredManager(o) { assert old(WiredManager(o)); }
      forall l | l in layers ensures WiredLayer(l) { assert old(WiredLayer(l)); }
    }

    /** Redrawing m completely: m is fresh, and all others but its parent's manager are as fresh as before. */
    twostate lemma Redrawn(m: LayerManager)
      requires old(Wired()) && Wired() && m in managers && unchanged(managers) && unchanged(layers)
      requires forall a :: a in Arrays() && a !in m.OwnArrays() ==> unchanged(a)
      requires m.Ready() && m.Fresh()
      ensures forall good: set<LayerManager> :: good <= managers && old(AllFresh(good)) ==>
        AllFresh(good - ParentOf(m) + {m})
    {
      hide World.FreshIn, World.WiredManager, World.WiredLayer;
      OthersUnchanged(m);
      FreshAlone(this, m);
      forall good: set<LayerManager> | good <= managers && old(AllFresh(good))
        ensures AllFresh(good - ParentOf(m) + {m})
      {
        forall o | o in good - ParentOf(m) + {m} ensures FreshIn(o) { if o != m { assert old(FreshIn(o)); } }
      }
    }

    twostate lemma RootSound()
      requires old(Wired()) && Wired() && old(Reserved()) && root.Ready() && root.InSync()
      requires forall a :: a in Arrays() && a !in root.OwnArrays() ==> unchanged(a)
      ensures Sound()
    {
      hide PictureOf, ReservedZero, WiredManager, WiredLayer;
      assert forall l :: l in layers ==> l.fb.bytes in Arrays();
      PixelsKept();
    }

    twostate lemma RootBufferSet()
      requires old(Wired()) && forall m :: m in managers && m != root ==> unchanged(m)
      requires unchanged(layers) && forall l :: l in layers ==> unchanged(l.fb.bytes) && l.fb.bytes !in root.OwnArrays()
      requires old(Reserved()) && root.Ready() && root.InSync() && root.parent == null
      requires root.layers == old(root.layers)
      ensures Wired() && Sound()
      ensures forall good: set<LayerManager> :: good <= managers && old(AllFresh(good)) ==> AllFresh(good - {root})
    {
      hide World.FreshIn, PictureOf, ReservedZero;
      forall o | o in managers ensures WiredManager(o) { assert old(WiredManager(o)); }
      forall l | l in layers ensures WiredLayer(l) { assert old(WiredLayer(l)); }
      forall good: set<LayerManager> | good <= managers && old(AllFresh(good)) ensures AllFresh(good - {root}) {
        forall o | o in good - {root} ensures FreshIn(o) {
          assert old(FreshIn(o)) && WiredManager(o) && WiredLayer(o.parent);
          FreshnessFramed(o);
          FreshIsFresh(o);
        }
      }
    }

    twostate lemma FreshIsFresh(o: LayerManager)
      requires old(Wired()) && Wired() && o in managers && old(FreshIn(o)) && (old(o.Fresh()) ==> o.Fresh())
      ensures FreshIn(o)
    {
    }

    /** `before` is the stack of l's manager with `start` for l's picture. */
    ghost predicate StackWith(l: Layer, start: Picture, before: seq<LayerView>)
      requires Wired() && l in layers
      reads managers, layers, Arrays()
    {
      GroupInStack(this, l);
      OwnedArrays(this, l.manager);
      var stack := l.manager.stack;
      && |before| == |stack|
      && forall k :: 0 <= k < |stack| ==>
           before[k] == if stack[k] == l then stack[k].View().(image := start) else stack[k].View()
    }

    /** l's manager still shows that stack. */
    ghost predicate StillShows(l: Layer, before: seq<LayerView>)
      requires Wired() && l in layers
      reads managers, layers, Arrays()
    {
      GroupInStack(this, l);
      OwnedArrays(this, l.manager);
      l.manager.buffer != null ==> Consistent(before, l.manager.Target().Picture())
    }

    /** While a layer is being painted, nothing but its own pixels has changed. */
    twostate lemma PaintingIsLocal(l: Layer)
      requires old(Wired()) && old(Sound()) && l in layers && l.child == null
      requires l.fb.Valid() && old(l.manager.Ready()) && l.manager.Ready() && ReservedZero(l.fb.Picture())
      requires (forall m :: m in managers ==> unchanged(m)) && (forall k :: k in layers ==> unchanged(k))
      requires forall a :: a in Arrays() && a != l.fb.bytes ==> unchanged(a)
      ensures Wired() && Sound()
      ensures forall good: set<LayerManager> :: good <= managers && old(AllFresh(good)) ==> AllFresh(good - {l.manager})
      ensures l.manager.Ready() && l.fb.Valid() && StackWith(l, old(l.fb.Picture()), old(Views(l.manager.stack)))
      ensures l.manager in managers && (old(FreshIn(l.manager)) ==> StillShows(l, old(Views(l.manager.stack))))
    {
      hide PictureOf, Views, Consistent, WiredManager, WiredLayer, ReservedZero;
      var m := l.manager;
      GroupInStack(this, l);
      OnlyPixels(l);
      forall k | k in layers && k.fb.Valid()
        ensures ReservedZero(k.fb.Picture())
      {
        if k != l { assert unchanged(k.fb.bytes); }
      }
      EditIsLocal(m);
      forall k | 0 <= k < |m.stack| && m.stack[k] != l ensures m.stack[k].View() == old(m.stack[k].View()) {
        assert m.stack[k] in layers && unchanged(m.stack[k]) && unchanged(m.stack[k].fb.bytes);
      }
    }

    twostate lemma OnlyPixels(l: Layer)
      requires old(Wired()) && l in layers && l.child == null
      requires (forall m :: m in managers ==> unchanged(m)) && (forall k :: k in layers ==> unchanged(k))
      requires forall a :: a in Arrays() && a != l.fb.bytes ==> unchanged(a)
      ensures Wired() && OnlyEdited(l.manager) && old(l.manager.Ready())
      ensures forall k :: k in layers && k != l ==> unchanged(k.fb.bytes)
    {
      hide WiredManager, WiredLayer;
      assert root in managers && old(root.OwnArrays()) == root.OwnArrays();
      assert Wired();
      GroupInStack(this, l);
      forall k | k in layers && k != l ensures unchanged(k.fb.bytes) {
        assert k.fb.bytes in Arrays() && k.fb.bytes != l.fb.bytes;
      }
      forall a | a in root.OwnArrays() ensures unchanged(a) { assert a in Arrays() && a != l.fb.bytes; }
    }

    ghost function Plus(l: Layer): World {
      World(root, if l.child == null then managers else managers + {l.child}, layers + {l})
    }

    /** A hidden layer with its own memory, and its still empty child manager if it has one, is added. */
    twostate predicate Added(new l: Layer)
      reads root, managers, layers, Arrays(), if l.child == null then {} else {l.child}
    {
      var m := l.manager;
      && m in managers && l !in layers && l.fb.Valid() && l.fb.format == m.format
      && (forall k :: k in layers ==> k.fb.bytes != l.fb.bytes) && l.fb.bytes !in root.OwnArrays()
      && (forall o :: o in managers && o != m ==> unchanged(o))
      && m.layers == old(m.layers) + [l] && m.latestId == l.id > old(m.latestId)
      && m.buffer == old(m.buffer) && m.back == old(m.back) && m.parent == old(m.parent) && m.stack == old(m.stack)
      && (forall k :: k in layers ==> unchanged(k) && unchanged(k.fb.bytes))
      && root.OwnArrays() == old(root.OwnArrays()) && (forall a :: a in root.OwnArrays() ==> unchanged(a))
      && (l.child != null ==> l.child !in managers && NewChild(l.child, l))
    }

    twostate lemma LayerAdded(new l: Layer)
      requires old(Wired()) && old(Sound()) && Added(l) && ReservedZero(l.fb.Picture())
      ensures Plus(l).Wired() && Plus(l).Sound()
      ensures forall good: set<LayerManager> :: good <= managers && old(AllFresh(good)) ==>
        Plus(l).AllFresh(good + if l.child == null then {} else {l.child})
    {
      hide PictureOf, Consistent, Views, WiredManager, WiredLayer, Wired, LayerManager.Fresh, LayerManager.InSync,
        NewChild, ReservedZero;
      AddedIsWired(l);
      AddedManagers(l);
      AddedSpares(l);
      forall good: set<LayerManager> | good <= managers && old(AllFresh(good))
        ensures Plus(l).AllFresh(good + if l.child == null then {} else {l.child})
      {
        forall o | o in good + (if l.child == null then {} else {l.child}) ensures Plus(l).FreshIn(o) {
          if o in managers {
            assert old(FreshIn(o));
            FreshnessFramed(o);
          } else {
            NewChildIsFresh(Plus(l), l);
          }
        }
      }
      FreshnessFramed(root);
    }

    twostate lemma AddedManagers(new l: Layer)
      requires old(Wired()) && Added(l)
      ensures root in managers && (l.child != null ==> NewChild(l.child, l))
    {
    }

    twostate lemma AddedIsWired(new l: Layer)
      requires old(Wired()) && Added(l)
      ensures Plus(l).Wired()
    {
      hide WiredManager, WiredLayer, NewChild;
      AddedManagersWired(l);
      AddedLayersWired(l);
    }

    twostate lemma AddedManagersWired(new l: Layer)
      requires old(Wired()) && Added(l)
      ensures forall o :: o in Plus(l).managers ==> Plus(l).WiredManager(o)
    {
      hide WiredLayer;
      AddedManagerReady(l);
      forall o | o in Plus(l).managers ensures Plus(l).WiredManager(o) {
        if o in managers { assert old(WiredManager(o)); }
      }
    }

    twostate lemma AddedLayersWired(new l: Layer)
      requires old(Wired()) && Added(l)
      ensures forall k :: k in Plus(l).layers ==> Plus(l).WiredLayer(k)
    {
      hide WiredManager;
      forall k | k in Plus(l).layers ensures Plus(l).WiredLayer(k) {
        if k in layers { assert old(WiredLayer(k)); }
      }
    }

    twostate lemma AddedManagerReady(new l: Layer)
      requires old(Wired()) && Added(l)
      ensures l.manager.Ready() && (l.child != null ==> l.child.Ready())
    {
      var m := l.manager;
      assert old(WiredManager(m));
      if m != root { assert old(WiredLayer(m.parent)); }
    }

    twostate lemma AddedSpares(new l: Layer)
      requires old(Wired()) && Plus(l).Wired() && Added(l)
      ensures forall o :: o in managers ==> old(o.Ready()) && o.Ready() && Spared(o)
    {
      hide WiredManager, WiredLayer, LayerManager.Ready, Spared, Added;
      AddedReady(l);
      AddedSpared(l);
    }

    twostate lemma AddedReady(new l: Layer)
      requires old(Wired()) && Plus(l).Wired()
      ensures forall o :: o in managers ==> old(o.Ready()) && o.Ready()
    {
      hide WiredLayer, LayerManager.Ready;
      forall o | o in managers ensures old(o.Ready()) && o.Ready() {
        assert Plus(l).WiredManager(o) && old(WiredManager(o));
      }
    }

    twostate lemma AddedSpared(new l: Layer)
      requires old(Wired()) && Added(l)
      ensures forall o :: o in managers ==> Spared(o)
    {
      forall o | o in managers ensures Spared(o) {
        assert old(WiredManager(o));
        forall k | k in o.stack ensures k in layers { assert k in old(o.layers); }
        if o != root { assert old(WiredLayer(o.parent)); }
      }
    }
  }

  lemma OwnedArrays(w: World, m: LayerManager)
    requires w.Wired() && m in w.managers
    ensures m.Arrays() <= w.Arrays() && m.OwnArrays() <= w.Arrays() && forall l :: l in m.stack ==> l in w.layers
  {
  }

  /** A manager's drawing buffer is seen by no manager but the one its parent layer is in. */
  lemma OnlyParentSees(w: World, m: LayerManager, o: LayerManager)
    requires w.Wired() && m in w.managers && o in w.managers && o != m
    requires m.parent != null ==> o != m.parent.manager
    ensures m.OwnArrays() !! o.Arrays()
  {
  }

  twostate lemma FreshnessFramed(o: LayerManager)
    requires old(o.Ready()) && o.Ready() && o.stack == old(o.stack) && o.buffer == old(o.buffer)
    requires o.back == old(o.back)
    requires (forall l :: l in o.stack ==> unchanged(l)) && (forall a :: a in o.Arrays() ==> unchanged(a))
    ensures o.Fresh() == old(o.Fresh()) && o.InSync() == old(o.InSync())
  {
    hide Consistent, Views, PictureOf;
    forall k | 0 <= k < |o.stack| ensures o.stack[k].View() == old(o.stack[k].View()) {
      assert o.stack[k] in o.stack && o.stack[k].fb.bytes in o.Arrays();
    }
    assert Views(o.stack) == old(Views(o.stack));
    if o.buffer != null {
      assert o.buffer.bytes in o.Arrays() && o.buffer.Picture() == old(o.buffer.Picture());
      if o.double { assert o.back.bytes in o.Arrays() && o.back.Picture() == old(o.back.Picture()); }
    }
  }

  ghost function ParentOf(m: LayerManager): set<LayerManager>
    reads m
  {
    if m.parent == null then {} else {m.parent.manager}
  }

  /** LayerManager, or DoubleBufferedLayerManager when `double`. */
  class LayerManager {
    const format: PixelFormat
    const double: bool
    ghost const depth: nat
    var buffer: FrameBuffer?
    var back: FrameBuffer?
    var parent: Layer?
    var layers: seq<Layer>
    var stack: seq<Layer>
    var latestId: nat

    constructor (format: PixelFormat, double: bool, ghost depth: nat)
      ensures this.format == format && this.double == double && this.depth == depth
      ensures buffer == null && back == null && parent == null && layers == [] && stack == [] && latestId == 0
    {
      this.format, this.double, this.depth := format, double, depth;
      buffer, back, parent, layers, stack, latestId := null, null, null, [], [], 0;
    }

    /** The buffer that layers are drawn into. */
    function Target(): FrameBuffer?
      reads this
    {
      if double then back else buffer
    }

    ghost predicate Drawable(b: FrameBuffer) reads this {
      b.Valid() && b.format == format && forall l :: l in layers ==> l.fb.bytes != b.bytes
    }

    ghost predicate Ready()
      reads this
    {
      && (forall l :: l in layers ==> l.manager == this && l.fb.Valid() && l.fb.format == format && l.id <= latestId)
      && (forall i, j :: 0 <= i < j < |layers| ==> layers[i].id != layers[j].id)
      && (forall l :: l in stack ==> l in layers)
      && (forall i, j :: 0 <= i < j < |stack| ==> stack[i].id != stack[j].id)
      && (buffer != null ==> Drawable(buffer))
      && (if double then
            && (buffer == null <==> back == null)
            && (buffer != null ==> Drawable(back) && Twins(buffer, back))
          else back == null)
    }

    ghost function Arrays(): set<array<byte>>
      reads this
    {
      (set l | l in stack :: l.fb.bytes) + (if buffer == null then {} else {buffer.bytes})
        + (if back == null then {} else {back.bytes})
    }

    /** The drawn picture, empty without a buffer. */
    ghost function Shown(): Picture
      requires Ready()
      reads this, Arrays()
    {
      if buffer == null then Picture(0, 0, []) else Target().Picture()
    }

    ghost predicate InSync()
      requires Ready()
      reads this, Arrays()
    {
      double && buffer != null ==> buffer.Picture() == back.Picture()
    }

    /** What is drawn is the composition of the stack, and on the screen too. */
    ghost predicate Fresh()
      requires Ready()
      reads this, stack, Arrays()
    {
      buffer != null ==> Consistent(Views(stack), Target().Picture()) && InSync()
    }

    // ----- drawing -----

    /** draw_to. */
    method DrawAllTo(target: FrameBuffer)
      requires Ready() && Drawable(target)
      modifies target.bytes
      ensures target.Picture() == Paint(old(Views(stack)), old(target.Picture()))
    {
      DrawLayers(stack, target);
    }

    /** draw_damage_to: from the topmost opaque layer that includes the damage, unless that hides id. */
    method DrawDamageTo(target: FrameBuffer, id: nat, rect: Rect)
      requires Ready() && Drawable(target)
      modifies target.bytes
      ensures target.Picture() == DrawDamage(old(Views(stack)), old(target.Picture()), id, rect)
    {
      hide CoverBelow, PaintIn, Views;
      var i := FindCover(rect);
      PlaceMeansHasId(stack, id, i);
      if Place(stack, id, i) == |stack| { return; }
      ViewsOfSuffix(stack, i);
      DrawLayersIn(stack[i..], target, rect);
    }

    method FindCover(rect: Rect) returns (i: nat)
      requires Ready()
      ensures i == CoverBelow(Views(stack), rect, |stack|)
    {
      i := |stack|;
      while i != 0
        invariant 0 <= i <= |stack|
        invariant CoverBelow(Views(stack), rect, |stack|) == CoverBelow(Views(stack), rect, i)
      {
        i := i - 1;
        if stack[i].HasTransparency() { continue; }
        if stack[i].ManagerArea().Includes(rect) { break; }
      }
    }

    // ----- damage -----

    ghost function OwnArrays(): set<array<byte>>
      reads this`buffer, this`back
    {
      (if buffer == null then {} else {buffer.bytes}) + (if back == null then {} else {back.bytes})
    }

    /** The local half of damage: redraw, and copy the damaged rectangle to the front buffer. */
    method Redraw(id: nat, rect: Rect)
      requires Ready() && buffer != null && InSync()
      modifies OwnArrays()
      ensures Target().Picture() == DrawDamage(old(Views(stack)), old(Target().Picture()), id, rect)
      ensures InSync()
    {
      hide DrawDamage, Views, PictureOf, Blit;
      if double {
        ghost var was, views := back.Picture(), Views(stack);
        PictureOfShape(back);
        DrawDamageTo(back, id, rect);
        ghost var now := back.Picture();
        var e := buffer.CopyFrom(back, rect.TopLeft(), rect.TopLeft(), rect.Size(), None);
        DamageStaysInside(views, was, id, rect);
        CopyingDamageSyncs(was, now, rect);
      } else {
        DrawDamageTo(buffer, id, rect);
      }
    }

    /** In a world of managers this keeps front and back equal and reserved bytes zero. */
    method RedrawSoundly(ghost w: World, id: nat, rect: Rect)
      requires w.Wired() && this in w.managers && w.Sound() && Ready() && buffer != null
      modifies OwnArrays()
      ensures Target().Picture() == DrawDamage(old(Views(stack)), old(Target().Picture()), id, rect)
      ensures w.Wired() && w.Sound()
    {
      hide DrawDamage, Views, PictureOf, World.Sound, World.Wired, ReservedZero, AllReservedZero;
      WiringOf(w, this);
      PictureOfShape(Target());
      StackReserved(w, this);
      Redraw(id, rect);
      if this != w.root { DamageKeepsReserved(old(Views(stack)), old(Target().Picture()), id, rect); }
      w.StaysSound(this);
    }

    /** What damage does to the manager itself: only its parent's manager may be stale then. */
    method DamageHere(ghost w: World, id: nat, rect: Rect, ghost good: set<LayerManager>)
      requires w.Wired() && this in w.managers && good <= w.managers && this !in good && w.Sound() && w.AllFresh(good)
      requires Ready() && buffer != null
      modifies OwnArrays()
      ensures w.Wired() && w.Sound() && w.AllFresh(good - ParentOf(this)) && w.Untouched(depth)
      ensures Target().Picture() == DrawDamage(old(Views(stack)), old(Target().Picture()), id, rect)
    {
      hide DrawDamage, Views, PictureOf, World.AllFresh, World.FreshIn, World.Sound, World.Wired, Ready;
      RedrawSoundly(w, id, rect);
      w.OthersStayFresh(this);
      OwnIsShallow(w, this);
    }

    method MergeRects(rects: seq<Rect>) returns (merged: Rect)
      requires rects != []
      ensures merged == MergeAll(rects)
    {
      merged := rects[0];
      assert rects[..1] == [rects[0]];
      for i := 1 to |rects|
        invariant merged == MergeAll(rects[..i])
      {
        merged := merged.Merge(rects[i]);
        assert rects[..i + 1][..i] == rects[..i];
      }
      assert rects[..|rects|] == rects;
    }

    /** LayerManager::damage and its double-buffered override. The manager's own buffer becomes the
        damage redraw; every manager in `good` stays the composition of its stack, ancestors
        included; buffers of layers below this manager do not change. */
    method Damage(ghost w: World, id: nat, rects: seq<Rect>, ghost good: set<LayerManager>)
      requires w.Wired() && this in w.managers && good <= w.managers && this !in good
      requires w.Sound() && w.AllFresh(good)
      modifies w.Arrays()
      ensures w.Wired() && w.Sound() && w.AllFresh(good)
      ensures w.Untouched(depth)
      ensures buffer != null ==>
        Target().Picture() == DamageResult(old(Views(stack)), old(Target().Picture()), id, rects)
      decreases depth, 0
    {
      hide DrawDamage, Views, PictureOf, World.AllFresh, World.FreshIn, World.Sound, World.Wired, ReservedZero,
        AllReservedZero, Consistent, AgreeOutside, SameAbove, MergeAll, DiffersWithin;
      WiringOf(w, this);
      if buffer == null || rects == [] { return; }
      var rect := MergeRects(rects);
      if parent == null {
        DamageHere(w, id, rect, good);
        assert good - ParentOf(this) == good;
      } else {
        DamageInGroup(w, id, rects, rect, good);
        parent.Damage(w, rects, good, old(Views(parent.manager.stack)));
      }
    }

    /** The local half in a group: afterwards the group has changed inside the rectangles only, and the
        manager it is shown in still shows it as it was. */
    method DamageInGroup(ghost w: World, id: nat, ghost rects: seq<Rect>, rect: Rect, ghost good: set<LayerManager>)
      requires w.Wired() && this in w.managers && good <= w.managers && this !in good && w.Sound() && w.AllFresh(good)
      requires Ready() && buffer != null && rects != [] && rect == MergeAll(rects)
      requires parent != null && parent.manager.Ready()
      modifies OwnArrays()
      ensures w.Wired() && w.Sound() && w.AllFresh(good - {parent.manager}) && w.Untouched(depth)
      ensures Target().Picture() == DamageResult(old(Views(stack)), old(Target().Picture()), id, rects)
      ensures parent.manager.Ready()
      ensures parent.manager in good && parent.manager.buffer != null ==>
        && Consistent(old(Views(parent.manager.stack)), parent.manager.Target().Picture())
        && ChangedWithin(old(Views(parent.manager.stack)), Views(parent.manager.stack), parent.id,
             OffsetAll(rects, parent.pos))
    {
      hide World.Untouched, DrawDamage, Views, PictureOf, World.AllFresh, World.FreshIn, World.Sound, World.Wired,
        ReservedZero, AllReservedZero, Consistent, AgreeOutside, SameAbove, MergeAll, DiffersWithin;
      WiringOf(w, this);
      if parent.manager in good { SomeFresh(w, good, {parent.manager}); }
      PictureOfShape(Target());
      DamageHere(w, id, rect, good);
      DamageStaysInside(old(Views(stack)), old(Target().Picture()), id, rect);
      w.GroupRedrawn(this);
      if parent.manager in good && parent.manager.buffer != null { w.ParentScreenUnchanged(this); }
    }

    // ----- restacking -----

    ghost predicate HasLayer(id: nat)
      reads this
    {
      exists l :: l in layers && l.id == id
    }

    /** find_layer. */
    function FindLayer(id: nat): (l: Layer?)
      reads this
      ensures l != null <==> HasLayer(id)
      ensures l != null ==> l in layers && l.id == id
    {
      var k := Place(layers, id, 0);
      if k < |layers| then layers[k] else null
    }

    /** hide: drop the layer from the stack, without repainting. The manager stays fresh exactly when no
        stale pixel is left; a stale manager stays whatever it is. */
    method Hide(ghost w: World, ghost good: set<LayerManager>, id: nat)
      requires w.Wired() && this in w.managers && w.Sound() && good <= w.managers && w.AllFresh(good)
      modifies this`stack
      ensures w.Wired() && w.Sound() && w.AllFresh(good - {this})
      ensures var was := old(Place(stack, id, 0)); was == |old(stack)| ==> stack == old(stack) && w.AllFresh(good)
      ensures var was := old(Place(stack, id, 0)); was < |old(stack)| ==> stack == Without(old(stack), was)
      ensures var was := old(Place(stack, id, 0)); was < |old(stack)| && this in good ==>
        (w.FreshIn(this) <==> HiddenUnseen(old(Views(stack)), was, old(Shown())))
    {
      hide Views, PictureOf, World.AllFresh, World.Sound, World.FreshIn, World.Wired, Consistent, HiddenUnseen, Without,
        Ready;
      WiringOf(w, this);
      SomeFresh(w, good, good - {this});
      if this in good {
        SomeFresh(w, good, {this});
        FreshMeansConsistent(w, this);
      }
      var k := Place(stack, id, 0);
      if k < |stack| {
        Erase(w, good, k);
        if this in good { WithoutHidden(w, this, old(Views(stack)), k); }
      }
    }

    /** layer_stack_.erase. */
    method Erase(ghost w: World, ghost good: set<LayerManager>, k: nat)
      requires w.Wired() && this in w.managers && w.Sound() && good <= w.managers && w.AllFresh(good) && k < |stack|
      modifies this`stack
      ensures stack == Without(old(stack), k) && |stack| == |old(stack)| - 1
      ensures forall l :: l in stack ==> l.id != old(stack[k]).id
      ensures w.Wired() && w.Sound() && w.AllFresh(good - {this}) && Ready()
      ensures Views(stack) == Without(old(Views(stack)), k) && Shown() == old(Shown())
    {
      hide Views, PictureOf, World.AllFresh, World.Sound, World.FreshIn, World.Wired, Consistent, Without, ReservedZero;
      WiringOf(w, this);
      WithoutIsStackable(stack, layers, k);
      stack := Without(stack, k);
      w.RestackedIsWired(this);
      w.StaysReserved();
      w.EditIsLocal(this);
      ViewsOfWithout(old(stack), k);
    }

    /** The `insert` step of up_down: put the layer in and damage its area. */
    method Insert(ghost w: World, ghost good: set<LayerManager>, j: nat, l: Layer)
      requires w.Wired() && this in w.managers && w.Sound() && good <= w.managers && this !in good && w.AllFresh(good)
      requires l in layers && j <= |stack| && forall k :: k in stack ==> k.id != l.id
      modifies this`stack, w.Arrays()
      ensures stack == With(old(stack), j, l)
      ensures w.Wired() && w.Sound() && w.AllFresh(good) && w.Untouched(depth)
      ensures Views(stack) == With(old(Views(stack)), j, old(l.View()))
      ensures buffer != null ==>
        Target().Picture() == DrawDamage(Views(stack), old(Target().Picture()), l.id, l.ManagerArea())
    {
      hide DrawDamage, Views, PictureOf, World.AllFresh, World.Sound, World.Wired, Consistent, With, ReservedZero;
      WiringOf(w, this);
      WithIsStackable(stack, layers, j, l);
      stack := With(stack, j, l);
      w.RestackedIsWired(this);
      WiringOf(w, this);
      w.StaysReserved();
      w.EditIsLocal(this);
      assert good - {this} == good;
      ViewsOfWith(old(stack), j, l);
      label Edited:
      var area := l.ManagerArea();
      Damage(w, l.id, [area], good);
      w.StackUntouched@Edited(this);
    }

    /** up_down of a hidden layer. */
    method ShowAt(ghost w: World, ghost good: set<LayerManager>, j: nat, l: Layer)
      requires w.Wired() && this in w.managers && w.Sound() && good <= w.managers && w.AllFresh(good)
      requires l in layers && j <= |stack| && forall k :: k in stack ==> k.id != l.id
      modifies this`stack, w.Arrays()
      ensures stack == With(old(stack), j, l)
      ensures w.Wired() && w.Sound() && w.AllFresh(good) && w.Untouched(depth)
    {
      hide DrawDamage, Views, PictureOf, World.AllFresh, World.Sound, World.FreshIn, World.Wired, World.Untouched,
        Consistent;
      WiringOf(w, this);
      SomeFresh(w, good, good - {this});
      if this in good {
        SomeFresh(w, good, {this});
        FreshMeansConsistent(w, this);
      }
      ViewArea(l);
      Insert(w, good - {this}, j, l);
      WiringOf(w, this);
      InsertIsLocal(old(Views(stack)), j, old(l.View()));
      EditRedrawn(w, good, this, old(Views(stack)), Views(stack), old(Shown()), l.id, [l.ManagerArea()]);
    }

    /** up_down of a layer in the stack: erase it, then insert it again. */
    method Reorder(ghost w: World, ghost good: set<LayerManager>, was: nat, now: nat, l: Layer)
      requires w.Wired() && this in w.managers && w.Sound() && good <= w.managers && w.AllFresh(good)
      requires was < |stack| && now < |stack| && stack[was] == l
      modifies this`stack, w.Arrays()
      ensures stack == With(Without(old(stack), was), now, l)
      ensures w.Wired() && w.Sound() && w.AllFresh(good - {this}) && w.Untouched(depth)
      ensures was <= now ==> w.AllFresh(good)
      ensures now <= was && this in good ==> (w.FreshIn(this) <==>
        LoweredUnseen(old(Views(stack)), was, now, old(Shown())))
    {
      hide DrawDamage, Views, PictureOf, World.AllFresh, World.Sound, World.FreshIn, World.Wired, Consistent,
        LoweredUnseen, Without, With;
      WiringOf(w, this);
      if this in good {
        SomeFresh(w, good, {this});
        FreshMeansConsistent(w, this);
      }
      ViewArea(l);
      ghost var v0 := Views(stack);
      Erase(w, good, was);
      Insert(w, good - {this}, now, l);
      WiringOf(w, this);
      if was <= now {
        RaiseIsLocal(v0, was, now);
        EditRedrawn(w, good, this, v0, Views(stack), old(Shown()), l.id, [l.ManagerArea()]);
      }
      if now <= was && this in good { Lowered(w, this, v0, was, now, old(Shown())); }
    }

    /** up_down. Showing or raising a layer keeps what is fresh; hiding or lowering it keeps this
        manager fresh exactly when no stale pixel is left. */
    method UpDown(ghost w: World, ghost good: set<LayerManager>, id: nat, newHeight: int)
      requires w.Wired() && this in w.managers && w.Sound() && good <= w.managers && w.AllFresh(good)
      requires newHeight >= 0 ==> HasLayer(id)
      modifies this`stack, w.Arrays()
      ensures w.Wired() && w.Sound() && w.AllFresh(good - {this}) && w.Untouched(depth)
      ensures var was := old(Place(stack, id, 0)); newHeight < 0 && was == |old(stack)| ==>
        stack == old(stack) && w.AllFresh(good)
      ensures var was := old(Place(stack, id, 0)); newHeight < 0 && was < |old(stack)| ==>
        stack == Without(old(stack), was)
      ensures var was := old(Place(stack, id, 0)); newHeight < 0 && was < |old(stack)| && this in good ==>
        (w.FreshIn(this) <==> HiddenUnseen(old(Views(stack)), was, old(Shown())))
      ensures var was := old(Place(stack, id, 0)); newHeight >= 0 && was == |old(stack)| ==>
        stack == With<Layer>(old(stack), MinInt(newHeight, was), old(FindLayer(id))) && w.AllFresh(good)
      ensures var was := old(Place(stack, id, 0)); newHeight >= 0 && was < |old(stack)| ==>
        var now := MinInt(newHeight, |old(stack)| - 1);
        && stack == With<Layer>(Without(old(stack), was), now, old(FindLayer(id)))
        && (was <= now ==> w.AllFresh(good))
        && (now <= was && this in good ==>
             (w.FreshIn(this) <==> LoweredUnseen(old(Views(stack)), was, now, old(Shown()))))
    {
      hide Views, PictureOf, World.AllFresh, World.Sound, World.FreshIn, World.Wired, HiddenUnseen, LoweredUnseen,
        Ready, Shown, With, Without;
      WiringOf(w, this);
      if newHeight < 0 {
        Hide(w, good, id);
        return;
      }
      var h: nat := if newHeight > |stack| then |stack| else newHeight;
      var l := FindLayer(id);
      var k := Place(stack, id, 0);
      if k == |stack| {
        ShowAt(w, good, h, l);
        SomeFresh(w, good, good - {this});
      } else {
        OneLayerPerId(this, l, stack[k]);
        var now := if h == |stack| then h - 1 else h;
        Reorder(w, good, k, now, l);
      }
    }

    // ----- full redraw and wiring -----

    /** draw: whatever was stale in this manager, it is fresh afterwards. Nothing is reported to a
        parent, whose manager may be stale then. */
    method Draw(ghost w: World, ghost good: set<LayerManager>)
      requires w.Wired() && this in w.managers && good <= w.managers && w.AllFresh(good)
      requires w.Reserved() && (this != w.root ==> w.Sound())
      modifies OwnArrays()
      ensures w.Wired() && w.Sound() && w.AllFresh(good - ParentOf(this) + {this}) && w.Untouched(depth)
      ensures buffer != null ==> Target().Picture() == Paint(old(Views(stack)), old(Target().Picture()))
    {
      hide Views, PictureOf, World.AllFresh, World.FreshIn, World.Wired, World.Sound, World.Reserved, Consistent, Paint,
        Fresh;
      WiringOf(w, this);
      OwnIsShallow(w, this);
      PaintSoundly(w);
      w.Redrawn(this);
    }

    /** draw and DoubleBufferedLayerManager::draw: the whole stack, then the front buffer. */
    method PaintSoundly(ghost w: World)
      requires w.Wired() && this in w.managers && Ready() && w.Reserved() && (this != w.root ==> w.Sound())
      modifies OwnArrays()
      ensures w.Wired() && w.Sound() && Ready() && Fresh()
      ensures buffer != null ==> Target().Picture() == Paint(old(Views(stack)), old(Target().Picture()))
    {
      hide Views, PictureOf, World.Wired, Consistent, Paint, ReservedZero, AllReservedZero, World.Reserved;
      WiringOf(w, this);
      ghost var reserved := this != w.root && buffer != null;
      if buffer != null {
        PictureOfShape(Target());
        StackIsReserved(w, this);
        PaintAll();
        if reserved { PaintKeepsReserved(old(Views(stack)), old(Target().Picture())); }
      }
      if this == w.root { w.RootSound(); } else { w.StaysSound(this); }
    }

    method PaintAll()
      requires Ready() && buffer != null
      modifies OwnArrays()
      ensures Ready() && Fresh() && Target().Picture() == Paint(old(Views(stack)), old(Target().Picture()))
    {
      hide Views, PictureOf, Consistent, Paint;
      PictureOfShape(Target());
      DrawAllTo(Target());
      if double { buffer.Forward(back); }
      PaintedIsConsistent(old(Views(stack)), old(Target().Picture()));
      StackKept(this);
    }

    /** set_buffer on the root: a double-buffered manager clones the screen. */
    method SetBuffer(ghost w: World, ghost good: set<LayerManager>, b: FrameBuffer?)
      requires w.Wired() && this == w.root && good <= w.managers && w.AllFresh(good) && w.Reserved()
      requires b != null ==> b.Valid() && b.format == format && forall l :: l in w.layers ==> l.fb.bytes != b.bytes
      modifies this`buffer, this`back
      ensures buffer == b && w.Wired() && w.Sound() && w.AllFresh(good - {this})
      ensures double && b != null ==> fresh(back) && fresh(back.bytes)
      ensures !double ==> back == old(back)
    {
      hide World.Reserved;
      if double {
        if b == null { back := null; } else { back := b.Clone(); }
      }
      buffer := b;
      w.RootBufferSet();
    }

    /** new_layer<BufferLayer>: hidden until up_down shows it. */
    method NewBufferLayer(ghost w: World, ghost good: set<LayerManager>, width: nat, height: nat)
      returns (l: Layer, ghost w': World)
      requires w.Wired() && this in w.managers && w.Sound() && good <= w.managers && w.AllFresh(good)
      modifies this`layers, this`latestId
      ensures fresh(l) && fresh(l.fb.bytes) && l.child == null && l.manager == this && l.id == latestId
      ensures latestId == old(latestId) + 1
      ensures layers == old(layers) + [l] && l.fb.width == width && l.fb.height == height && l.pos == Vec(0, 0)
      ensures l.transparent == None && l.fb.Valid() && l.fb.format == format && l.fb.Picture() == Zeros(width, height)
      ensures w' == w.(layers := w.layers + {l}) && w'.Wired() && w'.Sound() && w'.AllFresh(good)
    {
      hide World.FreshIn, World.AllFresh, World.Sound, World.Wired, Ready, PictureOf, ReservedZero;
      WiringOf(w, this);
      latestId := latestId + 1;
      l := new Layer.Buffer(this, latestId, format, width, height);
      layers := layers + [l];
      w' := w.Plus(l);
      assert w.root.OwnArrays() == old(w.root.OwnArrays());
      w.LayerAdded(l);
      assert good + {} == good;
    }

    /** new_layer<GroupLayer>: the child manager draws into the group's own buffer. */
    method NewGroupLayer(ghost w: World, ghost good: set<LayerManager>, width: nat, height: nat)
      returns (l: Layer, ghost w': World)
      requires w.Wired() && this in w.managers && w.Sound() && good <= w.managers && w.AllFresh(good)
      modifies this`layers, this`latestId
      ensures fresh(l) && fresh(l.fb.bytes) && l.child != null && fresh(l.child) && l.child.stack == []
      ensures l.child.depth == depth + 1
      ensures l.manager == this && l.id == latestId && latestId == old(latestId) + 1
      ensures layers == old(layers) + [l] && l.fb.width == width && l.fb.height == height && l.pos == Vec(0, 0)
      ensures l.transparent == None && l.fb.Valid() && l.fb.format == l.child.format == format
      ensures w' == World(w.root, w.managers + {l.child}, w.layers + {l}) && w'.Wired() && w'.Sound()
      ensures w'.AllFresh(good + {l.child})
    {
      hide World.FreshIn, World.AllFresh, World.Sound, World.Wired, Ready, PictureOf, ReservedZero;
      WiringOf(w, this);
      latestId := latestId + 1;
      l := new Layer.Group(this, latestId, format, width, height);
      layers := layers + [l];
      w' := w.Plus(l);
      assert w.root.OwnArrays() == old(w.root.OwnArrays());
      w.LayerAdded(l);
    }
  }

  lemma WiringOf(w: World, m: LayerManager)
    requires w.Wired() && m in w.managers
    ensures m.Ready() && (w.Sound() ==> m.InSync()) && m.OwnArrays() <= w.Arrays()
    ensures m.parent != null ==>
      && m.parent in w.layers && m.parent.child == m && !m.double && m.buffer == m.parent.fb
      && m.parent.manager in w.managers && m.parent.manager.depth < m.depth && m.parent.manager.Ready()
  {
    assert w.WiredManager(m);
    if m.parent != null { assert w.WiredLayer(m.parent) && w.WiredManager(m.parent.manager); }
  }

  ghost function DamageResult(stack: seq<LayerView>, was: Picture, id: nat, rects: seq<Rect>): Picture {
    if rects == [] then was else DrawDamage(stack, was, id, MergeAll(rects))
  }

  ghost predicate ChangedWithin(before: seq<LayerView>, after: seq<LayerView>, id: nat, rects: seq<Rect>) {
    if rects == [] then before == after
    else AgreeOutside(before, after, MergeAll(rects)) && SameAbove(before, after, id)
  }

  lemma OwnIsShallow(w: World, m: LayerManager)
    requires w.Wired() && m in w.managers
    ensures forall l :: l in w.layers && (l.child == null || m.depth < l.child.depth) ==> l.fb.bytes !in m.OwnArrays()
  {
    assert w.WiredManager(m);
    if m != w.root { assert w.WiredLayer(m.parent); }
  }

  // ----- edits of one manager -----

  /** The damage redraw after a local edit restores what was fresh. */
  lemma EditRedrawn(w: World, good: set<LayerManager>, m: LayerManager, before: seq<LayerView>, after: seq<LayerView>,
      was: Picture, id: nat, rects: seq<Rect>)
    requires w.Wired() && m in w.managers && good <= w.managers && w.AllFresh(good - {m}) && w.Sound()
    requires m.Ready() && Views(m.stack) == after
    requires m in good && m.buffer != null ==>
      && was.Rectangular() && Consistent(before, was) && ChangedWithin(before, after, id, rects)
      && m.Target().Picture() == DamageResult(after, was, id, rects)
    ensures w.AllFresh(good)
  {
    hide PictureOf, Consistent, Views, DrawDamage, World.WiredManager, World.WiredLayer, AgreeOutside, SameAbove,
      World.Reserved;
    if m in good {
      if m.buffer != null && rects != [] {
        DamageRedrawIsFullRedraw(before, after, was, id, MergeAll(rects));
      }
      WiringOf(w, m);
      assert w.FreshIn(m);
    }
    forall o | o in good ensures w.FreshIn(o) { assert o == m || o in good - {m}; }
  }

  /** Drawing into a manager's own buffers leaves its layers alone. */
  twostate lemma StackKept(m: LayerManager)
    requires old(m.Ready()) && unchanged(m) && (forall l :: l in m.stack ==> unchanged(l) && unchanged(l.fb.bytes))
    ensures Views(m.stack) == old(Views(m.stack))
  {
    hide PictureOf;
    forall k | 0 <= k < |m.stack| ensures m.stack[k].View() == old(m.stack[k].View()) { assert m.stack[k] in m.stack; }
  }

  /** The layers a manager draws, and a group's own buffer, have zero reserved bytes. */
  lemma StackReserved(w: World, m: LayerManager)
    requires w.Wired() && w.Sound() && m in w.managers
    ensures m.Ready() && AllReservedZero(Views(m.stack))
    ensures m != w.root && m.buffer != null ==> ReservedZero(m.Target().Picture())
  {
    hide PictureOf, ReservedZero, World.Wired;
    StackIsReserved(w, m);
  }

  lemma StackIsReserved(w: World, m: LayerManager)
    requires w.Wired() && w.Reserved() && m in w.managers
    ensures m.Ready() && AllReservedZero(Views(m.stack))
    ensures m != w.root && m.buffer != null ==> ReservedZero(m.Target().Picture())
  {
    hide PictureOf, ReservedZero;
    WiringOf(w, m);
    forall k | 0 <= k < |m.stack|
      ensures ReservedZero(Views(m.stack)[k].image)
    {
      assert w.WiredManager(m) && m.stack[k] in w.layers;
    }
    if m != w.root { assert w.WiredManager(m); }
  }

  twostate lemma MovedWithin(l: Layer)
    requires old(l.manager.Ready()) && unchanged(l.manager) && l in l.manager.layers
    requires l.transparent == old(l.transparent) && forall k :: k in l.manager.stack && k != l ==> unchanged(k)
    requires forall k :: k in l.manager.stack ==> unchanged(k.fb.bytes)
    ensures ChangedWithin(old(Views(l.manager.stack)), Views(l.manager.stack), l.id,
      [old(l.ManagerArea()), l.ManagerArea()])
  {
    hide PictureOf, AgreeOutside, SameAbove;
    var stack := l.manager.stack;
    var v0, v1 := old(Views(stack)), Views(stack);
    var rects := [old(l.ManagerArea()), l.ManagerArea()];
    assert rects[..1] == [rects[0]];
    assert MergeAll(rects) == rects[0].Merge(rects[1]);
    forall k | 0 <= k < |stack| && stack[k] != l ensures v1[k] == v0[k] { assert stack[k] in stack; }
    if j :| 0 <= j < |stack| && stack[j] == l {
      assert stack[j] in stack;
      PictureOfShape(l.fb);
      MoveIsLocal(v0, j, l.pos);
      assert v1 == v0[j := v0[j].(pos := l.pos)];
    } else {
      assert v1 == v0;
      SameStack(v0, rects, l.id);
    }
  }

  lemma {:induction false} ViewsOfWith(stack: seq<Layer>, j: nat, l: Layer)
    requires j <= |stack| && l.fb.Valid() && forall k :: k in stack ==> k.fb.Valid()
    ensures Views(With(stack, j, l)) == With(Views(stack), j, l.View())
  {
    hide Views, Layer.View;
    var a, b := Views(With(stack, j, l)), With(Views(stack), j, l.View());
    forall k | 0 <= k < |a| ensures a[k] == b[k] { assert a[k] == With(stack, j, l)[k].View(); }
  }

  lemma {:induction false} ViewsOfWithout(stack: seq<Layer>, j: nat)
    requires j < |stack| && forall k :: k in stack ==> k.fb.Valid()
    ensures Views(Without(stack, j)) == Without(Views(stack), j)
  {
    hide Views, Layer.View;
    var a, b := Views(Without(stack, j)), Without(Views(stack), j);
    forall k | 0 <= k < |a| ensures a[k] == b[k] { assert a[k] == Without(stack, j)[k].View(); }
  }

  lemma SomeFresh(w: World, all: set<LayerManager>, ms: set<LayerManager>)
    requires w.Wired() && all <= w.managers && w.AllFresh(all) && ms <= all
    ensures w.AllFresh(ms)
  {
  }

  lemma FreshMeansConsistent(w: World, m: LayerManager)
    requires w.Wired() && m in w.managers && w.AllFresh({m})
    ensures m.Ready() && UniqueIds(Views(m.stack)) && Consistent(Views(m.stack), m.Shown()) && m.Shown().Rectangular()
  {
    hide Consistent, Views, PictureOf;
    WiringOf(w, m);
    assert w.FreshIn(m);
    if m.buffer != null { PictureOfShape(m.Target()); } else { NothingToShow(Views(m.stack)); }
  }

  lemma NothingToShow(stack: seq<LayerView>)
    ensures Consistent(stack, Picture(0, 0, [])) && Picture(0, 0, []).Rectangular()
  {
  }

  lemma ViewArea(l: Layer)
    requires l.fb.Valid()
    ensures l.View().Area() == l.ManagerArea() && l.View().id == l.id
  {
    hide PictureOf;
    PictureOfShape(l.fb);
  }

  lemma Lowered(w: World, m: LayerManager, before: seq<LayerView>, was: nat, now: nat, screen: Picture)
    requires w.Wired() && m in w.managers && w.Sound() && m.Ready()
    requires now <= was < |before| && UniqueIds(before) && screen.Rectangular() && Consistent(before, screen)
    requires Views(m.stack) == With(Without(before, was), now, before[was])
    requires if m.buffer == null then screen == Picture(0, 0, [])
             else m.Target().Picture() == DrawDamage(Views(m.stack), screen, before[was].id, before[was].Area())
    ensures w.FreshIn(m) <==> LoweredUnseen(before, was, now, screen)
  {
    hide PictureOf, Views, Consistent, World.WiredManager, World.WiredLayer, Top, DrawDamage;
    WiringOf(w, m);
    if m.buffer != null { LowerExact(before, was, now, screen); }
  }

  twostate lemma RekeyedViews(l: Layer)
    requires old(l.manager.Ready()) && unchanged(l.manager) && l.pos == old(l.pos) && l in l.manager.layers
    requires forall k :: k in l.manager.stack && k != l ==> unchanged(k)
    requires forall k :: k in l.manager.stack ==> unchanged(k.fb.bytes)
    ensures var stack := l.manager.stack;
      && (forall j :: 0 <= j < |stack| && stack[j] == l ==>
           Views(stack) == old(Views(stack))[j := old(Views(stack))[j].(key := KeyPixel(l.fb.format, l.transparent))])
      && (l !in stack ==> Views(stack) == old(Views(stack)))
  {
    hide PictureOf, KeyPixel;
    var stack := l.manager.stack;
    var v0, v1 := old(Views(stack)), Views(stack);
    forall k | 0 <= k < |stack| && stack[k] != l ensures v1[k] == v0[k] { assert stack[k] in stack; }
    if j :| 0 <= j < |stack| && stack[j] == l {
      assert stack[j] in stack;
      assert forall i :: 0 <= i < |stack| && i != j ==> stack[i] != l;
      assert v1 == v0[j := v0[j].(key := KeyPixel(l.fb.format, l.transparent))];
    }
  }

  lemma Rekeyed(w: World, good: set<LayerManager>, l: Layer, before: seq<LayerView>)
    requires w.Wired() && l in w.layers && w.Sound() && l.manager in good && good <= w.managers
    requires w.AllFresh(good - {l.manager})
    requires l.manager.Ready() && |before| == |l.manager.stack| && Consistent(before, l.manager.Shown())
    requires forall j :: 0 <= j < |before| && l.manager.stack[j] == l ==>
      Views(l.manager.stack) == before[j := before[j].(key := KeyPixel(l.fb.format, l.transparent))]
    requires l !in l.manager.stack ==> Views(l.manager.stack) == before
    ensures l !in l.manager.stack ==> w.AllFresh(good)
    ensures forall j :: 0 <= j < |before| && l.manager.stack[j] == l ==>
      (w.FreshIn(l.manager) <==> RekeyedUnseen(before, j, KeyPixel(l.fb.format, l.transparent), l.manager.Shown()))
  {
    hide PictureOf, Views, Consistent, World.WiredManager, World.WiredLayer, Top, KeyPixel, RekeyedUnseen,
      World.Reserved;
    var m := l.manager;
    WiringOf(w, m);
    forall j | 0 <= j < |before| && m.stack[j] == l
      ensures w.FreshIn(m) <==> RekeyedUnseen(before, j, KeyPixel(l.fb.format, l.transparent), m.Shown())
    {
      RekeyExact(before, j, KeyPixel(l.fb.format, l.transparent), m.Shown());
      if m.buffer == null { NothingToShow(Views(m.stack)); }
    }
    if l !in m.stack {
      assert w.FreshIn(m);
      forall o | o in good ensures w.FreshIn(o) { assert o == m || o in good - {m}; }
    }
  }

  lemma WithoutHidden(w: World, m: LayerManager, before: seq<LayerView>, j: nat)
    requires w.Wired() && m in w.managers && w.Sound() && m.Ready()
    requires j < |before| && Views(m.stack) == Without(before, j)
    requires Consistent(before, m.Shown())
    ensures w.FreshIn(m) <==> HiddenUnseen(before, j, m.Shown())
  {
    hide PictureOf, Views, Consistent, World.WiredManager, World.WiredLayer, Top;
    WiringOf(w, m);
    if m.buffer != null { HideExact(before, j, m.Target().Picture()); }
  }

  lemma FreshAlone(w: World, m: LayerManager)
    requires w.Wired() && m in w.managers && m.Ready()
    ensures w.FreshIn(m) == m.Fresh()
  {
  }

  lemma GroupInStack(w: World, l: Layer)
    requires w.Wired() && l in w.layers
    ensures l.manager in w.managers && l.manager.Ready() && l in l.manager.layers
    ensures forall k :: 0 <= k < |l.manager.stack| ==>
      l.manager.stack[k] in w.layers && (l.manager.stack[k].id == l.id <==> l.manager.stack[k] == l)
  {
    assert w.WiredLayer(l) && w.WiredManager(l.manager);
    forall k | 0 <= k < |l.manager.stack| ensures l.manager.stack[k].id == l.id <==> l.manager.stack[k] == l {
      if l.manager.stack[k].id == l.id { OneLayerPerId(l.manager, l, l.manager.stack[k]); }
    }
  }

  lemma OneLayerPerId(m: LayerManager, a: Layer, b: Layer)
    requires m.Ready() && a in m.layers && (b in m.layers || b in m.stack) && a.id == b.id
    ensures a == b
  {
  }

  lemma NewChildIsFresh(w: World, l: Layer)
    requires w.Wired() && l.child != null && l.child in w.managers && NewChild(l.child, l)
    ensures w.FreshIn(l.child)
  {
    assert w.WiredManager(l.child);
  }

  ghost predicate NewChild(c: LayerManager, l: Layer)
    reads c
  {
    c.parent == l && c.buffer == l.fb && c.back == null && !c.double && c.format == l.fb.format
    && c.layers == [] && c.stack == [] && l.manager.depth < c.depth
  }

  lemma SameStack(v: seq<LayerView>, rects: seq<Rect>, id: nat)
    ensures ChangedWithin(v, v, id, rects)
  {
  }

  lemma PictureOfShape(fb: FrameBuffer)
    requires fb.Valid()
    ensures fb.Picture().Rectangular() && fb.Picture().width == fb.width && fb.Picture().height == fb.height
  {
    PictureOfAt(fb.bytes[..], fb.width, fb.stride, fb.height);
  }
}
