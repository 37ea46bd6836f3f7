/**
 * Which scene the objects on a desk depict, and that a scene says all there is to see: where every
 * manager is the composition of its stack, the pixels of the screen are those of the scene.
 */
module Depictions {
  import opened Geometry
  import opened Composition
  import opened Options
  import opened Seqs
  import opened FrameBuffers
  import opened Layers
  import opened NestedComposition
  import opened Painters
  import opened Scenes

  /** The objects a run has created so far. */
  datatype Desk = Desk(root: LayerManager, font: Font, managers: seq<LayerManager>, layers: seq<Layer>)

  ghost predicate Depicts(d: Desk, s: Scene)
    reads d.managers, d.layers, set l | l in d.layers :: l.fb.bytes
  {
    && |s.layers| == |d.layers| && |s.stacks| == |d.managers| && Once(d.layers) && OneFormat(d)
    && (forall i :: 0 <= i < |d.layers| ==> LayerIs(d, d.layers[i], s.layers[i]))
    && forall m :: 0 <= m < |d.managers| ==> Numbers(d.managers[m].stack, d.layers, s.stacks[m])
  }

  predicate Once(layers: seq<Layer>) { forall i, j :: 0 <= i < j < |layers| ==> layers[i] != layers[j] }

  predicate Distinct(managers: seq<LayerManager>) {
    forall i, j :: 0 <= i < j < |managers| ==> managers[i] != managers[j]
  }

  predicate OneFormat(d: Desk) {
    && (forall m :: m in d.managers ==> m.format == d.root.format)
    && forall l :: l in d.layers ==> l.fb.format == d.root.format
  }

  ghost predicate LayerIs(d: Desk, l: Layer, v: SceneLayer)
    reads l, l.fb.bytes
  {
    && v.manager < |d.managers| && d.managers[v.manager] == l.manager && v.pos == l.pos && v.key == l.transparent
    && l.fb.Valid() && v.width == l.fb.width && v.height == l.fb.height
    && match v.content
       case Plain(image) => l.child == null && image == l.fb.Picture()
       case Inner(m) => m < |d.managers| && d.managers[m] == l.child
  }

  /** The layers of a stack by their numbers. */
  predicate Numbers(stack: seq<Layer>, layers: seq<Layer>, numbers: seq<nat>) {
    |numbers| == |stack| && forall k :: 0 <= k < |stack| ==> numbers[k] < |layers| && layers[numbers[k]] == stack[k]
  }

  lemma NumbersRestacked(stack: seq<Layer>, layers: seq<Layer>, numbers: seq<nat>, l: nat, height: int)
    requires Numbers(stack, layers, numbers) && Once(layers) && l < |layers|
    ensures Numbers(Restacked(stack, layers[l], height), layers, Restacked(numbers, l, height))
  {
    hide Position, Numbers, With, Without;
    var k := Position(numbers, l);
    assert Position(stack, layers[l]) == k && |stack| == |numbers| by { SamePosition(stack, layers, numbers, l); }
    var rest, left := stack, numbers;
    if k < |stack| {
      NumbersWithout(stack, layers, numbers, k);
      rest, left := Without(stack, k), Without(numbers, k);
    }
    if height >= 0 { NumbersWith(rest, layers, left, if height < |rest| then height else |rest|, l); }
  }

  lemma SamePosition(stack: seq<Layer>, layers: seq<Layer>, numbers: seq<nat>, l: nat)
    requires Numbers(stack, layers, numbers) && Once(layers) && l < |layers|
    ensures Position(stack, layers[l]) == Position(numbers, l) && |stack| == |numbers|
  {
    hide Position;
    IsPosition(numbers, l, Position(stack, layers[l]));
  }

  lemma NumbersMore(stack: seq<Layer>, layers: seq<Layer>, l: Layer, numbers: seq<nat>)
    requires Numbers(stack, layers, numbers)
    ensures Numbers(stack, layers + [l], numbers)
  {
  }

  /** A hidden layer is added. */
  lemma DepictsMore(d: Desk, s: Scene, l: Layer, v: SceneLayer)
    requires Depicts(d, s) && l !in d.layers && l.fb.format == d.root.format && LayerIs(d, l, v)
    ensures Depicts(d.(layers := d.layers + [l]), s.(layers := s.layers + [v]))
  {
    hide LayerIs, Numbers;
    var d' := d.(layers := d.layers + [l]);
    forall i | 0 <= i < |d.layers| ensures LayerIs(d', d.layers[i], s.layers[i]) {
      SameNames(d, d', d.layers[i], s.layers[i]);
    }
    SameNames(d, d', l, v);
    forall m | 0 <= m < |d.managers| ensures Numbers(d.managers[m].stack, d'.layers, s.stacks[m]) {
      NumbersMore(d.managers[m].stack, d.layers, l, s.stacks[m]);
    }
  }

  /** A manager without layers is added. */
  lemma DepictsManager(d: Desk, s: Scene, m: LayerManager)
    requires Depicts(d, s) && m.stack == [] && m.format == d.root.format
    ensures Depicts(d.(managers := d.managers + [m]), s.(stacks := s.stacks + [[]]))
  {
    hide LayerIs;
    var d' := d.(managers := d.managers + [m]);
    forall i | 0 <= i < |d.layers| ensures LayerIs(d', d.layers[i], s.layers[i]) {
      SameNames(d, d', d.layers[i], s.layers[i]);
    }
  }

  lemma SameNames(d: Desk, d': Desk, l: Layer, v: SceneLayer)
    requires LayerIs(d, l, v) && d.managers <= d'.managers
    ensures LayerIs(d', l, v)
  {
  }

  lemma NumbersWithout(stack: seq<Layer>, layers: seq<Layer>, numbers: seq<nat>, k: nat)
    requires Numbers(stack, layers, numbers) && k < |stack|
    ensures Numbers(Without(stack, k), layers, Without(numbers, k)) && |Without(stack, k)| == |Without(numbers, k)|
  {
  }

  lemma NumbersWith(stack: seq<Layer>, layers: seq<Layer>, numbers: seq<nat>, k: nat, l: nat)
    requires Numbers(stack, layers, numbers) && k <= |stack| && l < |layers|
    ensures k <= |numbers| && Numbers(With(stack, k, layers[l]), layers, With(numbers, k, l))
  {
  }

  /** Where a layer is in its stack, by identity and by id. */
  lemma PlaceIsPosition(w: World, l: Layer)
    requires w.Wired() && l in w.layers
    ensures Place(l.manager.stack, l.id, 0) == Position(l.manager.stack, l)
  {
    hide World.Wired, Place, Position;
    GroupInStack(w, l);
    IsPosition(l.manager.stack, l, Place(l.manager.stack, l.id, 0));
  }

  // ----- what stays depicted -----

  /** A scene has as many layers and managers as the desk, and says the same about each layer. */
  lemma Sizes(d: Desk, s: Scene)
    requires Depicts(d, s)
    ensures |s.layers| == |d.layers| && |s.stacks| == |d.managers|
    ensures forall l :: 0 <= l < |d.layers| ==> LayerIs(d, d.layers[l], s.layers[l])
    ensures forall m :: 0 <= m < |d.managers| ==> Numbers(d.managers[m].stack, d.layers, s.stacks[m])
    ensures forall l :: 0 <= l < |d.layers| ==> d.layers[l].fb.format == d.root.format
    ensures forall m :: m in d.managers ==> m.format == d.root.format
  {
  }

  datatype Depiction = Depiction(d: Desk, s: Scene) {
    /** Plain layers but `except`, and the fields of all layers but `except`, are unchanged. */
    twostate predicate Kept(except: Layer?)
      reads d.layers, set l | l in d.layers :: l.fb.bytes
    {
      forall l :: l in d.layers && l != except ==> unchanged(l) && (l.child == null ==> unchanged(l.fb.bytes))
    }

    twostate predicate StacksKept()
      reads d.managers
    {
      forall m :: m in d.managers ==> m.stack == old(m.stack)
    }

    twostate lemma Stays()
      requires old(Depicts(d, s)) && StacksKept() && Kept(null)
      ensures Depicts(d, s)
    {
      hide Numbers, PictureOf;
      forall i | 0 <= i < |d.layers| ensures LayerIs(d, d.layers[i], s.layers[i]) {
        assert old(LayerIs(d, d.layers[i], s.layers[i]));
      }
    }

    /** One layer may look different, */
    twostate lemma LayerEdited(l: nat)
      requires old(Depicts(d, s)) && l < |d.layers| && StacksKept() && Kept(d.layers[l])
      ensures forall v :: LayerIs(d, d.layers[l], v) ==> Depicts(d, s.(layers := s.layers[l := v]))
    {
      hide Numbers, PictureOf;
      forall i | 0 <= i < |d.layers| && i != l ensures LayerIs(d, d.layers[i], s.layers[i]) {
        assert old(LayerIs(d, d.layers[i], s.layers[i]));
      }
    }

    /** or one stack. */
    twostate lemma StackEdited(m: nat)
      requires old(Depicts(d, s)) && m < |d.managers| && Kept(null)
      requires forall i :: 0 <= i < |d.managers| && i != m ==> d.managers[i].stack == old(d.managers[i].stack)
      ensures forall numbers :: Numbers(d.managers[m].stack, d.layers, numbers) ==>
        Depicts(d, s.(stacks := s.stacks[m := numbers]))
    {
      hide Numbers, PictureOf;
      forall i | 0 <= i < |d.layers| ensures LayerIs(d, d.layers[i], s.layers[i]) {
        assert old(LayerIs(d, d.layers[i], s.layers[i]));
      }
    }

    twostate lemma OldSizes()
      requires old(Depicts(d, s))
      ensures |s.layers| == |d.layers| && |s.stacks| == |d.managers| && Once(d.layers)
      ensures forall l :: 0 <= l < |d.layers| ==>
        s.layers[l].manager < |d.managers| && d.managers[s.layers[l].manager] == d.layers[l].manager
      ensures forall m :: 0 <= m < |d.managers| ==> old(Numbers(d.managers[m].stack, d.layers, s.stacks[m]))
    {
    }

    /** A layer is brought to another height. */
    twostate lemma HeightEdited(l: nat)
      requires old(Depicts(d, s)) && s.Valid() && l < |d.layers| && Kept(null) && Distinct(d.managers)
      requires forall m :: m in d.managers && m != d.layers[l].manager ==> m.stack == old(m.stack)
      ensures l < |s.layers|
      ensures forall height ::
        d.layers[l].manager.stack == Restacked(old(d.layers[l].manager.stack), d.layers[l], height) ==>
        Depicts(d, Reheighted(s, l, height))
    {
      hide Numbers, PictureOf, Depicts, Scene.Valid, Restacked;
      OldSizes();
      var m := s.layers[l].manager;
      StackEdited(m);
      forall height | d.layers[l].manager.stack == Restacked(old(d.layers[l].manager.stack), d.layers[l], height)
        ensures Depicts(d, Reheighted(s, l, height))
      {
        NumbersRestacked(old(d.managers[m].stack), d.layers, s.stacks[m], l, height);
      }
    }
  }

  // ----- what is seen -----

  /** What the plain layers of a desk show is what the scene shows. */
  lemma {:induction false} PlainIsScene(d: Desk, s: Scene, w: World, m: nat, n: nat, x: int, y: int)
    requires Depicts(d, s) && s.Valid() && w.Wired() && m < |d.managers| && d.managers[m] in w.managers
    requires n <= |s.stacks[m]|
    ensures n <= |d.managers[m].stack|
    ensures PlainTop(w, d.managers[m], n, x, y) == SceneTop(s, d.root.format, m, n, x, y)
    decreases |s.stacks| - m, n
  {
    hide World.Wired, Depicts, Scene.Valid, PlainPixel, ScenePixel, KeyPixel;
    StackDepicted(d, s, m);
    if n > 0 {
      var l, v := d.managers[m].stack[n - 1], s.layers[s.stacks[m][n - 1]];
      InStack(w, d.managers[m], n - 1);
      PlainIsScene(d, s, w, m, n - 1, x, y);
      PixelIsScene(d, s, w, l, v, x - l.pos.x, y - l.pos.y);
    }
  }

  lemma StackDepicted(d: Desk, s: Scene, m: nat)
    requires Depicts(d, s) && s.Valid() && m < |d.managers|
    ensures |s.stacks| == |d.managers| && |s.stacks[m]| == |d.managers[m].stack|
    ensures forall k :: 0 <= k < |d.managers[m].stack| ==>
      var l := d.managers[m].stack[k];
      && s.stacks[m][k] < |s.layers| && s.layers[s.stacks[m][k]].manager == m && s.ValidLayer(s.layers[s.stacks[m][k]])
      && l in d.layers && LayerIs(d, l, s.layers[s.stacks[m][k]]) && l.fb.format == d.root.format
  {
    hide LayerIs;
    assert s.ValidStack(m);
  }

  lemma {:induction false} PixelIsScene(d: Desk, s: Scene, w: World, l: Layer, v: SceneLayer, x: int, y: int)
    requires Depicts(d, s) && s.Valid() && w.Wired() && s.ValidLayer(v) && LayerIs(d, l, v) && l.manager in w.managers
    requires l in l.manager.stack && l in w.layers && l.fb.Valid()
    ensures PlainPixel(w, l.manager, l, x, y) == ScenePixel(s, d.root.format, v, x, y)
    decreases |s.stacks| - v.manager, 0
  {
    hide World.Wired, Depicts, Scene.Valid, PlainTop, SceneTop;
    if v.content.Inner? {
      var c := v.content.manager;
      ChildIsBelow(w, l.manager, l);
      StackDepicted(d, s, c);
      PlainIsScene(d, s, w, c, |s.stacks[c]|, x, y);
    }
  }

  /** A scene with backgrounds is one of managers with backgrounds. */
  lemma BackgroundsAreAll(d: Desk, s: Scene, w: World)
    requires Depicts(d, s) && s.Valid() && w.Wired() && w.root.buffer != null && d.managers[0] == d.root == w.root
    requires w.layers == (set l | l in d.layers) && w.managers == (set m | m in d.managers)
    requires Backgrounds(s, w.root.buffer.width, w.root.buffer.height)
    ensures AllBackgrounds(w)
  {
    hide PictureOf;
    forall m | m in w.managers && m.buffer != null
      ensures m.stack != [] && m.stack[0] in w.layers && m.stack[0].transparent.None?
      ensures m.stack[0].ManagerArea().Includes(Rect(0, 0, m.buffer.width, m.buffer.height))
    {
      if m != w.root {
        assert w.WiredManager(m) && w.WiredLayer(m.parent);
        var i :| 0 <= i < |d.layers| && d.layers[i] == m.parent;
        assert LayerIs(d, d.layers[i], s.layers[i]);
        BaseIsBackground(d, s, s.layers[i].content.manager, m.buffer.width, m.buffer.height);
      } else {
        BaseIsBackground(d, s, 0, m.buffer.width, m.buffer.height);
      }
    }
  }

  lemma BaseIsBackground(d: Desk, s: Scene, m: nat, width: nat, height: nat)
    requires Depicts(d, s) && s.Valid() && m < |d.managers| && HasBase(s, s.stacks[m], width, height)
    ensures var stack := d.managers[m].stack;
      && stack != [] && stack[0] in d.layers && stack[0].transparent.None?
      && stack[0].ManagerArea().Includes(Rect(0, 0, width, height))
  {
    hide PictureOf;
    assert s.ValidStack(m);
    assert LayerIs(d, d.managers[m].stack[0], s.layers[s.stacks[m][0]]);
  }

  /** Each pixel of the screen is that of the scene. */
  ghost predicate ScreenShows(screen: FrameBuffer, s: Scene, f: PixelFormat)
    requires s.Valid() && screen.Valid()
    reads screen.bytes
  {
    forall x, y :: 0 <= x < screen.width && 0 <= y < screen.height ==>
      SceneTop(s, f, 0, |s.stacks[0]|, x, y) == Some(screen.Picture().At(x, y))
  }
}
