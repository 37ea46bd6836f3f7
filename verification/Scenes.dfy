/**
 * What is on display as a value: managers hold stacks of layers, layers have a place, a key and a
 * picture or hold an inner manager. Each command of a session maps a scene to a scene, and a scene
 * alone says what every pixel of the screen is.
 */
module Scenes {
  import opened Geometry
  import opened Composition
  import opened Options
  import opened Seqs
  import opened FrameBuffers
  import opened ColourKeys
  import opened Painters
  import opened Drawings

  /** Layers and managers are named by their number in order of creation. */
  datatype Command =
    | NewLayer(manager: nat, width: nat, height: nat)
    | NewGroup(manager: nat, width: nat, height: nat)
    | Move(layer: nat, to: Vec)
    | Show(layer: nat, height: nat)              // up_down that shows or raises; not issued if it would lower
    | Painting(layer: nat, draws: seq<Draw>)
    | Restack(layer: nat, newHeight: int)        // any up_down
    | Rekey(layer: nat, key: Option<Color>)      // set_transparent_color
    | Redraw(manager: nat)                       // draw

  /** A layer has a picture, or is a group that shows an inner manager. */
  datatype Content = Plain(image: Picture) | Inner(manager: nat)

  datatype SceneLayer = SceneLayer(
    manager: nat, width: nat, height: nat, pos: Vec, key: Option<Color>, content: Content
  )

  /** All layers, shown or hidden, and for each manager the layers it shows, bottom first. */
  datatype Scene = Scene(layers: seq<SceneLayer>, stacks: seq<seq<nat>>) {
    ghost predicate Valid() {
      && |stacks| >= 1 && (forall i :: 0 <= i < |layers| ==> ValidLayer(layers[i]))
      && forall m :: 0 <= m < |stacks| ==> ValidStack(m)
    }

    /** A group's inner manager is created after the manager of the group. */
    ghost predicate ValidLayer(l: SceneLayer) {
      && l.manager < |stacks|
      && match l.content
         case Plain(image) => image.Rectangular() && image.width == l.width && image.height == l.height
         case Inner(m) => l.manager < m < |stacks|
    }

    ghost predicate ValidStack(m: nat)
      requires m < |stacks|
    {
      forall k :: 0 <= k < |stacks[m]| ==> stacks[m][k] < |layers| && layers[stacks[m][k]].manager == m
    }
  }

  /** A root manager without layers. */
  const EMPTY_SCENE := Scene([], [[]])

  /** up_down that would hide a shown layer or move it down. */
  predicate LowersIn(stack: seq<nat>, l: nat, height: int) {
    var was := Position(stack, l);
    was < |stack| && (height < 0 || MinInt(height, |stack| - 1) < was)
  }

  ghost predicate CanPaint(l: SceneLayer, draws: seq<Draw>) {
    l.content.Plain? && forall k :: 0 <= k < |draws| ==> StaysIn(draws[k], l.width, l.height)
  }

  /** What a command does; one that names nothing, paints a group or strays outside its layer is not
      issued. */
  ghost function Apply(s: Scene, font: Font, f: PixelFormat, c: Command): Scene
    requires s.Valid()
  {
    match c
    case NewLayer(m, w, h) => if m < |s.stacks| then Added(s, m, w, h, Plain(Zeros(w, h))) else s
    case NewGroup(m, w, h) =>
      if m < |s.stacks| then Added(s, m, w, h, Inner(|s.stacks|)).(stacks := s.stacks + [[]]) else s
    case Move(l, to) => if l < |s.layers| then s.(layers := s.layers[l := s.layers[l].(pos := to)]) else s
    case Show(l, height) =>
      if l < |s.layers| && !LowersIn(s.stacks[s.layers[l].manager], l, height) then Reheighted(s, l, height) else s
    case Painting(l, draws) =>
      if l < |s.layers| && CanPaint(s.layers[l], draws) then
        s.(layers := s.layers[l := s.layers[l].(content := Plain(Drawing(draws, font, f, s.layers[l].content.image)))])
      else s
    case Restack(l, height) => if l < |s.layers| then Reheighted(s, l, height) else s
    case Rekey(l, key) => if l < |s.layers| then s.(layers := s.layers[l := s.layers[l].(key := key)]) else s
    case Redraw(_) => s
  }

  /** A new layer is hidden, at the corner, without a key. */
  ghost function Added(s: Scene, m: nat, width: nat, height: nat, content: Content): Scene {
    s.(layers := s.layers + [SceneLayer(m, width, height, Vec(0, 0), None, content)])
  }

  ghost function Reheighted(s: Scene, l: nat, height: int): Scene
    requires s.Valid() && l < |s.layers|
  {
    var m := s.layers[l].manager;
    s.(stacks := s.stacks[m := Restacked(s.stacks[m], l, height)])
  }

  lemma RestackedHas<T>(s: seq<T>, x: T, height: int)
    ensures forall k :: 0 <= k < |Restacked(s, x, height)| ==>
      Restacked(s, x, height)[k] in s || Restacked(s, x, height)[k] == x
  {
  }

  lemma ApplyValid(s: Scene, font: Font, f: PixelFormat, c: Command)
    requires s.Valid()
    ensures Apply(s, font, f, c).Valid()
  {
    hide Drawing, MakeRows, StaysIn, Restacked, LowersIn, Scene.Valid, Reheighted;
    match c {
      case NewLayer(m, w, h) =>
        BuildAt(w, h, (x, y) => [0, 0, 0, 0]);
        assert s.stacks + [] == s.stacks;
        if m < |s.stacks| { AddedValid(s, SceneLayer(m, w, h, Vec(0, 0), None, Plain(Zeros(w, h))), []); }
      case NewGroup(m, w, h) =>
        if m < |s.stacks| { AddedValid(s, SceneLayer(m, w, h, Vec(0, 0), None, Inner(|s.stacks|)), [[]]); }
      case Move(l, to) => if l < |s.layers| { EditedValid(s, l, s.layers[l].(pos := to)); }
      case Show(l, height) => if l < |s.layers| { ReheightedValid(s, l, height); }
      case Painting(l, draws) =>
        if l < |s.layers| && CanPaint(s.layers[l], draws) { PaintedValid(s, font, f, l, draws); }
      case Restack(l, height) => if l < |s.layers| { ReheightedValid(s, l, height); }
      case Rekey(l, key) => if l < |s.layers| { EditedValid(s, l, s.layers[l].(key := key)); }
      case Redraw(_) =>
    }
  }

  lemma AddedValid(s: Scene, v: SceneLayer, stacks: seq<seq<nat>>)
    requires s.Valid() && v.manager < |s.stacks| && (stacks == [] || stacks == [[]])
    requires Scene(s.layers, s.stacks + stacks).ValidLayer(v)
    ensures Scene(s.layers + [v], s.stacks + stacks).Valid()
  {
    var s' := Scene(s.layers + [v], s.stacks + stacks);
    forall i | 0 <= i < |s'.layers| ensures s'.ValidLayer(s'.layers[i]) {
      if i < |s.layers| { assert s.ValidLayer(s.layers[i]); }
    }
    forall m | 0 <= m < |s'.stacks| ensures s'.ValidStack(m) { if m < |s.stacks| { assert s.ValidStack(m); } }
  }

  lemma EditedValid(s: Scene, l: nat, v: SceneLayer)
    requires s.Valid() && l < |s.layers| && v.manager == s.layers[l].manager
    requires s.ValidLayer(v) || v == s.layers[l].(pos := v.pos, key := v.key)
    ensures s.(layers := s.layers[l := v]).Valid()
  {
    var s' := s.(layers := s.layers[l := v]);
    assert s.ValidLayer(s.layers[l]);
    forall i | 0 <= i < |s'.layers| ensures s'.ValidLayer(s'.layers[i]) { assert i != l ==> s.ValidLayer(s.layers[i]); }
    forall m | 0 <= m < |s'.stacks| ensures s'.ValidStack(m) { assert s.ValidStack(m); }
  }

  lemma PaintedValid(s: Scene, font: Font, f: PixelFormat, l: nat, draws: seq<Draw>)
    requires s.Valid() && l < |s.layers| && CanPaint(s.layers[l], draws)
    ensures s.(layers := s.layers[l :=
      s.layers[l].(content := Plain(Drawing(draws, font, f, s.layers[l].content.image)))]).Valid()
  {
    hide Drawing;
    assert s.ValidLayer(s.layers[l]);
    DrawingShape(draws, font, f, s.layers[l].content.image);
    EditedValid(s, l, s.layers[l].(content := Plain(Drawing(draws, font, f, s.layers[l].content.image))));
  }

  lemma ReheightedValid(s: Scene, l: nat, height: int)
    requires s.Valid() && l < |s.layers|
    ensures Reheighted(s, l, height).Valid()
  {
    hide Restacked;
    var m, s' := s.layers[l].manager, Reheighted(s, l, height);
    assert s.ValidLayer(s.layers[l]) && s.ValidStack(m);
    RestackedHas(s.stacks[m], l, height);
    assert s'.ValidStack(m);
    forall k | 0 <= k < |s'.stacks| ensures s'.ValidStack(k) { assert s.ValidStack(k); }
    forall i | 0 <= i < |s'.layers| ensures s'.ValidLayer(s'.layers[i]) { assert s.ValidLayer(s.layers[i]); }
  }

  ghost function ApplyAll(s: Scene, font: Font, f: PixelFormat, script: seq<Command>): (r: Scene)
    requires s.Valid()
    ensures r.Valid()
    decreases |script|
  {
    if script == [] then s
    else
      var front := ApplyAll(s, font, f, script[..|script| - 1]);
      ApplyValid(front, font, f, script[|script| - 1]);
      Apply(front, font, f, script[|script| - 1])
  }

  /** The scene a script of commands describes. */
  ghost function Told(script: seq<Command>, font: Font, f: PixelFormat): (r: Scene)
    ensures r.Valid()
  {
    ApplyAll(EMPTY_SCENE, font, f, script)
  }

  ghost function StaleTold(script: seq<Command>, font: Font, f: PixelFormat): set<nat> {
    StaleAll(EMPTY_SCENE, {}, font, f, script)
  }

  lemma AppliedStep(s: Scene, font: Font, f: PixelFormat, script: seq<Command>, i: nat)
    requires s.Valid() && i <= |script|
    ensures ApplyAll(s, font, f, script[..0]) == s
    ensures i < |script| ==>
      ApplyAll(s, font, f, script[..i + 1]) == Apply(ApplyAll(s, font, f, script[..i]), font, f, script[i])
  {
    hide Scene.Valid, Apply;
    assert i < |script| ==> script[..i + 1][..i] == script[..i];
  }

  // ----- what may be stale -----

  /** The managers that may not show their stack after a command: hiding, lowering and a new key leave the
      layer's manager unpainted; drawing a group does not repaint the manager that shows it. */
  ghost function StaleAfter(s: Scene, stale: set<nat>, c: Command): set<nat>
    requires s.Valid()
  {
    match c
    case Restack(l, height) =>
      if l < |s.layers| && LowersIn(s.stacks[s.layers[l].manager], l, height) then stale + {s.layers[l].manager}
      else stale
    case Rekey(l, _) => if l < |s.layers| then stale + {s.layers[l].manager} else stale
    case Redraw(m) => if m < |s.stacks| then stale - {m} + ShownBy(s, m) else stale
    case _ => stale
  }

  /** The manager of the group that shows manager m. */
  ghost function ShownBy(s: Scene, m: nat): set<nat> {
    set i | 0 <= i < |s.layers| && s.layers[i].content == Inner(m) :: s.layers[i].manager
  }

  ghost function StaleAll(s: Scene, stale: set<nat>, font: Font, f: PixelFormat, script: seq<Command>): set<nat>
    requires s.Valid()
    decreases |script|
  {
    if script == [] then stale
    else
      var front := script[..|script| - 1];
      StaleAfter(ApplyAll(s, font, f, front), StaleAll(s, stale, font, f, front), script[|script| - 1])
  }

  lemma StaleStep(s: Scene, stale: set<nat>, font: Font, f: PixelFormat, script: seq<Command>, i: nat)
    requires s.Valid() && i <= |script|
    ensures StaleAll(s, stale, font, f, script[..0]) == stale
    ensures i < |script| ==>
      StaleAll(s, stale, font, f, script[..i + 1]) ==
      StaleAfter(ApplyAll(s, font, f, script[..i]), StaleAll(s, stale, font, f, script[..i]), script[i])
  {
    hide Scene.Valid, Apply, ApplyAll, StaleAfter;
    assert i < |script| ==> script[..i + 1][..i] == script[..i];
  }

  // ----- what a scene shows -----

  /** The pixel the lowest n layers of manager m show at (x, y). */
  ghost function SceneTop(s: Scene, f: PixelFormat, m: nat, n: nat, x: int, y: int): Option<Pixel>
    requires s.Valid() && m < |s.stacks| && n <= |s.stacks[m]|
    decreases |s.stacks| - m, n
  {
    if n == 0 then None
    else
      assert s.ValidStack(m);
      var v := s.layers[s.stacks[m][n - 1]];
      assert s.ValidLayer(v);
      var px := ScenePixel(s, f, v, x - v.pos.x, y - v.pos.y);
      if RectAt(v.pos, Vec(v.width, v.height)).Contains(x, y) && KeyPixel(f, v.key) != Some(px) then Some(px)
      else SceneTop(s, f, m, n - 1, x, y)
  }

  /** A layer's own pixel; a group has those of its inner manager. */
  ghost function ScenePixel(s: Scene, f: PixelFormat, v: SceneLayer, x: int, y: int): Pixel
    requires s.Valid() && s.ValidLayer(v)
    decreases |s.stacks| - v.manager, 0
  {
    match v.content
    case Plain(image) => image.At(x, y)
    case Inner(c) => OrElse(SceneTop(s, f, c, |s.stacks[c]|, x, y), [])
  }

  /** The bottom layer is opaque and covers an area of this size. */
  predicate HasBase(s: Scene, stack: seq<nat>, width: nat, height: nat) {
    && stack != [] && stack[0] < |s.layers| && s.layers[stack[0]].key.None?
    && RectAt(s.layers[stack[0]].pos, Vec(s.layers[stack[0]].width, s.layers[stack[0]].height))
         .Includes(Rect(0, 0, width, height))
  }

  /** The root has an opaque background for a screen of this size, and so has each group. */
  ghost predicate Backgrounds(s: Scene, width: nat, height: nat)
    requires s.Valid()
  {
    && HasBase(s, s.stacks[0], width, height)
    && forall i :: 0 <= i < |s.layers| && s.layers[i].content.Inner? ==>
         HasBase(s, s.stacks[s.layers[i].content.manager], s.layers[i].width, s.layers[i].height)
  }
}
