/**
 * One manager through any mixture of edits that repaint, edits that do not, and painters that are open
 * meanwhile: outside the areas that hide, lowering and set_transparent_color have left behind since
 * the last draw, and wherever no unfinished pixel is seen, the screen is always what the layers
 * compose to.
 */
module StaleAreas {
  import opened Geometry
  import opened Composition
  import opened Options
  import opened Seqs
  import opened StackEdits
  import opened OpenPainters

  predicate InSome(rects: seq<Rect>, x: int, y: int) { exists i :: 0 <= i < |rects| && rects[i].Contains(x, y) }

  /** A marked stack's finished pixels are on the screen wherever no stale area lies. */
  ghost predicate ConsistentOff(wet: seq<LayerView>, screen: Picture, stale: seq<Rect>) {
    forall x, y :: screen.Has(x, y) && !InSome(stale, x, y) && Top(wet, x, y).Some? && Top(wet, x, y).value != WET ==>
      screen.At(x, y) == Top(wet, x, y).value
  }

  lemma InSomeSnoc(rects: seq<Rect>, r: Rect, x: int, y: int)
    ensures InSome(rects + [r], x, y) <==> InSome(rects, x, y) || r.Contains(x, y)
  {
    assert (rects + [r])[|rects|] == r;
    if InSome(rects, x, y) {
      var i :| 0 <= i < |rects| && rects[i].Contains(x, y);
      assert (rects + [r])[i] == rects[i];
    }
  }

  /** The damage redraw spoils nothing: it is right inside the damage or, if skipped, as right as before. */
  lemma DamageOff(before: seq<LayerView>, after: seq<LayerView>, open: seq<Brush>, screen: Picture, id: nat, rect: Rect,
    stale: seq<Rect>)
    requires screen.Rectangular() && ConsistentOff(before, screen, stale) && AllProper(after)
    requires AgreeOutside(before, WetAll(after, open), rect) && SameAbove(before, WetAll(after, open), id)
    ensures var r := DrawDamage(after, screen, id, rect);
      r.Rectangular() && ConsistentOff(WetAll(after, open), r, stale)
  {
    hide InSome, Wet, Proper;
    var wet, i := WetAll(after, open), CoverBelow(after, rect, |after|);
    var r := DrawDamage(after, screen, id, rect);
    PaintInAt(after[i..], screen, rect);
    WetCover(after, open, rect, |after|);
    WetIds(after, open, i, id);
    forall x, y | screen.Has(x, y) && !InSome(stale, x, y) && Top(wet, x, y).Some? && Top(wet, x, y).value != WET
      ensures r.At(x, y) == Top(wet, x, y).value
    {
      if rect.Contains(x, y) {
        WetTop(after, open, x, y);
        CoverShowsTop(after, rect, x, y);
        CoverShowsTop(wet, rect, x, y);
        if !HasId(after[i..], id) { TopOfSuffix(before, |before| - |wet[i..]|, x, y); }
      }
    }
  }

  /** An edit without a repaint spoils at most the area in which the visible pixels changed. */
  lemma EditOff(before: seq<LayerView>, after: seq<LayerView>, screen: Picture, area: Rect, stale: seq<Rect>)
    requires ConsistentOff(before, screen, stale) && AgreeOutside(before, after, area)
    ensures ConsistentOff(after, screen, stale + [area])
  {
    hide Top, InSome;
    forall x, y | screen.Has(x, y) && !InSome(stale + [area], x, y) && Top(after, x, y).Some?
      && Top(after, x, y).value != WET
      ensures screen.At(x, y) == Top(after, x, y).value
    {
      InSomeSnoc(stale, area, x, y);
    }
  }

  /** A redraw that may have been skipped does no harm outside its rectangle either. */
  lemma RedrawOff(wet: seq<LayerView>, stack: seq<LayerView>, screen: Picture, id: nat, rect: Rect, stale: seq<Rect>)
    requires screen.Rectangular() && ConsistentOff(wet, screen, stale + [rect])
    ensures var r := DrawDamage(stack, screen, id, rect); r.Rectangular() && ConsistentOff(wet, r, stale + [rect])
  {
    hide Top, InSome, DrawDamage;
    DamageStaysInside(stack, screen, id, rect);
    forall x, y | !InSome(stale + [rect], x, y) ensures !rect.Contains(x, y) { InSomeSnoc(stale, rect, x, y); }
  }

  /** Pixels that become unfinished spoil nothing else. */
  lemma WetterOff(before: seq<LayerView>, after: seq<LayerView>, screen: Picture, stale: seq<Rect>)
    requires ConsistentOff(before, screen, stale) && forall x, y :: Wetter(before, after, x, y)
    ensures ConsistentOff(after, screen, stale)
  {
    hide Top, InSome, Wetter;
    forall x, y | screen.Has(x, y) && !InSome(stale, x, y) && Top(after, x, y).Some? && Top(after, x, y).value != WET
      ensures screen.At(x, y) == Top(after, x, y).value
    {
      WetterTop(before, after, x, y);
    }
  }

  lemma PaintOff(stack: seq<LayerView>, open: seq<Brush>, screen: Picture)
    requires AllProper(stack) && screen.Rectangular()
    ensures Paint(stack, screen).Rectangular() && ConsistentOff(WetAll(stack, open), Paint(stack, screen), [])
  {
    hide Top, Paint, InSome, Proper, Wet;
    PaintAt(stack, screen);
    forall x, y
      ensures var t := Top(WetAll(stack, open), x, y); t != Some(WET) ==> t == Top(stack, x, y)
    {
      WetTop(stack, open, x, y);
    }
  }

  // ----- runs -----

  datatype Edit =
    | Move(j: nat, pos: Vec)
    | Change(j: nat, image: Picture, rect: Rect)  // a group's buffer was redrawn inside rect
    | Insert(j: nat, l: LayerView)
    | Raise(was: nat, now: nat)
    | Lower(was: nat, now: nat)
    | Hide(j: nat)
    | Rekey(j: nat, key: Option<Pixel>)
    | Redraw
    | StartPaint(id: nat)
    | Stroke(i: nat, j: nat, image: Picture, rect: Rect)  // painter i draws; its layer is at height j or hidden
    | EndPaint(i: nat, j: nat)

  datatype Canvas = Canvas(stack: seq<LayerView>, screen: Picture, stale: seq<Rect>, open: seq<Brush>)

  /** The layer `id` is at height j or hidden. */
  predicate Found(stack: seq<LayerView>, id: nat, j: nat) {
    if j < |stack| then stack[j].id == id else !HasId(stack, id)
  }

  ghost predicate Redrawn(l: LayerView, image: Picture, rect: Rect) {
    Proper(l.(image := image)) && DiffersWithin(l.image, image, rect)
  }

  ghost predicate Possible(c: Canvas, e: Edit) {
    match e
    case Move(j, _) => j < |c.stack|
    case Change(j, image, rect) => j < |c.stack| && Redrawn(c.stack[j], image, rect)
    case Insert(j, l) => j <= |c.stack| && !HasId(c.stack, l.id) && Proper(l)
    case Raise(was, now) => was <= now < |c.stack|
    case Lower(was, now) => now <= was < |c.stack|
    case Hide(j) => j < |c.stack|
    case Rekey(j, key) => j < |c.stack| && key != Some(WET)
    case Redraw => true
    case StartPaint(_) => true
    case Stroke(i, j, image, rect) =>
      i < |c.open| && Found(c.stack, c.open[i].id, j) && (j < |c.stack| ==> Redrawn(c.stack[j], image, rect))
    case EndPaint(i, j) => i < |c.open| && Found(c.stack, c.open[i].id, j)
  }

  /** The stack after the edit, the redraw the code does, and what it may leave stale. */
  ghost function Do(c: Canvas, e: Edit): Canvas {
    if !Possible(c, e) then c
    else match e
      case Move(j, pos) =>
        var l := c.stack[j].(pos := pos);
        Damaged(c, c.stack[j := l], l.id, c.stack[j].Area().Merge(l.Area()))
      case Change(j, image, rect) =>
        Damaged(c, c.stack[j := c.stack[j].(image := image)], c.stack[j].id, rect.Offset(c.stack[j].pos))
      case Insert(j, l) => Damaged(c, With(c.stack, j, l), l.id, l.Area())
      case Raise(was, now) => Damaged(c, Moved(c.stack, was, now), c.stack[was].id, c.stack[was].Area())
      case Lower(was, now) =>
        Damaged(c, Moved(c.stack, was, now), c.stack[was].id, c.stack[was].Area())
          .(stale := c.stale + [c.stack[was].Area()])
      case Hide(j) => c.(stack := Without(c.stack, j), stale := c.stale + [c.stack[j].Area()])
      case Rekey(j, key) => c.(stack := c.stack[j := c.stack[j].(key := key)], stale := c.stale + [c.stack[j].Area()])
      case Redraw => c.(screen := Paint(c.stack, c.screen), stale := [])
      case StartPaint(id) => c.(open := c.open + [Brush(id, None)])
      case Stroke(i, j, image, rect) => Stroked(c, i, j, image, rect)
      case EndPaint(i, j) => Ended(c, i, j)
  }

  ghost function Damaged(c: Canvas, stack: seq<LayerView>, id: nat, rect: Rect): Canvas {
    c.(stack := stack, screen := DrawDamage(stack, c.screen, id, rect))
  }

  ghost function Stroked(c: Canvas, i: nat, j: nat, image: Picture, rect: Rect): Canvas
    requires i < |c.open|
  {
    c.(stack := if j < |c.stack| then c.stack[j := c.stack[j].(image := image)] else c.stack,
       open := c.open[i := c.open[i].Drawn(rect)])
  }

  /** The damage of a hidden layer redraws nothing. */
  ghost function Ended(c: Canvas, i: nat, j: nat): Canvas
    requires i < |c.open|
  {
    var b := c.open[i];
    var c' := c.(open := c.open[i := Brush(b.id, None)]);
    if b.box.Some? && j < |c.stack| then Damaged(c', c.stack, b.id, b.box.value.Offset(c.stack[j].pos)) else c'
  }

  function Moved(stack: seq<LayerView>, was: nat, now: nat): seq<LayerView>
    requires was < |stack| && now < |stack|
  {
    With(Without(stack, was), now, stack[was])
  }

  ghost function Run(c: Canvas, es: seq<Edit>): Canvas
    decreases |es|
  {
    if es == [] then c else Run(Do(c, es[0]), es[1..])
  }

  ghost predicate Fine(c: Canvas) {
    UniqueIds(c.stack) && AllProper(c.stack) && c.screen.Rectangular()
      && ConsistentOff(WetAll(c.stack, c.open), c.screen, c.stale)
  }

  // ----- each edit -----

  lemma UniqueKept(stack: seq<LayerView>, j: nat, l: LayerView)
    requires UniqueIds(stack)
    ensures j < |stack| ==> UniqueIds(Without(stack, j)) && !HasId(Without(stack, j), stack[j].id)
    ensures j < |stack| && l.id == stack[j].id ==> UniqueIds(stack[j := l])
    ensures j <= |stack| && !HasId(stack, l.id) ==> UniqueIds(With(stack, j, l))
  {
    if j < |stack| {
      var s := Without(stack, j);
      assert forall k :: 0 <= k < |s| ==> s[k] == stack[if k < j then k else k + 1];
    }
    if j <= |stack| && !HasId(stack, l.id) {
      var s := With(stack, j, l);
      assert forall k :: 0 <= k < |s| && k != j ==> s[k] == stack[if k < j then k else k - 1];
    }
  }

  lemma ProperKept(stack: seq<LayerView>, j: nat, l: LayerView)
    requires AllProper(stack)
    ensures j < |stack| ==> AllProper(Without(stack, j)) && Proper(stack[j])
    ensures Proper(l) && j < |stack| ==> AllProper(stack[j := l])
    ensures Proper(l) && j <= |stack| ==> AllProper(With(stack, j, l))
  {
    hide Proper;
  }

  lemma ReplaceFine(c: Canvas, j: nat, l: LayerView, rect: Rect)
    requires Fine(c) && j < |c.stack| && l.id == c.stack[j].id && Proper(l)
    requires forall x, y :: !rect.Contains(x, y) ==> Wet(l, c.open).Show(x, y) == Wet(c.stack[j], c.open).Show(x, y)
    ensures Fine(Damaged(c, c.stack[j := l], l.id, rect))
  {
    hide ConsistentOff, UniqueIds, WetImage, DrawDamage, AgreeOutside, SameAbove, Proper, LayerView.Show, AllProper;
    var wet := WetAll(c.stack, c.open);
    UniqueKept(c.stack, j, l);
    ProperKept(c.stack, j, l);
    WetIds(c.stack, c.open, 0, 0);
    WetUpdate(c.stack, c.open, j, l);
    ReplaceIsLocal(wet, j, Wet(l, c.open), rect);
    DamageOff(wet, c.stack[j := l], c.open, c.screen, l.id, rect, c.stale);
  }

  lemma MoveFine(c: Canvas, j: nat, pos: Vec)
    requires Fine(c) && j < |c.stack|
    ensures Fine(Do(c, Move(j, pos)))
  {
    hide Fine, Damaged, Unfinished;
    var was, l := c.stack[j], c.stack[j].(pos := pos);
    var rect := was.Area().Merge(l.Area());
    assert Proper(was) by { FineProper(c, j); }
    forall x, y | !rect.Contains(x, y) ensures Wet(l, c.open).Show(x, y) == Wet(was, c.open).Show(x, y) {
      WetShow(was, c.open, x, y);
      WetShow(l, c.open, x, y);
    }
    ReplaceFine(c, j, l, rect);
  }

  lemma FineProper(c: Canvas, j: nat)
    requires Fine(c) && j < |c.stack|
    ensures Proper(c.stack[j])
  {
  }

  lemma ChangeFine(c: Canvas, j: nat, image: Picture, rect: Rect)
    requires Fine(c) && Possible(c, Change(j, image, rect))
    ensures Fine(Do(c, Change(j, image, rect)))
  {
    hide Fine, Damaged, Unfinished, Proper;
    var was, l := c.stack[j], c.stack[j].(image := image);
    assert Proper(was) by { FineProper(c, j); }
    forall x, y | !rect.Offset(was.pos).Contains(x, y)
      ensures Wet(l, c.open).Show(x, y) == Wet(was, c.open).Show(x, y)
    {
      WetShow(was, c.open, x, y);
      WetShow(l, c.open, x, y);
      if was.image.Has(x - was.pos.x, y - was.pos.y) {
        assert image.At(x - was.pos.x, y - was.pos.y) == was.image.At(x - was.pos.x, y - was.pos.y);
      }
    }
    ReplaceFine(c, j, l, rect.Offset(was.pos));
  }

  lemma InsertFine(c: Canvas, j: nat, l: LayerView)
    requires Fine(c) && Possible(c, Insert(j, l))
    ensures Fine(Do(c, Insert(j, l)))
  {
    hide ConsistentOff, UniqueIds, WetImage, DrawDamage, AgreeOutside, SameAbove, Proper, With, AllProper, HasId;
    var wet := WetAll(c.stack, c.open);
    UniqueKept(c.stack, j, l);
    ProperKept(c.stack, j, l);
    WetWith(c.stack, c.open, j, l);
    WetShow(l, c.open, 0, 0);
    InsertIsLocal(wet, j, Wet(l, c.open));
    DamageOff(wet, With(c.stack, j, l), c.open, c.screen, l.id, l.Area(), c.stale);
  }

  lemma WetMoved(stack: seq<LayerView>, open: seq<Brush>, was: nat, now: nat)
    requires was < |stack| && now < |stack| && UniqueIds(stack) && AllProper(stack)
    ensures UniqueIds(Moved(stack, was, now)) && AllProper(Moved(stack, was, now))
    ensures WetAll(Moved(stack, was, now), open) == Moved(WetAll(stack, open), was, now)
    ensures WetAll(stack, open)[was].Area() == stack[was].Area() && WetAll(stack, open)[was].id == stack[was].id
  {
    hide UniqueIds, HasId, WetImage, Proper, AllProper;
    var l, rest := stack[was], Without(stack, was);
    UniqueKept(stack, was, l);
    UniqueKept(rest, now, l);
    ProperKept(stack, was, l);
    ProperKept(rest, now, l);
    WetWithout(stack, open, was);
    WetWith(rest, open, now, l);
    WetShow(l, open, 0, 0);
  }

  lemma RaiseFine(c: Canvas, was: nat, now: nat)
    requires Fine(c) && was <= now < |c.stack|
    ensures Fine(Do(c, Raise(was, now)))
  {
    hide ConsistentOff, UniqueIds, WetImage, DrawDamage, AgreeOutside, SameAbove, AllProper, With, Without, WetAll;
    var l, wet := c.stack[was], WetAll(c.stack, c.open);
    WetMoved(c.stack, c.open, was, now);
    RaiseIsLocal(wet, was, now);
    DamageOff(wet, Moved(c.stack, was, now), c.open, c.screen, l.id, l.Area(), c.stale);
  }

  lemma LowerFine(c: Canvas, was: nat, now: nat)
    requires Fine(c) && now <= was < |c.stack|
    ensures Fine(Do(c, Lower(was, now)))
  {
    hide ConsistentOff, UniqueIds, WetImage, DrawDamage, AgreeOutside, SameAbove, AllProper, With, Without, WetAll;
    var l, wet := c.stack[was], WetAll(c.stack, c.open);
    WetMoved(c.stack, c.open, was, now);
    ReorderAgrees(wet, was, now);
    EditOff(wet, Moved(wet, was, now), c.screen, l.Area(), c.stale);
    RedrawOff(Moved(wet, was, now), Moved(c.stack, was, now), c.screen, l.id, l.Area(), c.stale);
  }

  lemma HideFine(c: Canvas, j: nat)
    requires Fine(c) && j < |c.stack|
    ensures Fine(Do(c, Hide(j)))
  {
    hide ConsistentOff, UniqueIds, WetImage, AgreeOutside, Proper, AllProper, Without, HasId;
    var l, wet := c.stack[j], WetAll(c.stack, c.open);
    UniqueKept(c.stack, j, l);
    ProperKept(c.stack, j, l);
    WetWithout(c.stack, c.open, j);
    WetShow(l, c.open, 0, 0);
    HideAgrees(wet, j);
    EditOff(wet, Without(wet, j), c.screen, l.Area(), c.stale);
  }

  lemma HideAgrees(stack: seq<LayerView>, j: nat)
    requires j < |stack|
    ensures AgreeOutside(stack, Without(stack, j), stack[j].Area())
  {
    WithWithout(stack, j);
    forall x, y | !stack[j].Area().Contains(x, y) ensures Top(stack, x, y) == Top(Without(stack, j), x, y) {
      TopWithNothing(Without(stack, j), j, stack[j], x, y);
    }
  }

  lemma RekeyFine(c: Canvas, j: nat, key: Option<Pixel>)
    requires Fine(c) && j < |c.stack| && key != Some(WET)
    ensures Fine(Do(c, Rekey(j, key)))
  {
    hide ConsistentOff, UniqueIds, WetImage, AgreeOutside, AllProper;
    var l, wet := c.stack[j].(key := key), WetAll(c.stack, c.open);
    UniqueKept(c.stack, j, l);
    ProperKept(c.stack, j, l);
    WetUpdate(c.stack, c.open, j, l);
    WetShow(l, c.open, 0, 0);
    RekeyAgrees(wet, j, key);
    EditOff(wet, wet[j := Wet(l, c.open)], c.screen, l.Area(), c.stale);
  }

  lemma RekeyAgrees(stack: seq<LayerView>, j: nat, key: Option<Pixel>)
    requires j < |stack|
    ensures AgreeOutside(stack, stack[j := stack[j].(key := key)], stack[j].Area())
  {
    var after := stack[j := stack[j].(key := key)];
    forall x, y | !stack[j].Area().Contains(x, y) ensures Top(stack, x, y) == Top(after, x, y) {
      TopPointwise(stack, after, x, y);
    }
  }

  lemma StartFine(c: Canvas, id: nat)
    requires Fine(c)
    ensures Fine(Do(c, StartPaint(id)))
  {
    hide ConsistentOff, UniqueIds, WetImage, Unfinished;
    var open' := c.open + [Brush(id, None)];
    forall k | 0 <= k < |c.stack| ensures Wet(c.stack[k], open') == Wet(c.stack[k], c.open) {
      forall x, y ensures Unfinished(c.open, c.stack[k].id, x, y) == Unfinished(open', c.stack[k].id, x, y) {
        StartFinished(c.open, id, c.stack[k].id, x, y);
      }
      WetImageSame(c.stack[k].image, c.stack[k].id, c.open, open');
    }
    assert WetAll(c.stack, open') == WetAll(c.stack, c.open);
  }

  lemma StartFinished(open: seq<Brush>, b: nat, id: nat, x: int, y: int)
    ensures Unfinished(open + [Brush(b, None)], id, x, y) == Unfinished(open, id, x, y)
  {
    var open' := open + [Brush(b, None)];
    if k :| 0 <= k < |open| && Reaches(open[k], id, x, y) { assert Reaches(open'[k], id, x, y); }
    if k :| 0 <= k < |open'| && Reaches(open'[k], id, x, y) { assert Reaches(open[k], id, x, y); }
  }

  lemma StrokeFine(c: Canvas, i: nat, j: nat, image: Picture, rect: Rect)
    requires Fine(c) && Possible(c, Stroke(i, j, image, rect))
    ensures Fine(Do(c, Stroke(i, j, image, rect)))
  {
    hide ConsistentOff, UniqueIds, AllProper, Wetter, Wet;
    var c' := Do(c, Stroke(i, j, image, rect));
    if j < |c.stack| {
      var l := c.stack[j].(image := image);
      UniqueKept(c.stack, j, l);
      ProperKept(c.stack, j, l);
    }
    forall x, y ensures Wetter(WetAll(c.stack, c.open), WetAll(c'.stack, c'.open), x, y) {
      StrokeWetter(c, i, j, image, rect, x, y);
    }
    WetterOff(WetAll(c.stack, c.open), WetAll(c'.stack, c'.open), c.screen, c.stale);
  }

  lemma StrokeWetter(c: Canvas, i: nat, j: nat, image: Picture, rect: Rect, x: int, y: int)
    requires UniqueIds(c.stack) && AllProper(c.stack) && Possible(c, Stroke(i, j, image, rect))
    ensures var c' := Stroked(c, i, j, image, rect); Wetter(WetAll(c.stack, c.open), WetAll(c'.stack, c'.open), x, y)
  {
    hide Unfinished, WetImage, Proper;
    var c' := Stroked(c, i, j, image, rect);
    forall k | 0 <= k < |c.stack|
      ensures var now := Wet(c'.stack[k], c'.open).Show(x, y);
        now == Wet(c.stack[k], c.open).Show(x, y) || now == Some(WET)
    {
      var l := c.stack[k];
      if k == j {
        StrokeWets(l, c.open, i, image, rect, x, y);
      } else {
        WetShow(l, c.open, x, y);
        WetShow(l, c'.open, x, y);
        BoxGrows(c.open, i, rect, l.id, x - l.pos.x, y - l.pos.y);
      }
    }
  }

  lemma EndFine(c: Canvas, i: nat, j: nat)
    requires Fine(c) && Possible(c, EndPaint(i, j))
    ensures Fine(Do(c, EndPaint(i, j)))
  {
    hide ConsistentOff, UniqueIds, AllProper, Wet, AgreeOutside, SameAbove, DrawDamage;
    var open' := c.open[i := Brush(c.open[i].id, None)];
    if c.open[i].box.Some? && j < |c.stack| {
      EndIsLocal(c.stack, c.open, i, j);
      DamageOff(WetAll(c.stack, c.open), c.stack, open', c.screen, c.open[i].id,
        c.open[i].box.value.Offset(c.stack[j].pos), c.stale);
    } else {
      EndUnseen(c, i, j);
    }
  }

  lemma EndUnseen(c: Canvas, i: nat, j: nat)
    requires i < |c.open| && Found(c.stack, c.open[i].id, j) && (c.open[i].box.None? || j >= |c.stack|)
    ensures WetAll(c.stack, c.open[i := Brush(c.open[i].id, None)]) == WetAll(c.stack, c.open)
  {
    hide Unfinished, WetImage;
    var open' := c.open[i := Brush(c.open[i].id, None)];
    forall k | 0 <= k < |c.stack| ensures Wet(c.stack[k], open') == Wet(c.stack[k], c.open) {
      forall x, y ensures Unfinished(c.open, c.stack[k].id, x, y) == Unfinished(open', c.stack[k].id, x, y) {
        EndFinishes(c.open, i, c.stack[k].id, x, y);
      }
      WetImageSame(c.stack[k].image, c.stack[k].id, c.open, open');
    }
  }

  lemma RedrawFine(c: Canvas)
    requires Fine(c)
    ensures Fine(Do(c, Redraw))
  {
    hide ConsistentOff, UniqueIds, AllProper, Paint;
    PaintOff(c.stack, c.open, c.screen);
  }

  lemma DoIsFine(c: Canvas, e: Edit)
    requires Fine(c)
    ensures Fine(Do(c, e))
  {
    hide Fine, Damaged, Moved, Stroked, Ended, With, Without, Paint, LayerView.Area, Redrawn, Found, HasId, Proper;
    if Possible(c, e) {
      match e
      case Move(j, pos) => MoveFine(c, j, pos);
      case Change(j, image, rect) => ChangeFine(c, j, image, rect);
      case Insert(j, l) => InsertFine(c, j, l);
      case Raise(was, now) => RaiseFine(c, was, now);
      case Lower(was, now) => LowerFine(c, was, now);
      case Hide(j) => HideFine(c, j);
      case Rekey(j, key) => RekeyFine(c, j, key);
      case Redraw => RedrawFine(c);
      case StartPaint(id) => StartFine(c, id);
      case Stroke(i, j, image, rect) => StrokeFine(c, i, j, image, rect);
      case EndPaint(i, j) => EndFine(c, i, j);
    }
  }

  /** Over every run, whatever its edits and however many painters are open, the screen is right outside
      the areas left stale since the last draw, wherever no unfinished pixel is seen. */
  lemma {:induction false} RunIsFine(c: Canvas, es: seq<Edit>)
    requires Fine(c)
    ensures Fine(Run(c, es))
    ensures forall x, y :: Settled(Run(c, es), x, y) ==> ShowsTop(Run(c, es), x, y)
    decreases |es|
  {
    hide Fine, Do, Settled, ShowsTop;
    if es == [] {
      forall x, y | Settled(c, x, y) ensures ShowsTop(c, x, y) { FineShows(c, x, y); }
    } else {
      DoIsFine(c, es[0]);
      RunIsFine(Do(c, es[0]), es[1..]);
    }
  }

  /** Not in a stale area, and no unfinished pixel is seen. */
  ghost predicate Settled(c: Canvas, x: int, y: int) {
    c.screen.Has(x, y) && !InSome(c.stale, x, y) && Finished(c.stack, c.open, x, y)
  }

  ghost predicate ShowsTop(c: Canvas, x: int, y: int) {
    var t := Top(c.stack, x, y); t.Some? ==> c.screen.At(x, y) == t.value
  }

  lemma FineShows(c: Canvas, x: int, y: int)
    requires Fine(c) && Settled(c, x, y)
    ensures ShowsTop(c, x, y)
  {
    hide InSome, Top, Finished, Proper, Wet;
    FinishedTop(c.stack, c.open, x, y);
    ProperTop(c.stack, x, y);
  }

  lemma {:induction false} ProperTop(stack: seq<LayerView>, x: int, y: int)
    requires AllProper(stack)
    ensures Top(stack, x, y) != Some(WET)
  {
    if stack != [] {
      assert Proper(stack[|stack| - 1]);
      ProperTop(stack[..|stack| - 1], x, y);
    }
  }

  /** Once all painters have ended and nothing is stale, the screen is consistent. */
  lemma AllEnded(c: Canvas)
    requires Fine(c) && c.stale == [] && forall i :: 0 <= i < |c.open| ==> c.open[i].box.None?
    ensures Consistent(c.stack, c.screen)
  {
    hide Fine, Top;
    forall x, y | c.screen.Has(x, y) && Top(c.stack, x, y).Some? ensures c.screen.At(x, y) == Top(c.stack, x, y).value {
      FineShows(c, x, y);
    }
  }

  /** And a consistent screen is where a run may start. */
  lemma ConsistentIsFine(stack: seq<LayerView>, screen: Picture)
    requires UniqueIds(stack) && AllProper(stack) && screen.Rectangular() && Consistent(stack, screen)
    ensures Fine(Canvas(stack, screen, [], []))
  {
    hide Top, Wet, Proper;
    forall x, y
      ensures var t := Top(WetAll(stack, []), x, y); t != Some(WET) ==> t == Top(stack, x, y)
    {
      WetTop(stack, [], x, y);
    }
  }
}
