/**
 * Layers with painters at work on them. A painter writes into its layer at once and damages what it
 * drew only when it ends; until then the pixels in its box are unfinished. A stack with its unfinished
 * pixels marked is again a stack, to which everything known of stacks applies.
 */
module OpenPainters {
  import opened Geometry
  import opened Composition
  import opened Options
  import opened Seqs
  import opened StackEdits

  /** A painter of the layer `id` with its damage box in the layer's coordinates, if it has one: it has
      none before it draws and after it ends. */
  datatype Brush = Brush(id: nat, box: Option<Rect>) {
    function Drawn(rect: Rect): Brush { Brush(id, Some(if box.Some? then box.value.Merge(rect) else rect)) }
  }

  predicate Reaches(b: Brush, id: nat, x: int, y: int) { b.id == id && b.box.Some? && b.box.value.Contains(x, y) }

  /** Pixel (x, y) of the layer `id` may have been drawn by a painter that has not ended. */
  predicate Unfinished(open: seq<Brush>, id: nat, x: int, y: int) {
    exists i :: 0 <= i < |open| && Reaches(open[i], id, x, y)
  }

  /** Stands for an unfinished pixel; no pixel of a layer is empty. */
  const WET: Pixel := []

  ghost predicate Proper(l: LayerView) {
    l.key != Some(WET) && forall x, y :: l.image.Has(x, y) ==> l.image.At(x, y) != WET
  }

  ghost predicate AllProper(stack: seq<LayerView>) { forall k :: 0 <= k < |stack| ==> Proper(stack[k]) }

  ghost function WetImage(image: Picture, id: nat, open: seq<Brush>): Picture {
    Build(image.width, image.height, (x, y) => if Unfinished(open, id, x, y) then WET else image.At(x, y))
  }

  ghost function Wet(l: LayerView, open: seq<Brush>): LayerView { l.(image := WetImage(l.image, l.id, open)) }

  ghost function WetAll(stack: seq<LayerView>, open: seq<Brush>): (wet: seq<LayerView>)
    ensures |wet| == |stack| && forall k :: 0 <= k < |stack| ==> wet[k] == Wet(stack[k], open)
  {
    seq(|stack|, k requires 0 <= k < |stack| => Wet(stack[k], open))
  }

  lemma WetShow(l: LayerView, open: seq<Brush>, x: int, y: int)
    requires Proper(l)
    ensures Wet(l, open).Area() == l.Area()
    ensures Wet(l, open).Show(x, y) ==
      if l.Area().Contains(x, y) && Unfinished(open, l.id, x - l.pos.x, y - l.pos.y) then Some(WET) else l.Show(x, y)
  {
    hide Unfinished, MakeRows;
    BuildAt(l.image.width, l.image.height, (x, y) => if Unfinished(open, l.id, x, y) then WET else l.image.At(x, y));
  }

  lemma WetImageSame(image: Picture, id: nat, open: seq<Brush>, open': seq<Brush>)
    requires forall x, y :: Unfinished(open, id, x, y) == Unfinished(open', id, x, y)
    ensures WetImage(image, id, open) == WetImage(image, id, open')
  {
    hide Unfinished, MakeRows;
    BuildAt(image.width, image.height, (x, y) => if Unfinished(open, id, x, y) then WET else image.At(x, y));
    BuildAt(image.width, image.height, (x, y) => if Unfinished(open', id, x, y) then WET else image.At(x, y));
    SamePixels(WetImage(image, id, open), WetImage(image, id, open'));
  }

  // ----- marking commutes with editing the stack -----

  lemma WetUpdate(stack: seq<LayerView>, open: seq<Brush>, j: nat, l: LayerView)
    requires j < |stack|
    ensures WetAll(stack[j := l], open) == WetAll(stack, open)[j := Wet(l, open)]
  {
    hide WetImage;
  }

  lemma WetWith(stack: seq<LayerView>, open: seq<Brush>, j: nat, l: LayerView)
    requires j <= |stack|
    ensures WetAll(With(stack, j, l), open) == With(WetAll(stack, open), j, Wet(l, open))
  {
    hide WetImage;
  }

  lemma WetWithout(stack: seq<LayerView>, open: seq<Brush>, j: nat)
    requires j < |stack|
    ensures WetAll(Without(stack, j), open) == Without(WetAll(stack, open), j)
  {
    hide WetImage;
  }

  lemma WetIds(stack: seq<LayerView>, open: seq<Brush>, k: nat, id: nat)
    requires k <= |stack|
    ensures HasId(WetAll(stack, open)[k..], id) == HasId(stack[k..], id)
    ensures UniqueIds(WetAll(stack, open)) == UniqueIds(stack)
  {
    hide WetImage;
    var wet := WetAll(stack, open);
    assert forall i :: 0 <= i < |stack| ==> wet[i].id == stack[i].id;
    assert forall i :: 0 <= i < |stack| - k ==> wet[k..][i].id == stack[k..][i].id;
  }

  lemma {:induction false} WetCover(stack: seq<LayerView>, open: seq<Brush>, rect: Rect, n: nat)
    requires n <= |stack| && AllProper(stack)
    ensures CoverBelow(WetAll(stack, open), rect, n) == CoverBelow(stack, rect, n)
  {
    hide Wet, Proper;
    if n > 0 {
      WetCover(stack, open, rect, n - 1);
      WetCovers(stack[n - 1], open, rect);
    }
  }

  lemma WetCovers(l: LayerView, open: seq<Brush>, rect: Rect)
    requires Proper(l)
    ensures CoversOpaquely(Wet(l, open), rect) == CoversOpaquely(l, rect)
  {
    hide WetImage;
    WetShow(l, open, 0, 0);
  }

  // ----- what is seen of a marked stack -----

  /** Looking at finished pixels only, nothing looks different. */
  lemma {:induction false} WetTop(stack: seq<LayerView>, open: seq<Brush>, x: int, y: int)
    requires AllProper(stack)
    ensures var t := Top(WetAll(stack, open), x, y); t != Some(WET) ==> t == Top(stack, x, y)
  {
    hide Wet, Proper;
    if stack != [] {
      var n := |stack| - 1;
      WetShow(stack[n], open, x, y);
      WetTop(stack[..n], open, x, y);
      assert WetAll(stack, open)[..n] == WetAll(stack[..n], open);
    }
  }

  /** Every unfinished pixel at (x, y) is behind a pixel of a higher layer. */
  ghost predicate Finished(stack: seq<LayerView>, open: seq<Brush>, x: int, y: int) {
    forall j :: 0 <= j < |stack| && Unfinished(open, stack[j].id, x - stack[j].pos.x, y - stack[j].pos.y) ==>
      Top(stack[j + 1..], x, y).Some?
  }

  /** Then it is not seen: the marked stack shows what the stack shows. */
  lemma {:induction false} FinishedTop(stack: seq<LayerView>, open: seq<Brush>, x: int, y: int)
    requires AllProper(stack) && Finished(stack, open, x, y)
    ensures Top(WetAll(stack, open), x, y) == Top(stack, x, y)
  {
    hide Wet, Proper, Unfinished;
    if stack != [] {
      var n := |stack| - 1;
      WetShow(stack[n], open, x, y);
      assert Unfinished(open, stack[n].id, x - stack[n].pos.x, y - stack[n].pos.y) ==> Top(stack[n + 1..], x, y).Some?;
      if stack[n].Show(x, y).None? {
        FinishedBelow(stack, open, x, y);
        FinishedTop(stack[..n], open, x, y);
        assert WetAll(stack, open)[..n] == WetAll(stack[..n], open);
      }
    }
  }

  lemma FinishedBelow(stack: seq<LayerView>, open: seq<Brush>, x: int, y: int)
    requires stack != [] && Finished(stack, open, x, y) && stack[|stack| - 1].Show(x, y).None?
    ensures Finished(stack[..|stack| - 1], open, x, y)
  {
    hide Unfinished, LayerView.Show;
    var n := |stack| - 1;
    var below := stack[..n];
    forall j | 0 <= j < n && Unfinished(open, below[j].id, x - below[j].pos.x, y - below[j].pos.y)
      ensures Top(below[j + 1..], x, y).Some?
    {
      assert stack[j] == below[j] && stack[j + 1..][..n - j - 1] == below[j + 1..];
      assert Top(stack[j + 1..], x, y).Some?;
    }
  }

  /** The pixels seen of a layer are finished and the same, or unfinished. */
  ghost predicate Wetter(before: seq<LayerView>, after: seq<LayerView>, x: int, y: int) {
    |before| == |after| && forall k :: 0 <= k < |before| ==>
      after[k].Show(x, y) == before[k].Show(x, y) || after[k].Show(x, y) == Some(WET)
  }

  lemma {:induction false} WetterTop(before: seq<LayerView>, after: seq<LayerView>, x: int, y: int)
    requires Wetter(before, after, x, y)
    ensures Top(after, x, y) != Some(WET) ==> Top(after, x, y) == Top(before, x, y)
  {
    if before != [] { WetterTop(before[..|before| - 1], after[..|after| - 1], x, y); }
  }

  // ----- what painters do -----

  /** Drawing changes the layer inside `rect` and lets the box grow. */
  lemma StrokeWets(l: LayerView, open: seq<Brush>, i: nat, image: Picture, rect: Rect, x: int, y: int)
    requires Proper(l) && Proper(l.(image := image)) && i < |open| && open[i].id == l.id
    requires DiffersWithin(l.image, image, rect)
    ensures var now := Wet(l.(image := image), open[i := open[i].Drawn(rect)]).Show(x, y);
      now == Wet(l, open).Show(x, y) || now == Some(WET)
  {
    hide Unfinished, Proper;
    var open' := open[i := open[i].Drawn(rect)];
    WetShow(l, open, x, y);
    WetShow(l.(image := image), open', x, y);
    BoxGrows(open, i, rect, l.id, x - l.pos.x, y - l.pos.y);
  }

  lemma BoxGrows(open: seq<Brush>, i: nat, rect: Rect, id: nat, x: int, y: int)
    requires i < |open|
    ensures Unfinished(open, id, x, y) ==> Unfinished(open[i := open[i].Drawn(rect)], id, x, y)
    ensures open[i].id == id && rect.Contains(x, y) ==> Unfinished(open[i := open[i].Drawn(rect)], id, x, y)
    ensures open[i].id != id ==> Unfinished(open[i := open[i].Drawn(rect)], id, x, y) == Unfinished(open, id, x, y)
  {
    var open' := open[i := open[i].Drawn(rect)];
    assert open[i].id == id && rect.Contains(x, y) ==> Reaches(open'[i], id, x, y);
    if k :| 0 <= k < |open| && Reaches(open[k], id, x, y) { assert Reaches(open'[k], id, x, y); }
    if k :| 0 <= k < |open'| && Reaches(open'[k], id, x, y) { assert k != i ==> Reaches(open[k], id, x, y); }
  }

  /** Ending a painter finishes pixels of its layer, inside its box, and no others. */
  lemma EndFinishes(open: seq<Brush>, i: nat, id: nat, x: int, y: int)
    requires i < |open| && !Reaches(open[i], id, x, y)
    ensures Unfinished(open[i := Brush(open[i].id, None)], id, x, y) == Unfinished(open, id, x, y)
  {
    var open' := open[i := Brush(open[i].id, None)];
    if k :| 0 <= k < |open| && Reaches(open[k], id, x, y) { assert Reaches(open'[k], id, x, y); }
    if k :| 0 <= k < |open'| && Reaches(open'[k], id, x, y) { assert Reaches(open[k], id, x, y); }
  }

  /** So to the marked stack it is a change of one layer inside the box. */
  lemma EndIsLocal(stack: seq<LayerView>, open: seq<Brush>, i: nat, j: nat)
    requires AllProper(stack) && UniqueIds(stack) && i < |open| && j < |stack| && stack[j].id == open[i].id
    requires open[i].box.Some?
    ensures var before, after := WetAll(stack, open), WetAll(stack, open[i := Brush(open[i].id, None)]);
      AgreeOutside(before, after, open[i].box.value.Offset(stack[j].pos)) && SameAbove(before, after, stack[j].id)
  {
    hide Unfinished, Proper, WetImage, AgreeOutside, SameAbove, Wet;
    var open' := open[i := Brush(open[i].id, None)];
    var before, after, l := WetAll(stack, open), WetAll(stack, open'), stack[j];
    var rect := open[i].box.value.Offset(l.pos);
    forall x, y | !rect.Contains(x, y) ensures Wet(l, open').Show(x, y) == Wet(l, open).Show(x, y) {
      WetShow(l, open, x, y);
      WetShow(l, open', x, y);
      EndFinishes(open, i, l.id, x - l.pos.x, y - l.pos.y);
    }
    WetIds(stack, open, 0, 0);
    EndElsewhere(stack, open, i, j);
    WetKeepsId(l, open);
    WetKeepsId(l, open');
    ReplaceIsLocal(before, j, Wet(l, open'), rect);
  }

  lemma WetKeepsId(l: LayerView, open: seq<Brush>)
    ensures Wet(l, open).id == l.id
  {
  }

  lemma EndElsewhere(stack: seq<LayerView>, open: seq<Brush>, i: nat, j: nat)
    requires UniqueIds(stack) && i < |open| && j < |stack| && stack[j].id == open[i].id
    ensures var open' := open[i := Brush(open[i].id, None)];
      WetAll(stack, open') == WetAll(stack, open)[j := Wet(stack[j], open')]
  {
    hide Unfinished, WetImage;
    var open' := open[i := Brush(open[i].id, None)];
    forall k | 0 <= k < |stack| && k != j ensures Wet(stack[k], open') == Wet(stack[k], open) {
      forall x, y ensures Unfinished(open, stack[k].id, x, y) == Unfinished(open', stack[k].id, x, y) {
        EndFinishes(open, i, stack[k].id, x, y);
      }
      WetImageSame(stack[k].image, stack[k].id, open, open');
    }
  }
}
