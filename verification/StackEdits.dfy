/**
 * Edits of a layer stack (LayerManager::hide, up_down, Layer::move, painting) and whether the
 * damage redraw that follows them keeps the screen consistent.
 */
module StackEdits {
  import opened Geometry
  import opened Composition
  import opened Options
  import opened Seqs

  ghost predicate UniqueIds(stack: seq<LayerView>) {
    forall i, j :: 0 <= i < j < |stack| ==> stack[i].id != stack[j].id
  }

  // ----- the visible pixel under an edit -----

  lemma {:induction false} TopPointwise(a: seq<LayerView>, b: seq<LayerView>, x: int, y: int)
    requires |a| == |b| && forall k :: 0 <= k < |a| ==> a[k].Show(x, y) == b[k].Show(x, y)
    ensures Top(a, x, y) == Top(b, x, y)
  {
    if a != [] { TopPointwise(a[..|a| - 1], b[..|b| - 1], x, y); }
  }

  lemma {:induction false} TopOfWith(s: seq<LayerView>, j: nat, l: LayerView, x: int, y: int)
    requires j <= |s|
    ensures Top(With(s, j, l), x, y) ==
      if Top(s[j..], x, y).Some? then Top(s[j..], x, y)
      else if l.Show(x, y).Some? then l.Show(x, y) else Top(s[..j], x, y)
  {
    var w := With(s, j, l);
    TopOfSuffix(w, j + 1, x, y);
    assert w[j + 1..] == s[j..];
    assert w[..j + 1][..j] == s[..j];
  }

  lemma {:induction false} TopWithNothing(s: seq<LayerView>, j: nat, l: LayerView, x: int, y: int)
    requires j <= |s| && l.Show(x, y).None?
    ensures Top(With(s, j, l), x, y) == Top(s, x, y)
  {
    TopOfWith(s, j, l, x, y);
    TopOfSuffix(s, j, x, y);
  }

  lemma IdAtOrAbove(s: seq<LayerView>, j: nat)
    requires j < |s|
    ensures forall k :: 0 <= k <= j ==> HasId(s[k..], s[j].id)
  {
    forall k | 0 <= k <= j ensures HasId(s[k..], s[j].id) { assert s[k..][j - k] == s[j]; }
  }

  // ----- edits that keep the screen consistent -----

  /** Moving or painting a layer in place: its picture changes only inside `rect`. */
  lemma ReplaceIsLocal(before: seq<LayerView>, j: nat, l: LayerView, rect: Rect)
    requires j < |before| && UniqueIds(before) && l.id == before[j].id
    requires forall x, y :: !rect.Contains(x, y) ==> l.Show(x, y) == before[j].Show(x, y)
    ensures AgreeOutside(before, before[j := l], rect) && SameAbove(before, before[j := l], l.id)
  {
    var after := before[j := l];
    IdAtOrAbove(after, j);
    forall x, y | !rect.Contains(x, y) ensures Top(before, x, y) == Top(after, x, y) {
      TopPointwise(before, after, x, y);
    }
    forall k | 0 <= k <= |after| && !HasId(after[k..], l.id) ensures IsSuffix(after[k..], before) {
      assert after[k..] == before[k..];
    }
  }

  /** Moving a layer damages the union of its old and new areas. */
  lemma MoveIsLocal(before: seq<LayerView>, j: nat, pos: Vec)
    requires j < |before| && UniqueIds(before)
    ensures var l := before[j].(pos := pos); var rect := before[j].Area().Merge(l.Area());
      AgreeOutside(before, before[j := l], rect) && SameAbove(before, before[j := l], l.id)
  {
    var l := before[j].(pos := pos);
    ReplaceIsLocal(before, j, l, before[j].Area().Merge(l.Area()));
  }

  /** A group layer at `pos` whose buffer changed only inside `rect` of its own coordinates. */
  lemma GroupChangeIsLocal(before: seq<LayerView>, after: seq<LayerView>, id: nat, pos: Vec, rect: Rect, was: Picture,
    now: Picture)
    requires |before| == |after| && UniqueIds(before)
    requires DiffersWithin(was, now, rect)
    requires forall k :: 0 <= k < |before| && before[k].id != id ==> after[k] == before[k]
    requires forall k :: 0 <= k < |before| && before[k].id == id ==>
      before[k].pos == pos && before[k].image == was && after[k] == before[k].(image := now)
    ensures AgreeOutside(before, after, rect.Offset(pos)) && SameAbove(before, after, id)
  {
    if j :| 0 <= j < |before| && before[j].id == id {
      var l := before[j].(image := now);
      forall x, y | !rect.Offset(pos).Contains(x, y) ensures l.Show(x, y) == before[j].Show(x, y) {
        if was.Has(x - pos.x, y - pos.y) { assert now.At(x - pos.x, y - pos.y) == was.At(x - pos.x, y - pos.y); }
      }
      ReplaceIsLocal(before, j, l, rect.Offset(pos));
      assert after == before[j := l];
    } else {
      assert after == before;
    }
  }

  /** Inserting a hidden layer. */
  lemma InsertIsLocal(before: seq<LayerView>, j: nat, l: LayerView)
    requires j <= |before|
    ensures AgreeOutside(before, With(before, j, l), l.Area()) && SameAbove(before, With(before, j, l), l.id)
  {
    var after := With(before, j, l);
    IdAtOrAbove(after, j);
    forall x, y | !l.Area().Contains(x, y) ensures Top(before, x, y) == Top(after, x, y) {
      TopWithNothing(before, j, l, x, y);
    }
    forall k | 0 <= k <= |after| && !HasId(after[k..], l.id) ensures IsSuffix(after[k..], before) {
      assert after[k..] == before[k - 1..];
    }
  }

  lemma ReorderAgrees(before: seq<LayerView>, was: nat, now: nat)
    requires was < |before| && now < |before|
    ensures AgreeOutside(before, With(Without(before, was), now, before[was]), before[was].Area())
  {
    var l, rest := before[was], Without(before, was);
    WithWithout(before, was);
    forall x, y | !l.Area().Contains(x, y) ensures Top(before, x, y) == Top(With(rest, now, l), x, y) {
      TopWithNothing(rest, was, l, x, y);
      TopWithNothing(rest, now, l, x, y);
    }
  }

  /** Raising a layer, or putting it back where it was. */
  lemma RaiseIsLocal(before: seq<LayerView>, was: nat, now: nat)
    requires was <= now < |before|
    ensures var l := before[was]; var after := With(Without(before, was), now, l);
      AgreeOutside(before, after, l.Area()) && SameAbove(before, after, l.id)
  {
    var l, rest := before[was], Without(before, was);
    var after := With(rest, now, l);
    IdAtOrAbove(after, now);
    ReorderAgrees(before, was, now);
    forall k | 0 <= k <= |after| && !HasId(after[k..], l.id) ensures IsSuffix(after[k..], before) {
      assert after[k..] == before[k..];
    }
  }

  // ----- edits that may leave stale pixels -----

  /** The layer at `j` is what the stack shows at (x, y). */
  predicate SeenAt(stack: seq<LayerView>, j: nat, x: int, y: int)
    requires j < |stack|
  {
    stack[j].Show(x, y).Some? && Top(stack[j + 1..], x, y).None?
  }

  /** Wherever the layer at `j` was seen, the rest of the stack shows nothing or the very same pixel. */
  ghost predicate HiddenUnseen(before: seq<LayerView>, j: nat, screen: Picture)
    requires j < |before|
  {
    forall x, y :: screen.Has(x, y) && SeenAt(before, j, x, y) ==>
      Top(Without(before, j), x, y).None? || Top(Without(before, j), x, y) == before[j].Show(x, y)
  }

  /** hide does not repaint: the screen stays consistent exactly when no stale pixel is left. */
  lemma HideExact(before: seq<LayerView>, j: nat, screen: Picture)
    requires j < |before| && Consistent(before, screen)
    ensures Consistent(Without(before, j), screen) <==> HiddenUnseen(before, j, screen)
  {
    var l, rest := before[j], Without(before, j);
    WithWithout(before, j);
    forall x, y
      ensures SeenAt(before, j, x, y) ==> Top(before, x, y) == l.Show(x, y)
      ensures !SeenAt(before, j, x, y) ==> Top(before, x, y) == Top(rest, x, y)
    {
      TopOfWith(rest, j, l, x, y);
      TopOfSuffix(rest, j, x, y);
    }
  }

  /** Wherever nothing lies above the layer at `j` and a new key changes what it shows, the stack up to
      it then shows nothing or the pixel that is on the screen already. */
  ghost predicate RekeyedUnseen(before: seq<LayerView>, j: nat, key: Option<Pixel>, screen: Picture)
    requires j < |before|
  {
    var l := before[j].(key := key);
    forall x, y :: screen.Has(x, y) && Top(before[j + 1..], x, y).None? && l.Show(x, y) != before[j].Show(x, y) ==>
      Top(before[..j] + [l], x, y).None? || Top(before[..j] + [l], x, y) == Some(screen.At(x, y))
  }

  /** set_transparent_color does not repaint either: the screen stays consistent exactly then. */
  lemma RekeyExact(before: seq<LayerView>, j: nat, key: Option<Pixel>, screen: Picture)
    requires j < |before| && Consistent(before, screen)
    ensures Consistent(before[j := before[j].(key := key)], screen) <==> RekeyedUnseen(before, j, key, screen)
  {
    hide LayerView.Show;
    var l := before[j].(key := key);
    var after := before[j := l];
    assert after[j + 1..] == before[j + 1..] && after[..j + 1] == before[..j] + [l]
      && before[..j + 1] == before[..j] + [before[j]];
    forall x, y
      ensures Top(before[j + 1..], x, y).Some? ==> Top(after, x, y) == Top(before, x, y)
      ensures Top(before[j + 1..], x, y).None? ==> Top(after, x, y) == Top(before[..j] + [l], x, y)
      ensures l.Show(x, y) == before[j].Show(x, y) ==> Top(after, x, y) == Top(before, x, y)
    {
      TopOfSuffix(before, j + 1, x, y);
      TopOfSuffix(after, j + 1, x, y);
      if l.Show(x, y) == before[j].Show(x, y) { TopPointwise(before, after, x, y); }
    }
  }

  /** Some opaque layer that ends up above position `now` covers all of `l`. */
  predicate Buried(rest: seq<LayerView>, now: nat, l: LayerView) {
    exists k :: now <= k < |rest| && CoversOpaquely(rest[k], l.Area())
  }

  /** Unless an opaque layer covers all of it afterwards, fine; else every pixel at which the layer was
      seen keeps its value. */
  ghost predicate LoweredUnseen(before: seq<LayerView>, was: nat, now: nat, screen: Picture)
    requires now <= was < |before|
  {
    var l, rest := before[was], Without(before, was);
    Buried(rest, now, l) ==> forall x, y :: screen.Has(x, y) && SeenAt(before, was, x, y) ==>
      Top(rest, x, y) == l.Show(x, y)
  }

  /** Lowering repaints unless the layer ends up under an opaque cover of its whole area: the screen is
      consistent exactly when no stale pixel is left. */
  lemma LowerExact(before: seq<LayerView>, was: nat, now: nat, screen: Picture)
    requires now <= was < |before| && UniqueIds(before) && screen.Rectangular() && Consistent(before, screen)
    ensures var l := before[was]; var after := With(Without(before, was), now, l);
      Consistent(after, DrawDamage(after, screen, l.id, l.Area())) <==> LoweredUnseen(before, was, now, screen)
  {
    var l, rest := before[was], Without(before, was);
    var after := With(rest, now, l);
    IdAtOrAbove(after, now);
    var i := CoverBelow(after, l.Area(), |after|);
    BuriedIffSkipped(before, was, now);
    ReorderAgrees(before, was, now);
    WithWithout(before, was);
    if HasId(after[i..], l.id) {
      RedrawnIsConsistent(before, after, screen, l.id, l.Area());
    } else {
      forall x, y
        ensures SeenAt(before, was, x, y) ==> Top(before, x, y) == l.Show(x, y) && Top(after, x, y) == Top(rest, x, y)
        ensures !SeenAt(before, was, x, y) ==> Top(before, x, y) == Top(rest, x, y) == Top(after, x, y)
        ensures l.Show(x, y).Some? ==> Top(after, x, y).Some?
      {
        TopOfWith(rest, was, l, x, y);
        TopOfSuffix(rest, was, x, y);
        TopOfWith(rest, now, l, x, y);
        TopOfSuffix(rest, now, x, y);
        if l.Area().Contains(x, y) {
          CoverShowsTop(after, l.Area(), x, y);
          BuriedShows(rest, now, l, x, y);
        }
      }
    }
  }

  /** The unconditional half of the damage redraw: what is redrawn is right. */
  lemma RedrawnIsConsistent(before: seq<LayerView>, after: seq<LayerView>, screen: Picture, id: nat, rect: Rect)
    requires screen.Rectangular() && Consistent(before, screen) && AgreeOutside(before, after, rect)
    requires HasId(after[CoverBelow(after, rect, |after|)..], id)
    ensures Consistent(after, DrawDamage(after, screen, id, rect))
  {
    var i := CoverBelow(after, rect, |after|);
    PaintInAt(after[i..], screen, rect);
    forall x, y | screen.Has(x, y) && Top(after, x, y).Some?
      ensures DrawDamage(after, screen, id, rect).At(x, y) == Top(after, x, y).value
    {
      if rect.Contains(x, y) { CoverShowsTop(after, rect, x, y); }
    }
  }

  lemma BuriedShows(rest: seq<LayerView>, now: nat, l: LayerView, x: int, y: int)
    requires now <= |rest| && Buried(rest, now, l) && l.Area().Contains(x, y)
    ensures Top(rest[now..], x, y).Some?
  {
    var k :| now <= k < |rest| && CoversOpaquely(rest[k], l.Area());
    var above := rest[now..];
    TopOfSuffix(above, k - now + 1, x, y);
    assert above[..k - now + 1][k - now] == rest[k];
  }

  lemma BuriedIffSkipped(before: seq<LayerView>, was: nat, now: nat)
    requires now <= was < |before| && UniqueIds(before)
    ensures var l, rest := before[was], Without(before, was); var after := With(rest, now, l);
      Buried(rest, now, l) <==> !HasId(after[CoverBelow(after, l.Area(), |after|)..], l.id)
  {
    var l, rest := before[was], Without(before, was);
    var after := With(rest, now, l);
    IdAtOrAbove(after, now);
    var i := CoverBelow(after, l.Area(), |after|);
    assert forall k :: now <= k < |rest| ==> rest[k] == after[k + 1];
    assert after[now] == l;
    if i <= now {
      assert after[i..][now - i].id == l.id;
    } else {
      assert after[i] == rest[i - 1];
      forall k | 0 <= k < |after[i..]| ensures after[i..][k].id != l.id {
        assert after[i..][k] == rest[i + k - 1];
      }
    }
  }
}
