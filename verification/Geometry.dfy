/** Integer vectors and half-open rectangles (kernel/graphics/primitives.hpp). */
module Geometry {

  datatype Vec = Vec(x: int, y: int) {
    function Add(v: Vec): Vec { Vec(x + v.x, y + v.y) }

    function Sub(v: Vec): Vec { Vec(x - v.x, y - v.y) }

    function Min(v: Vec): Vec { Vec(MinInt(x, v.x), MinInt(y, v.y)) }

    function Max(v: Vec): Vec { Vec(MaxInt(x, v.x), MaxInt(y, v.y)) }
  }

  function MinInt(a: int, b: int): int { if b < a then b else a }

  function MaxInt(a: int, b: int): int { if a < b then b else a }

  /** The pixels p with left <= p.x < right and top <= p.y < bottom; empty when inverted. */
  datatype Rect = Rect(left: int, top: int, right: int, bottom: int) {
    function TopLeft(): Vec { Vec(left, top) }

    function BottomRight(): Vec { Vec(right, bottom) }

    function Size(): Vec { Vec(right - left, bottom - top) }

    function Offset(d: Vec): Rect { Rect(left + d.x, top + d.y, right + d.x, bottom + d.y) }

    function Merge(o: Rect): Rect {
      Rect(MinInt(left, o.left), MinInt(top, o.top), MaxInt(right, o.right), MaxInt(bottom, o.bottom))
    }

    function Cross(o: Rect): Rect {
      Rect(MaxInt(left, o.left), MaxInt(top, o.top), MinInt(right, o.right), MinInt(bottom, o.bottom))
    }

    predicate IsCrossing(o: Rect) { left < o.right && top < o.bottom && o.left < right && o.top < bottom }

    predicate Includes(o: Rect) { left <= o.left && top <= o.top && o.right <= right && o.bottom <= bottom }

    predicate Contains(x: int, y: int) { left <= x < right && top <= y < bottom }
  }

  function RectAt(topLeft: Vec, size: Vec): Rect {
    Rect(topLeft.x, topLeft.y, topLeft.x + size.x, topLeft.y + size.y)
  }

  /** Bounding rectangle of a non-empty list, folded from the left as the manager does. */
  function MergeAll(rects: seq<Rect>): Rect
    requires rects != []
  {
    if |rects| == 1 then rects[0] else MergeAll(rects[..|rects| - 1]).Merge(rects[|rects| - 1])
  }

  /** The bounding rectangle is the least rectangle that includes every member. */
  lemma {:induction false} MergeAllIsLeast(rects: seq<Rect>, s: Rect)
    requires rects != []
    ensures s.Includes(MergeAll(rects)) <==> forall k :: 0 <= k < |rects| ==> s.Includes(rects[k])
  {
    if |rects| > 1 {
      var front := rects[..|rects| - 1];
      MergeAllIsLeast(front, s);
      assert forall k :: 0 <= k < |front| ==> front[k] == rects[k];
    }
  }

  function OffsetAll(rects: seq<Rect>, d: Vec): (r: seq<Rect>)
    ensures |r| == |rects|
    ensures forall k :: 0 <= k < |rects| ==> r[k] == rects[k].Offset(d)
  {
    seq(|rects|, k requires 0 <= k < |rects| => rects[k].Offset(d))
  }

  /** Translating damage towards a parent commutes with taking its bounding rectangle. */
  lemma {:induction false} OffsetCommutesWithMerge(rects: seq<Rect>, d: Vec)
    requires rects != []
    ensures MergeAll(OffsetAll(rects, d)) == MergeAll(rects).Offset(d)
  {
    if |rects| > 1 {
      var front := rects[..|rects| - 1];
      OffsetCommutesWithMerge(front, d);
      assert OffsetAll(rects, d)[..|rects| - 1] == OffsetAll(front, d);
    }
  }
}
