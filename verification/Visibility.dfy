/** Which windows are visible and on which display (src/window/visibility.rs, `Rect` in
    src/macos/window_list.rs), over exact reals. */
module Visibility {
  import opened Options

  datatype Rect = Rect(x: real, y: real, width: real, height: real)
  datatype DisplayEntry = DisplayEntry(index: nat, bounds: Rect)
  datatype WindowEntry = WindowEntry(ownerPid: int, windowNumber: nat, bounds: Rect, layer: int, z: nat)
  datatype VisibleWindow = VisibleWindow(window: WindowEntry, display: nat)

  const VISIBLE_AREA_FRACTION := 0.2

  function Max(a: real, b: real): real { if a < b then b else a }
  function Min(a: real, b: real): real { if a < b then a else b }

  function Area(r: Rect): real { Max(r.width, 0.0) * Max(r.height, 0.0) }

  function IntersectionArea(r: Rect, s: Rect): real {
    var width := Min(r.x + r.width, s.x + s.width) - Max(r.x, s.x);
    var height := Min(r.y + r.height, s.y + s.height) - Max(r.y, s.y);
    if width <= 0.0 || height <= 0.0 then 0.0 else width * height
  }

  /** A display covers enough of a window that has an area. */
  predicate Qualifies(bounds: Rect, d: DisplayEntry) {
    Area(bounds) > 0.0 && IntersectionArea(bounds, d.bounds) >= Area(bounds) * VISIBLE_AREA_FRACTION
  }

  /** A point inside a rectangle, its right and lower edges not included. */
  predicate Inside(r: Rect, x: real, y: real) {
    r.x <= x < r.x + r.width && r.y <= y < r.y + r.height
  }

  /** The part two rectangles share is a rectangle, and its area is their intersection's. A rectangle
      has the area of its sides, or none without points. */
  lemma {:induction false} IntersectionExactly(r: Rect, s: Rect) returns (q: Rect)
    ensures forall x, y :: Inside(q, x, y) <==> Inside(r, x, y) && Inside(s, x, y)
    ensures IntersectionArea(r, s) == Area(q)
    ensures Area(q) == if q.width > 0.0 && q.height > 0.0 then q.width * q.height else 0.0
  {
    var left, top := Max(r.x, s.x), Max(r.y, s.y);
    q := Rect(left, top, Min(r.x + r.width, s.x + s.width) - left, Min(r.y + r.height, s.y + s.height) - top);
    AreaExactly(q);
  }

  lemma AreaExactly(q: Rect)
    ensures Area(q) == if q.width > 0.0 && q.height > 0.0 then q.width * q.height else 0.0
  {
  }

  /** A display qualifies with a fifth of a window that has an area. */
  lemma QualifiesExactly(bounds: Rect, d: DisplayEntry)
    ensures Qualifies(bounds, d) <==>
            bounds.width > 0.0 && bounds.height > 0.0
            && 5.0 * IntersectionArea(bounds, d.bounds) >= bounds.width * bounds.height
  {
    hide IntersectionArea;
    AreaExactly(bounds);
    if bounds.width > 0.0 && bounds.height > 0.0 {
      assert bounds.width * bounds.height > 0.0;
    }
  }

  /** `d` covers more than `e`, or as much under no higher an index. */
  predicate AtLeast(bounds: Rect, d: DisplayEntry, e: DisplayEntry) {
    var a, b := IntersectionArea(bounds, d.bounds), IntersectionArea(bounds, e.bounds);
    a > b || (a == b && d.index <= e.index)
  }

  /** The best of the displays that qualify, if any does. */
  ghost predicate IsBest(bounds: Rect, displays: seq<DisplayEntry>, best: Option<nat>) {
    match best
    case None => forall d :: d in displays ==> !Qualifies(bounds, d)
    case Some(index) =>
      exists d :: d in displays && d.index == index && Qualifies(bounds, d)
                  && forall e :: e in displays && Qualifies(bounds, e) ==> AtLeast(bounds, d, e)
  }

  /** The best index: some display that qualifies has it, and any other that does covers less, or as
      much under an index no lower. */
  lemma {:induction false} BestExactly(bounds: Rect, displays: seq<DisplayEntry>, best: Option<nat>)
    ensures IsBest(bounds, displays, best) <==>
            match best
            case None => forall d :: d in displays ==> !Qualifies(bounds, d)
            case Some(index) =>
              exists d :: d in displays && d.index == index && Qualifies(bounds, d)
                && forall e :: e in displays && Qualifies(bounds, e) ==>
                     var a, b := IntersectionArea(bounds, d.bounds), IntersectionArea(bounds, e.bounds);
                     b < a || (b == a && e.index >= index)
  {
    hide IntersectionArea, Qualifies;
  }

  method BestDisplay(bounds: Rect, displays: seq<DisplayEntry>) returns (best: Option<nat>)
    ensures IsBest(bounds, displays, best)
  {
    hide IntersectionArea, Area;
    var area := Area(bounds);
    if area <= 0.0 {
      return None;
    }
    var threshold := area * VISIBLE_AREA_FRACTION;
    var found: Option<(nat, real)> := None;
    ghost var chosen: Option<DisplayEntry> := None;
    for i := 0 to |displays|
      invariant found.Some? <==> chosen.Some?
      invariant found.None? ==> forall d :: d in displays[..i] ==> !Qualifies(bounds, d)
      invariant found.Some? ==>
        && chosen.value in displays[..i] && Qualifies(bounds, chosen.value)
        && found.value == (chosen.value.index, IntersectionArea(bounds, chosen.value.bounds))
        && forall e :: e in displays[..i] && Qualifies(bounds, e) ==> AtLeast(bounds, chosen.value, e)
    {
      var d := displays[i];
      assert displays[..i + 1] == displays[..i] + [d];
      var overlap := IntersectionArea(bounds, d.bounds);
      if overlap < threshold {
        continue;
      }
      if found.None? || overlap > found.value.1 || (overlap == found.value.1 && d.index < found.value.0) {
        found, chosen := Some((d.index, overlap)), Some(d);
      }
    }
    assert displays[..|displays|] == displays;
    best := if found.None? then None else Some(found.value.0);
  }

  /** There is one best index, and the order of the displays has no part in it. */
  lemma {:induction false} BestIsUnique(
      bounds: Rect, a: seq<DisplayEntry>, b: seq<DisplayEntry>, best: Option<nat>, other: Option<nat>)
    requires forall d :: d in a <==> d in b
    requires IsBest(bounds, a, best) && IsBest(bounds, b, other)
    ensures best == other
  {
    hide IntersectionArea, Area, Qualifies;
    if best.Some? && other.Some? {
      var d :| d in a && d.index == best.value && Qualifies(bounds, d)
               && forall e :: e in a && Qualifies(bounds, e) ==> AtLeast(bounds, d, e);
      var e :| e in b && e.index == other.value && Qualifies(bounds, e)
               && forall f :: f in b && Qualifies(bounds, f) ==> AtLeast(bounds, e, f);
      assert AtLeast(bounds, d, e) && AtLeast(bounds, e, d);
    }
  }

  /** `picked` are the positions of the visible windows: every ordinary window that some display
      covers enough of, in the order listed, each with its best display. */
  ghost predicate AreVisible(
      windows: seq<WindowEntry>, displays: seq<DisplayEntry>, visible: seq<VisibleWindow>, picked: seq<nat>) {
    && |picked| == |visible|
    && (forall i, j :: 0 <= i < j < |picked| ==> picked[i] < picked[j])
    && (forall i :: 0 <= i < |picked| ==>
          && picked[i] < |windows| && visible[i].window == windows[picked[i]] && visible[i].window.layer == 0
          && IsBest(visible[i].window.bounds, displays, Some(visible[i].display)))
    && (forall k: nat :: k < |windows| && windows[k].layer == 0 && k !in picked ==>
        IsBest(windows[k].bounds, displays, None))
  }

  method VisibleWindows(windows: seq<WindowEntry>, displays: seq<DisplayEntry>) returns (visible: seq<VisibleWindow>)
    ensures exists picked :: AreVisible(windows, displays, visible, picked)
  {
    hide IsBest;
    visible := [];
    ghost var picked: seq<nat> := [];
    for i := 0 to |windows|
      invariant AreVisible(windows[..i], displays, visible, picked)
    {
      var window := windows[i];
      if window.layer != 0 {
        continue;
      }
      var best := BestDisplay(window.bounds, displays);
      if best.None? {
        continue;
      }
      visible, picked := visible + [VisibleWindow(window, best.value)], picked + [i];
    }
    assert windows[..|windows|] == windows;
  }
}
