// The geometry of the skyline packer: what a skyline is, where a rectangle may
// rest on it, and what laying a rectangle on it does.  Everything here is about
// values; the linked nodes that hold a skyline are in module RectPack.
module Skyline {
  import opened Arith

  // One node of the skyline: the silhouette has height y from x up to the x of
  // the next node.
  datatype Step = Step(x: int, y: int)

  datatype Option<+T> = None | Some(value: T)

  datatype Rect = Rect(x: int, y: int, w: int, h: int)

  ghost predicate Before(s: seq<Step>, i: int, j: int) {
    0 <= i < j < |s|
  }

  // Stated through Before, so that a proof names the pairs it compares.
  ghost predicate Increasing(s: seq<Step>) {
    forall i, j {:trigger Before(s, i, j)} :: Before(s, i, j) ==> s[i].x < s[j].x
  }

  lemma Order(s: seq<Step>, i: int, j: int)
    requires Increasing(s) && 0 <= i <= j < |s|
    ensures s[i].x <= s[j].x && (i < j ==> s[i].x < s[j].x)
  {
    assert i < j ==> Before(s, i, j);
  }

  // Starts at the left edge of the bin, ends with the sentinel at its right edge.
  ghost predicate IsSkyline(s: seq<Step>, binWidth: int) {
    && Increasing(s)
    && |s| >= 2
    && s[0].x == 0
    && s[|s| - 1].x == binWidth
    && forall i :: 0 <= i < |s| ==> 0 <= s[i].y
  }

  ghost predicate LowerThan(s: seq<Step>, y: int) {
    forall i :: 0 <= i < |s| ==> s[i].y < y
  }

  // Segment i of the skyline shares a column with [lo, hi).
  ghost predicate Meets(s: seq<Step>, i: int, lo: int, hi: int) {
    0 <= i < |s| - 1 && s[i].x < hi && lo < s[i + 1].x
  }

  // No segment between columns lo and hi is higher than y.
  ghost predicate RestsOn(s: seq<Step>, lo: int, hi: int, y: int) {
    forall i {:trigger Meets(s, i, lo, hi)} :: Meets(s, i, lo, hi) ==> s[i].y <= y
  }

  ghost predicate Disjoint(a: Rect, b: Rect) {
    a.x + a.w <= b.x || b.x + b.w <= a.x || a.y + a.h <= b.y || b.y + b.h <= a.y
  }

  ghost predicate InsideBin(r: Rect, width: int, height: int) {
    0 <= r.x && 0 < r.w && r.x + r.w <= width && 0 <= r.y && 0 < r.h && r.y + r.h <= height
  }

  // The skyline is nowhere below the top of r.
  ghost predicate Above(s: seq<Step>, r: Rect) {
    forall i {:trigger Meets(s, i, r.x, r.x + r.w)} :: Meets(s, i, r.x, r.x + r.w) ==> r.y + r.h <= s[i].y
  }

  // What every sequence of placements keeps.
  ghost predicate GoodPacking(s: seq<Step>, width: int, height: int, placed: seq<Rect>) {
    && (forall k :: 0 <= k < |placed| ==> InsideBin(placed[k], width, height) && Above(s, placed[k]))
    && (forall j, k {:trigger Disjoint(placed[j], placed[k])} :: 0 <= j < k < |placed| ==>
      Disjoint(placed[j], placed[k]))
  }

  // ----- sweeping the nodes under a position -----

  // The node walk that finds how high a box of the given width rests when its
  // left edge is at x0, and how much area it wastes below itself.
  function Sweep(s: seq<Step>, k: nat, x0: int, width: int, minY: int, visited: int, waste: int): (int, int)
    decreases |s| - k
  {
    if k + 1 >= |s| || s[k].x >= x0 + width then
      (minY, waste)
    else if s[k].y > minY then
      var step := if s[k].x < x0 then s[k + 1].x - x0 else s[k + 1].x - s[k].x;
      Sweep(s, k + 1, x0, width, s[k].y, visited + step, waste + visited * (s[k].y - minY))
    else
      var step := s[k + 1].x - s[k].x;
      var under := if step + visited > width then width - visited else step;
      Sweep(s, k + 1, x0, width, minY, visited + under, waste + under * (minY - s[k].y))
  }

  function RestY(s: seq<Step>, k: nat, x0: int, width: int): int {
    Sweep(s, k, x0, width, 0, 0, 0).0
  }

  function WasteAt(s: seq<Step>, k: nat, x0: int, width: int): int {
    Sweep(s, k, x0, width, 0, 0, 0).1
  }

  // The node whose segment holds column x.
  ghost predicate Holds(s: seq<Step>, k: int, x: int) {
    0 <= k < |s| - 1 && s[k].x <= x < s[k + 1].x
  }

  lemma {:induction false} SweepHeight(s: seq<Step>, k: nat, x0: int, width: int, minY: int, visited: int, waste: int)
    requires Increasing(s)
    ensures var y := Sweep(s, k, x0, width, minY, visited, waste).0;
      && minY <= y
      && (forall i :: k <= i < |s| - 1 && s[i].x < x0 + width ==> s[i].y <= y)
      && (y == minY || exists i :: k <= i < |s| - 1 && s[i].x < x0 + width && s[i].y == y)
    decreases |s| - k
  {
    if k + 1 >= |s| || s[k].x >= x0 + width {
      forall i | k <= i < |s| ensures s[k].x <= s[i].x { Order(s, k, i); }
    } else if s[k].y > minY {
      var step := if s[k].x < x0 then s[k + 1].x - x0 else s[k + 1].x - s[k].x;
      SweepHeight(s, k + 1, x0, width, s[k].y, visited + step, waste + visited * (s[k].y - minY));
    } else {
      var step := s[k + 1].x - s[k].x;
      var under := if step + visited > width then width - visited else step;
      SweepHeight(s, k + 1, x0, width, minY, visited + under, waste + under * (minY - s[k].y));
    }
  }

  // A box of that width rests exactly on the highest segment below it: it is not
  // lower than any of them, and it touches one (or the floor of the bin).
  lemma RestsOnSkyline(s: seq<Step>, binWidth: int, k: nat, x0: int, width: int)
    requires IsSkyline(s, binWidth) && Holds(s, k, x0) && 0 < width
    ensures var y := RestY(s, k, x0, width);
      && 0 <= y
      && RestsOn(s, x0, x0 + width, y)
      && (y == 0 || exists i :: Meets(s, i, x0, x0 + width) && s[i].y == y)
  {
    SweepHeight(s, k, x0, width, 0, 0, 0);
    forall i {:trigger Meets(s, i, x0, x0 + width)} | 0 <= i < k
      ensures !Meets(s, i, x0, x0 + width)
    {
      Order(s, i + 1, k);
    }
    forall i | k <= i < |s| - 1 && s[i].x < x0 + width ensures Meets(s, i, x0, x0 + width) {
      Order(s, k + 1, i + 1);
    }
  }

  function Min(a: int, b: int): int { if a < b then a else b }

  function Max(a: int, b: int): int { if a < b then b else a }

  // The area between the skyline from node k on and a box [x0, x1) resting at height y.
  function AreaBelow(s: seq<Step>, k: nat, x0: int, x1: int, y: int): int
    decreases |s| - k
  {
    if k + 1 >= |s| || s[k].x >= x1 then 0
    else (Min(s[k + 1].x, x1) - Max(s[k].x, x0)) * (y - s[k].y) + AreaBelow(s, k + 1, x0, x1, y)
  }

  // What `extra` columns counted too many add to the waste, from node k on: a node that
  // does not raise the box clips its count at `width - visited` and so takes columns back,
  // at its own height; those never taken back count for the whole height of rest.
  function Over(s: seq<Step>, k: nat, x1: int, extra: int, minY: int, rest: int): int
    decreases |s| - k
  {
    if k + 1 >= |s| || s[k].x >= x1 then extra * rest
    else if s[k].y > minY then Over(s, k + 1, x1, extra, s[k].y, rest)
    else
      var g := TakenBack(s[k + 1].x - s[k].x, x1 - s[k].x, extra);
      g * s[k].y + Over(s, k + 1, x1, extra - g, minY, rest)
  }

  // Of a node `step` columns wide, with `left` columns to go, the walk counts this much too little.
  function TakenBack(step: int, left: int, extra: int): (g: int)
    ensures 0 <= extra ==> 0 <= g <= extra
  {
    Min(step, left) - Min(step, left - extra)
  }

  // Inside a node of height 0 the walk also counts columns left of the box.
  function CountedLeft(s: seq<Step>, k: nat, x0: int, width: int): (d: int)
    requires Holds(s, k, x0) && 0 < width
    ensures 0 <= d && (s[k].x == x0 || 0 < s[k].y ==> d == 0)
  {
    if 0 < s[k].y then 0 else Min(s[k + 1].x - s[k].x, width) - (Min(s[k + 1].x, x0 + width) - x0)
  }

  function Overstated(s: seq<Step>, k: nat, x0: int, width: int): int
    requires Holds(s, k, x0) && 0 < width
  {
    Over(s, k + 1, x0 + width, CountedLeft(s, k, x0, width), Max(0, s[k].y), RestY(s, k, x0, width))
  }

  lemma {:induction false} SweepWaste(s: seq<Step>, k: nat, x0: int, width: int, minY: int, visited: int, waste: int,
                                      extra: int)
    requires Increasing(s) && (k < |s| ==> x0 <= s[k].x)
    requires k < |s| && s[k].x < x0 + width ==> visited == s[k].x - x0 + extra
    ensures var r := Sweep(s, k, x0, width, minY, visited, waste); var x1 := x0 + width;
      r.1 == waste + visited * (r.0 - minY) + AreaBelow(s, k, x0, x1, r.0) +
        Over(s, k, x1, extra, minY, r.0) - extra * r.0
    decreases |s| - k
  {
    var r := Sweep(s, k, x0, width, minY, visited, waste);
    if k + 1 < |s| { Order(s, k, k + 1); }
    if k + 1 >= |s| || s[k].x >= x0 + width {
    } else if s[k].y > minY {
      var step := s[k + 1].x - s[k].x;
      SweepWaste(s, k + 1, x0, width, s[k].y, visited + step, waste + visited * (s[k].y - minY), extra);
      Raise(visited, step, r.0, s[k].y, minY);
      assert s[k + 1].x > x0 + width ==> r.0 == s[k].y;
    } else {
      var step, left := s[k + 1].x - s[k].x, x0 + width - s[k].x;
      var g := TakenBack(step, left, extra);
      var under := Min(step, left) - g;
      assert under == if step + visited > width then width - visited else step;
      SweepWaste(s, k + 1, x0, width, minY, visited + under, waste + under * (minY - s[k].y), extra - g);
      GiveBack(visited, Min(step, left), g, extra, r.0, minY, s[k].y);
    }
  }

  lemma Raise(visited: int, step: int, r: int, y: int, minY: int)
    ensures (visited + step) * (r - y) + visited * (y - minY) == visited * (r - minY) + step * (r - y)
  {
  }

  lemma GiveBack(visited: int, t: int, g: int, extra: int, r: int, m: int, y: int)
    ensures (t - g) * (m - y) + (visited + t - g) * (r - m) - (extra - g) * r
      == visited * (r - m) + t * (r - y) + g * y - extra * r
  {
    Raise(visited, t - g, r, m, m);
    assert (t - g) * (m - y) + (t - g) * (r - m) == (t - g) * (r - y);
    assert (t - g) * (r - y) == t * (r - y) - g * (r - y);
    assert g * (r - y) == g * r - g * y && (extra - g) * r == extra * r - g * r;
  }

  lemma {:induction false} OverNotNegative(s: seq<Step>, k: nat, x1: int, extra: int, minY: int, rest: int)
    requires 0 <= extra && 0 <= rest && forall i :: 0 <= i < |s| ==> 0 <= s[i].y
    ensures 0 <= Over(s, k, x1, extra, minY, rest) && (extra == 0 ==> Over(s, k, x1, extra, minY, rest) == 0)
    decreases |s| - k
  {
    if k + 1 >= |s| || s[k].x >= x1 {
      MulMono(0, extra, rest);
    } else if s[k].y > minY {
      OverNotNegative(s, k + 1, x1, extra, s[k].y, rest);
    } else {
      var g := TakenBack(s[k + 1].x - s[k].x, x1 - s[k].x, extra);
      MulMono(0, g, s[k].y);
      OverNotNegative(s, k + 1, x1, extra - g, minY, rest);
    }
  }

  // The waste reported is never less than the area lost, and it is that area exactly when
  // the columns counted too many add nothing.
  lemma WasteIsArea(s: seq<Step>, binWidth: int, k: nat, x0: int, width: int)
    requires IsSkyline(s, binWidth) && Holds(s, k, x0) && 0 < width
    ensures var lost := AreaBelow(s, k, x0, x0 + width, RestY(s, k, x0, width));
      && WasteAt(s, k, x0, width) == lost + Overstated(s, k, x0, width) && lost <= WasteAt(s, k, x0, width)
      && (WasteAt(s, k, x0, width) == lost <==> Overstated(s, k, x0, width) == 0)
    ensures s[k].x == x0 || 0 < s[k].y ==> Overstated(s, k, x0, width) == 0
  {
    var d := CountedLeft(s, k, x0, width);
    var y := RestY(s, k, x0, width);
    RestsOnSkyline(s, binWidth, k, x0, width);
    OverNotNegative(s, k + 1, x0 + width, d, Max(0, s[k].y), y);
    if 0 < s[k].y {
      SweepWaste(s, k + 1, x0, width, s[k].y, s[k + 1].x - x0, 0, 0);
      FirstRaises(s, k, x0, width);
    } else {
      var under := Min(s[k + 1].x - s[k].x, width);
      SweepWaste(s, k + 1, x0, width, 0, under, 0, d);
      Split(under, d, y);
    }
  }

  lemma FirstRaises(s: seq<Step>, k: nat, x0: int, width: int)
    requires Increasing(s) && Holds(s, k, x0) && 0 < width && 0 < s[k].y
    ensures var y := RestY(s, k, x0, width); var x1 := x0 + width;
      AreaBelow(s, k, x0, x1, y) == (s[k + 1].x - x0) * (y - s[k].y) + AreaBelow(s, k + 1, x0, x1, y)
  {
    assert Sweep(s, k, x0, width, 0, 0, 0) == Sweep(s, k + 1, x0, width, s[k].y, s[k + 1].x - x0, 0);
    assert s[k + 1].x > x0 + width ==> RestY(s, k, x0, width) == s[k].y;
  }

  lemma Split(u: int, d: int, y: int)
    ensures u * y - d * y == (u - d) * y
  {
  }

  // Inside a node of height 0 the walk counts the columns left of the box as
  // well, and reports more than what is lost.
  lemma WasteIsOverstated()
    ensures var s := [Step(0, 0), Step(5, 3), Step(10, 65535)];
      && IsSkyline(s, 10) && Holds(s, 0, 3)
      && WasteAt(s, 0, 3, 6) == 15 && AreaBelow(s, 0, 3, 9, RestY(s, 0, 3, 6)) == 6
  {
    var s := [Step(0, 0), Step(5, 3), Step(10, 65535)];
    assert Sweep(s, 2, 3, 6, 3, 10, 15) == (3, 15);
    assert Sweep(s, 1, 3, 6, 0, 5, 0) == (3, 15);
    assert AreaBelow(s, 2, 3, 9, 3) == 0;
    assert AreaBelow(s, 1, 3, 9, 3) == 0;
  }

  // ----- choosing a position -----

  datatype Heuristic = BottomLeft | BestFit

  // Left edge at column x, inside the segment of node k.
  datatype Spot = Spot(k: nat, x: int)

  ghost predicate LeftAligned(s: seq<Step>, binWidth: int, width: int, c: Spot) {
    Holds(s, c.k, c.x) && c.x == s[c.k].x && c.x + width <= binWidth
  }

  // The right edge of the box stands on node t.
  ghost predicate RightAligned(s: seq<Step>, width: int, c: Spot, t: int) {
    Holds(s, c.k, c.x) && 0 <= t < |s| && s[t].x == c.x + width
  }

  ghost predicate FitsLeft(s: seq<Step>, binWidth: int, binHeight: int, width: int, height: int, c: Spot) {
    LeftAligned(s, binWidth, width, c) && RestY(s, c.k, c.x, width) + height <= binHeight
  }

  // The right-aligned search leaves the topmost row of the bin unused.
  ghost predicate FitsRight(s: seq<Step>, binHeight: int, width: int, height: int, c: Spot, t: int) {
    RightAligned(s, width, c, t) && RestY(s, c.k, c.x, width) + height < binHeight
  }

  // The positions at which a heuristic is ready to place the box.
  ghost predicate Fits(g: Heuristic, s: seq<Step>, binWidth: int, binHeight: int, width: int, height: int, c: Spot) {
    || FitsLeft(s, binWidth, binHeight, width, height, c)
    || (g == BestFit && exists t :: FitsRight(s, binHeight, width, height, c, t))
  }

  // a is a strictly worse choice than b: higher, or (best fit) wasting more, or further right.
  ghost predicate Worse(g: Heuristic, s: seq<Step>, width: int, a: Spot, b: Spot) {
    var ya, yb := RestY(s, a.k, a.x, width), RestY(s, b.k, b.x, width);
    var wa, wb := WasteAt(s, a.k, a.x, width), WasteAt(s, b.k, b.x, width);
    || ya > yb
    || (ya == yb && g == BestFit && wa > wb)
    || (ya == yb && (g == BestFit ==> wa == wb) && a.x > b.x)
  }

  // Bottom-left does not look at the height of the bin before it has chosen.
  ghost predicate CandidateLeft(g: Heuristic, s: seq<Step>, binWidth: int, binHeight: int, width: int, height: int,
                                c: Spot)
  {
    LeftAligned(s, binWidth, width, c) && (g == BestFit ==> RestY(s, c.k, c.x, width) + height <= binHeight)
  }

  ghost predicate AtMost(b: Option<Spot>, g: Heuristic, s: seq<Step>, width: int, c: Spot) {
    b.Some? && !Worse(g, s, width, b.value, c)
  }

  // b is the best left-aligned position on a node before bound.
  ghost predicate BestLeft(b: Option<Spot>, g: Heuristic, s: seq<Step>, binWidth: int, binHeight: int,
                           width: int, height: int, bound: int)
  {
    && (b.Some? ==> CandidateLeft(g, s, binWidth, binHeight, width, height, b.value) && b.value.k < bound)
    && forall c {:trigger AtMost(b, g, s, width, c)} ::
         CandidateLeft(g, s, binWidth, binHeight, width, height, c) && c.k < bound ==> AtMost(b, g, s, width, c)
  }

  // b is the best of all left-aligned positions and of the right-aligned ones leaning on a node before bound.
  ghost predicate BestBoth(b: Option<Spot>, s: seq<Step>, binWidth: int, binHeight: int,
                           width: int, height: int, bound: int)
  {
    && (b.Some? ==> Fits(BestFit, s, binWidth, binHeight, width, height, b.value))
    && (forall c {:trigger AtMost(b, BestFit, s, width, c)} ::
          FitsLeft(s, binWidth, binHeight, width, height, c) ==> AtMost(b, BestFit, s, width, c))
    && (forall c, t {:trigger FitsRight(s, binHeight, width, height, c, t)} ::
          FitsRight(s, binHeight, width, height, c, t) && t < bound ==> AtMost(b, BestFit, s, width, c))
  }

  lemma BestLeftStep(was: Option<Spot>, b: Option<Spot>, g: Heuristic, s: seq<Step>, W: int, H: int, w: int, h: int,
                     i: nat)
    requires IsSkyline(s, W) && BestLeft(was, g, s, W, H, w, h, i) && i < |s| - 1 && s[i].x + w <= W
    requires var c := Spot(i, s[i].x);
      b == if CandidateLeft(g, s, W, H, w, h, c) && !AtMost(was, g, s, w, c) then Some(c) else was
    ensures BestLeft(b, g, s, W, H, w, h, i + 1)
  {
    var c := Spot(i, s[i].x);
    forall c' | CandidateLeft(g, s, W, H, w, h, c') && c'.k < i + 1 ensures AtMost(b, g, s, w, c') {
      if c'.k == i { assert c' == c; } else { assert AtMost(was, g, s, w, c'); }
    }
  }

  lemma BestLeftDone(b: Option<Spot>, g: Heuristic, s: seq<Step>, W: int, H: int, w: int, h: int, i: nat)
    requires IsSkyline(s, W) && BestLeft(b, g, s, W, H, w, h, i) && i < |s| && s[i].x + w > W
    ensures BestLeft(b, g, s, W, H, w, h, |s|)
  {
    forall c | CandidateLeft(g, s, W, H, w, h, c) ensures AtMost(b, g, s, w, c) {
      if i <= c.k {
        Order(s, i, c.k);
        assert false;
      }
      assert AtMost(b, g, s, w, c);
    }
  }

  lemma BestBothStart(b: Option<Spot>, s: seq<Step>, W: int, H: int, w: int, h: int, t: nat)
    requires IsSkyline(s, W) && BestLeft(b, BestFit, s, W, H, w, h, |s|)
    requires forall i :: 0 <= i < t && i < |s| ==> s[i].x < w
    ensures BestBoth(b, s, W, H, w, h, t)
  {
    forall c | FitsLeft(s, W, H, w, h, c) ensures AtMost(b, BestFit, s, w, c) {
      assert CandidateLeft(BestFit, s, W, H, w, h, c);
    }
    forall c, t' | FitsRight(s, H, w, h, c, t') && t' < t ensures false {
      Order(s, 0, c.k);
    }
  }

  lemma BestBothStep(was: Option<Spot>, b: Option<Spot>, s: seq<Step>, W: int, H: int, w: int, h: int, t: int, c: Spot)
    requires IsSkyline(s, W) && BestBoth(was, s, W, H, w, h, t) && RightAligned(s, w, c, t)
    requires b == if FitsRight(s, H, w, h, c, t) && !AtMost(was, BestFit, s, w, c) then Some(c) else was
    ensures BestBoth(b, s, W, H, w, h, t + 1)
  {
    forall c', t' | FitsRight(s, H, w, h, c', t') && t' < t + 1 ensures AtMost(b, BestFit, s, w, c') {
      if t' == t {
        SameSegment(s, c.k, c'.k, c.x);
        assert c' == c;
      }
    }
    forall c' | FitsLeft(s, W, H, w, h, c') ensures AtMost(b, BestFit, s, w, c') {
      assert AtMost(was, BestFit, s, w, c');
    }
  }

  // What the search ends with: the best of the left-aligned positions, or (best
  // fit) of all positions that fit.
  ghost predicate BestOf(b: Option<Spot>, g: Heuristic, s: seq<Step>, W: int, H: int, w: int, h: int) {
    if g == BottomLeft then BestLeft(b, g, s, W, H, w, h, |s|) else BestBoth(b, s, W, H, w, h, |s|)
  }

  // c fits, and no position that fits is better.
  ghost predicate BestFitting(c: Spot, g: Heuristic, s: seq<Step>, W: int, H: int, w: int, h: int) {
    && Fits(g, s, W, H, w, h, c)
    && forall c' :: Fits(g, s, W, H, w, h, c') ==> !Worse(g, s, w, c, c')
  }

  // That is: lowest, of equally low ones (best fit) wasting least, and of those leftmost.
  lemma BestIsLeast(c: Spot, g: Heuristic, s: seq<Step>, W: int, H: int, w: int, h: int)
    ensures BestFitting(c, g, s, W, H, w, h) <==>
      && Fits(g, s, W, H, w, h, c)
      && forall d :: Fits(g, s, W, H, w, h, d) ==>
        var y, z := RestY(s, c.k, c.x, w), RestY(s, d.k, d.x, w);
        var m, n := WasteAt(s, c.k, c.x, w), WasteAt(s, d.k, d.x, w);
        && y <= z && (y == z && g == BestFit ==> m <= n)
        && (y == z && (g == BestFit ==> m == n) ==> c.x <= d.x)
  {
  }

  ghost predicate CanPlace(g: Heuristic, s: seq<Step>, W: int, H: int, w: int, h: int) {
    exists c :: Fits(g, s, W, H, w, h, c)
  }

  // The search misses no position: the box can be placed at all exactly when it
  // can be placed where the search says, and no position that fits is better.
  lemma BestOfDecides(b: Option<Spot>, g: Heuristic, s: seq<Step>, W: int, H: int, w: int, h: int)
    requires IsSkyline(s, W) && BestOf(b, g, s, W, H, w, h)
    ensures CanPlace(g, s, W, H, w, h) <==> b.Some? && RestY(s, b.value.k, b.value.x, w) + h <= H
    ensures CanPlace(g, s, W, H, w, h) ==> BestFitting(b.value, g, s, W, H, w, h)
  {
    if b.Some? && RestY(s, b.value.k, b.value.x, w) + h <= H {
      assert Fits(g, s, W, H, w, h, b.value);
    }
    forall c | Fits(g, s, W, H, w, h, c)
      ensures b.Some? && RestY(s, b.value.k, b.value.x, w) + h <= H && !Worse(g, s, w, b.value, c)
    {
      if FitsLeft(s, W, H, w, h, c) {
        assert g == BottomLeft ==> CandidateLeft(g, s, W, H, w, h, c);
        assert AtMost(b, g, s, w, c);
      } else {
        var t :| FitsRight(s, H, w, h, c, t);
        assert AtMost(b, g, s, w, c);
      }
    }
  }

  // A box of that width can lie at spot c on height y without touching the skyline,
  // and nothing sticks up before the next node either.
  ghost predicate Clear(s: seq<Step>, W: int, H: int, w: int, h: int, c: Spot, y: int) {
    && Holds(s, c.k, c.x) && 0 <= c.x && c.x + w <= W
    && 0 <= y && y + h <= H
    && (s[c.k].x == c.x || s[c.k + 1].x <= c.x + w)
    && RestsOn(s, c.x, c.x + w, y)
  }

  lemma FitsClears(c: Spot, g: Heuristic, s: seq<Step>, W: int, H: int, w: int, h: int)
    requires IsSkyline(s, W) && Fits(g, s, W, H, w, h, c) && 0 < w
    ensures Clear(s, W, H, w, h, c, RestY(s, c.k, c.x, w))
  {
    Order(s, 0, c.k);
    if !FitsLeft(s, W, H, w, h, c) {
      var t :| FitsRight(s, H, w, h, c, t);
      Order(s, t, |s| - 1);
      if t <= c.k {
        Order(s, t, c.k);
        assert false;
      }
      Order(s, c.k + 1, t);
    }
    RestsOnSkyline(s, W, c.k, c.x, w);
  }

  ghost predicate CutFrom(s: seq<Step>, c: Spot, w: int, k: int, m: int) {
    && c.k < |s| && k == (if s[c.k].x < c.x then c.k + 1 else c.k)
    && k <= m < |s| && (k < m ==> s[m].x <= c.x + w) && (m + 1 < |s| ==> c.x + w < s[m + 1].x)
  }

  // The nodes the new one swallows, seen from the position chosen.
  lemma CutAtSpot(s: seq<Step>, W: int, c: Spot, w: int, k: nat, m: nat)
    requires IsSkyline(s, W) && Holds(s, c.k, c.x) && CutFrom(s, c, w, k, m)
    ensures IsCut(s, c.x, w, k, m)
  {
    forall i | 0 <= i < k ensures s[i].x < c.x {
      Order(s, i, k - 1);
      Order(s, k - 1, k);
    }
  }

  // ----- laying a rectangle on the skyline -----

  // k: the first node not left of x.  j: the node that stays right of the
  // rectangle; the nodes k..j are swallowed by it.
  ghost predicate IsCut(s: seq<Step>, x: int, w: int, k: int, j: int) {
    && 0 <= k <= j < |s|
    && (forall i :: 0 <= i < k ==> s[i].x < x)
    && x <= s[k].x
    && (k < j ==> s[j].x <= x + w)
    && (j + 1 < |s| ==> x + w < s[j + 1].x)
  }

  function Lay(s: seq<Step>, x: int, w: int, top: int, k: nat, j: nat): seq<Step>
    requires k <= j < |s|
  {
    s[..k] + [Step(x, top), Step(Max(s[j].x, x + w), s[j].y)] + s[j + 1..]
  }

  lemma LayIsSkyline(s: seq<Step>, binWidth: int, x: int, w: int, top: int, k: nat, j: nat)
    requires IsSkyline(s, binWidth) && IsCut(s, x, w, k, j)
    requires 0 <= x && 0 < w && x + w <= binWidth && 0 <= top
    ensures IsSkyline(Lay(s, x, w, top, k, j), binWidth)
  {
    var t := Lay(s, x, w, top, k, j);
    forall a, b | Before(t, a, b) ensures t[a].x < t[b].x {
      LayAt(s, x, w, top, k, j, a);
      LayAt(s, x, w, top, k, j, b);
      var from := if a <= k then a else j + a - k - 1;
      var to := if b <= k then b else j + b - k - 1;
      Order(s, from, to);
      if k + 1 < b { Order(s, j + 1, to); }
    }
    forall a | 0 <= a < |t| ensures 0 <= t[a].y {
      LayAt(s, x, w, top, k, j, a);
    }
    LayAt(s, x, w, top, k, j, 0);
    LayAt(s, x, w, top, k, j, |t| - 1);
  }

  lemma LayAt(s: seq<Step>, x: int, w: int, top: int, k: nat, j: nat, a: nat)
    requires k <= j < |s| && a < |s| - j + k + 1
    ensures |Lay(s, x, w, top, k, j)| == |s| - j + k + 1
    ensures Lay(s, x, w, top, k, j)[a] ==
            if a < k then s[a]
            else if a == k then Step(x, top)
            else if a == k + 1 then Step(Max(s[j].x, x + w), s[j].y)
            else s[a + j - k - 1]
  {
  }

  // Every column of the bin lies on exactly one segment.
  lemma {:induction false} ColumnHasSegment(s: seq<Step>, binWidth: int, x: int, from: nat) returns (k: nat)
    requires IsSkyline(s, binWidth) && from < |s| && s[from].x <= x < binWidth
    ensures Holds(s, k, x) && from <= k
    decreases |s| - from
  {
    if x < s[from + 1].x { k := from; } else { k := ColumnHasSegment(s, binWidth, x, from + 1); }
  }

  // The columns from x to the next node get the new top; no other column changes.
  lemma LayHeights(s: seq<Step>, binWidth: int, x: int, w: int, top: int, k: nat, j: nat, p: int, i: int, i': int)
    requires IsSkyline(s, binWidth) && IsCut(s, x, w, k, j)
    requires 0 <= x && 0 < w && x + w <= binWidth && 0 <= top
    requires Holds(s, i, p) && Holds(Lay(s, x, w, top, k, j), i', p)
    ensures Lay(s, x, w, top, k, j)[i'].y == if x <= p < Max(s[k].x, x + w) then top else s[i].y
  {
    var t := Lay(s, x, w, top, k, j);
    LayIsSkyline(s, binWidth, x, w, top, k, j);
    if i' < k {
      assert t[i'] == s[i'];
      if i' + 1 < k { assert t[i' + 1] == s[i' + 1]; }
      SameSegment(s, i, i', p);
    } else if i' == k {
    } else if i' == k + 1 {
      assert t[i' + 1] == s[j + 1];
      Order(s, k, j);
      SameSegment(s, i, j, p);
    } else {
      assert t[i'] == s[i' + j - k - 1] && t[i' + 1] == s[i' + j - k];
      Order(s, j + 1, i' + j - k - 1);
      Order(s, k, j + 1);
      SameSegment(s, i, i' + j - k - 1, p);
    }
  }

  // A placement lowers the skyline in no column.
  lemma LayNeverLowers(s: seq<Step>, binWidth: int, x: int, w: int, top: int, k: nat, j: nat, p: int, i: int, i': int)
    requires IsSkyline(s, binWidth) && IsCut(s, x, w, k, j)
    requires 0 <= x && 0 < w && x + w <= binWidth && 0 <= top
    requires RestsOn(s, x, Max(s[k].x, x + w), top)
    requires Holds(s, i, p) && Holds(Lay(s, x, w, top, k, j), i', p)
    ensures s[i].y <= Lay(s, x, w, top, k, j)[i'].y
  {
    LayHeights(s, binWidth, x, w, top, k, j, p, i, i');
    if x <= p < Max(s[k].x, x + w) { assert Meets(s, i, x, Max(s[k].x, x + w)); }
  }

  lemma SameSegment(s: seq<Step>, i: int, k: int, x: int)
    requires Increasing(s) && Holds(s, i, x)
    requires 0 <= k < |s| - 1 && s[k].x <= x && (x < s[k + 1].x || i <= k)
    ensures i == k
  {
    if i < k { Order(s, i + 1, k); }
    if k < i { Order(s, k + 1, i); }
  }

  lemma OverlapColumn(a: Rect, b: Rect) returns (p: int)
    requires 0 < a.w && 0 < b.w && a.x < b.x + b.w && b.x < a.x + a.w
    ensures a.x <= p < a.x + a.w && b.x <= p < b.x + b.w
  {
    p := Max(a.x, b.x);
  }

  // Raising the skyline keeps it above what it was above.
  lemma LayKeepsAbove(s: seq<Step>, binWidth: int, x: int, w: int, top: int, k: nat, j: nat, r: Rect)
    requires IsSkyline(s, binWidth) && IsCut(s, x, w, k, j)
    requires 0 <= x && 0 < w && x + w <= binWidth && 0 <= top
    requires RestsOn(s, x, Max(s[k].x, x + w), top)
    requires 0 <= r.x && 0 < r.w && r.x + r.w <= binWidth && Above(s, r)
    ensures Above(Lay(s, x, w, top, k, j), r)
  {
    var t := Lay(s, x, w, top, k, j);
    LayIsSkyline(s, binWidth, x, w, top, k, j);
    forall i' | Meets(t, i', r.x, r.x + r.w) ensures r.y + r.h <= t[i'].y {
      var p := Max(t[i'].x, r.x);
      Order(t, i', i' + 1);
      Order(t, i' + 1, |t| - 1);
      var i := ColumnHasSegment(s, binWidth, p, 0);
      assert Meets(s, i, r.x, r.x + r.w);
      LayHeights(s, binWidth, x, w, top, k, j, p, i, i');
      if x <= p < Max(s[k].x, x + w) {
        assert Meets(s, i, x, Max(s[k].x, x + w));
      }
    }
  }

  // A box resting on the skyline misses everything the skyline is above of.
  lemma RestingIsDisjoint(s: seq<Step>, width: int, a: Rect, r: Rect)
    requires IsSkyline(s, width) && Above(s, a) && 0 < a.w && 0 <= a.x && a.x + a.w <= width && 0 < r.w
    requires RestsOn(s, r.x, r.x + r.w, r.y)
    ensures Disjoint(a, r)
  {
    if a.x < r.x + r.w && r.x < a.x + a.w {
      var p := OverlapColumn(a, r);
      var i := ColumnHasSegment(s, width, p, 0);
      assert Meets(s, i, a.x, a.x + a.w) && Meets(s, i, r.x, r.x + r.w);
    }
  }

  lemma LayIsAboveNew(s: seq<Step>, width: int, r: Rect, k: nat, j: nat)
    requires IsSkyline(s, width) && IsCut(s, r.x, r.w, k, j)
    requires 0 <= r.x && 0 < r.w && r.x + r.w <= width && 0 <= r.y + r.h
    ensures Above(Lay(s, r.x, r.w, r.y + r.h, k, j), r)
  {
    var t := Lay(s, r.x, r.w, r.y + r.h, k, j);
    LayIsSkyline(s, width, r.x, r.w, r.y + r.h, k, j);
    forall i' | Meets(t, i', r.x, r.x + r.w) ensures r.y + r.h <= t[i'].y {
      var p := ColumnUnder(t, width, i', r.x, r.x + r.w);
      var i := ColumnHasSegment(s, width, p, 0);
      LayHeights(s, width, r.x, r.w, r.y + r.h, k, j, p, i, i');
    }
  }

  // A column of the segment i' that lies in [lo, hi).
  lemma ColumnUnder(t: seq<Step>, width: int, i': int, lo: int, hi: int) returns (p: int)
    requires IsSkyline(t, width) && Meets(t, i', lo, hi) && 0 <= lo < hi <= width
    ensures Holds(t, i', p) && lo <= p < hi
  {
    p := Max(t[i'].x, lo);
    Order(t, i', i' + 1);
    Order(t, i' + 1, |t| - 1);
  }

  // One placement: the new rectangle clears everything placed before, and the
  // raised skyline is above all of them and above the new one.
  lemma LayKeepsPacking(s: seq<Step>, width: int, height: int, placed: seq<Rect>, r: Rect, k: nat, j: nat)
    requires IsSkyline(s, width) && GoodPacking(s, width, height, placed)
    requires InsideBin(r, width, height) && IsCut(s, r.x, r.w, k, j)
    requires RestsOn(s, r.x, Max(s[k].x, r.x + r.w), r.y)
    ensures IsSkyline(Lay(s, r.x, r.w, r.y + r.h, k, j), width)
    ensures GoodPacking(Lay(s, r.x, r.w, r.y + r.h, k, j), width, height, placed + [r])
  {
    var t := Lay(s, r.x, r.w, r.y + r.h, k, j);
    LayIsSkyline(s, width, r.x, r.w, r.y + r.h, k, j);
    LayIsAboveNew(s, width, r, k, j);
    forall q | 0 <= q < |placed|
      ensures Disjoint(placed[q], r) && Above(t, placed[q])
    {
      LayKeepsOne(s, width, placed[q], r, k, j);
    }
    AddRect(t, width, height, placed, r);
  }

  lemma LayKeepsOne(s: seq<Step>, width: int, a: Rect, r: Rect, k: nat, j: nat)
    requires IsSkyline(s, width) && Above(s, a) && 0 < a.w && 0 <= a.x && a.x + a.w <= width
    requires 0 <= r.x && 0 < r.w && r.x + r.w <= width && 0 <= r.y && 0 < r.h && IsCut(s, r.x, r.w, k, j)
    requires RestsOn(s, r.x, Max(s[k].x, r.x + r.w), r.y)
    ensures Disjoint(a, r) && Above(Lay(s, r.x, r.w, r.y + r.h, k, j), a)
  {
    RestsOnLess(s, r.x, Max(s[k].x, r.x + r.w), r.x + r.w, r.y, r.y);
    RestsOnLess(s, r.x, Max(s[k].x, r.x + r.w), Max(s[k].x, r.x + r.w), r.y, r.y + r.h);
    LayKeepsAbove(s, width, r.x, r.w, r.y + r.h, k, j, a);
    RestingIsDisjoint(s, width, a, r);
  }

  lemma RestsOnLess(s: seq<Step>, lo: int, hi: int, hi': int, y: int, y': int)
    requires RestsOn(s, lo, hi, y) && hi' <= hi && y <= y'
    ensures RestsOn(s, lo, hi', y')
  {
    forall i | Meets(s, i, lo, hi') ensures s[i].y <= y' {
      assert Meets(s, i, lo, hi);
    }
  }

  // The whole effect of placing a box of width w, aligned to aw, at spot c.
  lemma PlacementKeeps(s: seq<Step>, width: int, height: int, placed: seq<Rect>, c: Spot, aw: int, w: int, y: int,
                       h: int, k: nat, m: nat)
    requires IsSkyline(s, width) && GoodPacking(s, width, height, placed) && LowerThan(s, 0x10000) && height <= 0xffff
    requires 0 < w <= aw && 0 < h && Clear(s, width, height, aw, h, c, y)
    requires CutFrom(s, c, w, k, m)
    ensures var s' := Lay(s, c.x, w, y + h, k, m);
      && IsSkyline(s', width) && LowerThan(s', 0x10000)
      && GoodPacking(s', width, height, placed + [Rect(c.x, y, w, h)])
  {
    CutAtSpot(s, width, c, w, k, m);
    RestsOnLess(s, c.x, c.x + aw, Max(s[k].x, c.x + w), y, y);
    LayKeepsPacking(s, width, height, placed, Rect(c.x, y, w, h), k, m);
    var s' := Lay(s, c.x, w, y + h, k, m);
    forall i | 0 <= i < |s'| ensures s'[i].y < 0x10000 {
      LayAt(s, c.x, w, y + h, k, m, i);
    }
  }

  lemma AddRect(t: seq<Step>, width: int, height: int, placed: seq<Rect>, r: Rect)
    requires forall k :: 0 <= k < |placed| ==>
      InsideBin(placed[k], width, height) && Above(t, placed[k]) && Disjoint(placed[k], r)
    requires forall j, k {:trigger Disjoint(placed[j], placed[k])} :: 0 <= j < k < |placed| ==>
      Disjoint(placed[j], placed[k])
    requires InsideBin(r, width, height) && Above(t, r)
    ensures GoodPacking(t, width, height, placed + [r])
  {
  }

  // ----- how many nodes a skyline can need -----

  // Node positions are distinct whole columns of the bin.
  lemma {:induction false} NodesFitColumns(s: seq<Step>, binWidth: int, n: nat)
    requires IsSkyline(s, binWidth) && n < |s|
    ensures n <= s[n].x
  {
    if n > 0 {
      NodesFitColumns(s, binWidth, n - 1);
      Order(s, n - 1, n);
    }
  }

  // All nodes but the sentinel stand on multiples of the quantum.
  ghost predicate Quantized(s: seq<Step>, quantum: int)
    requires quantum > 0
  {
    forall i :: 0 <= i < |s| - 1 ==> s[i].x % quantum == 0
  }

  lemma {:induction false} NodesFitQuanta(s: seq<Step>, binWidth: int, quantum: int, n: nat)
    requires quantum > 0 && IsSkyline(s, binWidth) && Quantized(s, quantum) && n < |s| - 1
    ensures n * quantum <= s[n].x
  {
    if n > 0 {
      NodesFitQuanta(s, binWidth, quantum, n - 1);
      var a, b := s[n - 1].x, s[n].x;
      Order(s, n - 1, n);
      assert a < b && a % quantum == 0 && b % quantum == 0;
      NextMultiple(a, b, quantum);
    }
  }

  lemma NextMultiple(a: int, b: int, q: int)
    requires q > 0 && a < b && a % q == 0 && b % q == 0
    ensures a + q <= b
  {
    assert a == (a / q) * q && b == (b / q) * q;
    if b / q <= a / q {
      MulMono(b / q, a / q, q);
      assert false;
    }
    MulMono(a / q + 1, b / q, q);
    Distribute(a / q, 1, q);
  }

  // Widths that are multiples of the quantum keep the nodes on multiples of it;
  // the best-fit search also leans on the bin's right edge, which must be one.
  lemma PlacementKeepsQuantized(g: Heuristic, s: seq<Step>, W: int, H: int, aw: int, w: int, h: int, y: int,
                                c: Spot, k: nat, m: nat, q: int)
    requires q > 0 && IsSkyline(s, W) && Quantized(s, q) && 0 < w <= aw && 0 < h
    requires Fits(g, s, W, H, aw, h, c) && CutFrom(s, c, w, k, m) && 0 <= y
    requires w % q == 0 && aw % q == 0 && (g == BottomLeft || W % q == 0)
    ensures Quantized(Lay(s, c.x, w, y, k, m), q)
  {
    FitsClears(c, g, s, W, H, aw, h);
    CutAtSpot(s, W, c, w, k, m);
    LayIsSkyline(s, W, c.x, w, y, k, m);
    if !FitsLeft(s, W, H, aw, h, c) {
      var t :| FitsRight(s, H, aw, h, c, t);
      assert s[t].x % q == 0;
      DifferenceOfMultiples(s[t].x, aw, q);
    }
    SumOfMultiples(c.x, w, q);
    var l := Lay(s, c.x, w, y, k, m);
    forall a | 0 <= a < |l| - 1 ensures l[a].x % q == 0 {
      LayAt(s, c.x, w, y, k, m, a);
    }
  }

  lemma DifferenceOfMultiples(a: int, b: int, q: int)
    requires q > 0 && a % q == 0 && b % q == 0
    ensures (a - b) % q == 0
  {
    MultipleModulo(-(b / q), q);
    assert -(b / q) * q == -b;
    SumOfMultiples(a, -b, q);
  }

  lemma SumOfMultiples(a: int, b: int, q: int)
    requires q > 0 && a % q == 0 && b % q == 0
    ensures (a + b) % q == 0
  {
    Distribute(a / q, b / q, q);
    MultipleModulo(a / q + b / q, q);
  }
}
