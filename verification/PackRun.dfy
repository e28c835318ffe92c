// Whole runs of the packer: when the promise holds that a target has enough nodes.
module PackRun {
  import opened Arith
  import opened Skyline
  import opened RectPack

  datatype Box = Box(w: int, h: int)

  // The quantum that init_target sets.
  function Quantum(W: int, N: int): (q: int)
    requires 1 <= W && 1 <= N
    ensures 1 <= q
  {
    AtLeastOne(W - 1, N);
    (W + N - 1) / N
  }

  lemma AtLeastOne(n: int, d: int)
    requires 0 <= n && 1 <= d
    ensures 1 <= (n + d) / d
  {
    if (n + d) / d < 1 { MulMono((n + d) / d, 0, d); }
  }

  lemma QuantumCovers(W: int, N: int)
    requires 1 <= W && 1 <= N
    ensures Quantum(W, N) <= W <= N * Quantum(W, N)
    ensures N < W ==> N - 1 + Quantum(W, N) <= W
  {
    var a := Quantum(W, N);
    var r := (W + N - 1) % N;
    assert W + N - 1 == N * a + r;
    if W < a { MulMono(W + 1, a, N); MulMono(1, N, W); Distribute(W, 1, N); }
    if N < W && W < N - 1 + a {
      MulMono(W - N + 2, a, N);
      LongStairs(W, N);
    }
  }

  lemma LongStairs(W: int, N: int)
    requires 1 <= N < W
    ensures W + N - 1 < (W - N + 2) * N
  {
    MulMono(1, N, W - N - 1);
    Distribute(W - N - 1, 3, N);
    assert (W - N + 2) * N == (W - N - 1) * N + 3 * N;
  }

  // The skylines that boxes, asked for one by one from a new target of N nodes, go through.
  ghost predicate Run(g: Heuristic, W: int, H: int, N: int, boxes: seq<Box>, states: seq<seq<Step>>)
    requires 1 <= W && 1 <= N
  {
    && |states| == |boxes| + 1 && states[0] == Flat(W)
    && (forall i :: 0 <= i < |boxes| ==> Askable(g, W, Quantum(W, N), boxes[i]))
    && forall i {:trigger BoxStep(g, W, H, N, boxes, states, i)} :: 0 <= i < |boxes| ==>
      BoxStep(g, W, H, N, boxes, states, i)
  }

  ghost predicate Askable(g: Heuristic, W: int, align: int, b: Box)
    requires 1 <= align
  {
    0 < b.w && 0 < b.h && (g == BestFit ==> AlignTo(b.w, align) <= W)
  }

  ghost predicate BoxStep(g: Heuristic, W: int, H: int, N: int, boxes: seq<Box>, states: seq<seq<Step>>, i: int)
    requires 1 <= W && 1 <= N
  {
    && 0 <= i < |boxes| && i + 1 < |states|
    && PackStep(g, W, H, Quantum(W, N), N, states[i], boxes[i].w, boxes[i].h, states[i + 1])
  }

  // No node is left, and yet a position fits.
  ghost predicate RunsOut(g: Heuristic, W: int, H: int, N: int, s: seq<Step>, b: Box)
    requires 1 <= W && 1 <= N
  {
    |s| >= N + 2 && CanPlace(g, s, W, H, AlignTo(b.w, Quantum(W, N)), b.h)
  }

  // One more box makes a run longer by one skyline.
  lemma StepsMore(g: Heuristic, W: int, H: int, N: int, boxes: seq<Box>, states: seq<seq<Step>>, s': seq<Step>, i: nat)
    requires 1 <= W && 1 <= N && |states| == i + 1 && i < |boxes|
    requires forall j {:trigger BoxStep(g, W, H, N, boxes, states, j)} :: 0 <= j < i ==>
      BoxStep(g, W, H, N, boxes, states, j)
    requires PackStep(g, W, H, Quantum(W, N), N, states[i], boxes[i].w, boxes[i].h, s')
    ensures var t := states + [s'];
      forall j {:trigger BoxStep(g, W, H, N, boxes, t, j)} :: 0 <= j < i + 1 ==> BoxStep(g, W, H, N, boxes, t, j)
  {
    forall j | 0 <= j < i + 1 ensures BoxStep(g, W, H, N, boxes, states + [s'], j) {
      assert j < i ==> BoxStep(g, W, H, N, boxes, states, j);
    }
  }

  // The packer's own calls make such a run.
  method PackBoxes(g: Heuristic, W: int, H: int, N: int, boxes: seq<Box>)
    returns (ctx: Context, ghost states: seq<seq<Step>>)
    requires 0 < W <= 0xffff && H <= 0xffff && 1 <= N
    requires forall i :: 0 <= i < |boxes| ==> Askable(g, W, Quantum(W, N), boxes[i])
    ensures ctx.Valid() && Run(g, W, H, N, boxes, states) && ctx.sky == states[|boxes|]
    ensures ctx.free == [] <==> |states[|boxes|]| >= N + 2
  {
    ctx := new Context(W, H, N);
    ctx.SetupHeuristic(g);
    states := [ctx.sky];
    for i := 0 to |boxes|
      invariant ctx.Valid() && fresh(ctx) && fresh(ctx.nodes) && |states| == i + 1 && ctx.sky == states[i]
      invariant ctx.width == W && ctx.height == H && ctx.numNodes == N && ctx.align == Quantum(W, N)
        && ctx.heuristic == g
      invariant states[0] == Flat(W)
      invariant forall j {:trigger BoxStep(g, W, H, N, boxes, states, j)} :: 0 <= j < i ==>
        BoxStep(g, W, H, N, boxes, states, j)
    {
      var b := boxes[i];
      var fr := ctx.Place(b.w, b.h);
      StepsMore(g, W, H, N, boxes, states, ctx.sky, i);
      states := states + [ctx.sky];
    }
  }

  // ----- what every run keeps -----

  lemma RaisesKeepsSkyline(g: Heuristic, s: seq<Step>, W: int, H: int, aw: int, w: int, h: int, s': seq<Step>,
                           c: Spot, k: nat, m: nat)
    requires IsSkyline(s, W) && 0 < w <= aw && 0 < h && Raises(g, s, W, H, aw, w, h, s', c, k, m)
    ensures IsSkyline(s', W)
  {
    FitsClears(c, g, s, W, H, aw, h);
    CutAtSpot(s, W, c, w, k, m);
    LayIsSkyline(s, W, c.x, w, RestY(s, c.k, c.x, aw) + h, k, m);
  }

  lemma StepKeepsSkyline(g: Heuristic, W: int, H: int, align: int, N: int, s: seq<Step>, w: int, h: int, s': seq<Step>)
    requires 1 <= align && IsSkyline(s, W) && 0 < w && 0 < h && PackStep(g, W, H, align, N, s, w, h, s')
    ensures IsSkyline(s', W)
  {
    var aw := AlignTo(w, align);
    AlignToCovers(w, align);
    if |s| < N + 2 && CanPlace(g, s, W, H, aw, h) {
      var c, k, m :| Raises(g, s, W, H, aw, w, h, s', c, k, m);
      RaisesKeepsSkyline(g, s, W, H, aw, w, h, s', c, k, m);
    }
  }

  lemma {:induction false} RunIsSkyline(g: Heuristic, W: int, H: int, N: int, boxes: seq<Box>, states: seq<seq<Step>>,
      i: nat)
    requires 1 <= W && 1 <= N && Run(g, W, H, N, boxes, states) && i <= |boxes|
    ensures IsSkyline(states[i], W)
  {
    if i > 0 {
      RunIsSkyline(g, W, H, N, boxes, states, i - 1);
      assert BoxStep(g, W, H, N, boxes, states, i - 1);
      assert Askable(g, W, Quantum(W, N), boxes[i - 1]);
      StepKeepsSkyline(g, W, H, Quantum(W, N), N, states[i - 1], boxes[i - 1].w, boxes[i - 1].h, states[i]);
    }
  }

  lemma {:induction false} RunIsQuantized(g: Heuristic, W: int, H: int, N: int, boxes: seq<Box>,
      states: seq<seq<Step>>, i: nat)
    requires 1 <= W && 1 <= N && Run(g, W, H, N, boxes, states) && i <= |boxes|
    requires forall j :: 0 <= j < |boxes| ==> OnQuanta(g, W, Quantum(W, N), boxes[j].w)
    ensures Quantized(states[i], Quantum(W, N))
  {
    var q := Quantum(W, N);
    if i == 0 {
      FreshQuantized(W, q);
    } else {
      RunIsQuantized(g, W, H, N, boxes, states, i - 1);
      RunIsSkyline(g, W, H, N, boxes, states, i - 1);
      assert BoxStep(g, W, H, N, boxes, states, i - 1);
      assert Askable(g, W, q, boxes[i - 1]) && OnQuanta(g, W, q, boxes[i - 1].w);
      StepKeepsQuantized(g, W, H, q, N, states[i - 1], boxes[i - 1].w, boxes[i - 1].h, states[i]);
    }
  }

  // Widths that are multiples of the quantum never leave the packer without a node.
  lemma QuantumSuffices(g: Heuristic, W: int, H: int, N: int, boxes: seq<Box>, states: seq<seq<Step>>)
    requires 1 <= W && 1 <= N && Run(g, W, H, N, boxes, states)
    requires forall j :: 0 <= j < |boxes| ==> OnQuanta(g, W, Quantum(W, N), boxes[j].w)
    ensures |states[|boxes|]| < N + 2
  {
    var s, q := states[|boxes|], Quantum(W, N);
    QuantumCovers(W, N);
    RunIsQuantized(g, W, H, N, boxes, states, |boxes|);
    RunIsSkyline(g, W, H, N, boxes, states, |boxes|);
    NodesFitQuanta(s, W, q, |s| - 2);
    Order(s, |s| - 2, |s| - 1);
    FewerThan(|s| - 2, N, q, W);
  }

  lemma FewerThan(n: int, N: int, q: int, W: int)
    requires 1 <= q && n * q < W <= N * q
    ensures n < N
  {
    if N <= n { MulMono(N, n, q); }
  }

  // ----- a run that exhausts the nodes -----

  // After k boxes of size 1 x 1 on the floor.
  function Stair(W: int, k: nat): (s: seq<Step>)
    ensures |s| == k + 2
  {
    seq(k, i requires 0 <= i < k => Step(i, 1)) + [Step(k, 0), Step(W, 65535)]
  }

  lemma StairIsSkyline(W: int, k: nat)
    requires k < W
    ensures IsSkyline(Stair(W, k), W)
  {
  }

  // On the stair the lowest position is the first floor column, and none on the floor is better.
  lemma StairSpot(g: Heuristic, W: int, H: int, k: nat, aw: int)
    requires k + aw <= W && 1 <= aw && 1 <= H
    ensures BestFitting(Spot(k, k), g, Stair(W, k), W, H, aw, 1)
    ensures RestY(Stair(W, k), k, k, aw) == 0
  {
    var s, c := Stair(W, k), Spot(k, k);
    StairIsSkyline(W, k);
    assert Sweep(s, k, k, aw, 0, 0, 0) == (0, 0);
    assert FitsLeft(s, W, H, aw, 1, c);
    forall c' | Fits(g, s, W, H, aw, 1, c') ensures !Worse(g, s, aw, c, c') {
      NotBetter(W, k, aw, c');
    }
  }

  lemma NotBetter(W: int, k: nat, aw: int, c: Spot)
    requires k < W && 1 <= aw && Holds(Stair(W, k), c.k, c.x)
    ensures var s := Stair(W, k); var y := RestY(s, c.k, c.x, aw);
      0 <= y && (y == 0 ==> k <= c.x && 0 <= WasteAt(s, c.k, c.x, aw))
  {
    var s := Stair(W, k);
    StairIsSkyline(W, k);
    SweepHeight(s, c.k, c.x, aw, 0, 0, 0);
    if c.k < k {
      assert s[c.k].y == 1;
    } else {
      var under := Min(W - k, aw);
      assert Sweep(s, k, c.x, aw, 0, 0, 0) == Sweep(s, k + 1, c.x, aw, 0, under, under * (0 - 0));
    }
  }

  lemma StairStep(g: Heuristic, W: int, H: int, align: int, N: int, k: nat)
    requires 1 <= align && k < N && k + align <= W && k + 1 < W && 1 <= H
    ensures PackStep(g, W, H, align, N, Stair(W, k), 1, 1, Stair(W, k + 1))
  {
    var s, s', c := Stair(W, k), Stair(W, k + 1), Spot(k, k);
    OneAligned(align);
    StairSpot(g, W, H, k, align);
    assert Lay(s, k, 1, 1, k, k) == s';
    assert Raises(g, s, W, H, align, 1, 1, s', c, k, k);
    assert Fits(g, s, W, H, align, 1, c);
  }

  lemma OneAligned(align: int)
    requires 1 <= align
    ensures AlignTo(1, align) == align
  {
    assert RoundDown(0, align) == 0;
  }

  function Ones(n: nat): seq<Box> { seq(n, i => Box(1, 1)) }

  function Stairs(W: int, n: nat): seq<seq<Step>> { seq(n + 1, i requires 0 <= i <= n => Stair(W, i)) }

  lemma StairsAreARun(g: Heuristic, W: int, H: int, N: int)
    requires 1 <= N < W && 1 <= H
    ensures Run(g, W, H, N, Ones(N), Stairs(W, N))
  {
    var q := Quantum(W, N);
    QuantumCovers(W, N);
    OneAligned(q);
    assert Stair(W, 0) == Flat(W);
    forall i | 0 <= i < N ensures BoxStep(g, W, H, N, Ones(N), Stairs(W, N), i) {
      StairStep(g, W, H, q, N, i);
    }
  }

  // Then one more box would still fit: on the first of them, or on what is left of the floor.
  lemma OneMoreFits(g: Heuristic, W: int, H: int, N: int)
    requires 1 <= N < W && (2 <= H || (H == 1 && N + Quantum(W, N) <= W))
    ensures RunsOut(g, W, H, N, Stair(W, N), Box(1, 1))
  {
    var s, q := Stair(W, N), Quantum(W, N);
    QuantumCovers(W, N);
    OneAligned(q);
    StairIsSkyline(W, N);
    if H == 1 {
      StairSpot(g, W, H, N, q);
    } else {
      SweepHeight(s, 0, 0, q, 0, 0, 0);
      assert FitsLeft(s, W, H, q, 1, Spot(0, 0));
      assert Fits(g, s, W, H, q, 1, Spot(0, 0));
    }
  }

  // ----- bins of one row -----

  // Only the last segment can be on the floor.
  ghost predicate FloorLast(s: seq<Step>) {
    forall i :: 0 <= i < |s| - 2 ==> 1 <= s[i].y
  }

  // In a bin of one row a box can only go to the left end of the floor.
  lemma OnTheFloor(g: Heuristic, s: seq<Step>, W: int, aw: int, h: int, c: Spot)
    requires IsSkyline(s, W) && FloorLast(s) && 0 < aw && 0 < h && Fits(g, s, W, 1, aw, h, c)
    ensures h == 1 && c.k == |s| - 2 && c.x == s[c.k].x && c.x + aw <= W && RestY(s, c.k, c.x, aw) == 0
  {
    SweepHeight(s, c.k, c.x, aw, 0, 0, 0);
    assert s[c.k].y <= RestY(s, c.k, c.x, aw);
  }

  lemma StepKeepsFloor(g: Heuristic, W: int, align: int, N: int, s: seq<Step>, w: int, h: int, s': seq<Step>)
    requires 1 <= align && IsSkyline(s, W) && FloorLast(s) && 0 < w && 0 < h && PackStep(g, W, 1, align, N, s, w, h, s')
    ensures FloorLast(s')
  {
    var aw := AlignTo(w, align);
    AlignToCovers(w, align);
    if |s| < N + 2 && CanPlace(g, s, W, 1, aw, h) {
      var c, k, m :| Raises(g, s, W, 1, aw, w, h, s', c, k, m);
      OnTheFloor(g, s, W, aw, h, c);
    }
  }

  lemma {:induction false} RunKeepsFloor(g: Heuristic, W: int, N: int, boxes: seq<Box>, states: seq<seq<Step>>, i: nat)
    requires 1 <= W && 1 <= N && Run(g, W, 1, N, boxes, states) && i <= |boxes|
    ensures FloorLast(states[i])
  {
    if i > 0 {
      RunKeepsFloor(g, W, N, boxes, states, i - 1);
      RunIsSkyline(g, W, 1, N, boxes, states, i - 1);
      assert BoxStep(g, W, 1, N, boxes, states, i - 1);
      assert Askable(g, W, Quantum(W, N), boxes[i - 1]);
      StepKeepsFloor(g, W, Quantum(W, N), N, states[i - 1], boxes[i - 1].w, boxes[i - 1].h, states[i]);
    }
  }

  // ----- the promise of the quantum -----

  // One node for each column; or a bin of one row, or none, that fills up before the nodes do.
  predicate EnoughNodes(W: int, H: int, N: int)
    requires 1 <= W && 1 <= N
  {
    W <= N || H < 1 || (H == 1 && W < N + Quantum(W, N))
  }

  lemma NeverRunsOut(g: Heuristic, W: int, H: int, N: int, boxes: seq<Box>, states: seq<seq<Step>>, b: Box)
    requires 1 <= W && 1 <= N && EnoughNodes(W, H, N)
    requires Run(g, W, H, N, boxes, states) && Askable(g, W, Quantum(W, N), b)
    ensures !RunsOut(g, W, H, N, states[|boxes|], b)
  {
    var s, aw := states[|boxes|], AlignTo(b.w, Quantum(W, N));
    RunIsSkyline(g, W, H, N, boxes, states, |boxes|);
    NodesFitColumns(s, W, |s| - 1);
    AlignedLeast(b.w, Quantum(W, N));
    if c :| N < W && RunsOut(g, W, H, N, s, b) && Fits(g, s, W, H, aw, b.h, c) {
      if H < 1 {
        RestsOnSkyline(s, W, c.k, c.x, aw);
        assert false;
      } else {
        RunKeepsFloor(g, W, N, boxes, states, |boxes|);
        OnTheFloor(g, s, W, aw, b.h, c);
        NodesFitColumns(s, W, c.k);
        assert false;
      }
    }
  }

  lemma AlignedLeast(w: int, align: int)
    requires 1 <= align && 0 < w
    ensures align <= AlignTo(w, align)
  {
    AlignToCovers(w, align);
    assert RoundDown(w + align - 1, align) == align + RoundDown(w - 1, align);
    RoundDownIsRemainder(w - 1, align);
  }

  // A target of N nodes has a node for every box that fits, whatever boxes were asked for
  // before, for exactly these widths, heights and node counts.
  lemma EnoughNodesIff(g: Heuristic, W: int, H: int, N: int)
    requires 1 <= W && 1 <= N
    ensures EnoughNodes(W, H, N) <==>
      forall boxes, states, b :: Run(g, W, H, N, boxes, states) && Askable(g, W, Quantum(W, N), b) ==>
        !RunsOut(g, W, H, N, states[|boxes|], b)
  {
    if EnoughNodes(W, H, N) {
      forall boxes, states, b | Run(g, W, H, N, boxes, states) && Askable(g, W, Quantum(W, N), b)
        ensures !RunsOut(g, W, H, N, states[|boxes|], b)
      {
        NeverRunsOut(g, W, H, N, boxes, states, b);
      }
    } else {
      QuantumCovers(W, N);
      OneAligned(Quantum(W, N));
      StairsAreARun(g, W, H, N);
      OneMoreFits(g, W, H, N);
      assert Askable(g, W, Quantum(W, N), Box(1, 1));
      assert Stairs(W, N)[|Ones(N)|] == Stair(W, N);
    }
  }
}
