// The skyline rectangle packer: a singly linked skyline and a free list that
// share one array of nodes, updated in place as rectangles are placed.
module RectPack {
  import opened Skyline
  import opened Arith

  const NULL := -1
  const MAXVAL := 0xffff

  // A coordinate is stored in 16 unsigned bits.
  function Coord(v: int): int { v % 0x10000 }

  datatype Node = Node(x: int, y: int, next: int)

  // The address of a link field: that of the list head, or of a node's next.
  datatype Link = ActiveHead | NextOf(node: int)

  datatype FindResult = FindResult(x: int, y: int, prevLink: Option<Link>)

  // ----- chains of nodes -----

  function At(c: seq<int>, i: int): int {
    if 0 <= i < |c| then c[i] else NULL
  }

  ghost predicate InRange(ns: seq<Node>, c: seq<int>) {
    forall i :: 0 <= i < |c| ==> 0 <= c[i] < |ns|
  }

  // The link after the i-th node of c; the last one leads to end.
  ghost predicate Linked(ns: seq<Node>, c: seq<int>, end: int, i: int) {
    0 <= i < |c| && 0 <= c[i] < |ns| && ns[c[i]].next == if i + 1 < |c| then c[i + 1] else end
  }

  // c lists the nodes reached from head along the next links, up to end.
  ghost predicate Chain(ns: seq<Node>, head: int, c: seq<int>, end: int) {
    && InRange(ns, c)
    && head == (if |c| > 0 then c[0] else end)
    && forall i {:trigger Linked(ns, c, end, i)} :: 0 <= i < |c| ==> Linked(ns, c, end, i)
  }

  // Two positions hold different nodes; proofs name the pairs they compare.
  ghost predicate Differ(c: seq<int>, i: int, d: seq<int>, j: int) {
    0 <= i < |c| && 0 <= j < |d| && c[i] != d[j]
  }

  ghost predicate Distinct(c: seq<int>) {
    forall i, j {:trigger Differ(c, i, c, j)} :: 0 <= i < j < |c| ==> Differ(c, i, c, j)
  }

  ghost predicate Apart(c: seq<int>, d: seq<int>) {
    forall i, j {:trigger Differ(c, i, d, j)} :: 0 <= i < |c| && 0 <= j < |d| ==> Differ(c, i, d, j)
  }

  // The active and the free list share out all the nodes.
  ghost predicate Shared(ns: seq<Node>, freeHead: int, active: seq<int>, free: seq<int>) {
    && Chain(ns, freeHead, free, NULL)
    && Lists(active, free)
    && |active| + |free| == |ns|
  }

  lemma ChainFrame(ns: seq<Node>, ns': seq<Node>, head: int, c: seq<int>, end: int)
    requires Chain(ns, head, c, end) && |ns'| == |ns|
    requires forall i :: 0 <= i < |c| ==> ns'[c[i]].next == ns[c[i]].next
    ensures Chain(ns', head, c, end)
  {
    forall i | 0 <= i < |c| ensures Linked(ns', c, end, i) {
      assert Linked(ns, c, end, i);
    }
  }

  lemma ChainJoin(ns: seq<Node>, head: int, a: seq<int>, mid: int, b: seq<int>, end: int)
    requires Chain(ns, head, a, mid) && Chain(ns, mid, b, end)
    ensures Chain(ns, head, a + b, end)
  {
    var c := a + b;
    forall i | 0 <= i < |c| ensures Linked(ns, c, end, i) {
      if i < |a| { assert Linked(ns, a, mid, i); } else { assert Linked(ns, b, end, i - |a|); }
    }
  }

  lemma ChainSplit(ns: seq<Node>, head: int, c: seq<int>, end: int, k: nat)
    requires Chain(ns, head, c, end) && k <= |c|
    ensures var mid := if k < |c| then c[k] else end;
      Chain(ns, head, c[..k], mid) && Chain(ns, mid, c[k..], end)
  {
    var mid := if k < |c| then c[k] else end;
    forall i | 0 <= i < k ensures Linked(ns, c[..k], mid, i) {
      assert Linked(ns, c, end, i);
    }
    forall i | 0 <= i < |c| - k ensures Linked(ns, c[k..], end, i) {
      assert Linked(ns, c, end, i + k);
    }
  }

  // Redirecting the last link of a chain (or its head, when it is empty) moves its end.
  lemma ChainRetarget(ns: seq<Node>, ns': seq<Node>, head: int, c: seq<int>, end: int, end': int)
    requires Chain(ns, head, c, end) && |ns'| == |ns|
    requires forall i :: 0 <= i < |c| - 1 ==> ns'[c[i]].next == ns[c[i]].next
    requires |c| > 0 ==> ns'[c[|c| - 1]].next == end'
    ensures Chain(ns', if |c| > 0 then head else end', c, end')
  {
    forall i | 0 <= i < |c| ensures Linked(ns', c, end', i) {
      assert Linked(ns, c, end, i);
    }
  }

  // ----- stitching a new node into the active list -----

  // The free list once its first node is taken and active[k..m] is moved onto it.
  ghost function Freed(active: seq<int>, free: seq<int>, k: nat, m: nat): seq<int>
    requires k <= m <= |active| && 0 < |free|
  {
    seq(m - k, i requires 0 <= i < m - k => active[m - 1 - i]) + free[1..]
  }

  ghost predicate SamePlace(ns: seq<Node>, ns': seq<Node>, n: int) {
    0 <= n < |ns| && |ns| == |ns'| && ns'[n].x == ns[n].x && ns'[n].y == ns[n].y
  }

  // Halfway: active[..k] leads to the new node, active[k..m] is already free, and
  // cur leads along active[m..].
  ghost predicate Cutting(ns0: seq<Node>, ns: seq<Node>, head: int, node: int, cur: int, freeHead: int,
                          active: seq<int>, free: seq<int>, k: nat, m: nat)
    requires k <= m <= |active| && 0 < |free|
  {
    && |ns| == |ns0|
    && Chain(ns, head, active[..k], node)
    && Chain(ns, cur, active[m..], NULL)
    && Chain(ns, freeHead, Freed(active, free, k, m), NULL)
    && forall n {:trigger SamePlace(ns0, ns, n)} :: 0 <= n < |ns| && n != node ==> SamePlace(ns0, ns, n)
  }

  ghost predicate Lists(active: seq<int>, free: seq<int>) {
    Distinct(active) && Distinct(free) && Apart(active, free)
  }

  // The m-th active node is no other active node and no free node.
  lemma ActiveAlone(active: seq<int>, free: seq<int>, m: int)
    requires Lists(active, free) && 0 <= m < |active|
    ensures forall i :: 0 <= i < |active| && i != m ==> active[i] != active[m]
    ensures forall j :: 0 <= j < |free| ==> free[j] != active[m]
  {
    forall i | 0 <= i < |active| && i != m ensures active[i] != active[m] {
      assert if i < m then Differ(active, i, active, m) else Differ(active, m, active, i);
    }
    forall j | 0 <= j < |free| ensures free[j] != active[m] { assert Differ(active, m, free, j); }
  }

  // The first free node is no other free node and no active node.
  lemma FreeAlone(active: seq<int>, free: seq<int>)
    requires Lists(active, free) && 0 < |free|
    ensures forall i :: 0 <= i < |active| ==> active[i] != free[0]
    ensures forall j :: 0 < j < |free| ==> free[j] != free[0]
  {
    forall i | 0 <= i < |active| ensures active[i] != free[0] { assert Differ(active, i, free, 0); }
    forall j | 0 < j < |free| ensures free[j] != free[0] { assert Differ(free, 0, free, j); }
  }

  lemma FreedAt(active: seq<int>, free: seq<int>, k: nat, m: nat, i: int)
    requires k <= m <= |active| && 0 < |free| && 0 <= i < m - k + |free| - 1
    ensures |Freed(active, free, k, m)| == m - k + |free| - 1
    ensures Freed(active, free, k, m)[i] == if i < m - k then active[m - 1 - i] else free[i - (m - k) + 1]
  {
  }

  // Taking the first free node and pointing active[..k] at it starts the cut.
  lemma LinkNew(ns0: seq<Node>, ns: seq<Node>, head: int, freeHead: int, active: seq<int>, free: seq<int>, k: nat)
    requires k < |active| && 0 < |free| && Lists(active, free) && |ns| == |ns0|
    requires Chain(ns0, head, active, NULL) && Chain(ns0, freeHead, free, NULL)
    requires forall n :: 0 <= n < |ns| && n != free[0] && (k > 0 ==> n != active[k - 1]) ==> ns[n] == ns0[n]
    requires ns[free[0]].next == ns0[free[0]].next
    requires k > 0 ==> ns[active[k - 1]] == ns0[active[k - 1]].(next := free[0])
    ensures Cutting(ns0, ns, if k == 0 then free[0] else head, free[0], active[k], ns0[free[0]].next,
                    active, free, k, k)
  {
    FreeAlone(active, free);
    if k > 0 { ActiveAlone(active, free, k - 1); }
    ChainSplit(ns0, head, active, NULL, k);
    ChainRetarget(ns0, ns, head, active[..k], active[k], free[0]);
    ChainFrame(ns0, ns, active[k], active[k..], NULL);
    ChainSplit(ns0, freeHead, free, NULL, 1);
    assert Linked(ns0, free, NULL, 0);
    ChainFrame(ns0, ns, ns0[free[0]].next, free[1..], NULL);
    assert Freed(active, free, k, k) == free[1..];
    forall n | 0 <= n < |ns| && n != free[0] ensures SamePlace(ns0, ns, n) {}
  }

  lemma FreeOne(ns0: seq<Node>, ns: seq<Node>, head: int, node: int, cur: int, freeHead: int,
                active: seq<int>, free: seq<int>, k: nat, m: nat)
    requires k <= m < |active| && 0 < |free| && node == free[0] && Lists(active, free)
    requires Cutting(ns0, ns, head, node, cur, freeHead, active, free, k, m)
    ensures cur == active[m] && 0 <= cur < |ns|
    ensures var next := ns[cur].next; var ns' := ns[cur := ns[cur].(next := freeHead)];
      Cutting(ns0, ns', head, node, next, cur, active, free, k, m + 1)
  {
    assert Linked(ns, active[m..], NULL, 0);
    ActiveAlone(active, free, m);
    var next := ns[cur].next;
    var ns' := ns[cur := ns[cur].(next := freeHead)];
    ChainFrame(ns, ns', head, active[..k], node);
    ChainSplit(ns, cur, active[m..], NULL, 1);
    assert active[m..][1..] == active[m + 1..];
    ChainFrame(ns, ns', next, active[m + 1..], NULL);
    var f := Freed(active, free, k, m);
    forall i | 0 <= i < |f| ensures f[i] != cur { FreedAt(active, free, k, m, i); }
    ChainFrame(ns, ns', freeHead, f, NULL);
    assert Linked(ns', [cur], freeHead, 0);
    ChainJoin(ns', cur, [cur], freeHead, f, NULL);
    assert [cur] + f == Freed(active, free, k, m + 1);
    forall n | 0 <= n < |ns| && n != node ensures SamePlace(ns0, ns', n) {
      assert SamePlace(ns0, ns, n);
    }
  }

  // What the stitching sees at cur.
  lemma CutLook(ns0: seq<Node>, ns: seq<Node>, head: int, node: int, cur: int, freeHead: int,
                active: seq<int>, free: seq<int>, k: nat, m: nat)
    requires k <= m < |active| && 0 < |free| && node == free[0] && Lists(active, free)
    requires Cutting(ns0, ns, head, node, cur, freeHead, active, free, k, m)
    ensures cur == active[m] != node && 0 <= cur < |ns| && SamePlace(ns0, ns, cur)
    ensures ns[cur].next == if m + 1 < |active| then active[m + 1] else NULL
    ensures m + 1 < |active| ==> 0 <= active[m + 1] < |ns| && SamePlace(ns0, ns, active[m + 1])
  {
    var c := active[m..];
    assert Linked(ns, c, NULL, 0);
    FreeAlone(active, free);
    assert SamePlace(ns0, ns, cur);
    if m + 1 < |active| {
      assert c[1] == active[m + 1];
      assert SamePlace(ns0, ns, c[1]);
    }
  }

  // The cut, with what the stitching sees at cur.
  ghost predicate AtCut(ns0: seq<Node>, ns: seq<Node>, head: int, node: int, cur: int, freeHead: int,
                        active: seq<int>, free: seq<int>, k: nat, m: nat)
    requires k <= m < |active| && 0 < |free|
  {
    && Cutting(ns0, ns, head, node, cur, freeHead, active, free, k, m)
    && cur == active[m] != node && 0 <= cur < |ns|
    && ns[cur].next == (if m + 1 < |active| then active[m + 1] else NULL)
    && (m + 1 < |active| ==> 0 <= active[m + 1] < |ns| && SamePlace(ns0, ns, active[m + 1]))
  }

  // The new node and what follows it complete the active list again.
  lemma Stitch(ns0: seq<Node>, ns: seq<Node>, ns': seq<Node>, head: int, node: int, cur: int, freeHead: int,
               active: seq<int>, free: seq<int>, k: nat, m: nat)
    requires k <= m <= |active| && 0 < |free| && node == free[0] && Lists(active, free) && 0 <= node < |ns|
    requires Cutting(ns0, ns, head, node, cur, freeHead, active, free, k, m)
    requires |ns'| == |ns| && ns'[node].next == cur
    requires forall n :: 0 <= n < |ns| && n != node ==> ns'[n].next == ns[n].next
    ensures Chain(ns', head, active[..k] + [node] + active[m..], NULL)
    ensures Chain(ns', freeHead, Freed(active, free, k, m), NULL)
  {
    FreeAlone(active, free);
    ChainFrame(ns, ns', head, active[..k], node);
    ChainFrame(ns, ns', cur, active[m..], NULL);
    var f := Freed(active, free, k, m);
    forall i | 0 <= i < |f| ensures f[i] != node { FreedAt(active, free, k, m, i); }
    ChainFrame(ns, ns', freeHead, f, NULL);
    assert Linked(ns', [node], cur, 0);
    ChainJoin(ns', head, active[..k], node, [node], cur);
    ChainJoin(ns', head, active[..k] + [node], cur, active[m..], NULL);
  }

  lemma StitchedLists(active: seq<int>, free: seq<int>, k: nat, m: nat)
    requires k <= m <= |active| && 0 < |free| && Lists(active, free)
    ensures Lists(active[..k] + [free[0]] + active[m..], Freed(active, free, k, m))
    ensures |active[..k] + [free[0]] + active[m..]| + |Freed(active, free, k, m)| == |active| + |free|
  {
    var f := Freed(active, free, k, m);
    var a := active[..k] + [free[0]] + active[m..];
    forall i, j | 0 <= i < j < |f| ensures Differ(f, i, f, j) {
      FreedAt(active, free, k, m, i);
      FreedAt(active, free, k, m, j);
      if i < m - k {
        ActiveAlone(active, free, m - 1 - i);
      } else {
        assert Differ(free, i - (m - k) + 1, free, j - (m - k) + 1);
      }
    }
    forall i, j | 0 <= i < |a| && 0 <= j < |f| ensures Differ(a, i, f, j) {
      FreedAt(active, free, k, m, j);
      StitchedAt(active, free[0], k, m, i);
      if i == k { FreeAlone(active, free); } else { ActiveAlone(active, free, if i < k then i else i - k - 1 + m); }
    }
    forall i, j | 0 <= i < j < |a| ensures Differ(a, i, a, j) {
      StitchedAt(active, free[0], k, m, i);
      StitchedAt(active, free[0], k, m, j);
      FreeAlone(active, free);
      if i != k { ActiveAlone(active, free, if i < k then i else i - k - 1 + m); }
    }
  }

  lemma StitchedAt(active: seq<int>, node: int, k: nat, m: nat, i: int)
    requires k <= m <= |active| && 0 <= i < k + 1 + |active| - m
    ensures (active[..k] + [node] + active[m..])[i] ==
            if i < k then active[i] else if i == k then node else active[i - k - 1 + m]
  {
  }

  // The nodes along c are those of the skyline s.
  ghost predicate Shows(ns: seq<Node>, c: seq<int>, s: seq<Step>) {
    |c| == |s| && forall i {:trigger s[i]} :: 0 <= i < |c| ==>
      0 <= c[i] < |ns| && ns[c[i]] == Node(s[i].x, s[i].y, At(c, i + 1))
  }

  // The list after the placement is the list of the skyline after the placement.
  lemma Restored(ns0: seq<Node>, ns: seq<Node>, ns': seq<Node>, s: seq<Step>, head: int, node: int, cur: int,
                 freeHead: int, active: seq<int>, free: seq<int>, x: int, w: int, top: int, k: nat, m: nat)
    requires k <= m < |active| && 0 < |free| && node == free[0] && Lists(active, free)
    requires Cutting(ns0, ns, head, node, cur, freeHead, active, free, k, m) && cur == active[m] && |ns'| == |ns|
    requires Shows(ns0, active, s)
    requires Chain(ns', head, active[..k] + [node] + active[m..], NULL)
    requires forall n :: 0 <= n < |ns| && n != node && n != cur ==> ns'[n].x == ns[n].x
    requires forall n :: 0 <= n < |ns| && n != node ==> ns'[n].y == ns[n].y
    requires 0 <= node < |ns| && ns'[node].x == x && ns'[node].y == top
    requires 0 <= cur < |ns| && ns'[cur].x == Max(s[m].x, x + w)
    ensures Shows(ns', active[..k] + [node] + active[m..], Lay(s, x, w, top, k, m))
  {
    var c := active[..k] + [node] + active[m..];
    var s' := Lay(s, x, w, top, k, m);
    FreeAlone(active, free);
    ActiveAlone(active, free, m);
    forall i | 0 <= i < |c| ensures 0 <= c[i] < |ns'| && ns'[c[i]] == Node(s'[i].x, s'[i].y, At(c, i + 1)) {
      assert Linked(ns', c, NULL, i);
      StitchedAt(active, node, k, m, i);
      LayAt(s, x, w, top, k, m, i);
      if i != k {
        var a := if i < k then i else i - k - 1 + m;
        assert s[a] == s[a] && SamePlace(ns0, ns, active[a]);
      }
    }
  }

  lemma Restitched(ns0: seq<Node>, ns: seq<Node>, ns': seq<Node>, s: seq<Step>, head: int, node: int, cur: int,
                   freeHead: int, active: seq<int>, free: seq<int>, x: int, w: int, top: int, k: nat, m: nat)
    requires k <= m < |active| && 0 < |free| && node == free[0] && Lists(active, free)
    requires Cutting(ns0, ns, head, node, cur, freeHead, active, free, k, m) && cur == active[m]
    requires Shows(ns0, active, s)
    requires 0 <= node < |ns| && ns[node].x == x && ns[node].y == top && 0 <= cur < |ns| && SamePlace(ns0, ns, cur)
    requires ns' == ns[node := ns[node].(next := cur)][cur := ns[cur].(x := Max(ns[cur].x, x + w))]
    ensures Chain(ns', head, active[..k] + [node] + active[m..], NULL)
    ensures Chain(ns', freeHead, Freed(active, free, k, m), NULL)
    ensures Shows(ns', active[..k] + [node] + active[m..], Lay(s, x, w, top, k, m))
  {
    FreeAlone(active, free);
    assert s[m] == s[m];
    Stitch(ns0, ns, ns', head, node, cur, freeHead, active, free, k, m);
    Restored(ns0, ns, ns', s, head, node, cur, freeHead, active, free, x, w, top, k, m);
  }

  // What a new target's nodes look like: the caller's nodes in one free chain,
  // the two extra nodes as the flat skyline.
  ghost predicate FreshLayout(ns: seq<Node>, width: int, numNodes: int)
    requires 1 <= numNodes
  {
    && |ns| == numNodes + 2
    && (forall i :: 0 <= i < numNodes - 1 ==> ns[i].next == i + 1)
    && ns[numNodes - 1].next == NULL
    && ns[numNodes] == Node(0, 0, numNodes + 1)
    && ns[numNodes + 1] == Node(width, 65535, NULL)
  }

  lemma FreshShared(ns: seq<Node>, width: int, numNodes: int)
    requires 1 <= numNodes && FreshLayout(ns, width, numNodes)
    ensures Shared(ns, 0, [numNodes, numNodes + 1], seq(numNodes, i => i))
  {
    var c := seq(numNodes, i => i);
    forall i | 0 <= i < |c| ensures Linked(ns, c, NULL, i) {}
  }

  method FreshNodes(width: int, numNodes: int) returns (nodes: array<Node>)
    requires 0 < width <= 0xffff && 1 <= numNodes
    ensures fresh(nodes) && FreshLayout(nodes[..], width, numNodes)
  {
    nodes := new Node[numNodes + 2](_ => Node(0, 0, NULL));
    var i := 0;
    while i < numNodes - 1
      invariant 0 <= i <= numNodes - 1
      invariant forall k :: 0 <= k < i ==> nodes[k].next == k + 1
    {
      nodes[i] := nodes[i].(next := i + 1);
      i := i + 1;
    }
    nodes[i] := nodes[i].(next := NULL);
    nodes[numNodes] := Node(0, 0, numNodes + 1);
    nodes[numNodes + 1] := Node(Coord(width), 65535, NULL);
  }

  // ----- the caller's rectangles -----

  // wasPacked holds the original index while the array is reordered.
  datatype Item = Item(id: int, w: int, h: int, x: int, y: int, wasPacked: int)

  predicate Empty(it: Item) { it.w == 0 || it.h == 0 }

  function RectOf(it: Item): Rect { Rect(it.x, it.y, it.w, it.h) }

  // The comparison the rectangles are first sorted by: tall ones first, then wide ones.
  function HeightCompare(p: Item, q: Item): int {
    if p.h > q.h then -1
    else if p.h < q.h then 1
    else if p.w > q.w then -1
    else if p.w < q.w then 1
    else 0
  }

  // The comparison they are sorted back by.
  function OriginalOrder(p: Item, q: Item): int {
    if p.wasPacked < q.wasPacked then -1 else if p.wasPacked > q.wasPacked then 1 else 0
  }

  ghost predicate Permutes(p: seq<int>, n: int) {
    && |p| == n
    && (forall i :: 0 <= i < n ==> 0 <= p[i] < n)
    && forall i, j :: 0 <= i < j < n ==> p[i] != p[j]
  }

  // The k-th rectangle between the two sorts, as the second one compares it.
  function Saved(rects: seq<Item>, byHeight: seq<int>, k: int): Item
    requires 0 <= k < |byHeight| && 0 <= byHeight[k] < |rects|
  {
    rects[byHeight[k]].(wasPacked := byHeight[k])
  }

  ghost predicate TallFirst(rects: seq<Item>, p: seq<int>, i: int, j: int)
    requires Permutes(p, |rects|) && 0 <= i < |rects| && 0 <= j < |rects|
  {
    HeightCompare(rects[p[i]], rects[p[j]]) <= 0
  }

  // p is an order that HeightCompare allows.
  ghost predicate SortsByHeight(rects: seq<Item>, p: seq<int>)
    requires Permutes(p, |rects|)
  {
    forall i, j {:trigger TallFirst(rects, p, i, j)} :: 0 <= i < j < |rects| ==> TallFirst(rects, p, i, j)
  }

  // Tall rectangles before low ones, and of equally tall ones the wide before the narrow.
  ghost predicate TallestFirst(rects: seq<Item>, p: seq<int>)
    requires Permutes(p, |rects|)
  {
    forall i, j :: 0 <= i < j < |rects| ==>
      && rects[p[i]].h >= rects[p[j]].h
      && (rects[p[i]].h == rects[p[j]].h ==> rects[p[i]].w >= rects[p[j]].w)
  }

  // The comparison allows exactly those orders.
  lemma SortsByHeightIff(rects: seq<Item>, p: seq<int>)
    requires Permutes(p, |rects|)
    ensures SortsByHeight(rects, p) <==> TallestFirst(rects, p)
  {
    if SortsByHeight(rects, p) {
      forall i, j | 0 <= i < j < |rects|
        ensures rects[p[i]].h >= rects[p[j]].h
        ensures rects[p[i]].h == rects[p[j]].h ==> rects[p[i]].w >= rects[p[j]].w
      {
        assert TallFirst(rects, p, i, j);
      }
    }
  }

  ghost predicate InOldOrder(rects: seq<Item>, byHeight: seq<int>, byIndex: seq<int>, i: int, j: int)
    requires Permutes(byHeight, |rects|) && Permutes(byIndex, |rects|) && 0 <= i < |rects| && 0 <= j < |rects|
  {
    OriginalOrder(Saved(rects, byHeight, byIndex[i]), Saved(rects, byHeight, byIndex[j])) <= 0
  }

  // byIndex is an order that OriginalOrder allows after the first sort has left byHeight.
  ghost predicate SortsBack(rects: seq<Item>, byHeight: seq<int>, byIndex: seq<int>)
    requires Permutes(byHeight, |rects|) && Permutes(byIndex, |rects|)
  {
    forall i, j {:trigger InOldOrder(rects, byHeight, byIndex, i, j)} ::
      0 <= i < j < |rects| ==> InOldOrder(rects, byHeight, byIndex, i, j)
  }

  // Sorting distinct original indices puts every one of them back in its place.
  lemma SortedBackIsOriginal(p: seq<int>, q: seq<int>, n: int)
    requires Permutes(p, n) && Permutes(q, n)
    requires forall i, j :: 0 <= i < j < n ==> p[q[i]] <= p[q[j]]
    ensures forall i :: 0 <= i < n ==> p[q[i]] == i
  {
    forall i | 0 <= i < n ensures p[q[i]] == i {
      AtLeast(p, q, n, i);
      AtMostIndex(p, q, n, i);
    }
  }

  lemma SortedBack(rects: seq<Item>, byHeight: seq<int>, byIndex: seq<int>)
    requires Permutes(byHeight, |rects|) && Permutes(byIndex, |rects|) && SortsBack(rects, byHeight, byIndex)
    ensures forall i :: 0 <= i < |rects| ==> byHeight[byIndex[i]] == i
  {
    forall i, j | 0 <= i < j < |rects| ensures byHeight[byIndex[i]] <= byHeight[byIndex[j]] {
      assert InOldOrder(rects, byHeight, byIndex, i, j);
    }
    SortedBackIsOriginal(byHeight, byIndex, |rects|);
  }

  lemma {:induction false} AtLeast(p: seq<int>, q: seq<int>, n: int, i: int)
    requires Permutes(p, n) && Permutes(q, n) && 0 <= i < n
    requires forall i, j :: 0 <= i < j < n ==> p[q[i]] <= p[q[j]]
    ensures i <= p[q[i]]
    decreases i
  {
    if i > 0 {
      AtLeast(p, q, n, i - 1);
      assert q[i - 1] != q[i] && p[q[i - 1]] != p[q[i]];
    }
  }

  lemma {:induction false} AtMostIndex(p: seq<int>, q: seq<int>, n: int, i: int)
    requires Permutes(p, n) && Permutes(q, n) && 0 <= i < n
    requires forall i, j :: 0 <= i < j < n ==> p[q[i]] <= p[q[j]]
    ensures p[q[i]] <= i
    decreases n - i
  {
    if i < n - 1 {
      AtMostIndex(p, q, n, i + 1);
      assert q[i] != q[i + 1] && p[q[i]] != p[q[i + 1]];
    }
  }

  // What has become of the first `done` items: `who` lists the placed ones, in
  // the order of the new entries of `placed`.
  ghost predicate Processed(items: seq<Item>, done: int, who: seq<int>, old': seq<Rect>, placed: seq<Rect>) {
    && 0 <= done <= |items|
    && |placed| == |old'| + |who| && placed[..|old'|] == old'
    && (forall j :: 0 <= j < |who| ==> 0 <= who[j] < done && !Empty(items[who[j]])
                                       && placed[|old'| + j] == RectOf(items[who[j]]))
    && (forall p :: 0 <= p < done && Empty(items[p]) ==> items[p].x == 0 && items[p].y == 0)
    && (forall p :: 0 <= p < done && !Empty(items[p]) && p !in who ==> items[p].x == MAXVAL && items[p].y == MAXVAL)
  }

  // The coordinates of an item that was tried: took says whether it was placed.
  ghost predicate ItemDone(it: Item, took: bool) {
    if took then !Empty(it)
    else if Empty(it) then it.x == 0 && it.y == 0
    else it.x == MAXVAL && it.y == MAXVAL
  }

  lemma ProcessedStep(items: seq<Item>, items': seq<Item>, i: int, who: seq<int>, took: bool,
                      old': seq<Rect>, placed: seq<Rect>, placed': seq<Rect>)
    requires Processed(items, i, who, old', placed) && i < |items| && |items'| == |items|
    requires forall p :: 0 <= p < |items| && p != i ==> items'[p] == items[p]
    requires ItemDone(items'[i], took)
    requires placed' == if took then placed + [RectOf(items'[i])] else placed
    ensures Processed(items', i + 1, if took then who + [i] else who, old', placed')
  {
  }

  function Flag(it: Item): int { if it.x == MAXVAL && it.y == MAXVAL then 0 else 1 }

  ghost predicate Won(it: Item) { !Empty(it) && it.wasPacked != 0 }

  // The answer to the caller: every rectangle is still at its place with its size
  // and id; the flagged ones lie in the bin without overlap, with each other and
  // with everything placed by earlier calls.
  ghost predicate Answered(input: seq<Item>, output: seq<Item>, old': seq<Rect>, placed: seq<Rect>, width: int,
                           height: int)
  {
    && |output| == |input|
    && (forall i :: 0 <= i < |input| ==>
          output[i].id == input[i].id && output[i].w == input[i].w && output[i].h == input[i].h)
    && (forall i :: 0 <= i < |input| ==> output[i].wasPacked == Flag(output[i]))
    && (forall i :: 0 <= i < |input| && Empty(input[i]) ==> output[i].x == 0 && output[i].y == 0)
    && |old'| <= |placed| && placed[..|old'|] == old'
    && (forall i :: 0 <= i < |input| && Won(output[i]) ==>
          RectOf(output[i]) in placed[|old'|..] && InsideBin(RectOf(output[i]), width, height))
    && (forall r :: r in placed[|old'|..] ==> exists i :: 0 <= i < |input| && Won(output[i]) && r == RectOf(output[i]))
    && (forall i, j :: 0 <= i < j < |input| && Won(output[i]) && Won(output[j]) ==>
      Disjoint(RectOf(output[i]), RectOf(output[j])))
  }

  // tried is the input in the given order, numbered, with coordinates filled in.
  ghost predicate WorkedOn(input: seq<Item>, tried: seq<Item>, byHeight: seq<int>) {
    && Permutes(byHeight, |input|) && |tried| == |input|
    && forall p :: 0 <= p < |tried| ==>
         tried[p] == input[byHeight[p]].(wasPacked := byHeight[p], x := tried[p].x, y := tried[p].y)
  }

  lemma Answer(input: seq<Item>, tried: seq<Item>, output: seq<Item>, byHeight: seq<int>, byIndex: seq<int>,
               who: seq<int>, old': seq<Rect>, placed: seq<Rect>, s: seq<Step>, width: int, height: int)
    requires WorkedOn(input, tried, byHeight) && Permutes(byIndex, |input|)
    requires forall i :: 0 <= i < |input| ==> byHeight[byIndex[i]] == i
    requires Flagged(tried, output, byIndex)
    requires Processed(tried, |tried|, who, old', placed) && GoodPacking(s, width, height, placed) && width <= 0xffff
    ensures Answered(input, output, old', placed, width, height)
  {
    var new' := placed[|old'|..];
    forall i | 0 <= i < |input| && Won(output[i])
      ensures RectOf(output[i]) in new' && InsideBin(RectOf(output[i]), width, height)
    {
      var j := WonIsNew(input, tried, output, byHeight, byIndex, who, old', placed, i);
      assert new'[j] == placed[|old'| + j];
    }
    forall r | r in new'
      ensures exists i :: 0 <= i < |input| && Won(output[i]) && r == RectOf(output[i])
    {
      var j :| 0 <= j < |new'| && new'[j] == r;
      NewIsWon(input, tried, output, byHeight, byIndex, who, old', placed, s, width, height, j);
    }
    forall i, j | 0 <= i < j < |input| && Won(output[i]) && Won(output[j])
      ensures Disjoint(RectOf(output[i]), RectOf(output[j]))
    {
      AnswersApart(input, tried, output, byHeight, byIndex, who, old', placed, s, width, height, i, j);
    }
  }

  // A rectangle that got a place is one of the new ones.
  lemma WonIsNew(input: seq<Item>, tried: seq<Item>, output: seq<Item>, byHeight: seq<int>, byIndex: seq<int>,
                 who: seq<int>, old': seq<Rect>, placed: seq<Rect>, i: int) returns (j: int)
    requires WorkedOn(input, tried, byHeight) && Permutes(byIndex, |input|) && Flagged(tried, output, byIndex)
    requires Processed(tried, |tried|, who, old', placed) && 0 <= i < |input| && Won(output[i])
    ensures 0 <= j < |who| && who[j] == byIndex[i] && placed[|old'| + j] == RectOf(output[i])
  {
    assert byIndex[i] in who;
    j :| 0 <= j < |who| && who[j] == byIndex[i];
  }

  lemma AnswersApart(input: seq<Item>, tried: seq<Item>, output: seq<Item>, byHeight: seq<int>, byIndex: seq<int>,
                     who: seq<int>, old': seq<Rect>, placed: seq<Rect>, s: seq<Step>, width: int, height: int,
                     i: int, j: int)
    requires WorkedOn(input, tried, byHeight) && Permutes(byIndex, |input|) && Flagged(tried, output, byIndex)
    requires Processed(tried, |tried|, who, old', placed) && GoodPacking(s, width, height, placed)
    requires 0 <= i < j < |input| && Won(output[i]) && Won(output[j])
    ensures Disjoint(RectOf(output[i]), RectOf(output[j]))
  {
    var a := WonIsNew(input, tried, output, byHeight, byIndex, who, old', placed, i);
    var b := WonIsNew(input, tried, output, byHeight, byIndex, who, old', placed, j);
    var p, q := |old'| + a, |old'| + b;
    assert if a < b then Disjoint(placed[p], placed[q]) else Disjoint(placed[q], placed[p]);
  }

  // Every rectangle placed by the call is the answer to one of its requests.
  lemma NewIsWon(input: seq<Item>, tried: seq<Item>, output: seq<Item>, byHeight: seq<int>, byIndex: seq<int>,
                 who: seq<int>, old': seq<Rect>, placed: seq<Rect>, s: seq<Step>, width: int, height: int, j: int)
    requires WorkedOn(input, tried, byHeight) && Permutes(byIndex, |input|)
    requires forall i :: 0 <= i < |input| ==> byHeight[byIndex[i]] == i
    requires Flagged(tried, output, byIndex)
    requires Processed(tried, |tried|, who, old', placed) && GoodPacking(s, width, height, placed) && width <= 0xffff
    requires 0 <= j < |who|
    ensures exists i :: 0 <= i < |input| && Won(output[i]) && placed[|old'| + j] == RectOf(output[i])
  {
    var p := who[j];
    assert InsideBin(placed[|old'| + j], width, height);
    assert byIndex[byHeight[p]] == p;
    assert Won(output[byHeight[p]]);
  }

  method NumberItems(rects: array<Item>)
    modifies rects
    ensures forall i :: 0 <= i < rects.Length ==> rects[i] == old(rects[i]).(wasPacked := i)
  {
    for i := 0 to rects.Length
      invariant forall k :: 0 <= k < i ==> rects[k] == old(rects[k]).(wasPacked := k)
      invariant forall k :: i <= k < rects.Length ==> rects[k] == old(rects[k])
    {
      rects[i] := rects[i].(wasPacked := i);
    }
  }

  method SetFlags(rects: array<Item>)
    modifies rects
    ensures forall i :: 0 <= i < rects.Length ==> rects[i] == old(rects[i]).(wasPacked := Flag(old(rects[i])))
  {
    for i := 0 to rects.Length
      invariant forall k :: 0 <= k < i ==> rects[k] == old(rects[k]).(wasPacked := Flag(old(rects[k])))
      invariant forall k :: i <= k < rects.Length ==> rects[k] == old(rects[k])
    {
      rects[i] := rects[i].(wasPacked := if !(rects[i].x == MAXVAL && rects[i].y == MAXVAL) then 1 else 0);
    }
  }

  // The array after qsort has left it in the given order.
  method Reorder(rects: array<Item>, order: seq<int>)
    requires Permutes(order, rects.Length)
    modifies rects
    ensures forall i :: 0 <= i < rects.Length ==> rects[i] == old(rects[order[i]])
  {
    var was := rects[..];
    for i := 0 to rects.Length
      invariant forall k :: 0 <= k < i ==> rects[k] == was[order[k]]
    {
      rects[i] := was[order[i]];
    }
  }

  // The width that is searched for: w rounded up to a multiple of the quantum.
  function AlignTo(w: int, align: int): int
    requires 1 <= align
  {
    RoundDown(w + align - 1, align)
  }

  // The largest multiple of q that is not above n.
  function RoundDown(n: int, q: int): int
    requires 1 <= q
  {
    if n < q then 0 else q + RoundDown(n - q, q)
  }

  lemma {:induction false} RoundDownIsRemainder(n: int, q: int)
    requires 1 <= q && 0 <= n
    ensures RoundDown(n, q) == n - n % q && RoundDown(n, q) % q == 0
    decreases n
  {
    if n < q {
      DivUnique(n, q, 0, n);
      DivUnique(0, q, 0, 0);
    } else {
      RoundDownIsRemainder(n - q, q);
      assert n - q == ((n - q) / q) * q + (n - q) % q;
      Distribute((n - q) / q, 1, q);
      DivUnique(n, q, (n - q) / q + 1, (n - q) % q);
      MultipleModulo(n / q, q);
    }
  }

  // The best-fitting box goes onto the skyline s and leaves s'.
  ghost predicate Raises(g: Heuristic, s: seq<Step>, W: int, H: int, aw: int, w: int, h: int, s': seq<Step>,
                         c: Spot, k: nat, m: nat) {
    && BestFitting(c, g, s, W, H, aw, h) && CutFrom(s, c, w, k, m)
    && s' == Lay(s, c.x, w, RestY(s, c.k, c.x, aw) + h, k, m)
  }

  // What one request does to the skyline: nothing when no node is free or no position fits.
  // A skyline of n nodes leaves numNodes + 2 - n free.
  ghost predicate PackStep(g: Heuristic, W: int, H: int, align: int, numNodes: int, s: seq<Step>, w: int, h: int,
                           s': seq<Step>)
    requires 1 <= align
  {
    var aw := AlignTo(w, align);
    if |s| < numNodes + 2 && CanPlace(g, s, W, H, aw, h) then
      exists c, k, m :: Raises(g, s, W, H, aw, w, h, s', c, k, m)
    else
      s' == s
  }

  ghost predicate ItemStep(g: Heuristic, W: int, H: int, align: int, numNodes: int, s: seq<Step>, it: Item,
                           s': seq<Step>)
    requires 1 <= align
  {
    if Empty(it) then s' == s else PackStep(g, W, H, align, numNodes, s, it.w, it.h, s')
  }

  // A node is free and a position fits.
  ghost predicate Takable(g: Heuristic, W: int, H: int, align: int, numNodes: int, s: seq<Step>, it: Item)
    requires 1 <= align
  {
    !Empty(it) && |s| < numNodes + 2 && CanPlace(g, s, W, H, AlignTo(it.w, align), it.h)
  }

  // The p-th item was tried on the p-th skyline and left the next; it has a place exactly if
  // it could get one, or needs none.
  ghost predicate TriedAt(g: Heuristic, W: int, H: int, align: int, numNodes: int, input: seq<Item>, tried: seq<Item>,
                          skies: seq<seq<Step>>, p: int)
    requires 1 <= align
  {
    && 0 <= p < |input| && |tried| == |input| && p + 1 < |skies|
    && ItemStep(g, W, H, align, numNodes, skies[p], input[p], skies[p + 1])
    && (Flag(tried[p]) == 1 <==> Empty(input[p]) || Takable(g, W, H, align, numNodes, skies[p], input[p]))
  }

  ghost predicate AllTried(g: Heuristic, W: int, H: int, align: int, numNodes: int, input: seq<Item>, tried: seq<Item>,
                           skies: seq<seq<Step>>, done: int)
    requires 1 <= align
  {
    |skies| == done + 1 && forall p {:trigger TriedAt(g, W, H, align, numNodes, input, tried, skies, p)} ::
      0 <= p < done ==> TriedAt(g, W, H, align, numNodes, input, tried, skies, p)
  }

  lemma TriedMore(g: Heuristic, W: int, H: int, align: int, numNodes: int, input: seq<Item>, tried: seq<Item>,
                  tried': seq<Item>, skies: seq<seq<Step>>, sky: seq<Step>, done: int)
    requires 1 <= align && AllTried(g, W, H, align, numNodes, input, tried, skies, done) && 0 <= done < |input|
    requires |tried| == |tried'| == |input| && forall p :: 0 <= p < |tried| && p != done ==> tried'[p] == tried[p]
    requires TriedAt(g, W, H, align, numNodes, input, tried', skies + [sky], done)
    ensures AllTried(g, W, H, align, numNodes, input, tried', skies + [sky], done + 1)
  {
    forall p | 0 <= p < done + 1 ensures TriedAt(g, W, H, align, numNodes, input, tried', skies + [sky], p) {
      if p < done { assert TriedAt(g, W, H, align, numNodes, input, tried, skies, p); }
    }
  }

  // What the caller gets to see of it: the rectangles were tried in the order byHeight, and
  // one that is not empty is flagged exactly if a node was free and a position fitted.
  ghost predicate DecidedAt(g: Heuristic, W: int, H: int, align: int, numNodes: int, input: seq<Item>,
                            output: seq<Item>, byHeight: seq<int>, skies: seq<seq<Step>>, p: int)
    requires 1 <= align
  {
    && 0 <= p < |byHeight| && 0 <= byHeight[p] < |input| && |output| == |input| && p + 1 < |skies|
    && var i := byHeight[p];
    && ItemStep(g, W, H, align, numNodes, skies[p], input[i], skies[p + 1])
    && (Won(output[i]) <==> Takable(g, W, H, align, numNodes, skies[p], input[i]))
  }

  ghost predicate Decided(g: Heuristic, W: int, H: int, align: int, numNodes: int, input: seq<Item>, output: seq<Item>,
                          byHeight: seq<int>, skies: seq<seq<Step>>)
    requires 1 <= align
  {
    && |skies| == |input| + 1
    && forall p {:trigger DecidedAt(g, W, H, align, numNodes, input, output, byHeight, skies, p)} ::
         0 <= p < |input| ==> DecidedAt(g, W, H, align, numNodes, input, output, byHeight, skies, p)
  }

  lemma Decides(g: Heuristic, W: int, H: int, align: int, numNodes: int, input: seq<Item>, sorted: seq<Item>,
                tried: seq<Item>, output: seq<Item>, byHeight: seq<int>, byIndex: seq<int>, skies: seq<seq<Step>>)
    requires 1 <= align && Permutes(byHeight, |input|) && SortedBy(input, sorted, byHeight)
    requires WorkedOn(input, tried, byHeight) && Permutes(byIndex, |input|) && Flagged(tried, output, byIndex)
    requires forall i :: 0 <= i < |input| ==> byHeight[byIndex[i]] == i
    requires AllTried(g, W, H, align, numNodes, sorted, tried, skies, |input|)
    ensures Decided(g, W, H, align, numNodes, input, output, byHeight, skies)
  {
    forall p | 0 <= p < |input| ensures DecidedAt(g, W, H, align, numNodes, input, output, byHeight, skies, p) {
      assert TriedAt(g, W, H, align, numNodes, sorted, tried, skies, p);
      assert byIndex[byHeight[p]] == p;
    }
  }

  // The flat skyline of a new target.
  function Flat(width: int): seq<Step> { [Step(0, 0), Step(width, 65535)] }

  lemma FreshQuantized(width: int, q: int)
    requires 1 <= q
    ensures Quantized(Flat(width), q)
  {
    MultipleModulo(0, q);
  }

  // Widths for which the nodes stay on multiples of the quantum.
  ghost predicate OnQuanta(g: Heuristic, W: int, align: int, w: int)
    requires 1 <= align
  {
    w % align == 0 && (g == BottomLeft || W % align == 0)
  }

  ghost predicate ItemOnQuanta(g: Heuristic, W: int, align: int, it: Item)
    requires 1 <= align
  {
    !Empty(it) ==> OnQuanta(g, W, align, it.w)
  }

  ghost predicate AllOnQuanta(g: Heuristic, W: int, align: int, items: seq<Item>)
    requires 1 <= align
  {
    forall i :: 0 <= i < |items| ==> ItemOnQuanta(g, W, align, items[i])
  }

  lemma AlignToCovers(w: int, align: int)
    requires 1 <= align && 0 < w
    ensures w <= AlignTo(w, align) < w + align && AlignTo(w, align) % align == 0
  {
    RoundDownIsRemainder(w + align - 1, align);
  }

  lemma RaisesKeepsQuantized(g: Heuristic, s: seq<Step>, W: int, H: int, aw: int, w: int, h: int, s': seq<Step>,
                             c: Spot, k: nat, m: nat, q: int)
    requires 1 <= q && IsSkyline(s, W) && Quantized(s, q) && 0 < w <= aw && 0 < h && aw % q == 0 && OnQuanta(g, W, q, w)
    requires Raises(g, s, W, H, aw, w, h, s', c, k, m)
    ensures Quantized(s', q)
  {
    FitsClears(c, g, s, W, H, aw, h);
    PlacementKeepsQuantized(g, s, W, H, aw, w, h, RestY(s, c.k, c.x, aw) + h, c, k, m, q);
  }

  lemma StepKeepsQuantized(g: Heuristic, W: int, H: int, align: int, numNodes: int, s: seq<Step>, w: int, h: int,
                           s': seq<Step>)
    requires 1 <= align && IsSkyline(s, W) && 0 < w && 0 < h && PackStep(g, W, H, align, numNodes, s, w, h, s')
    requires Quantized(s, align) && OnQuanta(g, W, align, w)
    ensures Quantized(s', align)
  {
    var aw := AlignTo(w, align);
    AlignToCovers(w, align);
    if |s| < numNodes + 2 && CanPlace(g, s, W, H, aw, h) {
      var c, k, m :| Raises(g, s, W, H, aw, w, h, s', c, k, m);
      RaisesKeepsQuantized(g, s, W, H, aw, w, h, s', c, k, m, align);
    }
  }

  lemma ItemKeepsQuantized(g: Heuristic, W: int, H: int, align: int, numNodes: int, s: seq<Step>, it: Item,
                           s': seq<Step>)
    requires 1 <= align && IsSkyline(s, W) && 0 <= it.w && 0 <= it.h
    requires ItemStep(g, W, H, align, numNodes, s, it, s')
    ensures Quantized(s, align) && ItemOnQuanta(g, W, align, it) ==> Quantized(s', align)
  {
    if Quantized(s, align) && ItemOnQuanta(g, W, align, it) && !Empty(it) {
      StepKeepsQuantized(g, W, H, align, numNodes, s, it.w, it.h, s');
    }
  }

  // What the packer may be asked for: 16-bit sizes, and (best fit) no rectangle
  // that is wider than the bin once aligned.
  ghost predicate Packable(items: seq<Item>, align: int, width: int, g: Heuristic)
    requires 1 <= align
  {
    forall i :: 0 <= i < |items| ==>
      && 0 <= items[i].w <= 0xffff && 0 <= items[i].h <= 0xffff
      && (g == BestFit && !Empty(items[i]) ==> AlignTo(items[i].w, align) <= width)
  }

  // The rectangles, numbered and in the given order.
  ghost predicate SortedBy(input: seq<Item>, sorted: seq<Item>, byHeight: seq<int>)
    requires Permutes(byHeight, |input|)
  {
    |sorted| == |input| && forall i :: 0 <= i < |sorted| ==> sorted[i] == input[byHeight[i]].(wasPacked := byHeight[i])
  }

  // Back in their places, with the flags set.
  ghost predicate Flagged(tried: seq<Item>, output: seq<Item>, byIndex: seq<int>)
    requires Permutes(byIndex, |tried|)
  {
    |output| == |tried| &&
    forall i :: 0 <= i < |output| ==> output[i] == tried[byIndex[i]].(wasPacked := Flag(tried[byIndex[i]]))
  }

  method NumberAndSort(rects: array<Item>, byHeight: seq<int>)
    requires Permutes(byHeight, rects.Length)
    modifies rects
    ensures SortedBy(old(rects[..]), rects[..], byHeight)
  {
    NumberItems(rects);
    Reorder(rects, byHeight);
  }

  method SortBack(rects: array<Item>, byIndex: seq<int>)
    requires Permutes(byIndex, rects.Length)
    modifies rects
    ensures Flagged(old(rects[..]), rects[..], byIndex)
  {
    Reorder(rects, byIndex);
    SetFlags(rects);
  }

  lemma Worked(input: seq<Item>, sorted: seq<Item>, tried: seq<Item>, byHeight: seq<int>)
    requires Permutes(byHeight, |input|) && SortedBy(input, sorted, byHeight) && SameRequests(sorted, tried)
    ensures WorkedOn(input, tried, byHeight)
  {
    forall p | 0 <= p < |tried|
      ensures tried[p] == input[byHeight[p]].(wasPacked := byHeight[p], x := tried[p].x, y := tried[p].y)
    {
      assert SameRequest(sorted[p], tried[p]);
    }
  }

  // Numbering and sorting the rectangles does not change what is asked for.
  lemma SortedRequests(input: seq<Item>, sorted: seq<Item>, byHeight: seq<int>, align: int, width: int, g: Heuristic)
    requires 1 <= align && Permutes(byHeight, |input|) && SortedBy(input, sorted, byHeight)
      && Packable(input, align, width, g)
    ensures Packable(sorted, align, width, g)
    ensures AllOnQuanta(g, width, align, input) ==> AllOnQuanta(g, width, align, sorted)
  {
    if AllOnQuanta(g, width, align, input) {
      forall i | 0 <= i < |sorted| ensures ItemOnQuanta(g, width, align, sorted[i]) {
        assert ItemOnQuanta(g, width, align, input[byHeight[i]]);
      }
    }
  }

  // Only the output coordinates differ.
  ghost predicate SameRequest(it: Item, it': Item) {
    it' == it.(x := it'.x, y := it'.y)
  }

  ghost predicate SameRequests(items: seq<Item>, items': seq<Item>) {
    |items'| == |items| && forall i :: 0 <= i < |items| ==> SameRequest(items[i], items'[i])
  }

  lemma SameRequestsStep(items: seq<Item>, items': seq<Item>, i: int, it: Item)
    requires SameRequests(items, items') && 0 <= i < |items| && SameRequest(items'[i], it)
    ensures SameRequests(items, items'[i := it])
  {
    assert SameRequest(items[i], items'[i]);
  }

  // The coordinates of an item after its search.
  function WithPlace(it: Item, fr: FindResult): Item {
    if fr.prevLink.Some? then it.(x := Coord(fr.x), y := Coord(fr.y)) else it.(x := MAXVAL, y := MAXVAL)
  }

  lemma PlaceTaken(it: Item, fr: FindResult)
    requires !Empty(it) && (fr.prevLink.Some? ==> 0 <= fr.x < 0xffff && 0 <= fr.y <= 0xffff)
    ensures var it' := WithPlace(it, fr);
      && ItemDone(it', fr.prevLink.Some?) && SameRequest(it, it')
      && (Flag(it') == 1 <==> fr.prevLink.Some?)
      && (fr.prevLink.Some? ==> RectOf(it') == Rect(fr.x, fr.y, it.w, it.h))
  {
  }

  class Context {
    var width: int
    var height: int
    var align: int
    var heuristic: Heuristic
    var numNodes: int
    var nodes: array<Node>  // the caller's nodes, then the two extra ones
    var activeHead: int
    var freeHead: int
    ghost var active: seq<int>
    ghost var free: seq<int>
    ghost var sky: seq<Step>
    ghost var placed: seq<Rect>

    ghost predicate Valid()
      reads this, nodes
    {
      && 0 < width <= 0xffff && height <= 0xffff && 1 <= align && 1 <= numNodes
      && nodes.Length == numNodes + 2
      && Shared(nodes[..], freeHead, active, free)
      && Readable()
      && GoodPacking(sky, width, height, placed)
    }

    // The active list can be walked, and its nodes are the skyline sky.
    ghost predicate Readable()
      reads this, nodes
    {
      && IsSkyline(sky, width)
      && |active| == |sky|
      && activeHead == At(active, 0)
      && LowerThan(sky, 0x10000)
      && forall i {:trigger sky[i]} :: 0 <= i < |active| ==>
           0 <= active[i] < nodes.Length && nodes[active[i]] == Node(sky[i].x, sky[i].y, At(active, i + 1))
    }

    lemma Look(i: int)
      requires Readable() && 0 <= i < |active|
      ensures 0 <= active[i] < nodes.Length
      ensures nodes[active[i]] == Node(sky[i].x, sky[i].y, At(active, i + 1))
    {
      assert sky[i] == sky[i];
    }

    function Aligned(w: int): int
      requires 1 <= align
      reads this
    {
      AlignTo(w, align)
    }

    method SetupAllowOutOfMem(allow: bool)
      requires 0 < width && 1 <= numNodes
      modifies this`align
      ensures align == if allow then 1 else (width + numNodes - 1) / numNodes
      ensures !allow ==> width <= numNodes * align
      ensures 1 <= align
    {
      if allow {
        align := 1;
      } else {
        align := (width + numNodes - 1) / numNodes;
        assert align * numNodes > width - 1 by {
          assert width + numNodes - 1 == align * numNodes + (width + numNodes - 1) % numNodes;
        }
        if align <= 0 { MulMono(align, 0, numNodes); assert false; }
      }
    }

    method SetupHeuristic(g: Heuristic)
      modifies this`heuristic
      ensures heuristic == g
    {
      heuristic := g;
    }

    constructor (width: int, height: int, numNodes: int)
      requires 0 < width <= 0xffff && height <= 0xffff && 1 <= numNodes
      ensures Valid() && fresh(nodes) && placed == []
      ensures this.width == width && this.height == height && this.numNodes == numNodes
      ensures heuristic == BottomLeft && align == (width + numNodes - 1) / numNodes
      ensures sky == Flat(width) && |free| == numNodes && Quantized(sky, align)
    {
      this.width, this.height, this.numNodes := width, height, numNodes;
      heuristic := BottomLeft;
      nodes := new Node[numNodes + 2](_ => Node(0, 0, NULL));
      var fresh' := FreshNodes(width, numNodes);
      nodes := fresh';
      freeHead, activeHead := 0, numNodes;
      align := 1;
      active, free, placed := [numNodes, numNodes + 1], seq(numNodes, i => i), [];
      sky := Flat(width);
      new;
      SetupAllowOutOfMem(false);
      FreshShared(nodes[..], width, numNodes);
      FreshQuantized(width, align);
    }

    // The height at which a box rests, starting the walk at the node holding x0.
    method FindMinY(first: int, x0: int, width: int, ghost k: int) returns (minY: int, waste: int)
      requires Readable() && Holds(sky, k, x0) && active[k] == first
      requires 0 < width && x0 + width <= this.width
      ensures (minY, waste) == Sweep(sky, k, x0, width, 0, 0, 0)
    {
      ghost var s := sky;
      var node := first;
      var x1 := x0 + width;
      assert nodes[nodes[node].next].x > x0 by { assert s[k + 1].x > x0; }
      var visited := 0;
      minY, waste := 0, 0;
      ghost var i := k;
      while nodes[node].x < x1
        invariant k <= i < |s| && node == active[i]
        invariant Sweep(s, i, x0, width, minY, visited, waste) == Sweep(s, k, x0, width, 0, 0, 0)
        decreases |s| - i
      {
        assert s[i].x < s[|s| - 1].x;
        var next := nodes[node].next;
        assert next == active[i + 1] && nodes[next].x == s[i + 1].x;
        if nodes[node].y > minY {
          waste := waste + visited * (nodes[node].y - minY);
          minY := nodes[node].y;
          if nodes[node].x < x0 {
            visited := visited + nodes[next].x - x0;
          } else {
            visited := visited + nodes[next].x - nodes[node].x;
          }
        } else {
          var underWidth := nodes[next].x - nodes[node].x;
          if underWidth + visited > width {
            underWidth := width - visited;
          }
          waste := waste + underWidth * (minY - nodes[node].y);
          visited := visited + underWidth;
        }
        node := next;
        i := i + 1;
      }
    }

    // The link field that leads to the k-th active node.
    ghost function LinkAt(k: int): Link
      requires 0 <= k <= |active|
      reads this
    {
      if k == 0 then ActiveHead else NextOf(active[k - 1])
    }

    function Deref(l: Link): int
      requires l.NextOf? ==> 0 <= l.node < nodes.Length
      reads this, nodes
    {
      match l
      case ActiveHead => activeHead
      case NextOf(n) => nodes[n].next
    }

    // b is the position that the scan's variables describe.
    ghost predicate Records(b: Option<Spot>, best: Option<Link>, bestY: int, bestWaste: int, w: int)
      reads this
    {
      match b
      case None => best == None && bestY == 0x40000000
      case Some(c) =>
        && Holds(sky, c.k, c.x) && c.k < |active| && best == Some(LinkAt(c.k))
        && bestY == RestY(sky, c.k, c.x, w)
        && (heuristic == BestFit ==> bestWaste == WasteAt(sky, c.k, c.x, w))
    }

    lemma RestBounded(k: nat, x: int, w: int)
      requires Readable() && Holds(sky, k, x) && 0 < w
      ensures 0 <= RestY(sky, k, x, w) <= 0xffff
    {
      RestsOnSkyline(sky, width, k, x, w);
    }

    // The left-aligned positions, from the left.
    method ScanLeft(w: int, h: int)
      returns (best: Option<Link>, bestX: int, bestY: int, bestWaste: int, ghost b: Option<Spot>)
      requires Readable() && 0 < w
      ensures Records(b, best, bestY, bestWaste, w)
      ensures BestLeft(b, heuristic, sky, width, height, w, h, |sky|)
      ensures bestX == if b.Some? then b.value.x else 0
    {
      best, bestY, bestWaste, b := None, 0x40000000, 0x40000000, None;
      ghost var s := sky;
      ghost var i := 0;
      var node := activeHead;
      var prev := ActiveHead;
      while nodes[node].x + w <= width
        invariant 0 <= i < |s| && node == active[i] && prev == LinkAt(i) && s[i].x == nodes[node].x
        invariant Records(b, best, bestY, bestWaste, w) && BestLeft(b, heuristic, s, width, height, w, h, i)
        decreases |s| - i
      {
        Order(s, i, |s| - 1);
        if i < |s| - 1 { Order(s, i, i + 1); }
        var y, waste := FindMinY(node, nodes[node].x, w, i);
        ghost var c, was := Spot(i, s[i].x), b;
        RestBounded(i, s[i].x, w);
        if b.Some? { Order(s, b.value.k, i); }
        if heuristic == BottomLeft {
          if y < bestY {
            bestY, best, b := y, Some(prev), Some(c);
          }
        } else {
          if y + h <= height {
            if y < bestY || (y == bestY && waste < bestWaste) {
              bestY, bestWaste, best, b := y, waste, Some(prev), Some(c);
            }
          }
        }
        BestLeftStep(was, b, heuristic, s, width, height, w, h, i);
        prev := NextOf(node);
        node := nodes[node].next;
        i := i + 1;
      }
      BestLeftDone(b, heuristic, s, width, height, w, h, i);
      bestX := BestX(best, b);
    }

    method BestX(best: Option<Link>, ghost b: Option<Spot>) returns (x: int)
      requires Readable() && (b.None? ==> best.None?)
      requires b.Some? ==> b.value.k < |active| && best == Some(LinkAt(b.value.k))
      ensures x == if b.Some? then sky[b.value.k].x else 0
    {
      if b.Some? {
        Look(b.value.k);
        if b.value.k > 0 { Look(b.value.k - 1); }
      }
      x := if best.None? then 0 else nodes[Deref(best.value)].x;
    }

    // The right-aligned positions, from the left.
    method ScanRight(w: int, h: int, best0: Option<Link>, bestX0: int, bestY0: int, bestWaste0: int,
                     ghost b0: Option<Spot>)
      returns (best: Option<Link>, bestX: int, bestY: int, bestWaste: int, ghost b: Option<Spot>)
      requires Readable() && 0 < w <= width && heuristic == BestFit
      requires Records(b0, best0, bestY0, bestWaste0, w)
      requires BestLeft(b0, BestFit, sky, width, height, w, h, |sky|)
      requires bestX0 == if b0.Some? then b0.value.x else 0
      ensures Records(b, best, bestY, bestWaste, w)
      ensures BestBoth(b, sky, width, height, w, h, |sky|)
      ensures bestX == if b.Some? then b.value.x else 0
    {
      best, bestX, bestY, bestWaste, b := best0, bestX0, bestY0, bestWaste0, b0;
      ghost var s := sky;
      ghost var t, k := 0, 0;
      var tail, node, prev := activeHead, activeHead, ActiveHead;
      tail, t := FirstTail(w);
      BestBothStart(b, s, width, height, w, h, t);
      while tail != NULL
        invariant 0 <= t <= |s| && tail == At(active, t)
        invariant 0 <= k < |s| - 1 && node == active[k] && prev == LinkAt(k)
        invariant t < |s| ==> w <= s[t].x && s[k].x <= s[t].x - w
        invariant Records(b, best, bestY, bestWaste, w) && BestBoth(b, s, width, height, w, h, t)
        invariant bestX == if b.Some? then b.value.x else 0
        decreases |s| - t
      {
        var xpos := nodes[tail].x - w;
        Look(t);
        assert xpos == s[t].x - w >= 0;
        Order(s, t, |s| - 1);
        node, prev, k := Advance(node, prev, xpos, k);
        ghost var c, was := Spot(k, xpos), b;
        best, bestX, bestY, bestWaste, b := TryRight(w, h, node, prev, xpos, best, bestX, bestY, bestWaste, b, k, t);
        assert RightAligned(s, w, c, t);
        BestBothStep(was, b, s, width, height, w, h, t, c);
        tail := nodes[tail].next;
        t := t + 1;
        if t < |s| { Order(s, t - 1, t); }
      }
    }

    // Takes position xpos if it fits below the top row and is better than the best so far.
    method TryRight(w: int, h: int, node: int, prev: Link, xpos: int, best0: Option<Link>, bestX0: int, bestY0: int,
                    bestWaste0: int, ghost b0: Option<Spot>, ghost k: int, ghost t: int)
      returns (best: Option<Link>, bestX: int, bestY: int, bestWaste: int, ghost b: Option<Spot>)
      requires Readable() && 0 < w && heuristic == BestFit
      requires Holds(sky, k, xpos) && xpos + w <= width && node == active[k] && prev == LinkAt(k)
      requires 0 <= t < |sky| && sky[t].x == xpos + w
      requires Records(b0, best0, bestY0, bestWaste0, w) && bestX0 == if b0.Some? then b0.value.x else 0
      ensures Records(b, best, bestY, bestWaste, w) && bestX == if b.Some? then b.value.x else 0
      ensures var c := Spot(k, xpos);
        b == if FitsRight(sky, height, w, h, c, t) && !AtMost(b0, BestFit, sky, w, c) then Some(c) else b0
    {
      best, bestX, bestY, bestWaste, b := best0, bestX0, bestY0, bestWaste0, b0;
      var y, waste := FindMinY(node, xpos, w, k);
      RestBounded(k, xpos, w);
      if y + h < height {
        if y <= bestY {
          if y < bestY || waste < bestWaste || (waste == bestWaste && xpos < bestX) {
            assert y <= bestY;
            bestX, bestY, bestWaste, best, b := xpos, y, waste, Some(prev), Some(Spot(k, xpos));
          }
        }
      }
    }

    // The first node a box of width w can lean on with its right edge.
    method FirstTail(w: int) returns (tail: int, ghost t: int)
      requires Readable() && 0 < w <= width
      ensures 0 <= t < |sky| && tail == active[t] && w <= sky[t].x
      ensures forall i :: 0 <= i < t ==> sky[i].x < w
    {
      tail, t := activeHead, 0;
      Look(0);
      while nodes[tail].x < w
        invariant 0 <= t < |sky| && tail == active[t] && sky[t].x == nodes[tail].x
        invariant forall i :: 0 <= i < t ==> sky[i].x < w
        decreases |sky| - t
      {
        tail := nodes[tail].next;
        t := t + 1;
        Look(t);
      }
    }

    // Walks on to the node whose segment holds xpos.
    method Advance(node0: int, prev0: Link, xpos: int, ghost k0: int) returns (node: int, prev: Link, ghost k: int)
      requires Readable() && 0 <= k0 < |sky| - 1 && node0 == active[k0] && prev0 == LinkAt(k0)
      requires sky[k0].x <= xpos < width
      ensures Holds(sky, k, xpos) && node == active[k] && prev == LinkAt(k)
    {
      node, prev, k := node0, prev0, k0;
      Look(k);
      Look(k + 1);
      while nodes[nodes[node].next].x <= xpos
        invariant 0 <= k < |sky| - 1 && node == active[k] && prev == LinkAt(k) && sky[k].x <= xpos
        invariant nodes[node].next == active[k + 1] && sky[k + 1].x == nodes[active[k + 1]].x
        decreases |sky| - k
      {
        assert sky[|sky| - 1].x == width;
        prev := NextOf(node);
        node := nodes[node].next;
        k := k + 1;
        Look(k);
        Look(k + 1);
      }
    }

    // Where to put a box of that size, by the heuristic in force.
    method FindBestPos(w: int, h: int) returns (fr: FindResult, ghost b: Option<Spot>)
      requires Readable() && 1 <= align && 0 < w
      requires heuristic == BestFit ==> Aligned(w) <= width
      ensures b.Some? ==>
        && b.value.k < |active| && fr.prevLink == Some(LinkAt(b.value.k))
        && fr.x == b.value.x && fr.y == RestY(sky, b.value.k, b.value.x, Aligned(w))
      ensures fr.prevLink.None? <==> b.None?
      ensures CanPlace(heuristic, sky, width, height, Aligned(w), h) <==> b.Some? && fr.y + h <= height
      ensures b.Some? && fr.y + h <= height ==>
        && BestFitting(b.value, heuristic, sky, width, height, Aligned(w), h)
        && Clear(sky, width, height, Aligned(w), h, b.value, fr.y)
    {
      var aw := w + align - 1;
      aw := aw - aw % align;
      AlignedCovers(w);
      RoundDownIsRemainder(w + align - 1, align);
      var best, bestX, bestY, bestWaste;
      best, bestX, bestY, bestWaste, b := ScanLeft(aw, h);
      if heuristic == BestFit {
        best, bestX, bestY, bestWaste, b := ScanRight(aw, h, best, bestX, bestY, bestWaste, b);
      }
      fr := FindResult(bestX, bestY, best);
      BestOfDecides(b, heuristic, sky, width, height, aw, h);
      if b.Some? && fr.y + h <= height {
        FitsClears(b.value, heuristic, sky, width, height, aw, h);
      }
    }

    // Places one rectangle, if it fits and a node is left for it.
    method PackRectangle(w: int, h: int) returns (fr: FindResult, ghost b: Option<Spot>, ghost k: nat, ghost m: nat)
      requires Valid() && 0 < w && 0 < h
      requires heuristic == BestFit ==> Aligned(w) <= width
      modifies this`activeHead, this`freeHead, this`active, this`free, this`sky, this`placed, nodes
      ensures Valid() && nodes == old(nodes)
      ensures fr.prevLink.Some? <==>
        old(free) != [] && CanPlace(heuristic, old(sky), width, height, Aligned(w), h)
      ensures fr.prevLink.None? ==> placed == old(placed) && sky == old(sky) && free == old(free)
      ensures fr.prevLink.Some? ==>
        && b.Some? && BestFitting(b.value, heuristic, old(sky), width, height, Aligned(w), h)
        && fr.x == b.value.x && fr.y == RestY(old(sky), b.value.k, b.value.x, Aligned(w))
        && placed == old(placed) + [Rect(fr.x, fr.y, w, h)]
        && CutFrom(old(sky), b.value, w, k, m) && sky == Lay(old(sky), fr.x, w, fr.y + h, k, m)
    {
      fr, b := FindBestPos(w, h);
      k, m := 0, 0;
      if fr.prevLink.None? || fr.y + h > height || freeHead == NULL {
        fr := fr.(prevLink := None);
        return;
      }
      AlignedCovers(w);
      k, m := Insert(fr, w, h, b.value, Aligned(w));
    }

    lemma AlignedCovers(w: int)
      requires 1 <= align && 0 < w
      ensures w <= Aligned(w) < w + align && Aligned(w) % align == 0
    {
      AlignToCovers(w, align);
    }

    lemma ReadableChain()
      requires Readable()
      ensures Chain(nodes[..], activeHead, active, NULL)
    {
      forall i | 0 <= i < |active|
        ensures 0 <= active[i] < nodes.Length && Linked(nodes[..], active, NULL, i)
      {
        Look(i);
      }
    }

    method TakeNode(x: int, y: int) returns (node: int)
      requires 0 <= freeHead < nodes.Length && 0 <= x <= 0xffff && 0 <= y <= 0xffff
      modifies this`freeHead, nodes
      ensures nodes == old(nodes) && node == old(freeHead) && freeHead == old(nodes[..])[node].next
      ensures nodes[..] == old(nodes[..])[node := Node(x, y, old(nodes[..])[node].next)]
    {
      node := freeHead;
      nodes[node] := nodes[node].(x := Coord(x));
      nodes[node] := nodes[node].(y := Coord(y));
      freeHead := nodes[node].next;
    }

    method SetLink(l: Link, to: int)
      requires l.NextOf? ==> 0 <= l.node < nodes.Length
      modifies this`activeHead, nodes
      ensures nodes == old(nodes)
      ensures match l
        case ActiveHead => activeHead == to && nodes[..] == old(nodes[..])
        case NextOf(n) =>
          activeHead == old(activeHead) && nodes[..] == old(nodes[..])[n := old(nodes[..])[n].(next := to)]
    {
      match l
      case ActiveHead => activeHead := to;
      case NextOf(n) => nodes[n] := nodes[n].(next := to);
    }

    // Takes a free node for the rectangle and links it in; cur is what is left
    // of the active list behind it.
    method LinkNode(fr: FindResult, h: int, ghost c: Spot) returns (node: int, cur: int, ghost k: nat)
      requires Readable() && Shared(nodes[..], freeHead, active, free) && free != []
      requires 0 < width <= 0xffff && 0 <= fr.y + h <= 0xffff
      requires Holds(sky, c.k, c.x) && c.k < |active| && fr.prevLink == Some(LinkAt(c.k)) && fr.x == c.x
      modifies this`activeHead, this`freeHead, nodes
      ensures nodes == old(nodes) && node == free[0] && 0 <= node < nodes.Length
      ensures k == (if sky[c.k].x < c.x then c.k + 1 else c.k) && k < |active|
      ensures Cutting(old(nodes[..]), nodes[..], activeHead, node, cur, freeHead, active, free, k, k)
      ensures nodes[node].x == fr.x && nodes[node].y == fr.y + h
    {
      ghost var ns0, head0 := nodes[..], activeHead;
      ReadableChain();
      assert Linked(ns0, free, NULL, 0);
      Order(sky, c.k + 1, |sky| - 1);
      Order(sky, 0, c.k);
      Look(c.k);
      if c.k > 0 { Look(c.k - 1); }
      FreeAlone(active, free);
      node := TakeNode(fr.x, fr.y + h);
      cur := Deref(fr.prevLink.value);
      if nodes[cur].x < fr.x {
        k := c.k + 1;
        var next := nodes[cur].next;
        SetLink(NextOf(cur), node);
        cur := next;
      } else {
        k := c.k;
        SetLink(fr.prevLink.value, node);
      }
      LinkNew(ns0, nodes[..], head0, old(freeHead), active, free, k);
    }

    // Moves one swallowed node onto the free list.
    method SwallowOne(cur: int, node: int, ghost ns0: seq<Node>, ghost k: nat, ghost m: nat) returns (next: int)
      requires free != [] && node == free[0] && Lists(active, free) && k <= m && m + 1 < |active|
      requires AtCut(ns0, nodes[..], activeHead, node, cur, freeHead, active, free, k, m)
      modifies this`freeHead, nodes
      ensures nodes == old(nodes)
      ensures AtCut(ns0, nodes[..], activeHead, node, next, freeHead, active, free, k, m + 1)
      ensures 0 <= node < nodes.Length ==> nodes[node].x == old(nodes[node].x) && nodes[node].y == old(nodes[node].y)
    {
      ghost var ns, fr := nodes[..], freeHead;
      FreeOne(ns0, ns, activeHead, node, cur, fr, active, free, k, m);
      next := nodes[cur].next;
      nodes[cur] := nodes[cur].(next := freeHead);
      freeHead := cur;
      assert nodes[..] == ns[cur := ns[cur].(next := fr)];
      CutLook(ns0, nodes[..], activeHead, node, next, freeHead, active, free, k, m + 1);
    }

    // Frees the nodes that the box swallows.
    method Swallow(cur0: int, limit: int, node: int, ghost ns0: seq<Node>, ghost k: nat)
      returns (cur: int, ghost m: nat)
      requires |active| == |sky| && IsSkyline(sky, width) && limit <= width
      requires free != [] && node == free[0] && Lists(active, free) && k < |active| && 0 <= node < nodes.Length
      requires Cutting(ns0, nodes[..], activeHead, node, cur0, freeHead, active, free, k, k)
      requires forall i :: 0 <= i < |active| ==> 0 <= active[i] < |ns0| && ns0[active[i]].x == sky[i].x
      modifies this`freeHead, nodes
      ensures nodes == old(nodes) && k <= m < |active|
      ensures Cutting(ns0, nodes[..], activeHead, node, cur, freeHead, active, free, k, m)
      ensures nodes[node].x == old(nodes[node].x) && nodes[node].y == old(nodes[node].y)
      ensures (k < m ==> sky[m].x <= limit) && (m + 1 < |sky| ==> limit < sky[m + 1].x)
    {
      cur, m := cur0, k;
      CutLook(ns0, nodes[..], activeHead, node, cur, freeHead, active, free, k, m);
      while nodes[cur].next != NULL && nodes[nodes[cur].next].x <= limit
        invariant k <= m < |active| && nodes == old(nodes)
        invariant AtCut(ns0, nodes[..], activeHead, node, cur, freeHead, active, free, k, m)
        invariant k < m ==> sky[m].x <= limit
        invariant nodes[node].x == old(nodes[node].x) && nodes[node].y == old(nodes[node].y)
        decreases |active| - m
      {
        cur := SwallowOne(cur, node, ns0, k, m);
        m := m + 1;
      }
    }

    lemma ReadableShows()
      requires Readable()
      ensures Shows(nodes[..], active, sky)
    {
      forall i | 0 <= i < |active|
        ensures 0 <= active[i] < nodes.Length && nodes[active[i]] == Node(sky[i].x, sky[i].y, At(active, i + 1))
      {
        Look(i);
      }
    }

    // Links the new node in and frees the nodes it swallows.
    method CutIn(fr: FindResult, w: int, h: int, ghost c: Spot)
      returns (node: int, cur: int, ghost k: nat, ghost m: nat)
      requires Readable() && Shared(nodes[..], freeHead, active, free) && free != []
      requires 0 < width <= 0xffff && height <= 0xffff && 0 < w && 0 < h
      requires Holds(sky, c.k, c.x) && fr.prevLink == Some(LinkAt(c.k)) && fr.x == c.x
      requires 0 <= fr.x && fr.x + w <= width && 0 <= fr.y && fr.y + h <= height
      modifies this`activeHead, this`freeHead, nodes
      ensures nodes == old(nodes) && node == free[0] && CutFrom(sky, c, w, k, m)
      ensures 0 <= node < nodes.Length && nodes[node].x == fr.x && nodes[node].y == fr.y + h
      ensures Cutting(old(nodes[..]), nodes[..], activeHead, node, cur, freeHead, active, free, k, m)
      ensures cur == active[m] != node && 0 <= cur < nodes.Length && SamePlace(old(nodes[..]), nodes[..], cur)
    {
      ghost var ns0 := nodes[..];
      ReadableShows();
      node, cur, k := LinkNode(fr, h, c);
      cur, m := Swallow(cur, fr.x + w, node, ns0, k);
      CutLook(ns0, nodes[..], activeHead, node, cur, freeHead, active, free, k, m);
    }

    // The linked form of Lay: after it the new lists of nodes are in place.
    method StitchIn(fr: FindResult, w: int, h: int, ghost c: Spot) returns (ghost node: int, ghost k: nat, ghost m: nat)
      requires Readable() && Shared(nodes[..], freeHead, active, free) && free != []
      requires 0 < width <= 0xffff && height <= 0xffff && 0 < w && 0 < h
      requires Holds(sky, c.k, c.x) && fr.prevLink == Some(LinkAt(c.k)) && fr.x == c.x
      requires 0 <= fr.x && fr.x + w <= width && 0 <= fr.y && fr.y + h <= height
      modifies this`activeHead, this`freeHead, nodes
      ensures nodes == old(nodes) && node == free[0] && CutFrom(sky, c, w, k, m)
      ensures Chain(nodes[..], activeHead, active[..k] + [node] + active[m..], NULL)
      ensures Chain(nodes[..], freeHead, Freed(active, free, k, m), NULL)
      ensures Shows(nodes[..], active[..k] + [node] + active[m..], Lay(sky, fr.x, w, fr.y + h, k, m))
    {
      ghost var ns0 := nodes[..];
      ReadableShows();
      var new', cur;
      new', cur, k, m := CutIn(fr, w, h, c);
      node := new';
      ghost var ns := nodes[..];
      CloseList(new', cur, fr.x + w);
      Restitched(ns0, ns, nodes[..], sky, activeHead, node, cur, freeHead, active, free, fr.x, w, fr.y + h, k, m);
    }

    // Points the new node at the rest of the list, which starts no earlier than x1.
    method CloseList(node: int, cur: int, x1: int)
      requires 0 <= node < nodes.Length && 0 <= cur < nodes.Length && node != cur && 0 <= x1 <= 0xffff
      modifies nodes
      ensures var ns := old(nodes[..]);
        nodes[..] == ns[node := ns[node].(next := cur)][cur := ns[cur].(x := Max(ns[cur].x, x1))]
    {
      nodes[node] := nodes[node].(next := cur);
      if nodes[cur].x < x1 {
        nodes[cur] := nodes[cur].(x := Coord(x1));
      }
    }

    ghost method Adopt(a: seq<int>, f: seq<int>, s: seq<Step>, p: seq<Rect>)
      requires 0 < width <= 0xffff && height <= 0xffff && 1 <= align && 1 <= numNodes && nodes.Length == numNodes + 2
      requires Chain(nodes[..], activeHead, a, NULL) && Chain(nodes[..], freeHead, f, NULL) && Shows(nodes[..], a, s)
      requires Lists(a, f) && |a| + |f| == nodes.Length
      requires IsSkyline(s, width) && LowerThan(s, 0x10000) && GoodPacking(s, width, height, p)
      modifies this`active, this`free, this`sky, this`placed
      ensures Valid() && active == a && free == f && sky == s && placed == p
    {
      active, free, sky, placed := a, f, s, p;
    }

    // Makes the rectangle part of the skyline and of the packing.
    method Insert(fr: FindResult, w: int, h: int, ghost c: Spot, ghost aw: int) returns (ghost k: nat, ghost m: nat)
      requires Valid() && free != [] && 0 < w <= aw && 0 < h
      requires Clear(sky, width, height, aw, h, c, fr.y) && fr.prevLink == Some(LinkAt(c.k)) && fr.x == c.x
      modifies this`activeHead, this`freeHead, this`active, this`free, this`sky, this`placed, nodes
      ensures Valid() && nodes == old(nodes) && placed == old(placed) + [Rect(fr.x, fr.y, w, h)]
      ensures CutFrom(old(sky), c, w, k, m) && sky == Lay(old(sky), fr.x, w, fr.y + h, k, m)
    {
      ghost var node;
      node, k, m := StitchIn(fr, w, h, c);
      StitchedLists(active, free, k, m);
      PlacementKeeps(sky, width, height, placed, c, aw, w, fr.y, h, k, m);
      Adopt(active[..k] + [node] + active[m..], Freed(active, free, k, m), Lay(sky, fr.x, w, fr.y + h, k, m),
            placed + [Rect(fr.x, fr.y, w, h)]);
    }

    // One item of the loop of PackInOrder.
    method PackItem(it: Item) returns (it': Item, ghost took: bool)
      requires Valid() && 0 <= it.w && 0 <= it.h
      requires heuristic == BestFit && !Empty(it) ==> Aligned(it.w) <= width
      modifies this`activeHead, this`freeHead, this`active, this`free, this`sky, this`placed, nodes
      ensures Valid() && nodes == old(nodes) && ItemDone(it', took) && SameRequest(it, it')
      ensures placed == if took then old(placed) + [RectOf(it')] else old(placed)
      ensures ItemStep(heuristic, width, height, align, numNodes, old(sky), it, sky)
      ensures Flag(it') == 1 <==> Empty(it) || Takable(heuristic, width, height, align, numNodes, old(sky), it)
    {
      took := false;
      if it.w == 0 || it.h == 0 {
        it' := it.(x := 0, y := 0);
      } else {
        var fr := Place(it.w, it.h);
        it' := WithPlace(it, fr);
        PlaceTaken(it, fr);
        took := fr.prevLink.Some?;
      }
    }

    method Place(w: int, h: int) returns (fr: FindResult)
      requires Valid() && 0 < w && 0 < h
      requires heuristic == BestFit ==> Aligned(w) <= width
      modifies this`activeHead, this`freeHead, this`active, this`free, this`sky, this`placed, nodes
      ensures Valid() && nodes == old(nodes)
      ensures fr.prevLink.Some? ==>
        placed == old(placed) + [Rect(fr.x, fr.y, w, h)] && 0 <= fr.x < 0xffff && 0 <= fr.y <= 0xffff
      ensures fr.prevLink.Some? <==>
        |old(sky)| < numNodes + 2 && CanPlace(heuristic, old(sky), width, height, Aligned(w), h)
      ensures fr.prevLink.None? ==> placed == old(placed)
      ensures PackStep(heuristic, width, height, align, numNodes, old(sky), w, h, sky)
    {
      ghost var b, k, m;
      ghost var s := sky;
      assert free != [] <==> |sky| < numNodes + 2;
      fr, b, k, m := PackRectangle(w, h);
      if fr.prevLink.Some? {
        assert InsideBin(placed[|placed| - 1], width, height);
        assert Raises(heuristic, s, width, height, Aligned(w), w, h, sky, b.value, k, m);
      }
    }

    // The items tried so far, on the skylines that they found.
    ghost predicate TriedAll(its0: seq<Item>, its: seq<Item>, skies: seq<seq<Step>>, done: int)
      requires 1 <= align
      reads this
    {
      AllTried(heuristic, width, height, align, numNodes, its0, its, skies, done)
    }

    method PackNth(items: array<Item>, i: int, ghost its0: seq<Item>, ghost who: seq<int>, ghost before: seq<Rect>,
                   ghost skies: seq<seq<Step>>)
      returns (ghost who': seq<int>)
      requires Valid() && Packable(its0, align, width, heuristic) && SameRequests(its0, items[..])
      requires 0 <= i < items.Length && Processed(items[..], i, who, before, placed)
      requires TriedAll(its0, items[..], skies, i) && skies[i] == sky
      modifies this`activeHead, this`freeHead, this`active, this`free, this`sky, this`placed, nodes, items
      ensures Valid() && nodes == old(nodes) && SameRequests(its0, items[..])
      ensures Processed(items[..], i + 1, who', before, placed)
      ensures TriedAll(its0, items[..], skies + [sky], i + 1)
      ensures Quantized(old(sky), align) && AllOnQuanta(heuristic, width, align, its0) ==> Quantized(sky, align)
    {
      ghost var its, p, s := items[..], placed, sky;
      assert SameRequest(its0[i], its[i]);
      var it;
      ghost var took;
      it, took := PackItem(items[i]);
      assert items[..] == its;
      items[i] := it;
      assert items[..] == its[i := it];
      ProcessedStep(its, its[i := it], i, who, took, before, p, placed);
      NthDone(its0, its, it, skies, s, i);
      who' := if took then who + [i] else who;
    }

    lemma NthDone(its0: seq<Item>, its: seq<Item>, it: Item, skies: seq<seq<Step>>, s: seq<Step>, i: int)
      requires 1 <= align && TriedAll(its0, its, skies, i) && 0 <= i < |its0| && skies[i] == s
      requires SameRequests(its0, its)
      requires Packable(its0, align, width, heuristic) && IsSkyline(s, width) && SameRequest(its[i], it)
      requires ItemStep(heuristic, width, height, align, numNodes, s, its[i], sky)
      requires Flag(it) == 1 <==> Empty(its[i]) || Takable(heuristic, width, height, align, numNodes, s, its[i])
      ensures SameRequests(its0, its[i := it]) && TriedAll(its0, its[i := it], skies + [sky], i + 1)
      ensures Quantized(s, align) && AllOnQuanta(heuristic, width, align, its0) ==> Quantized(sky, align)
    {
      assert SameRequest(its0[i], its[i]);
      SameRequestsStep(its0, its, i, it);
      TriedNext(its0, its, it, skies, s, i);
      ItemKeepsQuantized(heuristic, width, height, align, numNodes, s, its[i], sky);
    }

    lemma TriedNext(its0: seq<Item>, its: seq<Item>, it: Item, skies: seq<seq<Step>>, s: seq<Step>, i: int)
      requires 1 <= align && TriedAll(its0, its, skies, i) && 0 <= i < |its0| == |its| && skies[i] == s
      requires SameRequest(its0[i], its[i]) && ItemStep(heuristic, width, height, align, numNodes, s, its[i], sky)
      requires Flag(it) == 1 <==> Empty(its[i]) || Takable(heuristic, width, height, align, numNodes, s, its[i])
      ensures TriedAll(its0, its[i := it], skies + [sky], i + 1)
    {
      TriedMore(heuristic, width, height, align, numNodes, its0, its, its[i := it], skies, sky, i);
    }

    // Tries every item once, in the order of the array: each gets a place exactly if a node is
    // free and a position fits when it is tried.
    method PackInOrder(items: array<Item>) returns (ghost who: seq<int>, ghost skies: seq<seq<Step>>)
      requires Valid() && Packable(items[..], align, width, heuristic)
      modifies this`activeHead, this`freeHead, this`active, this`free, this`sky, this`placed, nodes, items
      ensures Valid() && nodes == old(nodes)
      ensures Processed(items[..], items.Length, who, old(placed), placed)
      ensures TriedAll(old(items[..]), items[..], skies, items.Length)
      ensures skies[0] == old(sky) && skies[items.Length] == sky
      ensures SameRequests(old(items[..]), items[..])
      ensures Quantized(old(sky), align) && AllOnQuanta(heuristic, width, align, old(items[..])) ==>
        Quantized(sky, align)
    {
      who, skies := [], [sky];
      ghost var its0, before, s := items[..], placed, sky;
      var i := 0;
      while i < items.Length
        invariant Valid() && nodes == old(nodes) && 0 <= i <= items.Length
        invariant Processed(items[..], i, who, before, placed)
        invariant SameRequests(its0, items[..])
        invariant TriedAll(its0, items[..], skies, i) && skies[0] == s && skies[i] == sky
        invariant Quantized(s, align) && AllOnQuanta(heuristic, width, align, its0) ==> Quantized(sky, align)
      {
        who := PackNth(items, i, its0, who, before, skies);
        skies := skies + [sky];
        i := i + 1;
      }
    }

    // The rectangles numbered, sorted and tried in that order.
    method SortAndPack(rects: array<Item>, byHeight: seq<int>)
      returns (ghost who: seq<int>, ghost sorted: seq<Item>, ghost skies: seq<seq<Step>>)
      requires Valid() && Packable(rects[..], align, width, heuristic) && Permutes(byHeight, rects.Length)
      modifies this`activeHead, this`freeHead, this`active, this`free, this`sky, this`placed, nodes, rects
      ensures Valid() && nodes == old(nodes)
      ensures SortedBy(old(rects[..]), sorted, byHeight) && WorkedOn(old(rects[..]), rects[..], byHeight)
      ensures Processed(rects[..], rects.Length, who, old(placed), placed)
      ensures TriedAll(sorted, rects[..], skies, rects.Length)
      ensures skies[0] == old(sky) && skies[rects.Length] == sky
      ensures Quantized(old(sky), align) && AllOnQuanta(heuristic, width, align, old(rects[..])) ==>
        Quantized(sky, align)
    {
      ghost var input := rects[..];
      NumberAndSort(rects, byHeight);
      sorted := rects[..];
      SortedRequests(input, sorted, byHeight, align, width, heuristic);
      who, skies := PackInOrder(rects);
      Worked(input, sorted, rects[..], byHeight);
    }

    // Sorted back, with the flags set.
    method AnswerInPlace(rects: array<Item>, ghost input: seq<Item>, ghost byHeight: seq<int>, byIndex: seq<int>,
                         ghost who: seq<int>, ghost before: seq<Rect>, ghost sorted: seq<Item>,
                         ghost skies: seq<seq<Step>>)
      requires Valid() && |input| == rects.Length && WorkedOn(input, rects[..], byHeight) && Permutes(byIndex, |input|)
      requires SortsBack(input, byHeight, byIndex) && Processed(rects[..], rects.Length, who, before, placed)
      requires SortedBy(input, sorted, byHeight) && TriedAll(sorted, rects[..], skies, rects.Length)
      modifies rects
      ensures Answered(input, rects[..], before, placed, width, height)
      ensures Decided(heuristic, width, height, align, numNodes, input, rects[..], byHeight, skies)
    {
      ghost var tried := rects[..];
      SortBack(rects, byIndex);
      SortedBack(input, byHeight, byIndex);
      Answer(input, tried, rects[..], byHeight, byIndex, who, before, placed, sky, width, height);
      Decides(heuristic, width, height, align, numNodes, input, sorted, tried, rects[..], byHeight, byIndex, skies);
    }

    // The entry point: number the rectangles, sort, place, sort back, set the
    // flags.  byHeight and byIndex are the orders the two calls of qsort leave: any
    // that HeightCompare and OriginalOrder allow. The rectangles are tried in the order
    // byHeight on the skylines skies.
    method PackRects(rects: array<Item>, byHeight: seq<int>, byIndex: seq<int>) returns (ghost skies: seq<seq<Step>>)
      requires Valid() && Packable(rects[..], align, width, heuristic)
      requires Permutes(byHeight, rects.Length) && Permutes(byIndex, rects.Length)
      requires SortsByHeight(rects[..], byHeight) && SortsBack(rects[..], byHeight, byIndex)
      modifies this`activeHead, this`freeHead, this`active, this`free, this`sky, this`placed, nodes, rects
      ensures Valid() && nodes == old(nodes)
      ensures TallestFirst(old(rects[..]), byHeight)
      ensures Answered(old(rects[..]), rects[..], old(placed), placed, width, height)
      ensures Decided(heuristic, width, height, align, numNodes, old(rects[..]), rects[..], byHeight, skies)
      ensures skies[0] == old(sky) && skies[rects.Length] == sky
      ensures Quantized(old(sky), align) && AllOnQuanta(heuristic, width, align, old(rects[..])) ==>
        Quantized(sky, align)
    {
      ghost var input, before := rects[..], placed;
      ghost var who, sorted;
      SortsByHeightIff(input, byHeight);
      who, sorted, skies := SortAndPack(rects, byHeight);
      AnswerInPlace(rects, input, byHeight, byIndex, who, before, sorted, skies);
    }

    // With at least as many nodes as columns the free list never runs out.
    lemma NodePerColumnSuffices()
      requires Valid() && width <= numNodes
      ensures free != []
    {
      NodesFitColumns(sky, width, |sky| - 1);
    }

    // Nor does it with fewer nodes, as long as all nodes stand on multiples of the quantum.
    lemma NodePerQuantumSuffices()
      requires Valid() && Quantized(sky, align) && width <= numNodes * align
      ensures free != []
    {
      NodesFitQuanta(sky, width, align, |sky| - 2);
      Order(sky, |sky| - 2, |sky| - 1);
      if free == [] {
        MulMono(numNodes, |sky| - 2, align);
        assert false;
      }
    }
  }

  // The search rounds the width up, but the stitching uses the width itself: a
  // packer with one node for a bin of width 10 is out of nodes after a box of
  // width 3, although a second one would fit on top of it.
  lemma QuantumCanRunOut()
    ensures var quantum := (10 + 1 - 1) / 1;
      var s := [Step(0, 0), Step(10, 65535)];
      var s' := Lay(s, 0, 3, 1, 0, 0);
      && AlignTo(3, quantum) == 10
      && IsSkyline(s, 10) && Fits(BottomLeft, s, 10, 100, 10, 1, Spot(0, 0)) && CutFrom(s, Spot(0, 0), 3, 0, 0)
      && |s'| == 1 + 2
      && CanPlace(BottomLeft, s', 10, 100, 10, 1)
  {
    var s := [Step(0, 0), Step(10, 65535)];
    var s' := Lay(s, 0, 3, 1, 0, 0);
    assert s' == [Step(0, 1), Step(3, 0), Step(10, 65535)];
    assert Sweep(s, 1, 0, 10, 0, 10, 0) == (0, 0);
    assert Sweep(s', 2, 0, 10, 1, 10, 7) == (1, 7);
    assert Sweep(s', 1, 0, 10, 1, 3, 0) == (1, 7);
    assert Fits(BottomLeft, s', 10, 100, 10, 1, Spot(0, 0));
  }
}
