// The allocator at work: first fit on the caller's free list, a page from the
// global block when nothing fits, and freeing with merging on both sides.
module Pmm {
  import opened Tiling
  import opened FreeLists
  import opened Alloc
  import Arith

  function Align(x: nat, b: nat): nat
    requires 0 < b
  {
    (x + b - 1) / b * b
  }

  lemma AlignBounds(x: nat, b: nat)
    requires 0 < b
    ensures x <= Align(x, b) < x + b && Align(x, b) % b == 0
  {
    Arith.MultipleModulo((x + b - 1) / b, b);
  }

  // ----- what holds of the whole heap -----

  // Two different blocks never share a byte, headers included, and none leaves the heap.
  lemma BlocksApart(e: Env, m: Img, a: int, b: int)
    requires Good(e, m) && a in m.owner && b in m.owner && a != b
    ensures a in m.size && b in m.size && e.start <= a && EndOf(m.size, a) <= e.end
    ensures EndOf(m.size, a) <= b || EndOf(m.size, b) <= a
  {
    InHeap(e, m, a);
    InHeap(e, m, b);
    var i, j := IndexOf(m.layout, a), IndexOf(m.layout, b);
    if i < j {
      Increasing(m.layout, m.size, e.start, e.end, i, j);
    } else {
      Increasing(m.layout, m.size, e.start, e.end, j, i);
    }
  }

  // Every byte of the heap belongs to exactly one block, which is the global
  // one, or in use, or on exactly one CPU's free list.
  lemma EveryByteHasOwner(e: Env, m: Img, byte: int) returns (a: int)
    requires Good(e, m) && e.start <= byte < e.end
    ensures a in m.owner && a in m.size && a <= byte < EndOf(m.size, a)
    ensures forall b :: b in m.owner && b in m.size && b <= byte < EndOf(m.size, b) ==> b == a
    ensures m.owner[a] == Global <==> a == e.start
    ensures forall c :: 0 <= c < |e.sent| ==> (a in m.lists[c] <==> m.owner[a] == FreeOn(c))
    ensures m.owner[a].Live? || m.owner[a].Global? || 0 <= m.owner[a].cpu < |e.sent|
  {
    var i := ByteHasBlock(m.layout, m.size, e.start, e.end, byte, 0);
    a := m.layout[i];
    forall b | b in m.owner && b in m.size && b <= byte < EndOf(m.size, b) ensures b == a {
      var j := IndexOf(m.layout, b);
    }
    forall c | 0 <= c < |e.sent| ensures a in m.lists[c] <==> m.owner[a] == FreeOn(c) { assert ListOk(e, m, c); }
  }

  // ----- what each change does to the blocks in use -----

  lemma CutLive(e: Env, m: Img, a: int, n: int)
    requires Good(e, m) && a in m.owner && m.owner[a] != Live && a in m.size && a in m.layout
      && 0 <= n && n + HDR <= m.size[a]
    ensures LiveBlocks(DoCut(m, a, n, Live)) == LiveBlocks(m)[a + m.size[a] - n := n]
  {
    CutGood(e, m, a, n);
  }

  lemma UnlinkLive(e: Env, m: Img, c: int, k: nat)
    requires Good(e, m) && 0 <= c < |e.sent| && k < |m.lists[c]|
    ensures var a := m.lists[c][k]; a in m.size && LiveBlocks(DoUnlink(e, m, c, k)) == LiveBlocks(m)[a := m.size[a]]
  {
    assert ListOk(e, m, c);
    InHeap(e, m, m.lists[c][k]);
  }

  lemma LinkLive(e: Env, m: Img, c: int, k: nat, a: int)
    requires Good(e, m) && 0 <= c < |e.sent| && k <= |m.lists[c]| && a in m.owner && m.owner[a] == Live
    ensures LiveBlocks(DoLink(e, m, c, k, a)) == LiveBlocks(m) - {a}
  {
  }

  lemma JoinLive(e: Env, m: Img, a: int, b: int)
    requires Good(e, m) && a in m.owner && m.owner[a] != Live && b in m.owner && m.owner[b] == Live
    requires a in m.size && b in m.size && b in m.layout
    ensures LiveBlocks(DoJoin(m, a, b)) == LiveBlocks(m) - {b}
  {
  }

  // ----- allocation, on values -----

  // The first block of l from the i-th on that has room for n bytes.
  function FirstFit(size: map<int, int>, l: seq<int>, n: int, i: nat): (k: nat)
    requires i <= |l|
    ensures i <= k <= |l|
    ensures forall j :: i <= j < k && l[j] in size ==> size[l[j]] < n
    ensures k < |l| ==> l[k] in size && n <= size[l[k]]
    decreases |l| - i
  {
    if i == |l| then i else if l[i] in size && n <= size[l[i]] then i else FirstFit(size, l, n, i + 1)
  }

  // Takes n bytes from the k-th free block: cut off its end, or all of it.
  ghost function DoTake(e: Env, m: Img, c: int, k: nat, n: int): (m': Img)
    requires Good(e, m) && 0 <= c < |e.sent| && k < |m.lists[c]|
  {
    assert ListOk(e, m, c);
    var a := m.lists[c][k];
    InHeap(e, m, a);
    if n + HDR <= m.size[a] then DoCut(m, a, n, Live) else DoUnlink(e, m, c, k)
  }

  function TakenAt(size: map<int, int>, a: int, n: int): int
    requires a in size
  {
    if n + HDR <= size[a] then a + size[a] - n else a
  }

  lemma TakeKeeps(e: Env, m: Img, c: int, k: nat, n: int)
    requires Good(e, m) && 0 <= c < |e.sent| && k < |m.lists[c]| && 0 <= n
    requires m.lists[c][k] in m.size && n <= m.size[m.lists[c][k]]
    ensures var m', p := DoTake(e, m, c, k, n), TakenAt(m.size, m.lists[c][k], n);
      && Good(e, m') && p in m'.size && n <= m'.size[p]
      && p !in LiveBlocks(m) && LiveBlocks(m') == LiveBlocks(m)[p := m'.size[p]]
      && Used(m') == Used(m) + m'.size[p]
      && forall d :: 0 <= d < |e.sent| && d != c ==> m'.lists[d] == m.lists[d]
  {
    assert ListOk(e, m, c);
    var a := m.lists[c][k];
    InHeap(e, m, a);
    if n + HDR <= m.size[a] {
      CutGood(e, m, a, n);
      CutUsed(e, m, a, n);
      CutLive(e, m, a, n);
    } else {
      UnlinkGood(e, m, c, k);
      UnlinkUsed(e, m, c, k);
      UnlinkLive(e, m, c, k);
    }
  }

  ghost predicate GlobalHas(e: Env, m: Img, n: int) {
    e.start in m.size && n + HDR < m.size[e.start]
  }

  // Cuts n bytes off the global block and appends them to the free list of CPU c.
  ghost function DoPage(e: Env, m: Img, c: int, n: int): (m': Img)
    requires Good(e, m) && 0 <= c < |e.sent| && 0 <= n && GlobalHas(e, m, n)
  {
    DoLink(e, DoCut(m, e.start, n, Live), c, |m.lists[c]|, e.start + m.size[e.start] - n)
  }

  lemma PageKeeps(e: Env, m: Img, c: int, n: int)
    requires Good(e, m) && 0 <= c < |e.sent| && 0 <= n && GlobalHas(e, m, n)
    ensures var m', b := DoPage(e, m, c, n), e.start + m.size[e.start] - n;
      && Good(e, m') && Used(m') == Used(m) && LiveBlocks(m') == LiveBlocks(m)
      && m'.lists[c] == m.lists[c] + [b] && b in m'.size && m'.size[b] == n && b !in m.lists[c]
      && (forall a :: a in m.lists[c] ==> a in m.size && a in m'.size && m'.size[a] == m.size[a])
      && forall d :: 0 <= d < |e.sent| && d != c ==> m'.lists[d] == m.lists[d]
  {
    var m1, b := DoCut(m, e.start, n, Live), e.start + m.size[e.start] - n;
    CutGood(e, m, e.start, n);
    CutUsed(e, m, e.start, n);
    CutLive(e, m, e.start, n);
    LinkGood(e, m1, c, |m.lists[c]|, b);
    LinkUsed(e, m1, c, |m.lists[c]|, b);
    LinkLive(e, m1, c, |m.lists[c]|, b);
    assert ListOk(e, m, c);
    assert b !in LiveBlocks(m);
    forall a | a in m.lists[c] ensures a in m.size && a != b && a != e.start { InHeap(e, m, a); }
  }

  function PageSize(n: int): int { if n > PG_SIZE then n else PG_SIZE }

  // After nothing fitted, the page appended to the list is the first block that fits.
  lemma {:induction false} FitsNewPage(size: map<int, int>, size': map<int, int>, l: seq<int>, l': seq<int>, n: int,
                                       i: nat)
    requires i <= |l| && FirstFit(size, l, n, i) == |l|
    requires |l'| == |l| + 1 && l' == l + [l'[|l|]] && l'[|l|] in size' && n <= size'[l'[|l|]]
    requires forall a :: a in l ==> a in size && a in size' && size'[a] == size[a]
    ensures FirstFit(size', l', n, i) == |l|
    decreases |l| - i
  {
    if i < |l| {
      assert l'[i] == l[i] && l[i] in l;
      FitsNewPage(size, size', l, l', n, i + 1);
    }
  }

  // All of kalloc_real: the new heap, and the block it returns.
  ghost function DoAlloc(e: Env, m: Img, c: int, n: int): (r: Option<(Img, int)>)
    requires Good(e, m) && 0 <= c < |e.sent| && 0 <= n
  {
    var k := FirstFit(m.size, m.lists[c], n, 0);
    if k < |m.lists[c]| then
      Some((DoTake(e, m, c, k, n), TakenAt(m.size, m.lists[c][k], n)))
    else if !GlobalHas(e, m, PageSize(n)) then None
    else
      PageKeeps(e, m, c, PageSize(n));
      var m1 := DoPage(e, m, c, PageSize(n));
      Some((DoTake(e, m1, c, k, n), TakenAt(m1.size, m1.lists[c][k], n)))
  }

  // The first block of l that has room for n bytes, if any.
  ghost predicate IsFirstFit(l: seq<int>, size: map<int, int>, n: int, k: nat) {
    && k <= |l| && (forall i :: 0 <= i < |l| ==> l[i] in size)
    && (forall j :: 0 <= j < k ==> size[l[j]] < n) && (k < |l| ==> n <= size[l[k]])
  }

  // Block p has the last n bytes of the k-th block, which keeps a header and the rest; or it
  // is that block, off the list, if there is no room for a header.
  ghost predicate TakenFrom(l: seq<int>, size: map<int, int>, k: nat, n: int, p: int, l': seq<int>,
                            size': map<int, int>) {
    && k < |l| && l[k] in size
    && var a := l[k];
      if size[a] < n + HDR then p == a && l' == l[..k] + l[k + 1..] && size' == size
      else
        && p == a + HDR + size[a] - (HDR + n) && l' == l
        && size' == size[a := size[a] - (HDR + n)][p := n]
  }

  // Block p is taken from the first block that fits, or from a page off the end of the
  // global block, which then is the last one of the list.
  ghost predicate TakenFirst(start: int, l: seq<int>, size: map<int, int>, k: nat, n: int, p: int, l': seq<int>,
                             size': map<int, int>) {
    if k < |l| then TakenFrom(l, size, k, n, p, l', size')
    else
      var page := if n > 8192 then n else 8192;
      && start in size && HDR + page < size[start]
      && var b := start + HDR + size[start] - (HDR + page);
        TakenFrom(l + [b], size[start := size[start] - (HDR + page)][b := page], |l|, n, p, l', size')
  }

  ghost predicate FirstFitTaken(start: int, l: seq<int>, size: map<int, int>, n: int, p: int, l': seq<int>,
                                size': map<int, int>) {
    exists k: nat {:trigger IsFirstFit(l, size, n, k)} ::
      IsFirstFit(l, size, n, k) && TakenFirst(start, l, size, k, n, p, l', size')
  }

  lemma TakePlace(e: Env, m: Img, c: int, k: nat, n: int)
    requires Good(e, m) && 0 <= c < |e.sent| && k < |m.lists[c]| && 0 <= n && m.lists[c][k] in m.size
    ensures var m', p := DoTake(e, m, c, k, n), TakenAt(m.size, m.lists[c][k], n);
      |m'.lists| == |m.lists| && TakenFrom(m.lists[c], m.size, k, n, p, m'.lists[c], m'.size)
  {
  }

  lemma PagePlace(e: Env, m: Img, c: int, n: int)
    requires Good(e, m) && 0 <= c < |e.sent| && 0 <= n && GlobalHas(e, m, n)
    ensures var m', b := DoPage(e, m, c, n), e.start + HDR + m.size[e.start] - (HDR + n);
      && |m'.lists| == |m.lists| && m'.lists[c] == m.lists[c] + [b]
      && m'.size == m.size[e.start := m.size[e.start] - (HDR + n)][b := n]
  {
  }

  lemma FreeHasSize(e: Env, m: Img, c: int)
    requires Good(e, m) && 0 <= c < |e.sent|
    ensures forall i :: 0 <= i < |m.lists[c]| ==> m.lists[c][i] in m.size
  {
    assert ListOk(e, m, c);
    forall i | 0 <= i < |m.lists[c]| ensures m.lists[c][i] in m.size { InHeap(e, m, m.lists[c][i]); }
  }

  lemma FirstFitIs(e: Env, m: Img, c: int, n: int)
    requires Good(e, m) && 0 <= c < |e.sent|
    ensures IsFirstFit(m.lists[c], m.size, n, FirstFit(m.size, m.lists[c], n, 0))
  {
    FreeHasSize(e, m, c);
  }

  lemma NewPagePlace(e: Env, m: Img, c: int, n: int)
    requires Good(e, m) && 0 <= c < |e.sent| && 0 <= n && GlobalHas(e, m, PageSize(n))
    ensures var m1, k := DoPage(e, m, c, PageSize(n)), |m.lists[c]|;
      && Good(e, m1) && k < |m1.lists[c]| && m1.lists[c][k] in m1.size
      && var m', p := DoTake(e, m1, c, k, n), TakenAt(m1.size, m1.lists[c][k], n);
        |m'.lists| == |m.lists| && TakenFirst(e.start, m.lists[c], m.size, k, n, p, m'.lists[c], m'.size)
  {
    PageKeeps(e, m, c, PageSize(n));
    PagePlace(e, m, c, PageSize(n));
    TakePlace(e, DoPage(e, m, c, PageSize(n)), c, |m.lists[c]|, n);
  }

  // What kalloc_real does to the caller's list and to the sizes.
  lemma AllocPlace(e: Env, m: Img, c: int, n: int)
    requires Good(e, m) && 0 <= c < |e.sent| && 0 <= n
    ensures match DoAlloc(e, m, c, n)
      case None => true
      case Some((m', p)) =>
        |m'.lists| == |m.lists| && FirstFitTaken(e.start, m.lists[c], m.size, n, p, m'.lists[c], m'.size)
  {
    var l := m.lists[c];
    var k := FirstFit(m.size, l, n, 0);
    FirstFitIs(e, m, c, n);
    if k < |l| {
      TakePlace(e, m, c, k, n);
    } else if GlobalHas(e, m, PageSize(n)) {
      NewPagePlace(e, m, c, n);
    }
  }

  // What an allocation of n bytes changes: one more block in use, and enough of the heap
  // behind it; it fails exactly when nothing fits.
  ghost predicate Allocated(e: Env, m: Img, c: int, n: int, r: Option<int>, m': Img)
    requires |m.lists| == |e.sent| && 0 <= c < |e.sent|
  {
    match r
    case None =>
      && (forall a :: a in m.lists[c] ==> a in m.size && m.size[a] < n)
      && e.start in m.size && m.size[e.start] <= HDR + (if n > 8192 then n else 8192) && m' == m
    case Some(p) =>
      && ((exists a :: a in m.lists[c] && a in m.size && n <= m.size[a])
          || (e.start in m.size && HDR + (if n > 8192 then n else 8192) < m.size[e.start]))
      && |m'.lists| == |m.lists| && FirstFitTaken(e.start, m.lists[c], m.size, n, p, m'.lists[c], m'.size)
      && Good(e, m') && p in m'.size && n <= m'.size[p]
      && p !in LiveBlocks(m) && LiveBlocks(m') == LiveBlocks(m)[p := m'.size[p]]
      && Used(m') == Used(m) + m'.size[p]
      && forall d :: 0 <= d < |e.sent| && d != c ==> m'.lists[d] == m.lists[d]
  }

  lemma AllocKeeps(e: Env, m: Img, c: int, n: int)
    requires Good(e, m) && 0 <= c < |e.sent| && 0 <= n
    ensures match DoAlloc(e, m, c, n)
      case None => Allocated(e, m, c, n, None, m)
      case Some((m', p)) => Allocated(e, m, c, n, Some(p), m')
  {
    var l := m.lists[c];
    var k := FirstFit(m.size, l, n, 0);
    AllocPlace(e, m, c, n);
    InHeap(e, m, e.start);
    if k < |l| {
      assert l[k] in l;
      TakeKeeps(e, m, c, k, n);
    } else {
      assert ListOk(e, m, c);
      forall a | a in l ensures a in m.size && m.size[a] < n {
        InHeap(e, m, a);
        var j :| 0 <= j < |l| && l[j] == a;
      }
      if GlobalHas(e, m, PageSize(n)) {
        PageKeeps(e, m, c, PageSize(n));
        TakeKeeps(e, DoPage(e, m, c, PageSize(n)), c, k, n);
      }
    }
  }

  // Before a pass of the search: the heap as it was, or, the second time, with a page added
  // because nothing fitted; prevp is still where the first pass left it.
  ghost predicate Searching(e: Env, m: Img, cur: Img, c: int, n: int, prevp: int, passes: nat) {
    && Good(e, m) && 0 <= c < |e.sent| && 0 <= n && passes <= 1 && Good(e, cur)
    && if passes == 0 then cur == m && prevp == e.sent[c]
       else
         && FirstFit(m.size, m.lists[c], n, 0) == |m.lists[c]| && GlobalHas(e, m, PageSize(n))
         && cur == DoPage(e, m, c, PageSize(n)) && FirstFit(cur.size, cur.lists[c], n, 0) == |m.lists[c]|
         && |cur.lists[c]| == |m.lists[c]| + 1
         && prevp == Node(e.sent[c], m.lists[c], |m.lists[c]|)
         && prevp == Node(e.sent[c], cur.lists[c], |m.lists[c]|)
  }

  // ----- freeing, on values -----

  // The first block of l from the i-th on that lies behind address f.
  function PlaceOf(l: seq<int>, f: int, i: nat): (k: nat)
    requires i <= |l|
    ensures i <= k <= |l|
    decreases |l| - i
  {
    if i == |l| || f < l[i] then i else PlaceOf(l, f, i + 1)
  }

  ghost predicate JoinsLeft(m: Img, l: seq<int>, k: nat, f: int) {
    0 < k <= |l| && l[k - 1] in m.size && EndOf(m.size, l[k - 1]) == f
  }

  // Puts f back in front of the k-th block, or into the block before that ends at f.
  ghost function DoReturn(e: Env, m: Img, c: int, k: nat, f: int): Img
    requires Good(e, m) && 0 <= c < |e.sent| && k <= |m.lists[c]| && f in m.owner
  {
    InHeap(e, m, f);
    if JoinsLeft(m, m.lists[c], k, f) then DoJoin(m, m.lists[c][k - 1], f) else DoLink(e, m, c, k, f)
  }

  // Then block t, on the list just before the k-th block, swallows that block if it ends there.
  ghost function DoSwallow(e: Env, m: Img, c: int, k: nat, t: int): Img
    requires Good(e, m) && 0 <= c < |e.sent| && t in m.owner
  {
    InHeap(e, m, t);
    if k < |m.lists[c]| && EndOf(m.size, t) == m.lists[c][k] then
      assert ListOk(e, m, c);
      InHeap(e, m, m.lists[c][k]);
      DoJoin(DoUnlink(e, m, c, k), t, m.lists[c][k])
    else m
  }

  lemma ReturnKeeps(e: Env, m: Img, c: int, k: nat, f: int)
    requires Good(e, m) && 0 <= c < |e.sent| && k <= |m.lists[c]| && f in m.owner && m.owner[f] == Live
    ensures var m', l := DoReturn(e, m, c, k, f), m.lists[c];
      && Good(e, m') && f in m.size && Used(m') == Used(m) - m.size[f] && LiveBlocks(m') == LiveBlocks(m) - {f}
      && m'.lists[c] == (if JoinsLeft(m, l, k, f) then l else With(l, k, f))
      && forall d :: 0 <= d < |e.sent| && d != c ==> m'.lists[d] == m.lists[d]
  {
    InHeap(e, m, f);
    assert ListOk(e, m, c);
    if JoinsLeft(m, m.lists[c], k, f) {
      JoinGood(e, m, m.lists[c][k - 1], f);
      JoinUsed(e, m, m.lists[c][k - 1], f);
      JoinLive(e, m, m.lists[c][k - 1], f);
    } else {
      LinkGood(e, m, c, k, f);
      LinkUsed(e, m, c, k, f);
      LinkLive(e, m, c, k, f);
    }
  }

  lemma SwallowKeeps(e: Env, m: Img, c: int, k: nat, t: int)
    requires Good(e, m) && 0 <= c < |e.sent| && t in m.owner && m.owner[t] == FreeOn(c)
    ensures var m' := DoSwallow(e, m, c, k, t);
      && Good(e, m') && Used(m') == Used(m) && LiveBlocks(m') == LiveBlocks(m)
      && forall d :: 0 <= d < |e.sent| && d != c ==> m'.lists[d] == m.lists[d]
  {
    InHeap(e, m, t);
    if k < |m.lists[c]| && EndOf(m.size, t) == m.lists[c][k] {
      assert ListOk(e, m, c);
      var p, m1 := m.lists[c][k], DoUnlink(e, m, c, k);
      InHeap(e, m, p);
      UnlinkGood(e, m, c, k);
      UnlinkUsed(e, m, c, k);
      UnlinkLive(e, m, c, k);
      JoinGood(e, m1, t, p);
      JoinUsed(e, m1, t, p);
      JoinLive(e, m1, t, p);
      assert p !in LiveBlocks(m);
      assert LiveBlocks(m)[p := m.size[p]] - {p} == LiveBlocks(m);
    }
  }

  // The block that f is now part of, and how many blocks of the list come up to it.
  ghost function Returned(m: Img, l: seq<int>, k: nat, f: int): (int, nat)
    requires k <= |l|
  {
    if JoinsLeft(m, l, k, f) then (l[k - 1], k) else (f, k + 1)
  }

  lemma ReturnedIsFree(e: Env, m: Img, c: int, k: nat, f: int)
    requires Good(e, m) && 0 <= c < |e.sent| && k <= |m.lists[c]| && f in m.owner && m.owner[f] == Live
    ensures var m', (t, k') := DoReturn(e, m, c, k, f), Returned(m, m.lists[c], k, f);
      && t in m'.owner && m'.owner[t] == FreeOn(c) && 0 < k' <= |m'.lists[c]| && t == m'.lists[c][k' - 1]
      && Node(e.sent[c], m'.lists[c], k' + 1) == Node(e.sent[c], m.lists[c], k + 1)
  {
    assert ListOk(e, m, c);
    InHeap(e, m, f);
  }

  // All of kfree_real.
  ghost function DoFree(e: Env, m: Img, c: int, f: int): Img
    requires Good(e, m) && 0 <= c < |e.sent| && f in m.owner && m.owner[f] == Live
  {
    var k := PlaceOf(m.lists[c], f, 0);
    var (t, k') := Returned(m, m.lists[c], k, f);
    ReturnKeeps(e, m, c, k, f);
    ReturnedIsFree(e, m, c, k, f);
    DoSwallow(e, DoReturn(e, m, c, k, f), c, k', t)
  }

  lemma FreeKeeps(e: Env, m: Img, c: int, f: int)
    requires Good(e, m) && 0 <= c < |e.sent| && f in m.owner && m.owner[f] == Live
    ensures var m' := DoFree(e, m, c, f);
      && Good(e, m') && f in m.size && Used(m') == Used(m) - m.size[f] && LiveBlocks(m') == LiveBlocks(m) - {f}
      && |m'.lists| == |m.lists| && forall d :: 0 <= d < |e.sent| && d != c ==> m'.lists[d] == m.lists[d]
  {
    var k := PlaceOf(m.lists[c], f, 0);
    var (t, k') := Returned(m, m.lists[c], k, f);
    ReturnKeeps(e, m, c, k, f);
    ReturnedIsFree(e, m, c, k, f);
    SwallowKeeps(e, DoReturn(e, m, c, k, f), c, k', t);
  }

  // The first place of l whose block lies behind f.
  ghost predicate IsPlace(l: seq<int>, size: map<int, int>, f: int, k: nat) {
    && k <= |l| && f in size && (forall i :: 0 <= i < |l| ==> l[i] in size)
    && (forall j :: 0 <= j < k ==> l[j] <= f) && (k < |l| ==> f < l[k])
  }

  // f put back at the k-th place of l. If the block before ends at f, f becomes part of it;
  // if f ends at the block behind, that one leaves the list and becomes part of it too. The
  // one block this makes reaches to the end of the last; all others keep place and size.
  ghost predicate PutBack(l: seq<int>, size: map<int, int>, f: int, k: nat, l': seq<int>, size': map<int, int>)
    requires IsPlace(l, size, f, k)
  {
    var left := 0 < k && l[k - 1] + HDR + size[l[k - 1]] == f;
    var right := k < |l| && f + HDR + size[f] == l[k];
    var t, last := if left then l[k - 1] else f, if right then l[k] else f;
    && l' == l[..k] + (if left then [] else [f]) + (if right then l[k + 1..] else l[k..])
    && size' == size[t := last + HDR + size[last] - (t + HDR)]
  }

  ghost predicate Merged(l: seq<int>, size: map<int, int>, f: int, l': seq<int>, size': map<int, int>) {
    exists k: nat {:trigger IsPlace(l, size, f, k)} :: IsPlace(l, size, f, k) && PutBack(l, size, f, k, l', size')
  }

  lemma {:induction false} PlaceOfIs(l: seq<int>, f: int, i: nat)
    requires i <= |l|
    ensures forall j :: i <= j < PlaceOf(l, f, i) ==> l[j] <= f
    ensures PlaceOf(l, f, i) < |l| ==> f < l[PlaceOf(l, f, i)]
    decreases |l| - i
  {
    if i < |l| && !(f < l[i]) { PlaceOfIs(l, f, i + 1); }
  }

  lemma FoundPlace(e: Env, m: Img, c: int, f: int)
    requires Good(e, m) && 0 <= c < |e.sent| && f in m.owner
    ensures IsPlace(m.lists[c], m.size, f, PlaceOf(m.lists[c], f, 0))
  {
    FreeHasSize(e, m, c);
    InHeap(e, m, f);
    PlaceOfIs(m.lists[c], f, 0);
  }

  lemma ReturnPlace(e: Env, m: Img, c: int, k: nat, f: int)
    requires Good(e, m) && 0 <= c < |e.sent| && f in m.owner && m.owner[f] == Live
    requires IsPlace(m.lists[c], m.size, f, k)
    ensures var l, m' := m.lists[c], DoReturn(e, m, c, k, f);
      |m'.lists| == |m.lists| && if 0 < k && l[k - 1] + HDR + m.size[l[k - 1]] == f
      then m'.lists[c] == l && m'.size == m.size[l[k - 1] := f + HDR + m.size[f] - (l[k - 1] + HDR)]
      else m'.lists[c] == l[..k] + [f] + l[k..] && m'.size == m.size
  {
  }

  lemma SwallowPlace(e: Env, m: Img, c: int, k: nat, t: int)
    requires Good(e, m) && 0 <= c < |e.sent| && t in m.owner
    ensures t in m.size && (k < |m.lists[c]| ==> m.lists[c][k] in m.size)
    ensures var l, m' := m.lists[c], DoSwallow(e, m, c, k, t);
      |m'.lists| == |m.lists| && if k < |l| && t + HDR + m.size[t] == l[k]
      then m'.lists[c] == l[..k] + l[k + 1..] && m'.size == m.size[t := m.size[t] + HDR + m.size[l[k]]]
      else m'.lists[c] == l && m'.size == m.size
  {
    InHeap(e, m, t);
    FreeHasSize(e, m, c);
  }

  // What kfree_real does to the caller's list and to the sizes.
  lemma FreePlace(e: Env, m: Img, c: int, f: int)
    requires Good(e, m) && 0 <= c < |e.sent| && f in m.owner && m.owner[f] == Live
    ensures var m' := DoFree(e, m, c, f);
      |m'.lists| == |m.lists| && Merged(m.lists[c], m.size, f, m'.lists[c], m'.size)
  {
    var k := PlaceOf(m.lists[c], f, 0);
    var (t, k') := Returned(m, m.lists[c], k, f);
    FoundPlace(e, m, c, f);
    ReturnKeeps(e, m, c, k, f);
    ReturnedIsFree(e, m, c, k, f);
    MergePlace(e, m, c, f, k, DoReturn(e, m, c, k, f), t, k');
  }

  lemma MergePlace(e: Env, m: Img, c: int, f: int, k: nat, m1: Img, t: int, k': nat)
    requires Good(e, m) && 0 <= c < |e.sent| && f in m.owner && m.owner[f] == Live
    requires IsPlace(m.lists[c], m.size, f, k) && m1 == DoReturn(e, m, c, k, f) && Good(e, m1)
    requires (t, k') == Returned(m, m.lists[c], k, f) && t in m1.owner
    ensures var m' := DoSwallow(e, m1, c, k', t);
      |m'.lists| == |m.lists| && PutBack(m.lists[c], m.size, f, k, m'.lists[c], m'.size)
  {
    var m' := DoSwallow(e, m1, c, k', t);
    ReturnPlace(e, m, c, k, f);
    SwallowPlace(e, m1, c, k', t);
    BothPlaces(m.lists[c], m.size, f, k, m1.lists[c], m1.size, m'.lists[c], m'.size);
  }

  // The two merges together.
  lemma BothPlaces(l: seq<int>, size: map<int, int>, f: int, k: nat, l1: seq<int>, size1: map<int, int>,
                   l': seq<int>, size': map<int, int>)
    requires IsPlace(l, size, f, k)
    requires var left := 0 < k && l[k - 1] + HDR + size[l[k - 1]] == f;
      var t, k' := if left then l[k - 1] else f, if left then k else k + 1;
      && l1 == (if left then l else l[..k] + [f] + l[k..])
      && size1 == (if left then size[t := f + HDR + size[f] - (t + HDR)] else size)
      && (k' < |l1| ==> l1[k'] in size1)
      && if k' < |l1| && t + HDR + size1[t] == l1[k']
        then l' == l1[..k'] + l1[k' + 1..] && size' == size1[t := size1[t] + HDR + size1[l1[k']]]
        else l' == l1 && size' == size1
    ensures PutBack(l, size, f, k, l', size')
  {
  }

  // What freeing block f changes: it is in use no more, and merged into the caller's list.
  ghost predicate Freed(e: Env, m: Img, c: int, f: int, m': Img)
    requires |m.lists| == |e.sent| && 0 <= c < |e.sent|
  {
    && Good(e, m') && f in m.size && Used(m') == Used(m) - m.size[f] && LiveBlocks(m') == LiveBlocks(m) - {f}
    && |m'.lists| == |m.lists| && Merged(m.lists[c], m.size, f, m'.lists[c], m'.size)
    && forall d :: 0 <= d < |e.sent| && d != c ==> m'.lists[d] == m.lists[d]
  }

  lemma FreeFrees(e: Env, m: Img, c: int, f: int)
    requires Good(e, m) && 0 <= c < |e.sent| && f in m.owner && m.owner[f] == Live
    ensures Freed(e, m, c, f, DoFree(e, m, c, f))
  {
    FreeKeeps(e, m, c, f);
    FreePlace(e, m, c, f);
  }

  lemma {:induction false} UsedNotNegative(e: Env, m: Img, l: seq<int>)
    requires Good(e, m) && forall i :: 0 <= i < |l| ==> l[i] in m.layout
    ensures 0 <= UsedIn(m, l)
  {
    if |l| > 0 {
      InHeap(e, m, l[0]);
      UsedNotNegative(e, m, l[1..]);
    }
  }

  lemma Shifted(x: int, k: int)
    ensures (x + k * WORD) % WORD == x % WORD
  {
  }

  // The counters wrap around at 2^32 and still tell the sum.
  lemma Count(a: int, f: int, used: int, n: int)
    requires (a - f) % WORD == used % WORD
    ensures ((a + n) % WORD - f) % WORD == (used + n) % WORD
    ensures (a - (f + n) % WORD) % WORD == (used - n) % WORD
  {
    var k := (a - f) / WORD - used / WORD;
    assert a - f == used + k * WORD;
    Shifted(used + n, k - (a + n) / WORD);
    Shifted(used - n, k + (f + n) / WORD);
  }

  // One block over the whole heap, and empty rings.
  lemma InitGood(e: Env, m: Img)
    requires GoodEnv(e) && m.layout == [e.start] && m.owner == map[e.start := Global]
    requires e.start in m.size && 0 <= m.size[e.start] && EndOf(m.size, e.start) == e.end
    requires |m.lists| == |e.sent| && forall c :: 0 <= c < |e.sent| ==> m.lists[c] == []
    requires forall c :: 0 <= c < |e.sent| ==> e.sent[c] in m.size && m.size[e.sent[c]] == 0
    requires forall c :: 0 <= c < |e.sent| ==> e.sent[c] in m.next && m.next[e.sent[c]] == e.sent[c]
    ensures Good(e, m) && LiveBlocks(m) == map[] && Used(m) == 0
  {
    assert Fits(m.layout, m.size, e.end, 0);
    assert m.layout[1..] == [];
    forall c | 0 <= c < |e.sent| ensures ListOk(e, m, c) {
      assert Hop(m.next, e.sent[c], m.lists[c], 0);
    }
    assert m.layout[0] in m.layout;
    assert UsedIn(m, m.layout[1..]) == 0;
  }

  class Allocator {
    const env: Env
    var next: map<int, int>
    var size: map<int, int>
    var allocCnt: nat
    var freeCnt: nat
    ghost var layout: seq<int>
    ghost var owner: map<int, Owner>
    ghost var lists: seq<seq<int>>

    ghost function Snap(): Img
      reads this
    {
      Img(next, size, layout, owner, lists)
    }

    // The heap is in order, and the counters tell how much of it is in use.
    ghost predicate Valid()
      reads this
    {
      Good(env, Snap()) && (allocCnt - freeCnt) % WORD == Used(Snap()) % WORD
    }

    // pmm_init: the heap from the first page boundary on is one block.
    constructor (heapStart: nat, heapEnd: int, sentinels: seq<int>)
      requires Align(heapStart, PG_SIZE) + HDR <= heapEnd
      requires forall c :: 0 <= c < |sentinels| ==> sentinels[c] + HDR <= heapStart
      requires forall c, d :: 0 <= c < d < |sentinels| ==> sentinels[c] != sentinels[d]
      ensures Valid() && env == Env(Align(heapStart, PG_SIZE), heapEnd, sentinels)
      ensures owner == map[env.start := Global] && LiveBlocks(Snap()) == map[]
      ensures allocCnt == 0 && freeCnt == 0
    {
      var start := Align(heapStart, PG_SIZE);
      AlignBounds(heapStart, PG_SIZE);
      var links, sizes := map[start := start], map[start := heapEnd - start - HDR];
      for i := 0 to |sentinels|
        invariant start in links && start in sizes && sizes[start] == heapEnd - start - HDR
        invariant forall c :: 0 <= c < i ==> sentinels[c] in links && links[sentinels[c]] == sentinels[c]
        invariant forall c :: 0 <= c < i ==> sentinels[c] in sizes && sizes[sentinels[c]] == 0
      {
        links, sizes := links[sentinels[i] := sentinels[i]], sizes[sentinels[i] := 0];
      }
      env, next, size := Env(start, heapEnd, sentinels), links, sizes;
      allocCnt, freeCnt := 0, 0;
      layout, owner, lists := [start], map[start := Global], seq(|sentinels|, c => []);
      new;
      InitGood(env, Snap());
    }

    // The search of kalloc_real; prevp0 is what prevp holds from before.
    method Scan(c: int, n: int, prevp0: int) returns (found: bool, p: int, prevp: int, ghost k: nat)
      requires Good(env, Snap()) && 0 <= c < |env.sent|
      ensures |lists| == |env.sent| && k == FirstFit(size, lists[c], n, 0) && found == (k < |lists[c]|)
      ensures p == Node(env.sent[c], lists[c], k + 1)
      ensures prevp == if k == 0 then prevp0 else Node(env.sent[c], lists[c], k)
    {
      assert ListOk(env, Snap(), c);
      ghost var l := lists[c];
      SentinelApart(env, Snap(), c);
      assert Hop(next, env.sent[c], l, 0) && (0 < |l| ==> l[0] in l);
      p, prevp, k, found := next[env.sent[c]], prevp0, 0, false;
      while p != env.sent[c]
        invariant 0 <= k <= |l| && p == Node(env.sent[c], l, k + 1)
        invariant prevp == if k == 0 then prevp0 else Node(env.sent[c], l, k)
        invariant FirstFit(size, l, n, 0) == FirstFit(size, l, n, k) && (k < |l| ==> p in l)
        decreases |l| - k
      {
        assert p == l[k] && Hop(next, env.sent[c], l, k + 1);
        InHeap(env, Snap(), p);
        if size[p] >= n + HDR || size[p] >= n {
          found := true;
          return;
        }
        prevp, p, k := p, next[p], k + 1;
        assert k < |l| ==> l[k] in l;
      }
    }

    // What kalloc_real does with the block it stops at.
    method Take(c: int, n: int, p: int, prevp: int, ghost k: nat) returns (ret: int)
      requires Good(env, Snap()) && 0 <= c < |env.sent| && k < |lists[c]| && 0 <= n
      requires p == lists[c][k] && prevp == Node(env.sent[c], lists[c], k) && p in size && n <= size[p]
      modifies `next, `size, `layout, `owner, `lists
      ensures Snap() == DoTake(env, old(Snap()), c, k, n) && ret == TakenAt(old(size), p, n)
    {
      assert ListOk(env, Snap(), c);
      InHeap(env, Snap(), p);
      ghost var m := Snap();
      if size[p] >= n + HDR {
        ret := p + size[p] - n;
        size := size[p := size[p] - n - HDR][ret := n];
        layout, owner := Inserted(layout, IndexOf(layout, p), ret), owner[ret := Live];
        assert Snap() == DoCut(m, p, n, Live);
      } else {
        assert Hop(next, env.sent[c], lists[c], k + 1);
        ret := p;
        next := next[prevp := next[p]];
        owner, lists := owner[p := Live], lists[c := Without(lists[c], k)];
        assert Snap() == DoUnlink(env, m, c, k);
      }
    }

    // global_alloc, and linking what it gives behind prevp, the list's last node.
    method AddPage(c: int, needed: int, p: int, prevp: int) returns (ok: bool)
      requires Good(env, Snap()) && 0 <= c < |env.sent| && 0 <= needed
      requires p == env.sent[c] && prevp == Node(env.sent[c], lists[c], |lists[c]|)
      modifies `next, `size, `layout, `owner, `lists
      ensures ok == GlobalHas(env, old(Snap()), needed)
      ensures Snap() == if ok then DoPage(env, old(Snap()), c, needed) else old(Snap())
    {
      ghost var m := Snap();
      InHeap(env, m, env.start);
      ok := size[env.start] > needed + HDR;
      if ok {
        assert ListOk(env, m, c);
        var ret := env.start + size[env.start] - needed;
        size := size[env.start := size[env.start] - needed - HDR][ret := needed];
        next := next[ret := p][prevp := ret];
        layout := Inserted(layout, IndexOf(layout, env.start), ret);
        owner, lists := owner[ret := Live][ret := FreeOn(c)], lists[c := With(lists[c], |lists[c]|, ret)];
        assert Snap() == DoPage(env, m, c, needed);
      }
    }

    // One pass of kalloc_real: take the first block that fits, or else get a page.
    method SearchPass(c: int, n: int, prevp0: int, ghost m: Img, ghost passes: nat)
      returns (ret: Option<int>, out: bool, prevp: int)
      requires Searching(env, m, Snap(), c, n, prevp0, passes)
      modifies `next, `size, `layout, `owner, `lists
      ensures match ret
        case Some(p) => DoAlloc(env, m, c, n) == Some((Snap(), p))
        case None => if out then Snap() == m && DoAlloc(env, m, c, n) == None
          else passes == 0 && Searching(env, m, Snap(), c, n, prevp, 1)
    {
      var found, p; ghost var k;
      found, p, prevp, k := Scan(c, n, prevp0);
      out := false;
      if found {
        var r := Take(c, n, p, prevp, k);
        ret := Some(r);
      } else {
        assert ListOk(env, m, c);
        var ok := AddPage(c, PageSize(n), p, prevp);
        ret, out := None, !ok;
        if ok {
          PageKeeps(env, m, c, PageSize(n));
          FitsNewPage(m.size, size, m.lists[c], lists[c], n, 0);
        }
      }
    }

    // kalloc_real. At most two passes over the list; the Assert fails, here
    // None, exactly when nothing on it fits and the global block is too small.
    method KallocReal(c: int, bytes: nat) returns (r: Option<int>, ghost passes: nat)
      requires Good(env, Snap()) && 0 <= c < |env.sent|
      requires bytes <= WORD - 2 * HDR
      modifies `next, `size, `layout, `owner, `lists
      ensures passes <= 2
      ensures match DoAlloc(env, old(Snap()), c, Align(bytes, 16))
        case None => r == None && Snap() == old(Snap())
        case Some((m', p)) => r == Some(p) && Snap() == m'
      ensures Allocated(env, old(Snap()), c, Align(bytes, 16), r, Snap())
    {
      var n := Align(bytes, 16);
      AlignBounds(bytes, 16);
      ghost var m := Snap();
      AllocKeeps(env, m, c, n);
      var prevp, out := env.sent[c], false;
      passes := 0;
      while true
        invariant passes <= 1 && Searching(env, m, Snap(), c, n, prevp, passes)
        decreases 2 - passes
      {
        r, out, prevp := SearchPass(c, n, prevp, m, passes);
        passes := passes + 1;
        if r.Some? || out { return; }
      }
    }

    // kalloc: a block of at least the asked size that overlaps no other one.
    method Kalloc(c: int, bytes: nat) returns (r: Option<int>)
      requires Valid() && 0 <= c < |env.sent|
      requires bytes <= WORD - 2 * HDR
      modifies this
      ensures Valid()
      ensures r.Some? ==>
        var p := r.value - HDR;
        && FirstFitTaken(env.start, old(lists)[c], old(size), Align(bytes, 16), p, lists[c], size)
        && p !in old(LiveBlocks(Snap())) && p in size && bytes <= size[p]
        && LiveBlocks(Snap()) == old(LiveBlocks(Snap()))[p := size[p]]
        && allocCnt == (old(allocCnt) + size[p]) % WORD
      ensures r.None? <==>
        && (forall a :: a in old(lists)[c] ==> a in old(size) && old(size)[a] < Align(bytes, 16))
        && env.start in old(size)
        && old(size)[env.start] <= HDR + if Align(bytes, 16) > 8192 then Align(bytes, 16) else 8192
      ensures r.None? ==> Snap() == old(Snap()) && allocCnt == old(allocCnt)
      ensures freeCnt == old(freeCnt)
      ensures bytes <= Align(bytes, 16) < bytes + 16 && Align(bytes, 16) % 16 == 0
      ensures forall d :: 0 <= d < |env.sent| && d != c ==> lists[d] == old(lists)[d]
    {
      ghost var used := Used(Snap());
      var p := KallocOnly(c, bytes);
      Count(allocCnt, freeCnt, used, Used(Snap()) - used);
      if p.None? {
        r := None;
      } else {
        allocCnt := (allocCnt + size[p.value]) % WORD;
        r := Some(p.value + HDR);
      }
    }

    method KallocOnly(c: int, bytes: nat) returns (r: Option<int>)
      requires Good(env, Snap()) && 0 <= c < |env.sent|
      requires bytes <= WORD - 2 * HDR
      modifies `next, `size, `layout, `owner, `lists
      ensures Allocated(env, old(Snap()), c, Align(bytes, 16), r, Snap())
      ensures bytes <= Align(bytes, 16)
    {
      AlignBounds(bytes, 16);
      ghost var passes;
      r, passes := KallocReal(c, bytes);
    }

    // The search of kfree_real.
    method FindPlace(c: int, f: int) returns (p: int, prevp: int, ghost k: nat)
      requires Good(env, Snap()) && 0 <= c < |env.sent|
      ensures |lists| == |env.sent| && k == PlaceOf(lists[c], f, 0)
      ensures p == Node(env.sent[c], lists[c], k + 1) && prevp == Node(env.sent[c], lists[c], k)
    {
      assert ListOk(env, Snap(), c);
      ghost var l := lists[c];
      SentinelApart(env, Snap(), c);
      assert Hop(next, env.sent[c], l, 0) && (0 < |l| ==> l[0] in l);
      p, prevp, k := next[env.sent[c]], env.sent[c], 0;
      while p != env.sent[c]
        invariant 0 <= k <= |l| && p == Node(env.sent[c], l, k + 1) && prevp == Node(env.sent[c], l, k)
        invariant PlaceOf(l, f, 0) == PlaceOf(l, f, k) && (k < |l| ==> p in l)
        decreases |l| - k
      {
        assert p == l[k] && Hop(next, env.sent[c], l, k + 1);
        if f + HDR < p + HDR { break; }
        prevp, p, k := p, next[p], k + 1;
        assert k < |l| ==> l[k] in l;
      }
    }

    // Back onto the list, or into the block that ends where this one starts.
    method Return(c: int, f: int, prevp: int, ghost k: nat) returns (t: int, ghost k': nat)
      requires Good(env, Snap()) && 0 <= c < |env.sent| && f in owner && owner[f] == Live
      requires k <= |lists[c]| && prevp == Node(env.sent[c], lists[c], k)
      modifies `next, `size, `layout, `owner, `lists
      ensures Snap() == DoReturn(env, old(Snap()), c, k, f)
      ensures (t, k') == Returned(old(Snap()), old(lists)[c], k, f)
    {
      ghost var m := Snap();
      InHeap(env, m, f);
      assert ListOk(env, m, c) && Hop(next, env.sent[c], lists[c], k);
      assert 0 < k ==> prevp in lists[c];
      if 0 < k { InHeap(env, m, prevp); }
      assert env.sent[c] + HDR <= env.start;
      if f == prevp + HDR + size[prevp] {
        t, k' := prevp, k;
        size := size[prevp := size[prevp] + HDR + size[f]];
        layout := Removed(layout, IndexOf(layout, f));
        owner := map x | x in owner && x != f :: owner[x];
        assert Snap() == DoJoin(m, prevp, f);
      } else {
        t, k' := f, k + 1;
        next := next[f := next[prevp]][prevp := f];
        owner, lists := owner[f := FreeOn(c)], lists[c := With(lists[c], k, f)];
        assert Snap() == DoLink(env, m, c, k, f);
      }
    }

    // Takes the block p behind t into t when t ends where it starts.
    method SwallowNext(c: int, t: int, p: int, ghost k: nat)
      requires Good(env, Snap()) && 0 <= c < |env.sent| && t in owner && owner[t] == FreeOn(c)
      requires 0 < k <= |lists[c]| && t == lists[c][k - 1] && p == Node(env.sent[c], lists[c], k + 1)
      modifies `next, `size, `layout, `owner, `lists
      ensures Snap() == DoSwallow(env, old(Snap()), c, k, t)
    {
      ghost var m := Snap();
      InHeap(env, m, t);
      assert ListOk(env, m, c);
      if p == t + HDR + size[t] {
        assert p == lists[c][k] && Hop(next, env.sent[c], lists[c], k + 1);
        InHeap(env, m, p);
        next := next[t := next[p]];
        size := size[t := size[t] + HDR + size[p]];
        layout := Removed(layout, IndexOf(layout, p));
        ghost var o := owner[p := Live];
        owner := map x | x in o && x != p :: o[x];
        lists := lists[c := Without(lists[c], k)];
        assert Snap() == DoJoin(DoUnlink(env, m, c, k), t, p);
      }
    }

    // kfree_real
    method KfreeReal(c: int, f: int)
      requires Good(env, Snap()) && 0 <= c < |env.sent| && f in owner && owner[f] == Live
      modifies `next, `size, `layout, `owner, `lists
      ensures Snap() == DoFree(env, old(Snap()), c, f) && Freed(env, old(Snap()), c, f, Snap())
    {
      ghost var m := Snap();
      FreeFrees(env, m, c, f);
      var p, prevp; ghost var k;
      p, prevp, k := FindPlace(c, f);
      ReturnKeeps(env, m, c, k, f);
      ReturnedIsFree(env, m, c, k, f);
      var t; ghost var k';
      t, k' := Return(c, f, prevp, k);
      SwallowNext(c, t, p, k');
    }

    // kfree: the block is in use no more, merged with its neighbours on the caller's list, and
    // nothing else about the blocks in use changes.
    method Kfree(c: int, ptr: Option<int>)
      requires Valid() && 0 <= c < |env.sent|
      requires ptr.Some? ==> ptr.value - HDR in owner && owner[ptr.value - HDR] == Live
      modifies this
      ensures Valid() && allocCnt == old(allocCnt)
      ensures ptr.None? ==> Snap() == old(Snap()) && freeCnt == old(freeCnt)
      ensures ptr.Some? ==>
        var f := ptr.value - HDR;
        && Freed(env, old(Snap()), c, f, Snap())
        && f in old(size) && freeCnt == (old(freeCnt) + old(size)[f]) % WORD
    {
      if ptr.Some? {
        var n := KfreeSome(c, ptr.value - HDR);
        freeCnt := (freeCnt + n) % WORD;
      }
    }

    // The block freed, and the bytes it had.
    method KfreeSome(c: int, f: int) returns (n: nat)
      requires Valid() && 0 <= c < |env.sent| && f in owner && owner[f] == Live
      modifies `next, `size, `layout, `owner, `lists
      ensures Freed(env, old(Snap()), c, f, Snap()) && n == old(size)[f]
      ensures (allocCnt - (freeCnt + n) % WORD) % WORD == Used(Snap()) % WORD
    {
      InHeap(env, Snap(), f);
      n := size[f];
      Count(allocCnt, freeCnt, Used(Snap()), n);
      KfreeReal(c, f);
    }

    // mem_query: the bytes of the heap, and those in use.
    method MemQuery() returns (total: int, used: int)
      requires Valid()
      ensures total == env.end - env.start
      ensures 0 <= used < WORD && used % WORD == Used(Snap()) % WORD
      ensures Used(Snap()) < WORD ==> used == Used(Snap())
    {
      total, used := env.end - env.start, (allocCnt - freeCnt) % WORD;
      UsedNotNegative(env, Snap(), layout);
    }
  }
}
