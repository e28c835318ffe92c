// The kernel heap: a global block that pages are cut from at its top, a free
// list per CPU with splitting and merging, and the blocks in use.
module Alloc {
  import opened Tiling
  import opened FreeLists

  const PG_SIZE := 8192
  const WORD := 0x1_0000_0000

  datatype Option<+T> = None | Some(value: T)

  // The heap's bounds, and the free_list sentinels, which lie below it.
  datatype Env = Env(start: int, end: int, sent: seq<int>)

  // The header fields by address; and, for the proof, the blocks in address
  // order, who has each, and the blocks on each free list.
  datatype Img = Img(next: map<int, int>, size: map<int, int>, layout: seq<int>, owner: map<int, Owner>,
                     lists: seq<seq<int>>)

  ghost predicate GoodEnv(e: Env) {
    && (forall c :: 0 <= c < |e.sent| ==> e.sent[c] + HDR <= e.start)
    && (forall c, d :: 0 <= c < d < |e.sent| ==> e.sent[c] != e.sent[d])
  }

  ghost predicate Blocks(e: Env, m: Img) {
    && Tiled(m.layout, m.size, e.start, e.end)
    && (forall a {:trigger a in m.owner} :: a in m.owner <==> a in m.layout)
    && e.start in m.owner && m.owner[e.start] == Global
    && (forall a {:trigger m.owner[a]} :: a in m.owner && m.owner[a] == Global ==> a == e.start)
  }

  // The free list of CPU c: a ring of exactly the blocks that are free on c.
  ghost predicate ListOk(e: Env, m: Img, c: int) {
    && 0 <= c < |e.sent| && |m.lists| == |e.sent|
    && Ring(m.next, e.sent[c], m.lists[c]) && Distinct(m.lists[c])
    && e.sent[c] in m.size && m.size[e.sent[c]] == 0
    && (forall i {:trigger m.lists[c][i]} :: 0 <= i < |m.lists[c]| ==>
          m.lists[c][i] in m.owner && m.owner[m.lists[c][i]] == FreeOn(c))
    && (forall a {:trigger m.owner[a]} :: a in m.owner && m.owner[a] == FreeOn(c) ==> a in m.lists[c])
  }

  ghost predicate Good(e: Env, m: Img) {
    && GoodEnv(e) && Blocks(e, m) && |m.lists| == |e.sent|
    && (forall a {:trigger m.owner[a]} :: a in m.owner && m.owner[a].FreeOn? ==> 0 <= m.owner[a].cpu < |e.sent|)
    && forall c {:trigger ListOk(e, m, c)} :: 0 <= c < |e.sent| ==> ListOk(e, m, c)
  }

  // The blocks in use, with their sizes.
  function LiveBlocks(m: Img): map<int, int> {
    map a | a in m.owner && m.owner[a] == Live && a in m.size :: m.size[a]
  }

  lemma InHeap(e: Env, m: Img, a: int)
    requires Good(e, m) && a in m.owner
    ensures a in m.size && 0 <= m.size[a] && e.start <= a && EndOf(m.size, a) <= e.end
  {
    var i :| 0 <= i < |m.layout| && m.layout[i] == a;
    assert Fits(m.layout, m.size, e.end, i);
    Increasing(m.layout, m.size, e.start, e.end, 0, i);
  }

  // ----- the elementary changes -----

  // Cuts n bytes and a header off the end of block a, for a new owner.
  function DoCut(m: Img, a: int, n: int, who: Owner): Img
    requires a in m.size && a in m.layout
  {
    var b := a + m.size[a] - n;
    m.(size := m.size[a := m.size[a] - n - HDR][b := n],
       layout := Inserted(m.layout, IndexOf(m.layout, a), b), owner := m.owner[b := who])
  }

  function IndexOf(l: seq<int>, a: int): (i: nat)
    requires a in l
    ensures i < |l| && l[i] == a
  {
    if l[0] == a then 0 else 1 + IndexOf(l[1..], a)
  }

  lemma CutGood(e: Env, m: Img, a: int, n: int)
    requires Good(e, m) && a in m.owner && a in m.size && a in m.layout && 0 <= n && n + HDR <= m.size[a]
    ensures var b := a + m.size[a] - n;
      Good(e, DoCut(m, a, n, Live)) && b !in m.owner && e.start < b < e.end
  {
    var i, b := IndexOf(m.layout, a), a + m.size[a] - n;
    var m' := DoCut(m, a, n, Live);
    Split(m.layout, m.size, e.start, e.end, i, n);
    InHeap(e, m, a);
    forall x ensures x in m'.owner <==> x in m'.layout {
      InsertedMembers(m.layout, i, b, x);
    }
    forall c | 0 <= c < |e.sent| ensures ListOk(e, m', c) {
      assert ListOk(e, m, c);
      assert e.sent[c] < e.start;
    }
  }

  // Takes the k-th block off the free list of CPU c, whole.
  function DoUnlink(e: Env, m: Img, c: int, k: nat): Img
    requires 0 <= c < |e.sent| == |m.lists| && k < |m.lists[c]|
  {
    var l := m.lists[c];
    m.(next := m.next[Node(e.sent[c], l, k) := Node(e.sent[c], l, k + 2)],
       owner := m.owner[l[k] := Live], lists := m.lists[c := Without(l, k)])
  }

  lemma UnlinkGood(e: Env, m: Img, c: int, k: nat)
    requires Good(e, m) && 0 <= c < |e.sent| && k < |m.lists[c]|
    ensures Good(e, DoUnlink(e, m, c, k))
  {
    var l := m.lists[c];
    var m' := DoUnlink(e, m, c, k);
    assert ListOk(e, m, c);
    SentinelApart(e, m, c);
    RingRemove(m.next, e.sent[c], l, k);
    forall i | 0 <= i < |l| && i != k ensures l[i] != l[k] {
      assert if i < k then Differ(l, i, k) else Differ(l, k, i);
    }
    forall a | a in m'.owner && m'.owner[a] == FreeOn(c) ensures a in m'.lists[c] {
      assert a in l;
      var i :| 0 <= i < |l| && l[i] == a;
      assert m'.lists[c][if i < k then i else i - 1] == a;
    }
    forall d | 0 <= d < |e.sent| ensures ListOk(e, m', d) {
      assert ListOk(e, m, d);
      if d != c {
        NotOnOther(e, m, c, d, k);
        RingFrame(m.next, m'.next, e.sent[d], m.lists[d]);
      }
    }
  }

  lemma SentinelApart(e: Env, m: Img, c: int)
    requires Good(e, m) && 0 <= c < |e.sent|
    ensures forall d :: 0 <= d < |e.sent| ==> e.sent[c] !in m.lists[d]
    ensures e.sent[c] !in m.owner
  {
    if e.sent[c] in m.owner { InHeap(e, m, e.sent[c]); }
    forall d | 0 <= d < |e.sent| ensures e.sent[c] !in m.lists[d] { assert ListOk(e, m, d); }
  }

  // A node of one ring is no node of another.
  lemma NotOnOther(e: Env, m: Img, c: int, d: int, k: nat)
    requires Good(e, m) && 0 <= c < |e.sent| && 0 <= d < |e.sent| && c != d && k <= |m.lists[c]|
    ensures var x := Node(e.sent[c], m.lists[c], k); x != e.sent[d] && x !in m.lists[d]
  {
    assert ListOk(e, m, c) && ListOk(e, m, d);
    SentinelApart(e, m, c);
    SentinelApart(e, m, d);
  }

  // Links block a, which is in use, into the free list of CPU c behind its k-th node.
  function DoLink(e: Env, m: Img, c: int, k: nat, a: int): Img
    requires 0 <= c < |e.sent| == |m.lists| && k <= |m.lists[c]|
  {
    var l := m.lists[c];
    m.(next := m.next[a := Node(e.sent[c], l, k + 1)][Node(e.sent[c], l, k) := a],
       owner := m.owner[a := FreeOn(c)], lists := m.lists[c := With(l, k, a)])
  }

  lemma LinkGood(e: Env, m: Img, c: int, k: nat, a: int)
    requires Good(e, m) && 0 <= c < |e.sent| && k <= |m.lists[c]| && a in m.owner && m.owner[a] == Live
    ensures Good(e, DoLink(e, m, c, k, a))
  {
    var l := m.lists[c];
    var m' := DoLink(e, m, c, k, a);
    assert ListOk(e, m, c);
    SentinelApart(e, m, c);
    RingInsert(m.next, e.sent[c], l, k, a);
    forall x | x in m'.owner && m'.owner[x] == FreeOn(c) ensures x in m'.lists[c] {
      if x == a {
        assert m'.lists[c][k] == a;
      } else {
        assert x in l;
        var i :| 0 <= i < |l| && l[i] == x;
        assert m'.lists[c][if i < k then i else i + 1] == x;
      }
    }
    forall d | 0 <= d < |e.sent| ensures ListOk(e, m', d) {
      assert ListOk(e, m, d);
      if d != c {
        NotOnOther(e, m, c, d, k);
        SentinelApart(e, m, d);
        RingFrame(m.next, m'.next, e.sent[d], m.lists[d]);
      }
    }
  }

  // Joins block b, which is in use, to the block a that ends where it starts.
  function DoJoin(m: Img, a: int, b: int): Img
    requires a in m.size && b in m.size && b in m.layout
  {
    m.(size := m.size[a := m.size[a] + HDR + m.size[b]], layout := Removed(m.layout, IndexOf(m.layout, b)),
       owner := map x | x in m.owner && x != b :: m.owner[x])
  }

  lemma JoinGood(e: Env, m: Img, a: int, b: int)
    requires Good(e, m) && a in m.owner && b in m.owner && m.owner[b] == Live
    requires a in m.size && b in m.size && b in m.layout && EndOf(m.size, a) == b
    ensures Good(e, DoJoin(m, a, b))
  {
    var i, j := IndexOf(m.layout, a), IndexOf(m.layout, b);
    var m' := DoJoin(m, a, b);
    Adjacent(m.layout, m.size, e.start, e.end, i, j);
    Merge(m.layout, m.size, e.start, e.end, i);
    InHeap(e, m, a);
    forall x ensures x in m'.owner <==> x in m'.layout {
      RemovedMembers(m.layout, m.size, e.start, e.end, j, x);
    }
    forall c | 0 <= c < |e.sent| ensures ListOk(e, m', c) {
      assert ListOk(e, m, c);
      assert e.sent[c] < e.start;
    }
  }

  // ----- how much is in use -----

  function UsedBy(m: Img, a: int): int {
    if a in m.owner && m.owner[a] == Live && a in m.size then m.size[a] else 0
  }

  function UsedIn(m: Img, l: seq<int>): int {
    if |l| == 0 then 0 else UsedBy(m, l[0]) + UsedIn(m, l[1..])
  }

  // The sum of the sizes of all blocks in use.
  function Used(m: Img): int { UsedIn(m, m.layout) }

  lemma {:induction false} UsedConcat(m: Img, a: seq<int>, b: seq<int>)
    ensures UsedIn(m, a + b) == UsedIn(m, a) + UsedIn(m, b)
  {
    if |a| == 0 {
      assert a + b == b;
    } else {
      UsedConcat(m, a[1..], b);
      assert (a + b)[1..] == a[1..] + b;
    }
  }

  lemma {:induction false} UsedSame(m: Img, m': Img, l: seq<int>)
    requires forall i :: 0 <= i < |l| ==> UsedBy(m', l[i]) == UsedBy(m, l[i])
    ensures UsedIn(m', l) == UsedIn(m, l)
  {
    if |l| > 0 { UsedSame(m, m', l[1..]); }
  }

  // A change at one place of the row changes the sum by what changes there.
  lemma UsedAt(e: Env, m: Img, m': Img, i: nat)
    requires Good(e, m) && i < |m.layout| && m'.layout == m.layout
    requires forall a :: a != m.layout[i] ==> UsedBy(m', a) == UsedBy(m, a)
    ensures Used(m') - Used(m) == UsedBy(m', m.layout[i]) - UsedBy(m, m.layout[i])
  {
    var l := m.layout;
    UsedSplit(m, l, i);
    UsedSplit(m', l, i);
    forall j | 0 <= j < |l| && j != i ensures l[j] != l[i] {
      if l[j] == l[i] { Unique(l, m.size, e.start, e.end, i, j); }
    }
    UsedSame(m, m', l[..i]);
    UsedSame(m, m', l[i + 1..]);
  }

  lemma UsedSplit(m: Img, l: seq<int>, i: nat)
    requires i < |l|
    ensures UsedIn(m, l) == UsedIn(m, l[..i]) + UsedBy(m, l[i]) + UsedIn(m, l[i + 1..])
  {
    assert l == l[..i] + ([l[i]] + l[i + 1..]);
    UsedConcat(m, l[..i], [l[i]] + l[i + 1..]);
  }

  lemma UsedInserted(m: Img, m': Img, l: seq<int>, i: nat, b: int)
    requires i < |l| && forall j :: 0 <= j < |l| ==> UsedBy(m', l[j]) == UsedBy(m, l[j])
    ensures UsedIn(m', Inserted(l, i, b)) == UsedIn(m, l) + UsedBy(m', b)
  {
    var l' := Inserted(l, i, b);
    assert l == l[..i + 1] + l[i + 1..];
    UsedConcat(m, l[..i + 1], l[i + 1..]);
    UsedSplit(m', l', i + 1);
    assert l'[..i + 1] == l[..i + 1] && l'[i + 2..] == l[i + 1..];
    UsedSame(m, m', l[..i + 1]);
    UsedSame(m, m', l[i + 1..]);
  }

  lemma CutUsed(e: Env, m: Img, a: int, n: int)
    requires Good(e, m) && a in m.owner && m.owner[a] != Live && a in m.size && a in m.layout
      && 0 <= n && n + HDR <= m.size[a]
    ensures Used(DoCut(m, a, n, Live)) == Used(m) + n
  {
    var b, m' := a + m.size[a] - n, DoCut(m, a, n, Live);
    CutGood(e, m, a, n);
    forall x | x in m.layout ensures UsedBy(m', x) == UsedBy(m, x) {
      assert x in m.owner;
    }
    UsedInserted(m, m', m.layout, IndexOf(m.layout, a), b);
  }

  lemma UnlinkUsed(e: Env, m: Img, c: int, k: nat)
    requires Good(e, m) && 0 <= c < |e.sent| && k < |m.lists[c]|
    ensures var a := m.lists[c][k]; a in m.size && Used(DoUnlink(e, m, c, k)) == Used(m) + m.size[a]
  {
    assert ListOk(e, m, c);
    var a := m.lists[c][k];
    InHeap(e, m, a);
    UsedAt(e, m, DoUnlink(e, m, c, k), IndexOf(m.layout, a));
  }

  lemma LinkUsed(e: Env, m: Img, c: int, k: nat, a: int)
    requires Good(e, m) && 0 <= c < |e.sent| && k <= |m.lists[c]| && a in m.owner && m.owner[a] == Live
    ensures a in m.size && Used(DoLink(e, m, c, k, a)) == Used(m) - m.size[a]
  {
    InHeap(e, m, a);
    UsedAt(e, m, DoLink(e, m, c, k, a), IndexOf(m.layout, a));
  }

  lemma JoinUsed(e: Env, m: Img, a: int, b: int)
    requires Good(e, m) && a in m.owner && m.owner[a] != Live && b in m.owner && m.owner[b] == Live
    requires a in m.size && b in m.size && b in m.layout && EndOf(m.size, a) == b
    ensures Used(DoJoin(m, a, b)) == Used(m) - m.size[b]
  {
    var j, l, m' := IndexOf(m.layout, b), m.layout, DoJoin(m, a, b);
    UsedSplit(m, l, j);
    UsedConcat(m', l[..j], l[j + 1..]);
    forall i | 0 <= i < |l| && i != j ensures l[i] != b {
      if l[i] == b { Unique(l, m.size, e.start, e.end, i, j); }
    }
    UsedSame(m, m', l[..j]);
    UsedSame(m, m', l[j + 1..]);
  }
}
