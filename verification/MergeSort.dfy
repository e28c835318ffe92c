// The benchmark's merge sort: bottom up, in place, on the links of a list.
// Nodes are numbers; -1 stands for NULL.
module MergeSort {

  const NULL := -1

  function Key(idx: seq<int>, x: int): int {
    if 0 <= x < |idx| then idx[x] else 0
  }

  // ----- the sort on sequences of nodes -----

  function Front(s: seq<int>, n: nat): seq<int> { if n <= |s| then s[..n] else s }

  function Back(s: seq<int>, n: nat): seq<int> { if n <= |s| then s[n..] else [] }

  function Merge(idx: seq<int>, a: seq<int>, b: seq<int>): seq<int> {
    if |a| == 0 then b
    else if |b| == 0 then a
    else if Key(idx, a[0]) <= Key(idx, b[0]) then [a[0]] + Merge(idx, a[1..], b)
    else [b[0]] + Merge(idx, a, b[1..])
  }

  // One pass: neighbouring runs of w nodes are merged.
  function Pass(idx: seq<int>, l: seq<int>, w: nat): seq<int>
    requires 0 < w
    decreases |l|
  {
    if |l| == 0 then [] else
      var r := Back(l, w);
      Merge(idx, Front(l, w), Front(r, w)) + Pass(idx, Back(r, w), w)
  }

  // How many merges a pass over n nodes makes.
  function Merges(n: nat, w: nat): nat
    requires 0 < w
    decreases n
  {
    if n == 0 then 0 else 1 + Merges(if n <= 2 * w then 0 else n - 2 * w, w)
  }

  lemma MergesOne(n: nat, w: nat)
    requires 0 < w
    ensures Merges(n, w) <= 1 <==> n <= 2 * w
  {
    if n > 2 * w { assert Merges(n - 2 * w, w) >= 1; }
  }

  // ----- it sorts, and keeps the order of equal nodes -----

  ghost predicate InOrder(idx: seq<int>, l: seq<int>, i: int, j: int) {
    0 <= i < |l| && 0 <= j < |l| && Key(idx, l[i]) <= Key(idx, l[j])
  }

  ghost predicate Sorted(idx: seq<int>, l: seq<int>) {
    forall i, j {:trigger InOrder(idx, l, i, j)} :: 0 <= i < j < |l| ==> InOrder(idx, l, i, j)
  }

  // The idx never falls from one node to a later one.
  lemma SortedByIdx(idx: seq<int>, l: seq<int>)
    requires Sorted(idx, l)
    ensures forall i, j :: 0 <= i < j < |l| && 0 <= l[i] < |idx| && 0 <= l[j] < |idx| ==> idx[l[i]] <= idx[l[j]]
  {
    forall i, j | 0 <= i < j < |l| && 0 <= l[i] < |idx| && 0 <= l[j] < |idx| ensures idx[l[i]] <= idx[l[j]] {
      assert InOrder(idx, l, i, j);
    }
  }

  lemma SortedHead(idx: seq<int>, l: seq<int>, x: int)
    requires Sorted(idx, l) && |l| > 0 && x in l
    ensures Key(idx, l[0]) <= Key(idx, x)
  {
    var i :| 0 <= i < |l| && l[i] == x;
    if i > 0 { assert InOrder(idx, l, 0, i); }
  }

  lemma SortedTail(idx: seq<int>, l: seq<int>)
    requires |l| > 0
    ensures Sorted(idx, l) <==> Sorted(idx, l[1..]) && forall x :: x in l ==> Key(idx, l[0]) <= Key(idx, x)
  {
    if Sorted(idx, l) {
      forall x | x in l ensures Key(idx, l[0]) <= Key(idx, x) { SortedHead(idx, l, x); }
      forall i, j | 0 <= i < j < |l[1..]| ensures InOrder(idx, l[1..], i, j) { assert InOrder(idx, l, i + 1, j + 1); }
    }
    if Sorted(idx, l[1..]) && forall x :: x in l ==> Key(idx, l[0]) <= Key(idx, x) {
      forall i, j | 0 <= i < j < |l| ensures InOrder(idx, l, i, j) {
        if i > 0 { assert InOrder(idx, l[1..], i - 1, j - 1); }
      }
    }
  }

  // The nodes of l with idx v, in their order.
  function Having(idx: seq<int>, l: seq<int>, v: int): seq<int> {
    if |l| == 0 then [] else (if Key(idx, l[0]) == v then [l[0]] else []) + Having(idx, l[1..], v)
  }

  lemma Associate(x: seq<int>, y: seq<int>, z: seq<int>)
    ensures (x + y) + z == x + (y + z)
  {
  }

  lemma HavingTail(idx: seq<int>, l: seq<int>, v: int)
    requires |l| > 0
    ensures Having(idx, l, v) == if Key(idx, l[0]) == v then [l[0]] + Having(idx, l[1..], v) else Having(idx, l[1..], v)
  {
  }

  lemma {:induction false} HavingConcat(idx: seq<int>, a: seq<int>, b: seq<int>, v: int)
    ensures Having(idx, a + b, v) == Having(idx, a, v) + Having(idx, b, v)
  {
    if |a| == 0 {
      assert a + b == b;
    } else {
      assert (a + b)[1..] == a[1..] + b && (a + b)[0] == a[0];
      HavingConcat(idx, a[1..], b, v);
      HavingTail(idx, a, v);
      HavingTail(idx, a + b, v);
      if Key(idx, a[0]) == v { Associate([a[0]], Having(idx, a[1..], v), Having(idx, b, v)); }
    }
  }

  lemma HavingThree(idx: seq<int>, a: seq<int>, b: seq<int>, c: seq<int>, v: int)
    ensures Having(idx, a + (b + c), v) == Having(idx, a, v) + Having(idx, b, v) + Having(idx, c, v)
  {
    HavingConcat(idx, b, c, v);
    HavingConcat(idx, a, b + c, v);
  }

  lemma {:induction false} HavingNone(idx: seq<int>, a: seq<int>, v: int)
    requires forall i :: 0 <= i < |a| ==> Key(idx, a[i]) != v
    ensures Having(idx, a, v) == []
  {
    if |a| > 0 { HavingNone(idx, a[1..], v); }
  }

  lemma {:induction false} MergeIsPermutation(idx: seq<int>, a: seq<int>, b: seq<int>)
    ensures multiset(Merge(idx, a, b)) == multiset(a) + multiset(b)
    ensures |Merge(idx, a, b)| == |a| + |b|
  {
    if |a| > 0 && |b| > 0 {
      assert a == [a[0]] + a[1..] && b == [b[0]] + b[1..];
      if Key(idx, a[0]) <= Key(idx, b[0]) {
        MergeIsPermutation(idx, a[1..], b);
      } else {
        MergeIsPermutation(idx, a, b[1..]);
      }
    }
  }

  lemma {:induction false} MergeSorts(idx: seq<int>, a: seq<int>, b: seq<int>)
    requires Sorted(idx, a) && Sorted(idx, b)
    ensures Sorted(idx, Merge(idx, a, b))
  {
    if |a| > 0 && |b| > 0 {
      var m := Merge(idx, a, b);
      MergeIsPermutation(idx, a, b);
      SortedTail(idx, a);
      SortedTail(idx, b);
      forall x | x in m ensures Key(idx, m[0]) <= Key(idx, x) {
        assert x in multiset(m);
      }
      if Key(idx, a[0]) <= Key(idx, b[0]) { MergeSorts(idx, a[1..], b); } else { MergeSorts(idx, a, b[1..]); }
      SortedTail(idx, m);
    }
  }

  // Of two runs merged, the nodes of equal idx of the first come first.
  lemma {:induction false} MergeIsStable(idx: seq<int>, a: seq<int>, b: seq<int>, v: int)
    requires Sorted(idx, a)
    ensures Having(idx, Merge(idx, a, b), v) == Having(idx, a, v) + Having(idx, b, v)
  {
    if |a| > 0 && |b| > 0 {
      var m := Merge(idx, a, b);
      SortedTail(idx, a);
      HavingTail(idx, m, v);
      HavingTail(idx, a, v);
      HavingTail(idx, b, v);
      if Key(idx, a[0]) <= Key(idx, b[0]) {
        MergeIsStable(idx, a[1..], b, v);
        assert m[1..] == Merge(idx, a[1..], b);
      } else {
        MergeIsStable(idx, a, b[1..], v);
        assert m[1..] == Merge(idx, a, b[1..]);
        if Key(idx, b[0]) == v {
          assert forall i :: 0 <= i < |a| ==> a[i] in a;
          HavingNone(idx, a, v);
        }
      }
    }
  }

  lemma Parts(l: seq<int>, w: nat)
    ensures var r := Back(l, w); l == Front(l, w) + (Front(r, w) + Back(r, w))
  {
  }

  lemma {:induction false} PassIsPermutation(idx: seq<int>, l: seq<int>, w: nat)
    requires 0 < w
    ensures multiset(Pass(idx, l, w)) == multiset(l) && |Pass(idx, l, w)| == |l|
    decreases |l|
  {
    if |l| > 0 {
      var r := Back(l, w);
      MergeIsPermutation(idx, Front(l, w), Front(r, w));
      PassIsPermutation(idx, Back(r, w), w);
      Parts(l, w);
    }
  }

  // l is a row of sorted runs of w nodes, the last one perhaps shorter.
  ghost predicate Runs(idx: seq<int>, l: seq<int>, w: nat)
    requires 0 < w
    decreases |l|
  {
    Sorted(idx, Front(l, w)) && (w < |l| ==> Runs(idx, Back(l, w), w))
  }

  lemma {:induction false} SingleRuns(idx: seq<int>, l: seq<int>)
    ensures Runs(idx, l, 1)
    decreases |l|
  {
    if 1 < |l| { SingleRuns(idx, Back(l, 1)); }
  }

  lemma {:induction false} PassMakesRuns(idx: seq<int>, l: seq<int>, w: nat)
    requires 0 < w && Runs(idx, l, w)
    ensures Runs(idx, Pass(idx, l, w), 2 * w)
    decreases |l|
  {
    if |l| > 0 {
      var a, r := Front(l, w), Back(l, w);
      var b, r2 := Front(r, w), Back(r, w);
      var m, rest := Merge(idx, a, b), Pass(idx, r2, w);
      PassIsPermutation(idx, r2, w);
      MergeIsPermutation(idx, a, b);
      MergeSorts(idx, a, b);
      PassMakesRuns(idx, r2, w);
      assert Front(m + rest, 2 * w) == m;
      assert Back(m + rest, 2 * w) == rest;
    }
  }

  lemma {:induction false} PassIsStable(idx: seq<int>, l: seq<int>, w: nat, v: int)
    requires 0 < w && Runs(idx, l, w)
    ensures Having(idx, Pass(idx, l, w), v) == Having(idx, l, v)
    decreases |l|
  {
    if |l| > 0 {
      var a, r := Front(l, w), Back(l, w);
      var b, r2 := Front(r, w), Back(r, w);
      MergeIsStable(idx, a, b, v);
      PassIsStable(idx, r2, w, v);
      Parts(l, w);
      HavingThree(idx, a, b, r2, v);
      HavingConcat(idx, Merge(idx, a, b), Pass(idx, r2, w), v);
    }
  }

  // s holds the nodes of l, those of equal idx in the order they have in l.
  ghost predicate Rearranges(idx: seq<int>, s: seq<int>, l: seq<int>) {
    multiset(s) == multiset(l) && |s| == |l|
    && forall v {:trigger Having(idx, s, v)} :: Having(idx, s, v) == Having(idx, l, v)
  }

  // One pass doubles the length of the sorted runs, and keeps the order of equal nodes.
  lemma PassKeeps(idx: seq<int>, l: seq<int>, cur: seq<int>, w: nat)
    requires 0 < w && Runs(idx, cur, w) && Rearranges(idx, cur, l)
    ensures var m := Pass(idx, cur, w);
      Runs(idx, m, 2 * w) && Rearranges(idx, m, l) && (|l| <= 2 * w ==> Sorted(idx, m))
  {
    var m := Pass(idx, cur, w);
    PassIsPermutation(idx, cur, w);
    PassMakesRuns(idx, cur, w);
    forall v ensures Having(idx, m, v) == Having(idx, l, v) { PassIsStable(idx, cur, w, v); }
    if |l| <= 2 * w { assert Front(m, 2 * w) == m; }
  }

  lemma HeadsAgree(idx: seq<int>, x: seq<int>, y: seq<int>)
    requires Sorted(idx, x) && Sorted(idx, y) && forall v :: Having(idx, x, v) == Having(idx, y, v)
    requires |x| > 0 && |y| > 0
    ensures x[0] == y[0]
  {
    HeadAtMost(idx, x, y);
    HeadAtMost(idx, y, x);
    var k := Key(idx, x[0]);
    HavingTail(idx, x, k);
    HavingTail(idx, y, k);
    assert Having(idx, x, k)[0] == Having(idx, y, k)[0];
  }

  lemma TailsAgree(idx: seq<int>, x: seq<int>, y: seq<int>, v: int)
    requires |x| > 0 && |y| > 0 && x[0] == y[0] && Having(idx, x, v) == Having(idx, y, v)
    ensures Having(idx, x[1..], v) == Having(idx, y[1..], v)
  {
    var hx, hy := Having(idx, x[1..], v), Having(idx, y[1..], v);
    HavingTail(idx, x, v);
    HavingTail(idx, y, v);
    assert ([x[0]] + hx)[1..] == hx && ([y[0]] + hy)[1..] == hy;
  }

  lemma HeadAtMost(idx: seq<int>, x: seq<int>, y: seq<int>)
    requires Sorted(idx, y) && forall v :: Having(idx, x, v) == Having(idx, y, v)
    requires |x| > 0 && |y| > 0
    ensures Key(idx, y[0]) <= Key(idx, x[0])
  {
    var k := Key(idx, x[0]);
    SortedTail(idx, y);
    HavingTail(idx, x, k);
    if k < Key(idx, y[0]) {
      assert forall i :: 0 <= i < |y| ==> y[i] in y;
      HavingNone(idx, y, k);
    }
  }

  // No other order of nodes meets that.
  lemma {:induction false} StableSortIsUnique(idx: seq<int>, x: seq<int>, y: seq<int>)
    requires Sorted(idx, x) && Sorted(idx, y) && forall v :: Having(idx, x, v) == Having(idx, y, v)
    ensures x == y
  {
    if |x| > 0 { HavingTail(idx, x, Key(idx, x[0])); }
    if |y| > 0 { HavingTail(idx, y, Key(idx, y[0])); }
    assert |x| == 0 <==> |y| == 0;
    if |x| > 0 {
      SortedTail(idx, x);
      SortedTail(idx, y);
      HeadsAgree(idx, x, y);
      forall v ensures Having(idx, x[1..], v) == Having(idx, y[1..], v) { TailsAgree(idx, x, y, v); }
      StableSortIsUnique(idx, x[1..], y[1..]);
    }
  }
}
