// The benchmark's list in memory, and its merge sort with cmp_idx on it.
module CoreList {
  import opened MergeSort

  // ----- lists in memory, on values -----

  // From p on, the links lead through the nodes of s; where the last one leads is open.
  ghost predicate Seg(nx: seq<int>, p: int, s: seq<int>)
    decreases |s|
  {
    |s| == 0 || (p == s[0] && 0 <= p < |nx| && Seg(nx, nx[p], s[1..]))
  }

  // From p on, the links lead through the nodes of s to NULL.
  ghost predicate IsList(nx: seq<int>, p: int, s: seq<int>)
    decreases |s|
  {
    if |s| == 0 then p == NULL else p == s[0] && 0 <= p < |nx| && IsList(nx, nx[p], s[1..])
  }

  ghost predicate NoRepeats(s: seq<int>) {
    forall x {:trigger multiset(s)[x]} :: multiset(s)[x] <= 1
  }

  lemma {:induction false} SegFrame(nx: seq<int>, nx': seq<int>, p: int, s: seq<int>)
    requires Seg(nx, p, s) && |nx'| == |nx| && forall x :: x in s && 0 <= x < |nx| ==> nx'[x] == nx[x]
    ensures Seg(nx', p, s)
    decreases |s|
  {
    if |s| > 0 { SegFrame(nx, nx', nx[p], s[1..]); }
  }

  lemma {:induction false} ListFrame(nx: seq<int>, nx': seq<int>, p: int, s: seq<int>)
    requires IsList(nx, p, s) && |nx'| == |nx| && forall x :: x in s && 0 <= x < |nx| ==> nx'[x] == nx[x]
    ensures IsList(nx', p, s)
    decreases |s|
  {
    if |s| > 0 { ListFrame(nx, nx', nx[p], s[1..]); }
  }

  lemma {:induction false} ListSeg(nx: seq<int>, p: int, s: seq<int>, k: nat)
    requires IsList(nx, p, s) && k <= |s|
    ensures Seg(nx, p, s[..k])
    decreases |s|
  {
    if k > 0 {
      ListSeg(nx, nx[p], s[1..], k - 1);
      assert s[..k][1..] == s[1..][..k - 1];
    }
  }

  // Pointing the last node of s at e makes e the next one.
  lemma {:induction false} SegAppend(nx: seq<int>, p: int, s: seq<int>, t: int, e: int)
    requires Seg(nx, p, s + [t]) && t !in s && 0 <= t < |nx| && 0 <= e < |nx|
    ensures Seg(nx[t := e], p, s + [t] + [e])
    decreases |s|
  {
    var whole := s + [t] + [e];
    if |s| == 0 {
      assert whole[1..] == [e] && Seg(nx[t := e], e, [e]) by { assert Seg(nx[t := e], nx[t := e][e], []); }
    } else {
      assert (s + [t])[1..] == s[1..] + [t] && whole[1..] == s[1..] + [t] + [e];
      SegAppend(nx, nx[p], s[1..], t, e);
    }
  }

  lemma {:induction false} SegClose(nx: seq<int>, p: int, s: seq<int>, t: int)
    requires Seg(nx, p, s + [t]) && t !in s && 0 <= t < |nx|
    ensures IsList(nx[t := NULL], p, s + [t])
    decreases |s|
  {
    if |s| == 0 {
      assert (s + [t])[1..] == [];
    } else {
      assert (s + [t])[1..] == s[1..] + [t];
      SegClose(nx, nx[p], s[1..], t);
    }
  }

  ghost predicate IsTail(nx: seq<int>, tail: int, out: seq<int>) {
    if |out| == 0 then tail == NULL
    else tail == out[|out| - 1] && tail !in out[..|out| - 1] && 0 <= tail < |nx|
  }

  // The list l in the middle of a merge: the merged nodes so far, what is left of
  // the first run, and what is left from the second run on.
  ghost predicate Merging(nx: seq<int>, l: seq<int>, list: int, tail: int, out: seq<int>, p: int, a: seq<int>, q: int,
                          b: seq<int>)
  {
    && NoRepeats(l) && multiset(out) + multiset(a) + multiset(b) == multiset(l)
    && Seg(nx, list, out) && IsTail(nx, tail, out) && Seg(nx, p, a) && IsList(nx, q, b)
  }

  // Only links of nodes of l differ.
  ghost predicate SameBut(nx: seq<int>, nx': seq<int>, l: seq<int>) {
    |nx'| == |nx| && forall x {:trigger nx'[x]} :: 0 <= x < |nx| && x !in l ==> nx'[x] == nx[x]
  }

  lemma MergingApart(nx: seq<int>, l: seq<int>, list: int, tail: int, out: seq<int>, p: int, a: seq<int>, q: int,
                     b: seq<int>)
    requires Merging(nx, l, list, tail, out, p, a, q, b)
    ensures forall x :: x in out ==> x !in a && x !in b
    ensures forall x :: x in a ==> x !in b
  {
    forall x | x in out ensures x !in a && x !in b { assert x in multiset(out) && multiset(l)[x] <= 1; }
    forall x | x in a ensures x !in b { assert x in multiset(a) && multiset(l)[x] <= 1; }
  }

  lemma MergingP(nx: seq<int>, l: seq<int>, list: int, tail: int, out: seq<int>, p: int, a: seq<int>, q: int,
                 b: seq<int>, nx': seq<int>, list': int)
    requires Merging(nx, l, list, tail, out, p, a, q, b) && |a| > 0
    requires nx' == if |out| == 0 then nx else nx[tail := p]
    requires Seg(nx', list', out + [p])
    ensures Merging(nx', l, list', p, out + [p], nx[p], a[1..], q, b)
    ensures SameBut(nx, nx', l)
  {
    MergingApart(nx, l, list, tail, out, p, a, q, b);
    assert a == [p] + a[1..];
    assert Seg(nx, nx[p], a[1..]);
    assert |nx'| == |nx|;
    assert forall x :: x in a[1..] ==> x in a;
    assert forall x :: x in a[1..] && 0 <= x < |nx| ==> nx'[x] == nx[x];
    SegFrame(nx, nx', nx[p], a[1..]);
    ListFrame(nx, nx', q, b);
    if |out| > 0 { assert tail in multiset(out) && tail in multiset(l); }
    assert (out + [p])[..|out|] == out;
    assert p in a;
  }

  lemma MergingQ(nx: seq<int>, l: seq<int>, list: int, tail: int, out: seq<int>, p: int, a: seq<int>, q: int,
                 b: seq<int>, nx': seq<int>, list': int)
    requires Merging(nx, l, list, tail, out, p, a, q, b) && |b| > 0
    requires nx' == if |out| == 0 then nx else nx[tail := q]
    requires Seg(nx', list', out + [q])
    ensures Merging(nx', l, list', q, out + [q], p, a, nx[q], b[1..])
    ensures SameBut(nx, nx', l)
  {
    MergingApart(nx, l, list, tail, out, p, a, q, b);
    assert b == [q] + b[1..];
    SegFrame(nx, nx', p, a);
    ListFrame(nx, nx', nx[q], b[1..]);
    if |out| > 0 { assert tail in multiset(out) && tail in multiset(l); }
    assert (out + [q])[..|out|] == out;
    assert q in b;
  }

  // Dividing what is left of a pass into its first run and the others.
  lemma MergingSplit(nx: seq<int>, l: seq<int>, list: int, tail: int, out: seq<int>, p: int, rest: seq<int>, w: nat,
                     q: int)
    requires Merging(nx, l, list, tail, out, NULL, [], p, rest) && IsList(nx, q, Back(rest, w))
    ensures Merging(nx, l, list, tail, out, p, Front(rest, w), q, Back(rest, w)) && NoRepeats(rest)
  {
    var a, r := Front(rest, w), Back(rest, w);
    ListSeg(nx, p, rest, |a|);
    assert rest[..|a|] == a && rest == a + r;
    forall x ensures multiset(rest)[x] <= 1 { assert multiset(l)[x] <= 1; }
  }

  // Merging what is left of the two runs will give `goal`, and leave `rest`.
  ghost predicate Heading(idx: seq<int>, out: seq<int>, a: seq<int>, b: seq<int>, n: int, goal: seq<int>,
                          rest: seq<int>)
  {
    n >= 0 && out + Merge(idx, a, Front(b, n)) == goal && Back(b, n) == rest
  }

  // Moving the smaller head over, the first run's when they are equal, changes nothing of that.
  lemma HeadingP(idx: seq<int>, out: seq<int>, a: seq<int>, b: seq<int>, n: int, goal: seq<int>, rest: seq<int>)
    requires Heading(idx, out, a, b, n, goal, rest) && |a| > 0
    requires n == 0 || |b| == 0 || Key(idx, a[0]) <= Key(idx, b[0])
    ensures Heading(idx, out + [a[0]], a[1..], b, n, goal, rest)
  {
    var f := Front(b, n);
    if |f| == 0 {
      assert a == [a[0]] + a[1..];
      assert Merge(idx, a[1..], f) == a[1..];
    }
    Associate(out, [a[0]], Merge(idx, a[1..], f));
  }

  lemma HeadingEnd(idx: seq<int>, out: seq<int>, a: seq<int>, b: seq<int>, n: int, goal: seq<int>, rest: seq<int>)
    requires Heading(idx, out, a, b, n, goal, rest) && |a| == 0 && (n == 0 || |b| == 0)
    ensures out == goal && b == rest
  {
  }

  lemma HeadingQ(idx: seq<int>, out: seq<int>, a: seq<int>, b: seq<int>, n: int, goal: seq<int>, rest: seq<int>)
    requires Heading(idx, out, a, b, n, goal, rest) && |b| > 0 && n > 0
    requires |a| == 0 || Key(idx, a[0]) > Key(idx, b[0])
    ensures Heading(idx, out + [b[0]], a, b[1..], n - 1, goal, rest)
  {
    var f := Front(b, n);
    FrontNext(b, n);
    if |a| == 0 { assert f == [f[0]] + f[1..]; }
    Associate(out, [f[0]], Merge(idx, a, f[1..]));
  }

  lemma FrontNext(b: seq<int>, n: nat)
    requires |b| > 0 && n > 0
    ensures |Front(b, n)| > 0 && Front(b, n)[0] == b[0]
    ensures Front(b[1..], n - 1) == Front(b, n)[1..] && Back(b[1..], n - 1) == Back(b, n)
  {
  }

  // The pass, done with `out` after n merges, will give what a pass over l gives.
  ghost predicate PassHeading(idx: seq<int>, l: seq<int>, w: nat, out: seq<int>, rest: seq<int>, n: nat)
    requires 0 < w
  {
    out + Pass(idx, rest, w) == Pass(idx, l, w) && n + Merges(|rest|, w) == Merges(|l|, w)
  }

  lemma BackTwice(s: seq<int>, w: nat)
    requires 0 < w && |s| > 0
    ensures |Back(Back(s, w), w)| == (if |s| <= 2 * w then 0 else |s| - 2 * w) < |s|
  {
  }

  lemma PassHeadingStep(idx: seq<int>, l: seq<int>, w: nat, out: seq<int>, rest: seq<int>, n: nat)
    requires 0 < w && |rest| > 0 && PassHeading(idx, l, w, out, rest, n)
    ensures var a, r := Front(rest, w), Back(rest, w);
      PassHeading(idx, l, w, out + Merge(idx, a, Front(r, w)), Back(r, w), n + 1) && |Back(r, w)| < |rest|
  {
    var a, r := Front(rest, w), Back(rest, w);
    var m, p := Merge(idx, a, Front(r, w)), Pass(idx, Back(r, w), w);
    assert Pass(idx, rest, w) == m + p;
    Associate(out, m, p);
    BackTwice(rest, w);
  }

  // ----- which nodes the comparisons have touched -----

  // Only nodes of l are touched, and only when there are two to compare.
  ghost predicate Touches(l: seq<int>, t0: set<int>, t: set<int>) {
    t0 <= t && forall x {:trigger x in t} :: x in t ==> x in t0 || (x in l && |l| > 1)
  }

  // The last of the runs of w nodes, among n, is a single node.
  ghost predicate Lone(n: nat, w: nat)
    requires 0 < w
    decreases n
  {
    n == 1 || (w < n && Lone(n - w, w))
  }

  // All nodes of l are touched, but for a last one that is alone in its run.
  ghost predicate Covered(l: seq<int>, w: nat, touched: set<int>)
    requires 0 < w
  {
    forall y {:trigger y in touched} :: y in l ==> y in touched || (Lone(|l|, w) && y == l[|l| - 1])
  }

  // What a merge of the first two runs touches is enough for the longer runs of the next pass.
  lemma GroupCovered(l: seq<int>, w: nat, touched: set<int>, touched': set<int>)
    requires 0 < w && |l| > 0 && touched <= touched' && NoRepeats(l)
    requires w > 1 ==> Covered(l, w, touched)
    requires var a, b := Front(l, w), Front(Back(l, w), w);
      |a| > 0 && |b| > 0 ==> a[0] in touched' && b[0] in touched'
    ensures var a, r := Front(l, w), Back(l, w); var b, r2 := Front(r, w), Back(r, w);
      && (w > 1 ==> Covered(r2, w, touched'))
      && (|l| == 1 || forall y :: y in a || y in b ==> y in touched')
  {
    var a, r := Front(l, w), Back(l, w);
    var b, r2 := Front(r, w), Back(r, w);
    Parts(l, w);
    assert multiset(l) == multiset(a) + multiset(b) + multiset(r2);
    forall y | |l| > 1 && (y in a || y in b) ensures y in touched' {
      if w > 1 && y !in touched {
        assert y in l;
        LastRun(l, w, y);
      }
    }
    if w > 1 { RestCovered(l, w, touched); }
  }

  lemma RestCovered(l: seq<int>, w: nat, touched: set<int>)
    requires 0 < w && Covered(l, w, touched)
    ensures Covered(Back(Back(l, w), w), w, touched)
  {
    var r2 := Back(Back(l, w), w);
    forall y | y in r2 && y !in touched ensures Lone(|r2|, w) && y == r2[|r2| - 1] {
      assert y in l;
      assert Lone(|Back(l, w)|, w);
    }
  }

  lemma LastIn(s: seq<int>, t: seq<int>)
    ensures |t| > 0 ==> (s + t)[|s + t| - 1] in t
  {
  }

  // A node of the first two runs that is alone in the last run is all of the second.
  lemma LastRun(l: seq<int>, w: nat, y: int)
    requires 0 < w && NoRepeats(l) && |l| > 1 && Lone(|l|, w) && y == l[|l| - 1]
    requires y in Front(l, w) || y in Front(Back(l, w), w)
    ensures Front(Back(l, w), w) == [y]
  {
    var a, r := Front(l, w), Back(l, w);
    var b, r2 := Front(r, w), Back(r, w);
    Parts(l, w);
    assert multiset(l) == multiset(a) + multiset(b) + multiset(r2);
    assert multiset(l)[y] <= 1 && multiset(a)[y] + multiset(b)[y] >= 1;
    LastIn(a + b, r2);
    assert l == a + b + r2 && (y in r2 ==> y in multiset(r2));
    assert r == b;
  }

  // In a pass over l: `out` is done and `rest` to come.
  ghost predicate PassCovered(l: seq<int>, w: nat, out: seq<int>, rest: seq<int>, t: set<int>)
    requires 0 < w
  {
    && (w > 1 ==> Covered(rest, w, t)) && (|rest| > 0 && Lone(|rest|, 2 * w) ==> Lone(|l|, 2 * w))
    && forall y {:trigger y in t} :: y in out ==> y in t || (|rest| == 0 && Lone(|l|, 2 * w) && y == out[|out| - 1])
  }

  lemma OneLeft(idx: seq<int>, out: seq<int>, rest: seq<int>, w: nat)
    requires 0 < w && |rest| == 1
    ensures var a, r := Front(rest, w), Back(rest, w); var m := Merge(idx, a, Front(r, w));
      |Back(r, w)| == 0 && |m| == 1 && (forall y :: y in out + m ==> y in out || y == (out + m)[|out|])
  {
    var a, r := Front(rest, w), Back(rest, w);
    assert Front(r, w) == [] && Merge(idx, a, Front(r, w)) == a;
  }

  lemma PassCoveredStep(idx: seq<int>, l: seq<int>, w: nat, out: seq<int>, rest: seq<int>, t: set<int>, t': set<int>)
    requires 0 < w && PassCovered(l, w, out, rest, t) && |rest| > 0 && NoRepeats(rest) && t <= t'
    requires var a, b := Front(rest, w), Front(Back(rest, w), w); |a| > 0 && |b| > 0 ==> a[0] in t' && b[0] in t'
    ensures var a, r := Front(rest, w), Back(rest, w);
      PassCovered(l, w, out + Merge(idx, a, Front(r, w)), Back(r, w), t')
  {
    var a, r := Front(rest, w), Back(rest, w);
    var b, r2 := Front(r, w), Back(r, w);
    var m := Merge(idx, a, b);
    GroupCovered(rest, w, t, t');
    assert r2 == Back(rest, 2 * w);
    if |rest| == 1 {
      OneLeft(idx, out, rest, w);
    } else {
      MergeTouched(idx, a, b, t');
    }
  }

  lemma MergeTouched(idx: seq<int>, a: seq<int>, b: seq<int>, t: set<int>)
    requires forall y :: y in a || y in b ==> y in t
    ensures forall y :: y in Merge(idx, a, b) ==> y in t
  {
    MergeIsPermutation(idx, a, b);
    forall y | y in Merge(idx, a, b) ensures y in t {
      assert y in multiset(Merge(idx, a, b));
      assert y in multiset(a) || y in multiset(b);
    }
  }

  lemma StartPass(idx: seq<int>, nx: seq<int>, l: seq<int>, list0: int, w: nat, t: set<int>)
    requires 0 < w && |l| > 0 && IsList(nx, list0, l) && NoRepeats(l) && (w > 1 ==> Covered(l, w, t))
    ensures Merging(nx, l, NULL, NULL, [], NULL, [], list0, l) && PassCovered(l, w, [], l, t)
    ensures PassHeading(idx, l, w, [], l, 0)
  {
    assert [] + Pass(idx, l, w) == Pass(idx, l, w);
  }

  lemma PassDone(idx: seq<int>, l: seq<int>, w: nat, out: seq<int>, rest: seq<int>, n: nat, t: set<int>)
    requires 0 < w && |rest| == 0 && PassCovered(l, w, out, rest, t) && PassHeading(idx, l, w, out, rest, n)
    ensures out == Pass(idx, l, w) && n == Merges(|l|, w) && |out| == |l| && Covered(out, 2 * w, t)
  {
    PassIsPermutation(idx, l, w);
    assert out == Pass(idx, l, w);
  }

  lemma SameMembers(s: seq<int>, l: seq<int>)
    requires multiset(s) == multiset(l)
    ensures forall x :: x in s <==> x in l
    ensures NoRepeats(s) <==> NoRepeats(l)
  {
    forall x ensures x in s <==> x in l { assert x in multiset(s) <==> x in multiset(l); }
  }

  // Before the pass with runs of w nodes.
  ghost predicate InPasses(idx: seq<int>, l: seq<int>, cur: seq<int>, w: nat, t: set<int>)
    requires 0 < w
  {
    && NoRepeats(l) && Rearranges(idx, cur, l) && Runs(idx, cur, w)
    && Touches(l, {}, t) && (w > 1 ==> Covered(cur, w, t))
  }

  lemma StartPasses(idx: seq<int>, l: seq<int>)
    requires NoRepeats(l)
    ensures InPasses(idx, l, l, 1, {})
  {
    SingleRuns(idx, l);
  }

  // Sorted, and every node that can be compared has been.
  ghost predicate Finished(idx: seq<int>, l: seq<int>, s: seq<int>, t: set<int>) {
    Rearranges(idx, s, l) && Sorted(idx, s) && forall x :: x in t <==> x in l && |l| > 1
  }

  // When one merge made the whole list, every node has been compared.
  lemma AllCovered(s: seq<int>, l: seq<int>, w: nat, t: set<int>)
    requires 0 < |s| == |l| <= w && Covered(s, w, t) && multiset(s) == multiset(l) && Touches(l, {}, t)
    ensures forall x :: x in t <==> x in l && |l| > 1
  {
    SameMembers(s, l);
  }

  // ----- the data of the nodes -----

  // What cmp_idx makes of a 16-bit data item when it gets no results record:
  // the high byte copied over the low one.
  function Regen(d: int): int { d / 256 * 256 + d / 256 }

  // The high byte stays, and the low byte becomes equal to it.
  lemma RegenCopiesByte(d: int)
    requires 0 <= d < 0x1_0000
    ensures Regen(d) / 256 == d / 256 && Regen(d) % 256 == d / 256
  {
  }

  lemma RegenTwice(d: int)
    requires 0 <= d < 0x1_0000
    ensures Regen(Regen(d)) == Regen(d) && 0 <= Regen(d) < 0x1_0000
  {
  }

  ghost predicate DataIs(d0: seq<int>, d: seq<int>, regen: bool, touched: set<int>) {
    && |d| == |d0| && (forall x :: 0 <= x < |d0| ==> 0 <= d0[x] < 0x1_0000)
    && forall x :: 0 <= x < |d| ==> d[x] == if regen && x in touched then Regen(d0[x]) else d0[x]
  }

  class Cells {
    const next: array<int>
    const data: array<int>  // 16-bit patterns
    const idx: seq<int>

    ghost predicate Valid()
      reads this
    {
      next != data && next.Length == data.Length == |idx|
    }

    // cmp_idx
    method CmpIdx(a: int, b: int, resNull: bool, ghost d0: seq<int>, ghost touched: set<int>) returns (c: int)
      requires Valid() && 0 <= a < |idx| && 0 <= b < |idx| && DataIs(d0, data[..], resNull, touched)
      modifies data
      ensures c == idx[a] - idx[b] && DataIs(d0, data[..], resNull, touched + {a, b})
    {
      if resNull {
        RegenTwice(d0[a]);
        RegenTwice(d0[b]);
        data[a] := Regen(data[a]);
        assert DataIs(d0, data[..], resNull, touched + {a});
        data[b] := Regen(data[b]);
      }
      c := idx[a] - idx[b];
    }

    // Adds e to the merged list.
    method Append(e: int, list: int, tail: int, ghost out: seq<int>) returns (list': int)
      requires Valid() && 0 <= e < |idx| && Seg(next[..], list, out)
      requires IsTail(next[..], tail, out)
      modifies next
      ensures next[..] == if |out| == 0 then old(next[..]) else old(next[..])[tail := e]
      ensures Seg(next[..], list', out + [e]) && (|out| > 0 ==> list' == list)
    {
      ghost var nx := next[..];
      if tail != NULL {
        next[tail] := e;
        list' := list;
        ghost var s := out[..|out| - 1];
        assert out == s + [tail];
        SegAppend(nx, list, s, tail, e);
        assert next[..] == nx[tail := e];
      } else {
        list' := e;
        assert out + [e] == [e];
        assert Seg(next[..], next[e], [e][1..]);
      }
    }

    // Steps insize places along the list from p.
    method StepRun(p: int, insize: nat, ghost l: seq<int>) returns (q: int, psize: nat)
      requires Valid() && IsList(next[..], p, l) && |l| > 0 && insize > 0
      ensures psize == |Front(l, insize)| && IsList(next[..], q, Back(l, insize))
    {
      q, psize := p, 0;
      var i := 0;
      while i < insize
        invariant psize == i <= insize && i < |l| && IsList(next[..], q, l[i..])
      {
        psize := psize + 1;
        assert l[i..][1..] == l[i + 1..];
        q := next[q];
        if q == NULL { break; }
        i := i + 1;
      }
    }

    // Whether the next merged node comes from q.
    method Choose(p: int, psize: nat, q: int, qsize: nat, resNull: bool, ghost l: seq<int>, ghost list: int,
                  ghost tail: int, ghost out: seq<int>, ghost a: seq<int>, ghost b: seq<int>, ghost d0: seq<int>,
                  ghost t0: set<int>)
      returns (fromQ: bool, ghost t: set<int>)
      requires Valid() && DataIs(d0, data[..], resNull, t0) && psize == |a| && (psize > 0 || (qsize > 0 && q != NULL))
      requires Merging(next[..], l, list, tail, out, p, a, q, b)
      modifies data
      ensures DataIs(d0, data[..], resNull, t) && Touches(l, t0, t)
      ensures |a| > 0 && |b| > 0 && qsize > 0 ==> {a[0], b[0]} <= t
      ensures fromQ == (|a| == 0 || (|b| > 0 && qsize > 0 && Key(idx, a[0]) > Key(idx, b[0])))
      ensures fromQ ==> qsize > 0 && |b| > 0
    {
      t := t0;
      if psize == 0 {
        fromQ := true;
      } else if qsize == 0 || q == NULL {
        fromQ := false;
      } else {
        var c := CmpIdx(p, q, resNull, d0, t);
        t := t + {p, q};
        fromQ := !(c <= 0);
        assert p in multiset(a) && q in multiset(b);
        assert p in multiset(l) && q in multiset(l) && |multiset(l)| == |out| + |a| + |b|;
      }
    }

    // The next merged node is the first run's.
    method LinkP(list0: int, tail: int, p: int, q: int, ghost l: seq<int>, ghost out: seq<int>, ghost a: seq<int>,
                 ghost b: seq<int>)
      returns (list: int, p': int)
      requires Valid() && Merging(next[..], l, list0, tail, out, p, a, q, b) && |a| > 0
      modifies next
      ensures Merging(next[..], l, list, p, out + [p], p', a[1..], q, b)
      ensures SameBut(old(next[..]), next[..], l)
    {
      ghost var nx := next[..];
      p' := next[p];
      list := Append(p, list0, tail, out);
      MergingP(nx, l, list0, tail, out, p, a, q, b, next[..], list);
    }

    // The next merged node is the second run's.
    method LinkQ(list0: int, tail: int, p: int, q: int, ghost l: seq<int>, ghost out: seq<int>, ghost a: seq<int>,
                 ghost b: seq<int>)
      returns (list: int, q': int)
      requires Valid() && Merging(next[..], l, list0, tail, out, p, a, q, b) && |b| > 0
      modifies next
      ensures Merging(next[..], l, list, q, out + [q], p, a, q', b[1..])
      ensures SameBut(old(next[..]), next[..], l)
    {
      ghost var nx := next[..];
      q' := next[q];
      list := Append(q, list0, tail, out);
      MergingQ(nx, l, list0, tail, out, p, a, q, b, next[..], list);
    }

    // One node more on the merged list.
    method MergeStep(list0: int, tail0: int, p0: int, psize0: nat, q0: int, qsize0: nat, resNull: bool,
                     ghost l: seq<int>, ghost out0: seq<int>, ghost a0: seq<int>, ghost b0: seq<int>,
                     ghost goal: seq<int>, ghost rest: seq<int>, ghost d0: seq<int>, ghost t0: set<int>)
      returns (list: int, tail: int, p: int, psize: nat, q: int, qsize: nat,
            ghost out: seq<int>, ghost a: seq<int>, ghost b: seq<int>, ghost t: set<int>)
      requires Valid() && DataIs(d0, data[..], resNull, t0) && psize0 == |a0|
        && (psize0 > 0 || (qsize0 > 0 && q0 != NULL))
      requires Merging(next[..], l, list0, tail0, out0, p0, a0, q0, b0)
      requires Heading(idx, out0, a0, b0, qsize0, goal, rest)
      modifies next, data
      ensures DataIs(d0, data[..], resNull, t) && Touches(l, t0, t)
      ensures |a0| > 0 && |b0| > 0 && qsize0 > 0 ==> {a0[0], b0[0]} <= t
      ensures Merging(next[..], l, list, tail, out, p, a, q, b)
      ensures psize == |a| && Heading(idx, out, a, b, qsize, goal, rest)
      ensures |a| + |b| < |a0| + |b0|
      ensures SameBut(old(next[..]), next[..], l)
    {
      list, tail, p, psize, q, qsize, out, a, b := list0, tail0, p0, psize0, q0, qsize0, out0, a0, b0;
      var fromQ;
      fromQ, t := Choose(p, psize, q, qsize, resNull, l, list, tail, out, a, b, d0, t0);
      if fromQ {
        HeadingQ(idx, out, a, b, qsize, goal, rest);
        tail, qsize := q, qsize - 1;
        list, q := LinkQ(list0, tail0, p, q, l, out, a, b);
        out, b := out + [tail], b[1..];
      } else {
        HeadingP(idx, out, a, b, qsize, goal, rest);
        tail, psize := p, psize - 1;
        list, p := LinkP(list0, tail0, p, q, l, out, a, b);
        out, a := out + [tail], a[1..];
      }
    }

    // Merges the run of psize nodes from p and the one of qsize nodes from q onto the merged list.
    method MergeRuns(p0: int, psize0: nat, q0: int, qsize0: nat, list0: int, tail0: int, resNull: bool,
            ghost l: seq<int>, ghost out0: seq<int>, ghost a0: seq<int>, ghost b0: seq<int>, ghost d0: seq<int>,
            ghost t0: set<int>)
      returns (list: int, tail: int, q: int, ghost t: set<int>)
      requires Valid() && DataIs(d0, data[..], resNull, t0)
      requires Merging(next[..], l, list0, tail0, out0, p0, a0, q0, b0) && psize0 == |a0|
      modifies next, data
      ensures DataIs(d0, data[..], resNull, t) && Touches(l, t0, t)
      ensures |a0| > 0 && |Front(b0, qsize0)| > 0 ==> a0[0] in t && b0[0] in t
      ensures Merging(next[..], l, list, tail, out0 + Merge(idx, a0, Front(b0, qsize0)), NULL, [], q, Back(b0, qsize0))
      ensures SameBut(old(next[..]), next[..], l)
    {
      var p, psize, qsize := p0, psize0, qsize0;
      list, tail, q, t := list0, tail0, q0, t0;
      ghost var out, a, b := out0, a0, b0;
      ghost var goal, rest := out0 + Merge(idx, a0, Front(b0, qsize0)), Back(b0, qsize0);
      while psize > 0 || (qsize > 0 && q != NULL)
        invariant DataIs(d0, data[..], resNull, t) && Touches(l, t0, t)
        invariant SameBut(old(next[..]), next[..], l)
        invariant psize == |a| && Heading(idx, out, a, b, qsize, goal, rest)
        invariant Merging(next[..], l, list, tail, out, p, a, q, b)
        invariant |a0| > 0 && |b0| > 0 && qsize0 > 0 ==> (a == a0 && b == b0 && qsize == qsize0) || {a0[0], b0[0]} <= t
        decreases |a| + |b|
      {
        list, tail, p, psize, q, qsize, out, a, b, t :=
          MergeStep(list, tail, p, psize, q, qsize, resNull, l, out, a, b, goal, rest, d0, t);
      }
      HeadingEnd(idx, out, a, b, qsize, goal, rest);
    }

    // Merges the first two runs of what is left of a pass.
    method PassStep(p0: int, insize: nat, list0: int, tail0: int, resNull: bool,
            ghost l: seq<int>, ghost out0: seq<int>, ghost rest0: seq<int>, ghost n: nat, ghost d0: seq<int>,
            ghost t0: set<int>)
      returns (list: int, tail: int, p: int, ghost out: seq<int>, ghost rest: seq<int>, ghost t: set<int>)
      requires Valid() && DataIs(d0, data[..], resNull, t0) && insize > 0 && p0 != NULL
      requires Merging(next[..], l, list0, tail0, out0, NULL, [], p0, rest0) && PassCovered(l, insize, out0, rest0, t0)
      requires PassHeading(idx, l, insize, out0, rest0, n)
      modifies next, data
      ensures DataIs(d0, data[..], resNull, t) && Touches(l, t0, t)
      ensures Merging(next[..], l, list, tail, out, NULL, [], p, rest) && PassCovered(l, insize, out, rest, t)
      ensures PassHeading(idx, l, insize, out, rest, n + 1) && |rest| < |rest0|
      ensures SameBut(old(next[..]), next[..], l)
    {
      var q, psize := StepRun(p0, insize, rest0);
      ghost var a, r := Front(rest0, insize), Back(rest0, insize);
      MergingSplit(next[..], l, list0, tail0, out0, p0, rest0, insize, q);
      list, tail, p, t := MergeRuns(p0, psize, q, insize, list0, tail0, resNull, l, out0, a, r, d0, t0);
      PassCoveredStep(idx, l, insize, out0, rest0, t0, t);
      PassHeadingStep(idx, l, insize, out0, rest0, n);
      out, rest := out0 + Merge(idx, a, Front(r, insize)), Back(r, insize);
    }

    // One pass of the sort.
    method SortPass(list0: int, insize: nat, resNull: bool, ghost l: seq<int>, ghost d0: seq<int>, ghost t0: set<int>)
      returns (list: int, nmerges: nat, ghost t: set<int>)
      requires Valid() && DataIs(d0, data[..], resNull, t0) && insize > 0 && |l| > 0
      requires IsList(next[..], list0, l) && NoRepeats(l) && (insize > 1 ==> Covered(l, insize, t0))
      modifies next, data
      ensures IsList(next[..], list, Pass(idx, l, insize)) && nmerges == Merges(|l|, insize)
      ensures DataIs(d0, data[..], resNull, t) && Touches(l, t0, t)
      ensures Covered(Pass(idx, l, insize), 2 * insize, t)
      ensures SameBut(old(next[..]), next[..], l)
    {
      var p, tail := list0, NULL;
      list, nmerges, t := NULL, 0, t0;
      ghost var nx, out, rest := next[..], [], l;
      StartPass(idx, nx, l, list0, insize, t0);
      while p != NULL
        invariant DataIs(d0, data[..], resNull, t) && Touches(l, t0, t)
        invariant Merging(next[..], l, list, tail, out, NULL, [], p, rest) && PassCovered(l, insize, out, rest, t)
        invariant PassHeading(idx, l, insize, out, rest, nmerges) && SameBut(nx, next[..], l)
        decreases |rest|
      {
        list, tail, p, out, rest, t := PassStep(p, insize, list, tail, resNull, l, out, rest, nmerges, d0, t);
        nmerges := nmerges + 1;
      }
      PassDone(idx, l, insize, out, rest, nmerges, t);
      CloseList(list, tail, out, l);
    }

    method CloseList(list: int, tail: int, ghost out: seq<int>, ghost l: seq<int>)
      requires Valid() && Seg(next[..], list, out) && IsTail(next[..], tail, out) && |out| > 0
        && multiset(out) == multiset(l)
      modifies next
      ensures IsList(next[..], list, out)
      ensures SameBut(old(next[..]), next[..], l)
    {
      ghost var nx, s := next[..], out[..|out| - 1];
      assert out == s + [tail];
      next[tail] := NULL;
      SegClose(nx, list, s, tail);
      assert next[..] == nx[tail := NULL];
      SameMembers(out, l);
    }

    // A pass over the nodes of l, now in the order cur.
    method OnePass(list0: int, insize: nat, resNull: bool, ghost l: seq<int>, ghost cur: seq<int>, ghost nx0: seq<int>,
                   ghost d0: seq<int>, ghost t0: set<int>)
      returns (list: int, nmerges: nat, ghost cur': seq<int>, ghost t: set<int>)
      requires Valid() && DataIs(d0, data[..], resNull, t0) && insize > 0 && |l| > 0
      requires IsList(next[..], list0, cur) && InPasses(idx, l, cur, insize, t0) && SameBut(nx0, next[..], l)
      modifies next, data
      ensures IsList(next[..], list, cur') && SameBut(nx0, next[..], l) && DataIs(d0, data[..], resNull, t)
      ensures nmerges <= 1 ==> Finished(idx, l, cur', t)
      ensures nmerges > 1 ==> 2 * insize < |l| && InPasses(idx, l, cur', 2 * insize, t)
    {
      PassKeeps(idx, l, cur, insize);
      SameMembers(cur, l);
      list, nmerges, t := SortPass(list0, insize, resNull, cur, d0, t0);
      cur' := Pass(idx, cur, insize);
      MergesOne(|cur|, insize);
      if nmerges <= 1 { AllCovered(cur', l, 2 * insize, t); }
    }

    // The passes, with runs twice as long each time.
    method Passes(list0: int, resNull: bool, ghost l: seq<int>, ghost d0: seq<int>)
      returns (list: int, ghost s: seq<int>, ghost t: set<int>)
      requires Valid() && IsList(next[..], list0, l) && NoRepeats(l) && 0 < |l| < 0x8000_0000
      requires DataIs(d0, data[..], resNull, {})
      modifies next, data
      ensures IsList(next[..], list, s) && Finished(idx, l, s, t) && SameBut(old(next[..]), next[..], l)
      ensures DataIs(d0, data[..], resNull, t)
    {
      ghost var nx0 := next[..];
      var insize := 1;
      list, s, t := list0, l, {};
      StartPasses(idx, l);
      while true
        invariant 0 < insize <= |l| && IsList(next[..], list, s) && InPasses(idx, l, s, insize, t)
        invariant DataIs(d0, data[..], resNull, t) && SameBut(nx0, next[..], l)
        decreases |l| - insize
      {
        var nmerges;
        list, nmerges, s, t := OnePass(list, insize, resNull, l, s, nx0, d0, t);
        if nmerges <= 1 { return; }
        insize := insize * 2;
      }
    }

    // core_list_mergesort with cmp_idx, of a list that is not empty: the same nodes, sorted,
    // those of equal idx in their old order; no other node changes.
    method MergeSort(list0: int, resNull: bool, ghost l: seq<int>) returns (list: int, ghost s: seq<int>)
      requires Valid() && IsList(next[..], list0, l) && NoRepeats(l) && 0 < |l| < 0x8000_0000
      requires forall x :: 0 <= x < |idx| ==> 0 <= data[x] < 0x1_0000
      modifies next, data
      ensures IsList(next[..], list, s) && Sorted(idx, s) && multiset(s) == multiset(l)
      ensures forall i, j :: 0 <= i < j < |s| && 0 <= s[i] < |idx| && 0 <= s[j] < |idx| ==> idx[s[i]] <= idx[s[j]]
      ensures forall v :: Having(idx, s, v) == Having(idx, l, v)
      ensures forall x :: 0 <= x < |idx| && x !in l ==> next[x] == old(next[x])
      ensures forall x :: 0 <= x < |idx| ==>
        data[x] == if resNull && |l| > 1 && x in l then Regen(old(data[x])) else old(data[x])
      ensures forall x :: 0 <= x < |idx| && resNull && |l| > 1 && x in l ==>
        data[x] / 256 == old(data[x]) / 256 && data[x] % 256 == old(data[x]) / 256
    {
      ghost var nx, d0, t := next[..], data[..], {};
      list, s, t := Passes(list0, resNull, l, d0);
      SortedByIdx(idx, s);
      forall x | 0 <= x < |idx| && x !in l ensures next[x] == nx[x] { assert next[..][x] == nx[x]; }
      forall x | 0 <= x < |idx|
        ensures data[x] == if resNull && |l| > 1 && x in l then Regen(d0[x]) else d0[x]
      {
        assert data[..][x] == data[x];
      }
      forall x | 0 <= x < |idx| && resNull && |l| > 1 && x in l
        ensures data[x] / 256 == d0[x] / 256 && data[x] % 256 == d0[x] / 256
      {
        RegenCopiesByte(d0[x]);
      }
    }
  }
}
