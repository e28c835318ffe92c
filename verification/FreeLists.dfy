// Circular singly linked lists through a sentinel, as the per-CPU free lists are kept.
module FreeLists {

  // The j-th node of the ring: the sentinel, then the blocks of l, then the sentinel again.
  function Node(s: int, l: seq<int>, j: int): int {
    if 1 <= j <= |l| then l[j - 1] else s
  }

  ghost predicate Hop(next: map<int, int>, s: int, l: seq<int>, j: int) {
    Node(s, l, j) in next && next[Node(s, l, j)] == Node(s, l, j + 1)
  }

  ghost predicate Ring(next: map<int, int>, s: int, l: seq<int>) {
    forall j {:trigger Hop(next, s, l, j)} :: 0 <= j <= |l| ==> Hop(next, s, l, j)
  }

  ghost predicate Differ(l: seq<int>, i: int, j: int) {
    0 <= i < |l| && 0 <= j < |l| && l[i] != l[j]
  }

  ghost predicate Distinct(l: seq<int>) {
    forall i, j {:trigger Differ(l, i, j)} :: 0 <= i < j < |l| ==> Differ(l, i, j)
  }

  lemma RingFrame(next: map<int, int>, next': map<int, int>, s: int, l: seq<int>)
    requires Ring(next, s, l) && (s in next ==> s in next' && next'[s] == next[s])
    requires forall i :: 0 <= i < |l| && l[i] in next ==> l[i] in next' && next'[l[i]] == next[l[i]]
    ensures Ring(next', s, l)
  {
    forall j | 0 <= j <= |l| ensures Hop(next', s, l, j) { assert Hop(next, s, l, j); }
  }

  function Without(l: seq<int>, k: nat): seq<int>
    requires k < |l|
  {
    l[..k] + l[k + 1..]
  }

  function With(l: seq<int>, k: nat, x: int): seq<int>
    requires k <= |l|
  {
    l[..k] + [x] + l[k..]
  }

  // Pointing the node before the k-th block past it takes the block out.
  lemma RingRemove(next: map<int, int>, s: int, l: seq<int>, k: nat)
    requires Ring(next, s, l) && Distinct(l) && s !in l && k < |l|
    ensures Ring(next[Node(s, l, k) := Node(s, l, k + 2)], s, Without(l, k)) && Distinct(Without(l, k))
  {
    var next', l' := next[Node(s, l, k) := Node(s, l, k + 2)], Without(l, k);
    forall j | 0 <= j <= |l'| ensures Hop(next', s, l', j) {
      var m := if j <= k then j else j + 1;
      assert Node(s, l', j) == Node(s, l, m) && Hop(next, s, l, m);
      if m < k { NodesDiffer(s, l, m, k); }
      if k < m { NodesDiffer(s, l, k, m); }
    }
    forall i, j | 0 <= i < j < |l'| ensures Differ(l', i, j) {
      assert Differ(l, if i < k then i else i + 1, if j < k then j else j + 1);
    }
  }

  lemma NodesDiffer(s: int, l: seq<int>, i: nat, j: nat)
    requires Distinct(l) && s !in l && i < j <= |l|
    ensures Node(s, l, i) != Node(s, l, j)
  {
    if 1 <= i { assert Differ(l, i - 1, j - 1); }
  }

  // Linking x in behind the k-th node.
  lemma RingInsert(next: map<int, int>, s: int, l: seq<int>, k: nat, x: int)
    requires Ring(next, s, l) && Distinct(l) && s !in l && k <= |l| && x !in l && x != s
    ensures Ring(next[x := Node(s, l, k + 1)][Node(s, l, k) := x], s, With(l, k, x)) && Distinct(With(l, k, x))
  {
    var next', l' := next[x := Node(s, l, k + 1)][Node(s, l, k) := x], With(l, k, x);
    forall j | 0 <= j <= |l'| ensures Hop(next', s, l', j) {
      if j != k + 1 {
        var m := if j <= k then j else j - 1;
        assert Node(s, l', j) == Node(s, l, m) && Hop(next, s, l, m);
        if m < k { NodesDiffer(s, l, m, k); }
        if k < m { NodesDiffer(s, l, k, m); }
      }
    }
    forall i, j | 0 <= i < j < |l'| ensures Differ(l', i, j) {
      if i != k && j != k { assert Differ(l, if i < k then i else i - 1, if j < k then j else j - 1); }
    }
  }
}
