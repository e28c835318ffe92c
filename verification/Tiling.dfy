// The heap as a row of blocks: every block is a header followed by its space,
// and the next block starts where it ends.
module Tiling {

  const HDR := 16  // sizeof(header)

  datatype Owner = Global | FreeOn(cpu: int) | Live

  function EndOf(size: map<int, int>, a: int): int
    requires a in size
  {
    a + HDR + size[a]
  }

  // The i-th block ends where the next one starts, the last one at `end`.
  ghost predicate Fits(layout: seq<int>, size: map<int, int>, end: int, i: int) {
    0 <= i < |layout| && layout[i] in size && 0 <= size[layout[i]]
    && EndOf(size, layout[i]) == if i + 1 < |layout| then layout[i + 1] else end
  }

  // The blocks tile [start, end) without gap or overlap.
  ghost predicate Tiled(layout: seq<int>, size: map<int, int>, start: int, end: int) {
    && 0 < |layout| && layout[0] == start
    && forall i {:trigger Fits(layout, size, end, i)} :: 0 <= i < |layout| ==> Fits(layout, size, end, i)
  }

  lemma {:induction false} Increasing(layout: seq<int>, size: map<int, int>, start: int, end: int, i: int, j: int)
    requires Tiled(layout, size, start, end) && 0 <= i <= j < |layout|
    ensures layout[i] <= layout[j]
      && (i < j ==> layout[i] < layout[j] && layout[i] in size && EndOf(size, layout[i]) <= layout[j])
    ensures layout[j] in size && EndOf(size, layout[j]) <= end
    decreases |layout| - i
  {
    assert Fits(layout, size, end, i);
    if i < j {
      Increasing(layout, size, start, end, i + 1, j);
    } else if i + 1 < |layout| {
      assert Fits(layout, size, end, i + 1);
      Increasing(layout, size, start, end, i + 1, i + 1);
    }
  }

  // Every byte of the heap lies in exactly one block.
  lemma {:induction false} ByteHasBlock(layout: seq<int>, size: map<int, int>, start: int, end: int, b: int,
      from: nat) returns (i: nat)
    requires Tiled(layout, size, start, end) && from < |layout| && layout[from] <= b < end
    ensures i < |layout| && layout[i] in size && layout[i] <= b < EndOf(size, layout[i])
    ensures forall k :: 0 <= k < |layout| && layout[k] in size && layout[k] <= b < EndOf(size, layout[k]) ==> k == i
    decreases |layout| - from
  {
    assert Fits(layout, size, end, from);
    if b < EndOf(size, layout[from]) {
      i := from;
      forall k | 0 <= k < |layout| && layout[k] in size && layout[k] <= b < EndOf(size, layout[k]) ensures k == i {
        if k < i { Increasing(layout, size, start, end, k, i); }
        if i < k { Increasing(layout, size, start, end, i, k); }
      }
    } else {
      i := ByteHasBlock(layout, size, start, end, b, from + 1);
    }
  }

  lemma Unique(layout: seq<int>, size: map<int, int>, start: int, end: int, i: int, j: int)
    requires Tiled(layout, size, start, end) && 0 <= i < |layout| && 0 <= j < |layout| && layout[i] == layout[j]
    ensures i == j
  {
    if i < j { Increasing(layout, size, start, end, i, j); }
    if j < i { Increasing(layout, size, start, end, j, i); }
  }

  // ----- splitting -----

  function Inserted(layout: seq<int>, i: nat, b: int): seq<int>
    requires i < |layout|
  {
    layout[..i + 1] + [b] + layout[i + 1..]
  }

  // Cutting n bytes and a header off the end of a block.
  lemma Split(layout: seq<int>, size: map<int, int>, start: int, end: int, i: nat, n: int)
    requires Tiled(layout, size, start, end) && i < |layout| && layout[i] in size
      && 0 <= n && n + HDR <= size[layout[i]]
    ensures var a := layout[i]; var b := a + size[a] - n;
      && b !in layout && start < b < end
      && Tiled(Inserted(layout, i, b), size[a := size[a] - n - HDR][b := n], start, end)
  {
    var a := layout[i];
    var b := a + size[a] - n;
    var l', s' := Inserted(layout, i, b), size[a := size[a] - n - HDR][b := n];
    assert Fits(layout, size, end, i);
    Increasing(layout, size, start, end, 0, i);
    Increasing(layout, size, start, end, i, i);
    forall j | 0 <= j < |layout| ensures layout[j] != b {
      if j <= i { Increasing(layout, size, start, end, j, i); } else { Increasing(layout, size, start, end, i, j); }
    }
    forall j | 0 <= j < |l'| ensures Fits(l', s', end, j) {
      if j < i {
        assert Fits(layout, size, end, j);
        Increasing(layout, size, start, end, j, i);
      } else if j > i + 1 {
        assert Fits(layout, size, end, j - 1);
        Increasing(layout, size, start, end, i, j - 1);
      }
    }
  }

  // ----- merging -----

  function Removed(layout: seq<int>, i: nat): seq<int>
    requires i < |layout|
  {
    layout[..i] + layout[i + 1..]
  }

  lemma RemovedMembers(layout: seq<int>, size: map<int, int>, start: int, end: int, j: nat, x: int)
    requires Tiled(layout, size, start, end) && j < |layout|
    ensures x in Removed(layout, j) <==> x in layout && x != layout[j]
  {
    assert layout == layout[..j] + [layout[j]] + layout[j + 1..];
    if layout[j] in Removed(layout, j) {
      var k :| 0 <= k < |layout| - 1 && Removed(layout, j)[k] == layout[j];
      Unique(layout, size, start, end, if k < j then k else k + 1, j);
      assert false;
    }
  }

  lemma InsertedMembers(layout: seq<int>, i: nat, b: int, x: int)
    requires i < |layout|
    ensures x in Inserted(layout, i, b) <==> x in layout || x == b
  {
    assert layout == layout[..i + 1] + layout[i + 1..];
  }

  // A block that starts where another ends is the next one in the row.
  lemma Adjacent(layout: seq<int>, size: map<int, int>, start: int, end: int, i: nat, j: nat)
    requires Tiled(layout, size, start, end) && i < |layout| && j < |layout|
    requires layout[i] in size && EndOf(size, layout[i]) == layout[j]
    ensures j == i + 1
  {
    assert Fits(layout, size, end, i);
    if j <= i { Increasing(layout, size, start, end, j, i); }
    Increasing(layout, size, start, end, j, j);
    assert Fits(layout, size, end, j);
    if j > i { Unique(layout, size, start, end, i + 1, j); }
  }

  lemma Merge(layout: seq<int>, size: map<int, int>, start: int, end: int, i: nat)
    requires Tiled(layout, size, start, end) && i + 1 < |layout| && layout[i] in size && layout[i + 1] in size
    ensures var a, b := layout[i], layout[i + 1];
      Tiled(Removed(layout, i + 1), size[a := size[a] + HDR + size[b]], start, end)
  {
    var a, b := layout[i], layout[i + 1];
    var l', s' := Removed(layout, i + 1), size[a := size[a] + HDR + size[b]];
    assert Fits(layout, size, end, i) && Fits(layout, size, end, i + 1);
    forall j | 0 <= j < |l'| ensures Fits(l', s', end, j) {
      if j < i {
        assert Fits(layout, size, end, j);
        Increasing(layout, size, start, end, j, i);
      } else if j > i {
        assert Fits(layout, size, end, j + 1);
        Increasing(layout, size, start, end, i, j + 1);
      }
    }
  }
}
