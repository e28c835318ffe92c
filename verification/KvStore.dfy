// The key-value store: chains of blocks for strings, a chain of records, and a
// recycling list of blocks, all in one file that only ever grows at its end.
module KvStore {
  import opened KvStrings
  import KvSpec

  const HEADER_LEN := 0x100
  const BLOCK_SIZE := 32  // sizeof(string): the characters and a link
  const TAB_SIZE := 20    // sizeof(tab): five 32-bit fields
  const UINT_LIMIT := 0x1_0000_0000

  type Info = s: string | |s| == BLOCK_LEN witness Zeros(BLOCK_LEN)

  datatype Block = Block(info: Info, next: nat)

  datatype Tab = Tab(next: nat, key: nat, keyLen: nat, value: nat, valueLen: nat)

  const ZERO_TAB := Tab(0, 0, 0, 0, 0)

  // ----- chains -----

  ghost predicate Linked(blk: map<nat, Block>, c: seq<nat>, end: nat, i: int) {
    0 <= i < |c| && c[i] in blk && blk[c[i]].next == if i + 1 < |c| then c[i + 1] else end
  }

  // The blocks of c are linked in that order; the last one leads to end.
  ghost predicate Chain(blk: map<nat, Block>, c: seq<nat>, end: nat) {
    forall i {:trigger Linked(blk, c, end, i)} :: 0 <= i < |c| ==> Linked(blk, c, end, i)
  }

  ghost predicate Differ(c: seq<nat>, i: int, j: int) {
    0 <= i < |c| && 0 <= j < |c| && c[i] != c[j]
  }

  ghost predicate Distinct(c: seq<nat>) {
    forall i, j {:trigger Differ(c, i, j)} :: 0 <= i < j < |c| ==> Differ(c, i, j)
  }

  ghost predicate Shows(blk: map<nat, Block>, c: seq<nat>, s: string, i: int) {
    0 <= i < |c| && i < Chunks(s) && c[i] in blk && blk[c[i]].info == Chunk(s, i)
  }

  // The chain c holds the text s.
  ghost predicate Holds(blk: map<nat, Block>, c: seq<nat>, s: string) {
    && |c| == Chunks(s)
    && Chain(blk, c, 0)
    && forall i {:trigger Shows(blk, c, s, i)} :: 0 <= i < |c| ==> Shows(blk, c, s, i)
  }

  // blk' keeps the blocks of c as they are.
  ghost predicate Keeps(blk: map<nat, Block>, blk': map<nat, Block>, c: seq<nat>) {
    forall i {:trigger c[i]} :: 0 <= i < |c| && c[i] in blk ==> c[i] in blk' && blk'[c[i]] == blk[c[i]]
  }

  lemma ChainKept(blk: map<nat, Block>, blk': map<nat, Block>, c: seq<nat>, end: nat)
    requires Chain(blk, c, end) && Keeps(blk, blk', c)
    ensures Chain(blk', c, end)
  {
    forall i | 0 <= i < |c| ensures Linked(blk', c, end, i) { assert Linked(blk, c, end, i); }
  }

  lemma HoldsKept(blk: map<nat, Block>, blk': map<nat, Block>, c: seq<nat>, s: string)
    requires Holds(blk, c, s) && Keeps(blk, blk', c)
    ensures Holds(blk', c, s)
  {
    ChainKept(blk, blk', c, 0);
    forall i | 0 <= i < |c| ensures Shows(blk', c, s, i) { assert Shows(blk, c, s, i); }
  }

  // ----- where things lie in the file -----

  ghost predicate Clear(a: nat, la: nat, b: nat, lb: nat) {
    a + la <= b || b + lb <= a
  }

  // Blocks and records occupy byte ranges below the recorded size that do not
  // touch each other.
  ghost predicate Layout(blk: map<nat, Block>, tabs: map<nat, Tab>, end: nat) {
    && (forall b {:trigger b in blk} :: b in blk ==> TAB_SIZE <= b && b + BLOCK_SIZE <= end)
    && (forall t {:trigger t in tabs} :: t in tabs ==> t + TAB_SIZE <= end)
    && (forall b, b' {:trigger Clear(b, BLOCK_SIZE, b', BLOCK_SIZE)} ::
          b in blk && b' in blk && b != b' ==> Clear(b, BLOCK_SIZE, b', BLOCK_SIZE))
    && (forall t, t' {:trigger Clear(t, TAB_SIZE, t', TAB_SIZE)} ::
          t in tabs && t' in tabs && t != t' ==> Clear(t, TAB_SIZE, t', TAB_SIZE))
    && (forall b, t {:trigger Clear(b, BLOCK_SIZE, t, TAB_SIZE)} ::
          b in blk && t in tabs ==> Clear(b, BLOCK_SIZE, t, TAB_SIZE))
  }

  // A block or a record written at the old end, or over itself, keeps the layout.
  lemma LayoutBlock(blk: map<nat, Block>, tabs: map<nat, Tab>, end: nat, end': nat, b: nat, v: Block)
    requires Layout(blk, tabs, end) && end <= end' && TAB_SIZE <= end
    requires b in blk || (end <= b && b + BLOCK_SIZE <= end')
    ensures Layout(blk[b := v], tabs, end')
  {
    forall x, y | x in blk[b := v] && y in blk[b := v] && x != y ensures Clear(x, BLOCK_SIZE, y, BLOCK_SIZE) {
      assert x in blk && y in blk ==> Clear(x, BLOCK_SIZE, y, BLOCK_SIZE);
    }
    forall x, t | x in blk[b := v] && t in tabs ensures Clear(x, BLOCK_SIZE, t, TAB_SIZE) {
      assert x in blk ==> Clear(x, BLOCK_SIZE, t, TAB_SIZE);
    }
    forall t, t' | t in tabs && t' in tabs && t != t' ensures Clear(t, TAB_SIZE, t', TAB_SIZE) {}
  }

  lemma LayoutGrows(blk: map<nat, Block>, tabs: map<nat, Tab>, end: nat, end': nat)
    requires Layout(blk, tabs, end) && end <= end'
    ensures Layout(blk, tabs, end')
  {
  }

  lemma LayoutTab(blk: map<nat, Block>, tabs: map<nat, Tab>, end: nat, end': nat, t: nat, v: Tab)
    requires Layout(blk, tabs, end) && end <= end'
    requires t in tabs || (end <= t && t + TAB_SIZE <= end')
    ensures Layout(blk, tabs[t := v], end')
  {
    forall x, y | x in tabs[t := v] && y in tabs[t := v] && x != y ensures Clear(x, TAB_SIZE, y, TAB_SIZE) {
      assert x in tabs && y in tabs ==> Clear(x, TAB_SIZE, y, TAB_SIZE);
    }
    forall b, x | b in blk && x in tabs[t := v] ensures Clear(b, BLOCK_SIZE, x, TAB_SIZE) {
      assert x in tabs ==> Clear(b, BLOCK_SIZE, x, TAB_SIZE);
    }
    forall b, b' | b in blk && b' in blk && b != b' ensures Clear(b, BLOCK_SIZE, b', BLOCK_SIZE) {}
  }

  // What the j-th block of a stored string shows to a reader.
  lemma ReadBlock(blk: map<nat, Block>, tabs: map<nat, Tab>, end: nat, c: seq<nat>, s: string, j: nat)
    requires Layout(blk, tabs, end) && Holds(blk, c, s) && j < |c|
    ensures c[j] in blk && j < Chunks(s) && blk[c[j]].info == Chunk(s, j)
    ensures blk[c[j]].next == 0 <==> j + 1 == |c|
    ensures j + 1 < |c| ==> blk[c[j]].next == c[j + 1] && c[j + 1] in blk
  {
    assert Linked(blk, c, 0, j) && Shows(blk, c, s, j);
    if j + 1 < |c| { assert Linked(blk, c, 0, j + 1); }
  }

  // ----- writing a string -----

  // Halfway through a string: c holds its first blocks and leads to end; the
  // first m of them came from the recycling list f, the others lie beyond e0,
  // the end of the file before.
  ghost predicate Building(blk0: map<nat, Block>, blk: map<nat, Block>, f: seq<nat>, e0: nat,
                           c: seq<nat>, m: nat, s: string, end: nat) {
    && m <= |c| && m < |f|
    && (forall j :: 0 <= j < m ==> c[j] == f[j])
    && (forall j :: m <= j < |c| ==> e0 <= c[j])
    && Distinct(c) && Chain(blk, c, end)
    && (forall j {:trigger Shows(blk, c, s, j)} :: 0 <= j < |c| ==> Shows(blk, c, s, j))
    && Chain(blk, f[m..], 0)
    && (forall b {:trigger b in blk0} :: b in blk0 && b !in c ==> b in blk && blk[b] == blk0[b])
    && (forall b {:trigger b in blk} :: b in blk ==> b in blk0 || b in c)
  }

  ghost predicate Below(blk: map<nat, Block>, f: seq<nat>, e: nat) {
    && (forall b {:trigger b in blk} :: b in blk ==> b + BLOCK_SIZE <= e)
    && forall i :: 0 <= i < |f| ==> f[i] in blk
  }

  // The next block is the next one of the recycling list, or a new one.
  ghost predicate NextIs(blk: map<nat, Block>, f: seq<nat>, e0: nat, c: seq<nat>, m: nat, cur: nat, listed: bool) {
    if listed then m < |f| - 1 && m == |c| && cur == f[m] else e0 <= cur && cur !in blk
  }

  lemma NotYetUsed(blk0: map<nat, Block>, blk: map<nat, Block>, f: seq<nat>, e0: nat, c: seq<nat>, m: nat, s: string,
                   cur: nat, listed: bool)
    requires Building(blk0, blk, f, e0, c, m, s, cur) && Distinct(f) && Below(blk0, f, e0)
    requires NextIs(blk, f, e0, c, m, cur, listed)
    ensures cur !in c && cur !in f[if listed then m + 1 else m..]
  {
    if listed {
      forall j | 0 <= j < m ensures c[j] != cur { assert Differ(f, j, m); }
      forall j | m < j < |f| ensures f[j] != cur { assert Differ(f, m, j); }
    } else {
      forall j | 0 <= j < |c| ensures c[j] != cur { assert Shows(blk, c, s, j); }
    }
  }

  lemma DistinctSnoc(c: seq<nat>, x: nat)
    requires Distinct(c) && x !in c
    ensures Distinct(c + [x])
  {
    forall i, j | 0 <= i < j < |c| + 1 ensures Differ(c + [x], i, j) {
      if j < |c| { assert Differ(c, i, j); }
    }
  }

  lemma ChainSnoc(blk: map<nat, Block>, blk': map<nat, Block>, c: seq<nat>, x: nat, end: nat)
    requires Chain(blk, c, x) && Keeps(blk, blk', c) && x in blk' && blk'[x].next == end
    ensures Chain(blk', c + [x], end)
  {
    forall i | 0 <= i < |c| + 1 ensures Linked(blk', c + [x], end, i) {
      if i < |c| { assert Linked(blk, c, x, i); }
    }
  }

  lemma ShowsSnoc(blk: map<nat, Block>, blk': map<nat, Block>, c: seq<nat>, s: string, x: nat)
    requires forall i {:trigger Shows(blk, c, s, i)} :: 0 <= i < |c| ==> Shows(blk, c, s, i)
    requires Keeps(blk, blk', c) && |c| < Chunks(s) && x in blk' && blk'[x].info == Chunk(s, |c|)
    ensures forall i {:trigger Shows(blk', c + [x], s, i)} :: 0 <= i < |c| + 1 ==> Shows(blk', c + [x], s, i)
  {
    forall i | 0 <= i < |c| + 1 ensures Shows(blk', c + [x], s, i) {
      if i < |c| { assert Shows(blk, c, s, i); }
    }
  }

  // Writing the next block.
  lemma BuildStep(blk0: map<nat, Block>, blk: map<nat, Block>, f: seq<nat>, e0: nat, c: seq<nat>, m: nat, s: string,
                  cur: nat, end: nat, listed: bool)
    requires Building(blk0, blk, f, e0, c, m, s, cur) && Distinct(f) && |c| < Chunks(s) && Below(blk0, f, e0)
    requires NextIs(blk, f, e0, c, m, cur, listed)
    ensures var blk' := blk[cur := Block(Chunk(s, |c|), end)];
      Building(blk0, blk', f, e0, c + [cur], if listed then m + 1 else m, s, end)
  {
    var blk' := blk[cur := Block(Chunk(s, |c|), end)];
    var m' := if listed then m + 1 else m;
    NotYetUsed(blk0, blk, f, e0, c, m, s, cur, listed);
    DistinctSnoc(c, cur);
    ChainSnoc(blk, blk', c, cur, end);
    ShowsSnoc(blk, blk', c, s, cur);
    assert f[m'..] == f[m..][m' - m..];
    SuffixKept(blk, blk', f[m..], m' - m);
  }

  lemma SuffixKept(blk: map<nat, Block>, blk': map<nat, Block>, f: seq<nat>, k: nat)
    requires Chain(blk, f, 0) && k <= |f| && Keeps(blk, blk', f[k..])
    ensures Chain(blk', f[k..], 0)
  {
    forall i | 0 <= i < |f| - k ensures Linked(blk', f[k..], 0, i) {
      assert Linked(blk, f, 0, i + k);
      assert f[k..][i] == f[i + k];
    }
  }

  // ----- the file -----

  // Which chain a block belongs to; a Loose one is written but in no chain.
  datatype Owner = Free | KeyOf(rec: nat) | ValueOf(rec: nat) | Loose

  ghost function GivenTo(c: seq<nat>, who: Owner): map<nat, Owner> { map b | b in c :: who }

  ghost predicate Owned(owner: map<nat, Owner>, c: seq<nat>, who: Owner) {
    forall i :: 0 <= i < |c| ==> c[i] in owner && owner[c[i]] == who
  }

  // The recycling list, from head to the reserved block at tail.
  ghost predicate FreeList(blk: map<nat, Block>, owner: map<nat, Owner>, head: nat, tail: nat, free: seq<nat>) {
    && 0 < |free| && head == free[0] && tail == free[|free| - 1]
    && Chain(blk, free, 0) && Distinct(free) && Owned(owner, free, Free)
  }

  // The blocks of c are now who's; they were free or did not exist before, and
  // no other block has changed.
  ghost predicate Allocated(blk0: map<nat, Block>, blk: map<nat, Block>, owner0: map<nat, Owner>,
                            owner: map<nat, Owner>, c: seq<nat>, who: Owner)
  {
    && (forall b {:trigger b in blk0} :: b in blk0 && b !in c ==> b in blk && blk[b] == blk0[b])
    && (forall j :: 0 <= j < |c| ==> c[j] !in owner0 || owner0[c[j]] == Free)
    && owner == owner0 + GivenTo(c, who)
  }

  // Where the next block comes from: the recycling list f, at f[m], or the end
  // of the file; and the layout up to there.
  ghost predicate Position(f: seq<nat>, c: seq<nat>, m: nat, cur: nat, flag: bool, blk: map<nat, Block>,
                           tabs: map<nat, Tab>, e0: nat, size: nat) {
    && HEADER_LEN <= size
    && if flag then m == |c| && m < |f| - 1 && cur == f[m] && cur in blk && size == e0 + HEADER_LEN
      && Layout(blk, tabs, e0)
       else m == |f| - 1 && e0 <= cur && cur + BLOCK_SIZE + HEADER_LEN == size && Layout(blk, tabs, cur)
  }

  // One block later the position is right again.
  lemma PositionStep(blk0: map<nat, Block>, blk: map<nat, Block>, blk': map<nat, Block>, tabs: map<nat, Tab>,
                     f: seq<nat>, e0: nat, c: seq<nat>, m: nat, s: string, cur: nat, cur': nat, flag: bool,
                     flag': bool, size: nat, size': nat, v: Block)
    requires Building(blk0, blk, f, e0, c, m, s, cur) && Distinct(f) && TAB_SIZE <= e0
    requires Below(blk0, f, e0)
    requires Position(f, c, m, cur, flag, blk, tabs, e0, size) && blk' == blk[cur := v]
    requires flag' <==> flag && blk[cur].next != f[|f| - 1]
    requires flag' ==> cur' == blk[cur].next && size' == size
    requires !flag' ==> cur' == size - HEADER_LEN && size' == size + BLOCK_SIZE
    ensures Position(f, c + [cur], if flag then m + 1 else m, cur', flag', blk', tabs, e0, size')
  {
    LayoutBlock(blk, tabs, if flag then e0 else cur, size - HEADER_LEN, cur, v);
    if flag {
      var g := f[m..];
      assert Linked(blk, g, 0, 0) && Linked(blk, g, 0, 1);
      assert g[1] == f[m + 1];
      if m + 1 < |f| - 1 { assert Differ(f, m + 1, |f| - 1); }
    }
  }

  lemma AllocStart(blk: map<nat, Block>, tabs: map<nat, Tab>, owner: map<nat, Owner>, head: nat, tail: nat, f: seq<nat>,
                   e0: nat, s: string, cur: nat, flag: bool, size: nat)
    requires FreeList(blk, owner, head, tail, f) && Layout(blk, tabs, e0) && owner.Keys == blk.Keys
    requires flag <==> head != tail
    requires cur == (if flag then head else e0) && size == HEADER_LEN + e0 + (if flag then 0 else BLOCK_SIZE)
    ensures Building(blk, blk, f, e0, [], 0, s, cur) && Position(f, [], 0, cur, flag, blk, tabs, e0, size)
    ensures Below(blk, f, e0)
  {
    assert f[0..] == f;
    if |f| > 1 { assert Differ(f, 0, |f| - 1); }
  }

  // The finished string and what is left of the recycling list.
  lemma AllocDone(blk0: map<nat, Block>, blk: map<nat, Block>, f: seq<nat>, e0: nat, c: seq<nat>, m: nat, s: string,
                  owner0: map<nat, Owner>, owner: map<nat, Owner>, who: Owner, head: nat, tail: nat,
                  tabs: map<nat, Tab>, cur: nat, flag: bool, size: nat)
    requires Building(blk0, blk, f, e0, c, m, s, 0) && |c| == Chunks(s) && who != Free
    requires FreeList(blk0, owner0, head, tail, f) && owner0.Keys == blk0.Keys
    requires Below(blk0, f, e0)
    requires owner == owner0 + GivenTo(c, who)
    requires Position(f, c, m, cur, flag, blk, tabs, e0, size)
    ensures Holds(blk, c, s) && Allocated(blk0, blk, owner0, owner, c, who)
    ensures FreeList(blk, owner, if flag then cur else tail, tail, f[m..]) && owner.Keys == blk.Keys
    ensures Layout(blk, tabs, size - HEADER_LEN)
  {
    LayoutGrows(blk, tabs, if flag then e0 else cur, size - HEADER_LEN);
    var g := f[m..];
    forall i, j | 0 <= i < j < |g| ensures Differ(g, i, j) { assert Differ(f, i + m, j + m); }
    forall i | 0 <= i < |g| ensures g[i] !in c {
      forall j | 0 <= j < m ensures c[j] != g[i] { assert Differ(f, j, i + m); }
    }
    forall j | 0 <= j < |c| ensures c[j] in blk { assert Shows(blk, c, s, j); }
  }

  // ----- the records -----

  // A record as the ghost state knows it: its strings and the blocks they are in.
  datatype Rec = Rec(key: string, value: string, keyBlocks: seq<nat>, valueBlocks: seq<nat>)

  ghost predicate Stored(blk: map<nat, Block>, owner: map<nat, Owner>, c: seq<nat>, s: string, who: Owner) {
    s != "" && IsText(s) && Holds(blk, c, s) && Distinct(c) && Owned(owner, c, who)
  }

  // The i-th record, at offset at, is followed by the one at offset next.
  ghost predicate RecordOk(blk: map<nat, Block>, owner: map<nat, Owner>, tabs: map<nat, Tab>, at: nat, next: nat,
                           r: Rec, i: nat)
  {
    && Stored(blk, owner, r.keyBlocks, r.key, KeyOf(i))
    && Stored(blk, owner, r.valueBlocks, r.value, ValueOf(i))
    && at in tabs && |r.keyBlocks| > 0 && |r.valueBlocks| > 0 && next != 0
    && tabs[at] == Tab(next, r.keyBlocks[0], |r.key|, r.valueBlocks[0], |r.value|)
  }

  ghost predicate NthOk(blk: map<nat, Block>, owner: map<nat, Owner>, tabs: map<nat, Tab>, at: seq<nat>, rs: seq<Rec>,
                        i: int)
  {
    0 <= i < |rs| && |at| == |rs| + 1 && RecordOk(blk, owner, tabs, at[i], at[i + 1], rs[i], i)
  }

  // The chain of records starts at offset 0 and ends with an empty record.
  ghost predicate Records(blk: map<nat, Block>, owner: map<nat, Owner>, tabs: map<nat, Tab>, at: seq<nat>, rs: seq<Rec>)
  {
    && |at| == |rs| + 1 && at[0] == 0 && Distinct(at)
    && at[|rs|] in tabs && tabs[at[|rs|]] == ZERO_TAB
    && forall i {:trigger NthOk(blk, owner, tabs, at, rs, i)} :: 0 <= i < |rs| ==> NthOk(blk, owner, tabs, at, rs, i)
  }

  // Every block of the file is on the chain of its owner: none is lost.
  ghost predicate NoneLost(owner: map<nat, Owner>, free: seq<nat>, rs: seq<Rec>) {
    forall b {:trigger owner[b]} :: b in owner ==> OnItsChain(owner[b], b, free, rs)
  }

  ghost predicate OnItsChain(who: Owner, b: nat, free: seq<nat>, rs: seq<Rec>) {
    match who
    case Free => b in free
    case KeyOf(i) => i < |rs| && b in rs[i].keyBlocks
    case ValueOf(i) => i < |rs| && b in rs[i].valueBlocks
    case Loose => false
  }

  // What was on the recycling list is still there, or in chain c.
  ghost predicate TakenFrom(free: seq<nat>, free': seq<nat>, c: seq<nat>) {
    forall b {:trigger b in free} :: b in free ==> b in free' || b in c
  }

  lemma PrefixTaken(free: seq<nat>, m: nat, c: seq<nat>)
    requires m <= |free| && m <= |c| && forall j :: 0 <= j < m ==> c[j] == free[j]
    ensures TakenFrom(free, free[m..], c)
  {
    forall b | b in free ensures b in free[m..] || b in c {
      var i :| 0 <= i < |free| && free[i] == b;
      if i < m { assert c[i] == b; } else { assert free[m..][i - m] == b; }
    }
  }

  // A replaced value: its blocks v are recycled, and the new value is in c.
  lemma NoneLostReplacing(owner: map<nat, Owner>, free: seq<nat>, free1: seq<nat>, rs: seq<Rec>, i: nat, r: Rec,
                          c: seq<nat>)
    requires NoneLost(owner, free, rs) && i < |rs| && TakenFrom(free, free1, c)
    requires r.keyBlocks == rs[i].keyBlocks && r.valueBlocks == c
    ensures NoneLost(owner + GivenTo(rs[i].valueBlocks, Free) + GivenTo(c, ValueOf(i)),
      free1 + rs[i].valueBlocks, rs[i := r])
  {
    var owner' := owner + GivenTo(rs[i].valueBlocks, Free) + GivenTo(c, ValueOf(i));
    forall b | b in owner' ensures OnItsChain(owner'[b], b, free1 + rs[i].valueBlocks, rs[i := r]) {
      if b !in c && b !in rs[i].valueBlocks { assert OnItsChain(owner[b], b, free, rs); }
    }
  }

  // Giving c to its last owner settles it.
  lemma Overwritten(owner: map<nat, Owner>, v: seq<nat>, c: seq<nat>, i: nat)
    ensures owner + GivenTo(c, Loose) + GivenTo(v, Free) + GivenTo(c, ValueOf(i))
      == owner + GivenTo(v, Free) + GivenTo(c, ValueOf(i))
  {
  }

  // A new record, its value in cv and its key in ck.
  lemma NoneLostAdding(owner: map<nat, Owner>, free: seq<nat>, free1: seq<nat>, free2: seq<nat>, rs: seq<Rec>, r: Rec)
    requires NoneLost(owner, free, rs) && TakenFrom(free, free1, r.valueBlocks) && TakenFrom(free1, free2, r.keyBlocks)
    ensures NoneLost(owner + GivenTo(r.valueBlocks, ValueOf(|rs|)) + GivenTo(r.keyBlocks, KeyOf(|rs|)), free2, rs + [r])
  {
    var owner' := owner + GivenTo(r.valueBlocks, ValueOf(|rs|)) + GivenTo(r.keyBlocks, KeyOf(|rs|));
    forall b | b in owner' ensures OnItsChain(owner'[b], b, free2, rs + [r]) {
      if b !in r.keyBlocks && b !in r.valueBlocks { assert OnItsChain(owner[b], b, free, rs); }
    }
  }

  ghost predicate PairTaken(owner: map<nat, Owner>, owner': map<nat, Owner>, free: seq<nat>, free1: seq<nat>,
                            free2: seq<nat>, cv: seq<nat>, ck: seq<nat>, n: nat) {
    && owner' == owner + GivenTo(cv, ValueOf(n)) + GivenTo(ck, KeyOf(n))
    && TakenFrom(free, free1, cv) && TakenFrom(free1, free2, ck)
  }

  lemma StillNoneLost(owner: map<nat, Owner>, owner': map<nat, Owner>, free: seq<nat>, free1: seq<nat>,
                      free2: seq<nat>, rs: seq<Rec>, r: Rec)
    requires PairTaken(owner, owner', free, free1, free2, r.valueBlocks, r.keyBlocks, |rs|)
    ensures NoneLost(owner, free, rs) ==> NoneLost(owner', free2, rs + [r])
  {
    if NoneLost(owner, free, rs) { NoneLostAdding(owner, free, free1, free2, rs, r); }
  }

  ghost function PairsOf(rs: seq<Rec>): (ps: seq<KvSpec.Pair>)
    ensures |ps| == |rs| && forall i :: 0 <= i < |rs| ==> ps[i] == KvSpec.Pair(rs[i].key, rs[i].value)
  {
    seq(|rs|, i requires 0 <= i < |rs| => KvSpec.Pair(rs[i].key, rs[i].value))
  }

  // The blocks that belong to who stay his and stay as they are.
  ghost predicate Preserves(blk: map<nat, Block>, blk': map<nat, Block>, owner: map<nat, Owner>,
                            owner': map<nat, Owner>, who: Owner)
  {
    forall b {:trigger b in owner} :: b in owner && owner[b] == who && b in blk ==>
      b in blk' && blk'[b] == blk[b] && b in owner' && owner'[b] == who
  }

  lemma StoredPreserved(blk: map<nat, Block>, blk': map<nat, Block>, owner: map<nat, Owner>, owner': map<nat, Owner>,
                        c: seq<nat>, s: string, who: Owner)
    requires Stored(blk, owner, c, s, who) && Preserves(blk, blk', owner, owner', who)
    ensures Stored(blk', owner', c, s, who)
  {
    forall i | 0 <= i < |c| ensures c[i] in blk { assert Linked(blk, c, 0, i); }
    HoldsKept(blk, blk', c, s);
  }

  lemma AllocPreserves(blk: map<nat, Block>, blk': map<nat, Block>, owner: map<nat, Owner>, owner': map<nat, Owner>,
                       c: seq<nat>, who: Owner, other: Owner)
    requires Allocated(blk, blk', owner, owner', c, who) && other != Free
    ensures Preserves(blk, blk', owner, owner', other)
  {
  }

  lemma FreeingPreserves(blk: map<nat, Block>, blk': map<nat, Block>, owner: map<nat, Owner>, owner': map<nat, Owner>,
                         tail: nat, next: nat, v: seq<nat>, who: Owner, other: Owner)
    requires tail in blk && tail in owner && owner[tail] == Free && blk' == blk[tail := blk[tail].(next := next)]
    requires Owned(owner, v, who) && owner' == owner + GivenTo(v, Free) && other != Free && other != who
    ensures Preserves(blk, blk', owner, owner', other)
  {
  }

  lemma GivingPreserves(blk: map<nat, Block>, owner: map<nat, Owner>, v: seq<nat>, who: Owner, to: Owner, other: Owner)
    requires Owned(owner, v, who) && other != who
    ensures Preserves(blk, blk, owner, owner + GivenTo(v, to), other)
  {
  }

  lemma PreservesTwice(blk: map<nat, Block>, blk': map<nat, Block>, blk'': map<nat, Block>, owner: map<nat, Owner>,
                       owner': map<nat, Owner>, owner'': map<nat, Owner>, who: Owner)
    requires Preserves(blk, blk', owner, owner', who) && Preserves(blk', blk'', owner', owner'', who)
    ensures Preserves(blk, blk'', owner, owner'', who)
  {
  }

  ghost predicate PreservesRecords(blk: map<nat, Block>, blk': map<nat, Block>, owner: map<nat, Owner>,
                                   owner': map<nat, Owner>)
  {
    forall who: Owner {:trigger Preserves(blk, blk', owner, owner', who)} ::
      who.KeyOf? || who.ValueOf? ==> Preserves(blk, blk', owner, owner', who)
  }

  // The same, except for the blocks of the i-th value.
  ghost predicate PreservesAllBut(blk: map<nat, Block>, blk': map<nat, Block>, owner: map<nat, Owner>,
                                  owner': map<nat, Owner>, i: nat)
  {
    forall who: Owner {:trigger Preserves(blk, blk', owner, owner', who)} ::
      (who.KeyOf? || (who.ValueOf? && who.rec != i)) ==> Preserves(blk, blk', owner, owner', who)
  }

  // A record whose blocks and entry are untouched is as good as before.
  lemma NthKept(blk: map<nat, Block>, blk': map<nat, Block>, owner: map<nat, Owner>, owner': map<nat, Owner>,
                tabs: map<nat, Tab>, tabs': map<nat, Tab>, at: seq<nat>, at': seq<nat>, rs: seq<Rec>, rs': seq<Rec>,
                i: int)
    requires NthOk(blk, owner, tabs, at, rs, i) && i < |rs'| && |at'| == |rs'| + 1
    requires at'[i] == at[i] && at'[i + 1] == at[i + 1] && rs'[i] == rs[i]
    requires at[i] in tabs' && tabs'[at[i]] == tabs[at[i]]
    requires Preserves(blk, blk', owner, owner', KeyOf(i)) && Preserves(blk, blk', owner, owner', ValueOf(i))
    ensures NthOk(blk', owner', tabs', at', rs', i)
  {
    StoredPreserved(blk, blk', owner, owner', rs[i].keyBlocks, rs[i].key, KeyOf(i));
    StoredPreserved(blk, blk', owner, owner', rs[i].valueBlocks, rs[i].value, ValueOf(i));
  }

  // The i-th record gets a new value.
  lemma RecordReplaced(blk: map<nat, Block>, blk': map<nat, Block>, owner: map<nat, Owner>, owner': map<nat, Owner>,
                       tabs: map<nat, Tab>, at: seq<nat>, rs: seq<Rec>, i: nat, value: string, c: seq<nat>)
    requires Records(blk, owner, tabs, at, rs) && i < |rs| && at[i] in tabs && |c| > 0
    requires PreservesAllBut(blk, blk', owner, owner', i)
    requires Stored(blk', owner', c, value, ValueOf(i))
    ensures Records(blk', owner', tabs[at[i] := tabs[at[i]].(value := c[0], valueLen := |value|)], at,
                    rs[i := rs[i].(value := value, valueBlocks := c)])
  {
    var tabs' := tabs[at[i] := tabs[at[i]].(value := c[0], valueLen := |value|)];
    var rs' := rs[i := rs[i].(value := value, valueBlocks := c)];
    assert Differ(at, i, |rs|);
    forall j | 0 <= j < |rs| ensures NthOk(blk', owner', tabs', at, rs', j) {
      assert NthOk(blk, owner, tabs, at, rs, j);
      assert Preserves(blk, blk', owner, owner', KeyOf(j));
      if j == i {
        StoredPreserved(blk, blk', owner, owner', rs[i].keyBlocks, rs[i].key, KeyOf(i));
      } else {
        assert Preserves(blk, blk', owner, owner', ValueOf(j));
        assert if i < j then Differ(at, i, j) else Differ(at, j, i);
        NthKept(blk, blk', owner, owner', tabs, tabs', at, at, rs, rs', j);
      }
    }
  }

  // A new record takes the place of the empty one; a new empty one follows it.
  lemma RecordAppended(blk: map<nat, Block>, blk': map<nat, Block>, owner: map<nat, Owner>, owner': map<nat, Owner>,
                       tabs: map<nat, Tab>, tabs': map<nat, Tab>, at: seq<nat>, rs: seq<Rec>, r: Rec, next: nat)
    requires Records(blk, owner, tabs, at, rs) && PreservesRecords(blk, blk', owner, owner')
    requires Stored(blk', owner', r.keyBlocks, r.key, KeyOf(|rs|))
      && Stored(blk', owner', r.valueBlocks, r.value, ValueOf(|rs|))
    requires |r.keyBlocks| > 0 && |r.valueBlocks| > 0 && next != 0 && next !in tabs
    requires var tab := Tab(next, r.keyBlocks[0], |r.key|, r.valueBlocks[0], |r.value|);
      tabs' == tabs[next := ZERO_TAB][at[|rs|] := tab]
    ensures Records(blk', owner', tabs', at + [next], rs + [r])
  {
    var rs', at' := rs + [r], at + [next];
    forall j | 0 <= j < |at| ensures at[j] in tabs {
      if j < |rs| { assert NthOk(blk, owner, tabs, at, rs, j); }
    }
    DistinctSnoc(at, next);
    forall j | 0 <= j < |rs'| ensures NthOk(blk', owner', tabs', at', rs', j) {
      if j < |rs| {
        assert NthOk(blk, owner, tabs, at, rs, j);
        assert Preserves(blk, blk', owner, owner', KeyOf(j)) && Preserves(blk, blk', owner, owner', ValueOf(j));
        assert Differ(at, j, |rs|);
        NthKept(blk, blk', owner, owner', tabs, tabs', at, at', rs, rs', j);
      }
    }
  }

  class KvFile {
    // The header's free_list: head and tail of the recycling list, size of the file.
    var head: nat
    var tail: nat
    var size: nat
    // The body, by offset.
    var blk: map<nat, Block>
    var tabs: map<nat, Tab>
    ghost var free: seq<nat>
    ghost var owner: map<nat, Owner>

    ghost var recs: seq<Rec>
    ghost var at: seq<nat>

    ghost predicate Valid()
      reads this
    {
      Sound() && Records(blk, owner, tabs, at, recs)
    }

    // What string allocation needs of the file.
    ghost predicate Sound()
      reads this
    {
      && FreeList(blk, owner, head, tail, free)
      && HEADER_LEN + TAB_SIZE <= size
      && Layout(blk, tabs, size - HEADER_LEN)
      && owner.Keys == blk.Keys
    }

    method GetEnd(append: nat) returns (ret: nat)
      modifies this`size
      ensures ret == old(size) && size == old(size) + append
    {
      ret := size;
      size := ret + append;
    }

    // Overwrites the first characters of a block; what was never written is 0.
    method WriteInfo(off: nat, chars: string)
      requires |chars| <= BLOCK_LEN
      modifies this`blk
      ensures var was := if off in old(blk) then old(blk)[off] else Block(Zeros(BLOCK_LEN), 0);
        blk == old(blk)[off := was.(info := chars + was.info[|chars|..])]
    {
      var was := if off in blk then blk[off] else Block(Zeros(BLOCK_LEN), 0);
      blk := blk[off := was.(info := chars + was.info[|chars|..])];
    }

    method WriteNext(off: nat, next: nat)
      requires off in blk
      modifies this`blk
      ensures blk == old(blk)[off := old(blk)[off].(next := next)]
    {
      blk := blk[off := blk[off].(next := next)];
    }

    // Stores the i-th block of src, of which len characters are left, at cur.
    method WriteChunk(cur: nat, src: string, i: nat, len: int)
      requires i < Chunks(src) && len == |src| - BLOCK_LEN * i
      modifies this`blk
      ensures blk == old(blk)[cur := Block(Chunk(src, i), if cur in old(blk) then old(blk)[cur].next else 0)]
    {
      if len < BLOCK_LEN {
        WriteInfo(cur, Zeros(BLOCK_LEN));
        WriteInfo(cur, src[BLOCK_LEN * i..]);
        assert blk[cur].info == Chunk(src, i);
      } else {
        WriteInfo(cur, src[BLOCK_LEN * i..BLOCK_LEN * i + BLOCK_LEN]);
        assert blk[cur].info == Chunk(src, i);
      }
    }

    // The block after prev: from the recycling list while there are any before
    // its reserved last one, then from the end of the file.
    method NextBlock(prev: nat, reserved: nat, flag: bool) returns (cur: nat, left: bool)
      requires flag ==> prev in blk
      requires HEADER_LEN <= size
      modifies this`head, this`size
      ensures left <==> flag && blk[prev].next != reserved
      ensures left ==> cur == blk[prev].next && head == old(head) && size == old(size)
      ensures !left ==> cur == old(size) - HEADER_LEN && size == old(size) + BLOCK_SIZE
      ensures !left && flag ==> head == reserved
      ensures !flag ==> head == old(head)
    {
      left := flag;
      if flag {
        cur := blk[prev].next;
        if cur == reserved {
          head := reserved;
          var end := GetEnd(BLOCK_SIZE);
          cur := end - HEADER_LEN;
          left := false;
        }
      } else {
        var end := GetEnd(BLOCK_SIZE);
        cur := end - HEADER_LEN;
      }
    }

    // One turn of the loop of AllocStr: writes a block and links it to the next.
    method StoreBlock(src: string, i: nat, len0: int, prev: nat, reserved: nat, flag0: bool,
                      ghost blk0: map<nat, Block>, ghost f: seq<nat>, ghost e0: nat, ghost c: seq<nat>, ghost m: nat)
      returns (cur: nat, len: int, flag: bool, ghost m': nat)
      requires 0 < len0 == |src| - BLOCK_LEN * i && |c| == i < Chunks(src)
      requires Building(blk0, blk, f, e0, c, m, src, prev) && Distinct(f) && TAB_SIZE <= e0
      requires Position(f, c, m, prev, flag0, blk, tabs, e0, size)
      requires Below(blk0, f, e0) && reserved == f[|f| - 1]
      modifies this`head, this`size, this`blk
      ensures len == len0 - BLOCK_LEN && old(size) <= size <= old(size) + BLOCK_SIZE
      ensures m' == (if flag0 then m + 1 else m)
      ensures Building(blk0, blk, f, e0, c + [prev], m', src, if len > 0 then cur else 0)
      ensures Position(f, c + [prev], m', cur, flag, blk, tabs, e0, size)
    {
      ghost var blk1, size1 := blk, size;
      WriteChunk(prev, src, i, len0);
      len := len0 - BLOCK_LEN;
      cur, flag := NextBlock(prev, reserved, flag0);
      if len > 0 {
        WriteNext(prev, cur);
      } else {
        if flag { head := cur; }
        WriteNext(prev, 0);
      }
      ghost var v := Block(Chunk(src, i), if len > 0 then cur else 0);
      assert blk == blk1[prev := v];
      assert !flag0 ==> prev !in blk1;
      BuildStep(blk0, blk1, f, e0, c, m, src, prev, v.next, flag0);
      PositionStep(blk0, blk1, blk, tabs, f, e0, c, m, src, prev, cur, flag0, flag, size1, size, v);
      m' := if flag0 then m + 1 else m;
    }

    // The loop of AllocStr: the blocks of src, from the block at first on.
    method StoreBlocks(src: string, first: nat, reserved: nat, flag0: bool, ghost blk0: map<nat, Block>,
                       ghost f: seq<nat>, ghost e0: nat)
      returns (cur: nat, flag: bool, ghost c: seq<nat>, ghost m: nat)
      requires src != "" && Distinct(f) && TAB_SIZE <= e0 && Below(blk0, f, e0) && |f| > 0 && reserved == f[|f| - 1]
      requires Building(blk0, blk, f, e0, [], 0, src, first) && Position(f, [], 0, first, flag0, blk, tabs, e0, size)
      modifies this`head, this`size, this`blk
      ensures Building(blk0, blk, f, e0, c, m, src, 0) && Position(f, c, m, cur, flag, blk, tabs, e0, size)
      ensures |c| == Chunks(src) && c[0] == first
      ensures old(size) <= size <= old(size) + BLOCK_SIZE * |c|
    {
      cur, flag := first, flag0;
      var len := |src|;
      var i := 0;  // src has advanced by i blocks
      c, m := [], 0;
      while len > 0
        invariant len == |src| - BLOCK_LEN * i && |c| == i <= Chunks(src)
        invariant Building(blk0, blk, f, e0, c, m, src, if len > 0 then cur else 0)
        invariant Position(f, c, m, cur, flag, blk, tabs, e0, size)
        invariant first == if i > 0 then c[0] else cur
        invariant old(size) <= size <= old(size) + BLOCK_SIZE * i
      {
        ghost var was := cur;
        cur, len, flag, m := StoreBlock(src, i, len, cur, reserved, flag, blk0, f, e0, c, m);
        c := c + [was];
        i := i + 1;
      }
    }

    // Where a string starts: at the head of the recycling list, if more than the
    // reserved block is on it, or else at the end of the file.
    method FirstBlock(ghost src: string) returns (ret: nat, flag: bool)
      requires Sound()
      modifies this`size
      ensures (flag <==> head != tail) && (flag ==> ret == head)
      ensures size == old(size) + if flag then 0 else BLOCK_SIZE
      ensures var e0 := old(size) - HEADER_LEN;
        && Building(blk, blk, free, e0, [], 0, src, ret) && Position(free, [], 0, ret, flag, blk, tabs, e0, size)
        && Below(blk, free, e0)
    {
      ghost var e0 := size - HEADER_LEN;
      flag := head != tail;
      if flag {
        ret := head;
      } else {
        ret := GetEnd(BLOCK_SIZE);
        ret := ret - HEADER_LEN;
      }
      AllocStart(blk, tabs, owner, head, tail, free, e0, src, ret, flag, size);
    }

    // Stores src; what is left of the recycling list starts at head'.
    method StoreString(src: string, ghost who: Owner) returns (ret: nat, head': nat, ghost c: seq<nat>, ghost m: nat)
      requires Sound() && src != "" && who != Free
      modifies this`head, this`size, this`blk
      ensures |c| == Chunks(src) > 0 && ret == c[0] && Distinct(c) && m <= |free|
      ensures TakenFrom(free, free[m..], c)
      ensures old(head) != tail ==> ret == old(head)
      ensures Holds(blk, c, src) && Allocated(old(blk), blk, owner, owner + GivenTo(c, who), c, who)
      ensures FreeList(blk, owner + GivenTo(c, who), head', tail, free[m..])
        && (owner + GivenTo(c, who)).Keys == blk.Keys
      ensures old(size) <= size <= old(size) + BLOCK_SIZE * (Chunks(src) + 1)
      ensures Layout(blk, tabs, size - HEADER_LEN)
    {
      ghost var blk0, head0: nat, e0: nat := blk, head, size - HEADER_LEN;
      var flag, cur;
      ret, flag := FirstBlock(src);
      cur, flag, c, m := StoreBlocks(src, ret, tail, flag, blk0, free, e0);
      AllocDone(blk0, blk, free, e0, c, m, src, owner, owner + GivenTo(c, who), who, head0, tail, tabs, cur, flag,
        size);
      PrefixTaken(free, m, c);
      head' := if flag then cur else tail;
    }

    // Stores src. An empty string gets no block of its own: it starts at the head of the
    // recycling list and leaves it there, or at the old end of the file, where nothing is written.
    method AllocStr(src: string, ghost who: Owner) returns (ret: nat, ghost c: seq<nat>)
      requires Sound() && who != Free
      modifies this`head, this`size, this`blk, this`free, this`owner
      ensures Sound() && Holds(blk, c, src) && Distinct(c) && Allocated(old(blk), blk, old(owner), owner, c, who)
      ensures src != "" ==> |c| > 0 && ret == c[0]
      ensures TakenFrom(old(free), free, c)
      ensures src == "" ==> blk == old(blk) && free == old(free) && owner == old(owner)
      ensures old(head) != tail ==> ret == old(head)
      ensures src == "" ==>
        if old(head) != tail then ret in free && size == old(size) else ret !in blk && size > old(size)
      ensures old(size) <= size <= old(size) + BLOCK_SIZE * (Chunks(src) + 1)
    {
      if src == "" {
        ret := AllocEmpty(who);
        c := [];
      } else {
        var head';
        ghost var m;
        ret, head', c, m := StoreString(src, who);
        head, free, owner := head', free[m..], owner + GivenTo(c, who);
      }
    }

    method AllocEmpty(ghost who: Owner) returns (ret: nat)
      requires Sound() && who != Free
      modifies this`head, this`size
      ensures Sound() && Holds(blk, [], "") && Allocated(blk, blk, owner, owner, [], who)
      ensures if old(head) != tail then ret == old(head) && ret in free && size == old(size)
        else ret !in blk && size == old(size) + BLOCK_SIZE
    {
      ghost var end: nat := size - HEADER_LEN;
      var flag;
      ret, flag := FirstBlock("");
      LayoutGrows(blk, tabs, end, size - HEADER_LEN);
      head := if flag then ret else tail;
    }

    // ----- recycling -----

    // Appends the chain v, which starts at cur, to the recycling list.
    method AddFreeList(cur0: nat, ghost v: seq<nat>, ghost s: string, ghost who: Owner)
      requires Sound() && Stored(blk, owner, v, s, who) && who != Free && |v| > 0 && cur0 == v[0]
      modifies this`tail, this`blk, this`free, this`owner
      ensures Sound() && free == old(free) + v && owner == old(owner) + GivenTo(v, Free)
      ensures old(tail) in old(blk) && blk == old(blk)[old(tail) := old(blk)[old(tail)].(next := cur0)]
    {
      var tailOld := tail;
      assert Linked(blk, free, 0, |free| - 1);
      ghost var blk0 := blk;
      WriteNext(tailOld, cur0);
      AppendChain(blk0, blk, owner, free, v, s, who);
      var cur, prev := cur0, cur0;
      ghost var i := 0;
      assert Linked(blk, v, 0, 0);
      while cur != 0
        invariant 0 <= i <= |v| && cur == (if i < |v| then v[i] else 0) && (i > 0 ==> prev == v[i - 1])
        invariant i == 0 ==> prev == cur
        decreases |v| - i
      {
        assert Linked(blk, v, 0, i);
        prev := cur;
        cur := blk[cur].next;
        i := i + 1;
      }
      tail := prev;
      free := free + v;
      owner := owner + GivenTo(v, Free);
    }

    // ----- searching -----

    // Compares key with the string whose first block is str0.
    method StringCmp(key0: string, str0: Block, ghost c: seq<nat>, ghost s: string) returns (r: int)
      requires Layout(blk, tabs, size) && Holds(blk, c, s) && s != "" && IsText(s) && IsText(key0)
      requires |c| > 0 && c[0] in blk && str0 == blk[c[0]]
      ensures r == 0 <==> Matches(s, key0)
    {
      var key, str := key0, str0;
      ghost var j := 0;
      BlocksCmpIsMatch(key0, s, 0);
      assert s[0..] == s;
      ReadBlock(blk, tabs, size, c, s, 0);
      while str.next != 0
        invariant 0 <= j < |c| == Chunks(s) && c[j] in blk && str == blk[c[j]] && IsText(key)
        invariant str.info == Chunk(s, j) && (str.next == 0 <==> j + 1 == |c|)
        invariant BlocksCmp(key, s, j) == 0 <==> Matches(s, key0)
        decreases |c| - j
      {
        r := StrNCmp(key, str.info, BLOCK_LEN);
        assert IsText(str.info);
        StrNCmpFull(key, str.info, BLOCK_LEN);
        if r != 0 { return; }
        key := key[BLOCK_LEN..];
        ReadBlock(blk, tabs, size, c, s, j);
        str := blk[str.next];
        j := j + 1;
        ReadBlock(blk, tabs, size, c, s, j);
      }
      r := StrNCmp(key, str.info, BLOCK_LEN);
    }

    // Copies the string whose first block is str0 into dst.
    method StringCpy(dst: array<char>, str0: Block, ghost c: seq<nat>, ghost s: string)
      requires Layout(blk, tabs, size) && Holds(blk, c, s) && s != "" && IsText(s) && dst.Length == |s| + 1
      requires |c| > 0 && c[0] in blk && str0 == blk[c[0]]
      modifies dst
      ensures dst[..] == s + "\0"
    {
      var str := str0;
      var off := 0;
      ghost var j := 0;
      ReadBlock(blk, tabs, size, c, s, 0);
      while str.next != 0
        invariant 0 <= j < |c| == Chunks(s) && c[j] in blk && str == blk[c[j]] && off == BLOCK_LEN * j
        invariant str.info == Chunk(s, j) && (str.next == 0 <==> j + 1 == |c|)
        invariant dst[..off] == s[..off]
        decreases |c| - j
      {
        CopyFull(dst, off, str.info, s, j);
        off := off + BLOCK_LEN;
        str := NextInfo(str, c, s, j);
        j := j + 1;
      }
      CopyLast(dst, off, str.info, s, j);
    }

    // The block behind the j-th one of a string.
    method NextInfo(str: Block, ghost c: seq<nat>, ghost s: string, ghost j: nat) returns (str': Block)
      requires Layout(blk, tabs, size) && Holds(blk, c, s) && IsText(s)
      requires j + 1 < |c| == Chunks(s) && c[j] in blk && str == blk[c[j]] && str.next != 0
      ensures c[j + 1] in blk && str' == blk[c[j + 1]]
      ensures str'.info == Chunk(s, j + 1) && (str'.next == 0 <==> j + 2 == |c|)
    {
      ReadBlock(blk, tabs, size, c, s, j);
      str' := blk[str.next];
      ReadBlock(blk, tabs, size, c, s, j + 1);
    }

    // strcpy runs from the characters of a full last block into its empty link.
    method CopyLast(dst: array<char>, off: nat, info: Info, ghost s: string, ghost j: nat)
      requires IsText(s) && s != "" && j + 1 == Chunks(s) && info == Chunk(s, j) && off == BLOCK_LEN * j
      requires dst.Length == |s| + 1 && dst[..off] == s[..off]
      modifies dst
      ensures dst[..] == s + "\0"
    {
      var src := info + Zeros(4);
      CStrOfLastChunk(s);
      assert CStr(src) == s[off..];
      StrCpy(dst, off, src);
      assert dst[..|s|] == dst[..off] + dst[off..|s|];
      assert s == s[..off] + s[off..];
      assert dst[..] == dst[..|s|] + [dst[|s|]];
    }

    method CopyFull(dst: array<char>, off: nat, info: Info, ghost s: string, ghost j: nat)
      requires IsText(s) && j + 1 < Chunks(s) && info == Chunk(s, j) && off == BLOCK_LEN * j
      requires dst.Length == |s| + 1 && dst[..off] == s[..off]
      modifies dst
      ensures dst[..off + BLOCK_LEN] == s[..off + BLOCK_LEN]
    {
      assert IsText(info);
      assert info[..BLOCK_LEN] == info;
      StrNCpy(dst, off, info, BLOCK_LEN);
      assert dst[..off + BLOCK_LEN] == dst[..off] + dst[off..off + BLOCK_LEN];
      assert s[..off + BLOCK_LEN] == s[..off] + info;
    }

    // Walks the records up to the first one accepted for key.
    method Search(key: string) returns (found: bool, off: nat, tab: Tab, ghost i: nat)
      requires Valid() && IsText(key)
      ensures i == KvSpec.Find(PairsOf(recs), key) && i <= |recs|
      ensures found <==> i < |recs|
      ensures off == at[i] && off in tabs && tab == tabs[off]
    {
      off, i, found := 0, 0, false;
      if |recs| > 0 { assert NthOk(blk, owner, tabs, at, recs, 0); }
      tab := tabs[off];
      while tab.next != 0
        invariant i <= |recs| && off == at[i] && off in tabs && tab == tabs[off]
        invariant forall j :: 0 <= j < i ==> !Matches(recs[j].key, key)
        decreases |recs| - i
      {
        assert NthOk(blk, owner, tabs, at, recs, i);
        ReadBlock(blk, tabs, size, recs[i].keyBlocks, recs[i].key, 0);
        var r := StringCmp(key, blk[tab.key], recs[i].keyBlocks, recs[i].key);
        if r == 0 {
          KvSpec.FindIs(PairsOf(recs), key, i);
          found := true;
          return;
        }
        if i + 1 < |recs| { assert NthOk(blk, owner, tabs, at, recs, i + 1); }
        off := tab.next;
        tab := tabs[off];
        i := i + 1;
      }
      assert i < |recs| ==> NthOk(blk, owner, tabs, at, recs, i);
      KvSpec.FindIs(PairsOf(recs), key, i);
    }

    // No chain runs twice through a block, no two chains share one, and no two blocks
    // or records share a byte of the file.
    lemma ChainsApart(i: nat, j: nat)
      requires Valid() && i < |recs| && j < |recs|
      ensures Distinct(recs[i].keyBlocks) && Distinct(recs[i].valueBlocks) && Distinct(free) && Distinct(at)
      ensures forall b :: b in recs[i].keyBlocks ==> b !in recs[j].valueBlocks && b !in free && b in blk
      ensures forall b :: b in recs[i].valueBlocks ==> b !in free && b in blk
      ensures i != j ==> forall b :: b in recs[i].keyBlocks ==> b !in recs[j].keyBlocks
      ensures i != j ==> forall b :: b in recs[i].valueBlocks ==> b !in recs[j].valueBlocks
      ensures at[i] in tabs && at[|recs|] in tabs
      ensures forall b, b' {:trigger Clear(b, BLOCK_SIZE, b', BLOCK_SIZE)} :: b in blk && b' in blk && b != b' ==>
        Clear(b, BLOCK_SIZE, b', BLOCK_SIZE)
      ensures forall t, t' {:trigger Clear(t, TAB_SIZE, t', TAB_SIZE)} :: t in tabs && t' in tabs && t != t' ==>
        Clear(t, TAB_SIZE, t', TAB_SIZE)
      ensures forall b, t {:trigger Clear(b, BLOCK_SIZE, t, TAB_SIZE)} :: b in blk && t in tabs ==>
        Clear(b, BLOCK_SIZE, t, TAB_SIZE)
      ensures forall b {:trigger b in blk} :: b in blk ==> HEADER_LEN + b + BLOCK_SIZE <= size
      ensures forall t {:trigger t in tabs} :: t in tabs ==> HEADER_LEN + t + TAB_SIZE <= size
    {
      assert NthOk(blk, owner, tabs, at, recs, i) && NthOk(blk, owner, tabs, at, recs, j);
    }

    // The value found for key, as a fresh C string, or null.
    method Get(key: string) returns (buf: array?<char>)
      requires Valid() && IsText(key)
      ensures var r := KvSpec.Get(PairsOf(recs), key);
        if r.None? then buf == null else buf != null && fresh(buf) && buf[..] == r.value + "\0"
    {
      var found, off, tab;
      ghost var i;
      found, off, tab, i := Search(key);
      if !found { return null; }
      assert NthOk(blk, owner, tabs, at, recs, i);
      ReadBlock(blk, tabs, size, recs[i].valueBlocks, recs[i].value, 0);
      var dst := new char[tab.valueLen + 1];
      StringCpy(dst, blk[tab.value], recs[i].valueBlocks, recs[i].value);
      buf := dst;
    }

    // ----- storing -----

    // An empty store: one empty record, and the reserved block of the recycling list.
    constructor ()
      ensures Valid() && recs == [] && size == HEADER_LEN + TAB_SIZE + BLOCK_SIZE
      ensures NoneLost(owner, free, recs)
    {
      head, tail, size := TAB_SIZE, TAB_SIZE, HEADER_LEN + TAB_SIZE + BLOCK_SIZE;
      tabs := map[0 := ZERO_TAB];
      blk := map[TAB_SIZE := Block(Zeros(BLOCK_LEN), 0)];
      free, owner, recs, at := [TAB_SIZE], map[TAB_SIZE := Free], [], [0];
      new;
      assert Linked(blk, free, 0, 0);
    }

    // Gives the i-th record, found at off, a new value; its old blocks are recycled.
    method Replace(off: nat, tab: Tab, value: string, ghost i: nat)
      requires Valid() && i < |recs| && off == at[i] && off in tabs && tab == tabs[off]
      requires value != "" && IsText(value)
      modifies this
      ensures Valid() && PairsOf(recs) == PairsOf(old(recs))[i := KvSpec.Pair(old(recs)[i].key, value)]
      ensures old(NoneLost(owner, free, recs)) ==> NoneLost(owner, free, recs)
      ensures size <= old(size) + BLOCK_SIZE * (Chunks(value) + 1) && head != tail
    {
      ghost var blk0, owner0, tabs0, free0, r := blk, owner, tabs, free, recs[i];
      assert NthOk(blk, owner, tabs, at, recs, i);
      ghost var c, free1 := SwapValue(off, tab, value, r, i);
      RecordReplaced(blk0, blk, owner0, owner, tabs0, at, recs, i, value, c);
      assert Differ(free, 0, |free| - 1);
      ghost var r' := r.(value := value, valueBlocks := c);
      if NoneLost(owner0, free0, recs) { NoneLostReplacing(owner0, free0, free1, recs, i, r', c); }
      recs := recs[i := r'];
    }

    method SwapValue(off: nat, tab: Tab, value: string, ghost r: Rec, ghost i: nat)
      returns (ghost c: seq<nat>, ghost free1: seq<nat>)
      requires Sound() && off in tabs && value != "" && IsText(value)
      requires Stored(blk, owner, r.valueBlocks, r.value, ValueOf(i)) && |r.valueBlocks| > 0
        && tab.value == r.valueBlocks[0]
      modifies this`head, this`tail, this`size, this`blk, this`tabs, this`free, this`owner
      ensures Sound() && Stored(blk, owner, c, value, ValueOf(i)) && |c| > 0
      ensures PreservesAllBut(old(blk), blk, old(owner), owner, i) && |free| > 1
      ensures tabs == old(tabs)[off := tab.(value := c[0], valueLen := |value|)]
      ensures TakenFrom(old(free), free1, c) && free == free1 + r.valueBlocks
      ensures owner == old(owner) + GivenTo(r.valueBlocks, Free) + GivenTo(c, ValueOf(i))
      ensures size <= old(size) + BLOCK_SIZE * (Chunks(value) + 1)
    {
      ghost var blk0, owner0 := blk, owner;
      var v;
      v, c := AllocStr(value, Loose);
      free1 := free;
      WriteTab(off, tab.(value := v, valueLen := |value|));
      Recycle(tab.value, value, blk0, owner0, r, c, i);
      Claim(c, Loose, ValueOf(i), value);
      Overwritten(owner0, r.valueBlocks, c, i);
    }

    // Recycles the old value of the i-th record; the new one is in chain c.
    method Recycle(backup: nat, ghost value: string, ghost blk0: map<nat, Block>, ghost owner0: map<nat, Owner>,
                   ghost r: Rec, ghost c: seq<nat>, ghost i: nat)
      requires Sound() && Allocated(blk0, blk, owner0, owner, c, Loose)
      requires Stored(blk0, owner0, r.valueBlocks, r.value, ValueOf(i)) && |r.valueBlocks| > 0
        && backup == r.valueBlocks[0]
      requires Stored(blk, owner, c, value, Loose)
      modifies this`tail, this`blk, this`free, this`owner
      ensures Sound() && Stored(blk, owner, c, value, Loose) && |free| > 1
      ensures PreservesAllBut(blk0, blk, owner0, owner + GivenTo(c, ValueOf(i)), i)
      ensures free == old(free) + r.valueBlocks && owner == old(owner) + GivenTo(r.valueBlocks, Free)
    {
      ghost var blk1, owner1, tail1 := blk, owner, tail;
      AllocPreserves(blk0, blk1, owner0, owner1, c, Loose, ValueOf(i));
      StoredPreserved(blk0, blk1, owner0, owner1, r.valueBlocks, r.value, ValueOf(i));
      AddFreeList(backup, r.valueBlocks, r.value, ValueOf(i));
      ReplaceOwners(blk0, blk1, blk, owner0, owner1, owner, tail1, backup, r.valueBlocks, c, i, value);
    }

    // Fills the empty record at off; the chain of records gets a new empty end.
    method Append(off: nat, key: string, value: string)
      requires Valid() && off == at[|recs|]
      requires key != "" && IsText(key) && value != "" && IsText(value)
      modifies this
      ensures Valid() && PairsOf(recs) == PairsOf(old(recs)) + [KvSpec.Pair(key, value)]
      ensures old(NoneLost(owner, free, recs)) ==> NoneLost(owner, free, recs)
      ensures size <= old(size) + BLOCK_SIZE * (Chunks(key) + Chunks(value) + 2) + TAB_SIZE
    {
      ghost var owner0, free0 := owner, free;
      ghost var r, next, free1 := FillRecord(off, key, value);
      StillNoneLost(owner0, owner, free0, free1, free, recs, r);
      recs, at := recs + [r], at + [next];
    }

    // The new record, not yet counted among the others.
    method FillRecord(off: nat, key: string, value: string)
      returns (ghost r: Rec, ghost next: nat, ghost free1: seq<nat>)
      requires Valid() && off == at[|recs|]
      requires key != "" && IsText(key) && value != "" && IsText(value)
      modifies this`head, this`size, this`blk, this`free, this`owner, this`tabs
      ensures Sound() && Records(blk, owner, tabs, at + [next], recs + [r]) && r.key == key && r.value == value
      ensures PairTaken(old(owner), owner, old(free), free1, free, r.valueBlocks, r.keyBlocks, |recs|)
      ensures size <= old(size) + BLOCK_SIZE * (Chunks(key) + Chunks(value) + 2) + TAB_SIZE
    {
      ghost var blk0, owner0, tabs0 := blk, owner, tabs;
      var v, k;
      ghost var cv, ck;
      v, k, cv, ck, free1 := AllocPair(key, value, |recs|);
      next := NewRecord(off, key, k, value, v);
      r := Rec(key, value, ck, cv);
      RecordAppended(blk0, blk, owner0, owner, tabs0, tabs, at, recs, r, next);
    }

    // Stores both strings of a new record, the value first.
    method AllocPair(key: string, value: string, ghost n: nat)
      returns (v: nat, k: nat, ghost cv: seq<nat>, ghost ck: seq<nat>, ghost free1: seq<nat>)
      requires Sound() && key != "" && IsText(key) && value != "" && IsText(value)
      modifies this`head, this`size, this`blk, this`free, this`owner
      ensures Sound() && |cv| > 0 && v == cv[0] && |ck| > 0 && k == ck[0]
      ensures Stored(blk, owner, ck, key, KeyOf(n)) && Stored(blk, owner, cv, value, ValueOf(n))
      ensures PreservesRecords(old(blk), blk, old(owner), owner)
      ensures PairTaken(old(owner), owner, old(free), free1, free, cv, ck, n)
      ensures size <= old(size) + BLOCK_SIZE * (Chunks(key) + Chunks(value) + 2)
    {
      ghost var blk0, owner0 := blk, owner;
      v, cv := AllocStr(value, ValueOf(n));
      ghost var blk1, owner1 := blk, owner;
      free1 := free;
      k, ck := AllocStr(key, KeyOf(n));
      TwoAllocs(blk0, blk1, blk, owner0, owner1, owner, cv, ck, value, n);
    }

    // Fills in the record at off and adds an empty one at the end of the file.
    method NewRecord(off: nat, key: string, k: nat, value: string, v: nat) returns (ghost next: nat)
      requires Sound() && off in tabs
      modifies this`size, this`tabs
      ensures Sound() && size == old(size) + TAB_SIZE && next != 0 && next !in old(tabs)
      ensures tabs == old(tabs)[next := ZERO_TAB][off := Tab(next, k, |key|, v, |value|)]
    {
      var end := GetEnd(TAB_SIZE);
      end := end - HEADER_LEN;
      next := end;
      LayoutTab(blk, tabs, end, size - HEADER_LEN, end, ZERO_TAB);
      tabs := tabs[end := ZERO_TAB];
      WriteTab(off, Tab(end, k, |key|, v, |value|));
    }

    // The store operation: replaces the value of the record found, or adds a record.
    method Put(key: string, value: string)
      requires Valid() && key != "" && IsText(key) && value != "" && IsText(value)
      requires size + BLOCK_SIZE * (Chunks(key) + Chunks(value) + 2) + TAB_SIZE < UINT_LIMIT
      modifies this
      ensures Valid() && PairsOf(recs) == KvSpec.Put(PairsOf(old(recs)), key, value)
      ensures old(NoneLost(owner, free, recs)) ==> NoneLost(owner, free, recs)
      ensures size <= old(size) + BLOCK_SIZE * (Chunks(key) + Chunks(value) + 2) + TAB_SIZE < UINT_LIMIT
      ensures KvSpec.Find(PairsOf(old(recs)), key) < |old(recs)| ==> head != tail
    {
      var found, off, tab;
      ghost var i;
      found, off, tab, i := Search(key);
      if found {
        Replace(off, tab, value, i);
      } else {
        Append(off, key, value);
      }
    }

    // The two strings of a new pair with an empty value, when there are recycled blocks: the
    // value gets the offset of the key's first block.
    method AllocEmptyValue(key: string) returns (v: nat, k: nat, ghost ck: seq<nat>)
      requires Sound() && key != "" && IsText(key) && head != tail
      modifies this`head, this`size, this`blk, this`free, this`owner
      ensures Sound() && v == k && |ck| > 0 && k == ck[0] && Holds(blk, ck, key)
    {
      ghost var c;
      v, c := AllocStr("", Loose);
      k, ck := AllocStr(key, Loose);
    }

    method WriteTab(off: nat, tab: Tab)
      requires Sound() && off in tabs
      modifies this`tabs
      ensures Sound() && tabs == old(tabs)[off := tab]
    {
      LayoutTab(blk, tabs, size - HEADER_LEN, size - HEADER_LEN, off, tab);
      tabs := tabs[off := tab];
    }

    // Names the owner of a chain that is already written.
    ghost method Claim(c: seq<nat>, from: Owner, to: Owner, s: string)
      requires Sound() && Stored(blk, owner, c, s, from) && from != Free && to != Free
      modifies this`owner
      ensures Sound() && owner == old(owner) + GivenTo(c, to) && Stored(blk, owner, c, s, to)
    {
      owner := owner + GivenTo(c, to);
    }
  }

  lemma TwoAllocs(blk0: map<nat, Block>, blk1: map<nat, Block>, blk2: map<nat, Block>,
                  owner0: map<nat, Owner>, owner1: map<nat, Owner>, owner2: map<nat, Owner>,
                  cv: seq<nat>, ck: seq<nat>, value: string, n: nat)
    requires Allocated(blk0, blk1, owner0, owner1, cv, ValueOf(n))
      && Allocated(blk1, blk2, owner1, owner2, ck, KeyOf(n))
    requires Holds(blk1, cv, value) && Distinct(cv) && value != "" && IsText(value)
    ensures Stored(blk2, owner2, cv, value, ValueOf(n)) && PreservesRecords(blk0, blk2, owner0, owner2)
  {
    AllocPreserves(blk1, blk2, owner1, owner2, ck, KeyOf(n), ValueOf(n));
    StoredPreserved(blk1, blk2, owner1, owner2, cv, value, ValueOf(n));
    forall who: Owner | who.KeyOf? || who.ValueOf? ensures Preserves(blk0, blk2, owner0, owner2, who) {
      AllocPreserves(blk0, blk1, owner0, owner1, cv, ValueOf(n), who);
      AllocPreserves(blk1, blk2, owner1, owner2, ck, KeyOf(n), who);
      PreservesTwice(blk0, blk1, blk2, owner0, owner1, owner2, who);
    }
  }

  // The owners after a replacement: all records but the i-th value are as before,
  // and the new chain is still intact.
  lemma ReplaceOwners(blk0: map<nat, Block>, blk1: map<nat, Block>, blk2: map<nat, Block>,
                      owner0: map<nat, Owner>, owner1: map<nat, Owner>, owner2: map<nat, Owner>,
                      tail: nat, next: nat, v: seq<nat>, c: seq<nat>, i: nat, value: string)
    requires Allocated(blk0, blk1, owner0, owner1, c, Loose) && Stored(blk1, owner1, c, value, Loose)
    requires tail in blk1 && tail in owner1 && owner1[tail] == Free && blk2 == blk1[tail := blk1[tail].(next := next)]
    requires Owned(owner1, v, ValueOf(i)) && owner2 == owner1 + GivenTo(v, Free)
    ensures Stored(blk2, owner2, c, value, Loose)
    ensures PreservesAllBut(blk0, blk2, owner0, owner2 + GivenTo(c, ValueOf(i)), i)
  {
    FreeingPreserves(blk1, blk2, owner1, owner2, tail, next, v, ValueOf(i), Loose);
    StoredPreserved(blk1, blk2, owner1, owner2, c, value, Loose);
    var owner3 := owner2 + GivenTo(c, ValueOf(i));
    forall who: Owner | who.KeyOf? || (who.ValueOf? && who.rec != i) ensures Preserves(blk0, blk2, owner0, owner3, who)
    {
      AllocPreserves(blk0, blk1, owner0, owner1, c, Loose, who);
      FreeingPreserves(blk1, blk2, owner1, owner2, tail, next, v, ValueOf(i), who);
      GivingPreserves(blk2, owner2, c, Loose, ValueOf(i), who);
      PreservesTwice(blk0, blk1, blk2, owner0, owner1, owner2, who);
      PreservesTwice(blk0, blk2, blk2, owner0, owner2, owner3, who);
    }
  }

  // Linking a chain behind the recycling list makes it part of it.
  lemma AppendChain(blk: map<nat, Block>, blk': map<nat, Block>, owner: map<nat, Owner>, free: seq<nat>, v: seq<nat>,
                    s: string, who: Owner)
    requires 0 < |free| && FreeList(blk, owner, free[0], free[|free| - 1], free)
    requires Stored(blk, owner, v, s, who) && who != Free && |v| > 0
    requires var t := free[|free| - 1]; t in blk && blk' == blk[t := blk[t].(next := v[0])]
    ensures Chain(blk', v, 0) && Chain(blk', free + v, 0) && Distinct(free + v)
      && Owned(owner + GivenTo(v, Free), free + v, Free)
  {
    var n, c := |free|, free + v;
    forall i | 0 <= i < n - 1 ensures free[i] != free[n - 1] { assert Differ(free, i, n - 1); }
    forall i | 0 <= i < |v| ensures Linked(blk', v, 0, i) { assert Linked(blk, v, 0, i); }
    forall i | 0 <= i < |c| ensures Linked(blk', c, 0, i) {
      if i < n { assert Linked(blk, free, 0, i); } else { assert Linked(blk', v, 0, i - n); }
    }
    forall i, j | 0 <= i < j < |c| ensures Differ(c, i, j) {
      if j < n { assert Differ(free, i, j); } else if n <= i { assert Differ(v, i - n, j - n); }
    }
  }

  // ----- whole runs -----

  // Room enough for a history of puts.
  function Room(puts: seq<KvSpec.Pair>): nat {
    if |puts| == 0 then HEADER_LEN + TAB_SIZE + BLOCK_SIZE
    else var p := puts[|puts| - 1];
      Room(puts[..|puts| - 1]) + BLOCK_SIZE * (Chunks(p.key) + Chunks(p.value) + 2) + TAB_SIZE
  }

  lemma {:induction false} RoomOfPrefix(puts: seq<KvSpec.Pair>, n: nat)
    requires n <= |puts|
    ensures Room(puts[..n]) <= Room(puts)
    decreases |puts|
  {
    if n == |puts| {
      assert puts[..n] == puts;
    } else {
      RoomOfPrefix(puts[..|puts| - 1], n);
      assert puts[..|puts| - 1][..n] == puts[..n];
    }
  }

  // The file after a history of puts.
  method PutAll(puts: seq<KvSpec.Pair>) returns (db: KvFile)
    requires (forall i :: 0 <= i < |puts| ==> KvSpec.GoodPair(puts[i])) && Room(puts) < UINT_LIMIT
    ensures db.Valid() && PairsOf(db.recs) == KvSpec.Replay(puts) && NoneLost(db.owner, db.free, db.recs)
  {
    db := new KvFile();
    for i := 0 to |puts|
      invariant fresh(db) && db.Valid() && NoneLost(db.owner, db.free, db.recs)
      invariant PairsOf(db.recs) == KvSpec.Replay(puts[..i]) && db.size <= Room(puts[..i])
    {
      assert puts[..i + 1][..i] == puts[..i];
      RoomOfPrefix(puts, i + 1);
      db.Put(puts[i].key, puts[i].value);
    }
    assert puts[..|puts|] == puts;
  }

  // After the puts a = x and a = y there is a recycled block. Putting b with an empty value
  // then makes a record whose value reads as "b".
  method EmptyValueReadsAsKey() returns (buf: array<char>)
    ensures buf[..] == "b" + "\0"
  {
    var db := new KvFile();
    db.Put("a", "x");
    var ps := KvSpec.Pair("a", "x");
    assert KvSpec.Find([ps], "a") == 0;
    db.Put("a", "y");
    var v, k;
    ghost var ck;
    v, k, ck := db.AllocEmptyValue("b");
    ReadBlock(db.blk, db.tabs, db.size, ck, "b", 0);
    buf := new char[2];
    db.StringCpy(buf, db.blk[v], ck, "b");
  }

  // A run from the empty file: after any puts, a get of any key answers with the
  // value last put under that key, or with null if there was none, provided the
  // keys are prefix-safe.
  method RunThenGet(puts: seq<KvSpec.Pair>, key: string, ghost keys: iset<string>)
    returns (db: KvFile, buf: array?<char>)
    requires KvSpec.GoodRun(puts, keys) && IsText(key) && Room(puts) < UINT_LIMIT
    requires key in keys && KvSpec.PrefixSafe(keys)
    ensures db.Valid() && PairsOf(db.recs) == KvSpec.Replay(puts) && NoneLost(db.owner, db.free, db.recs)
    ensures var r := KvSpec.LastPut(puts, key);
      if r.None? then buf == null else buf != null && buf[..] == r.value + "\0"
  {
    db := PutAll(puts);
    KvSpec.RunsAsDictionary(puts, key, keys);
    buf := db.Get(key);
  }
}
