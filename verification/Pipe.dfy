// A pipe between one writer and one reader: a 256-byte ring whose indices may
// stand at 256 until their owner next moves them on. Between any two steps of
// one side the other may take any number of turns of its own; what it does in
// each turn is given, and is all that happens to its index and to `open`.
module Pipe {

  const RING := 0x100

  type byte = x: int | 0 <= x < 256

  function SizeOf(head: int, tail: int): int { (tail - head) % RING }

  // The bytes in the ring are those written and not yet read, in order.
  ghost predicate RingOk(head: int, tail: int, mem: seq<byte>, written: seq<byte>, consumed: seq<byte>) {
    && 0 <= head <= RING && 0 <= tail <= RING && |mem| == RING
    && |written| == |consumed| + SizeOf(head, tail)
    && consumed == written[..|consumed|]
    && forall i {:trigger InPlace(head, mem, written, consumed, i)} :: 0 <= i < SizeOf(head, tail) ==>
         InPlace(head, mem, written, consumed, i)
  }

  // The i-th byte not yet read is the i-th from the head on.
  ghost predicate InPlace(head: int, mem: seq<byte>, written: seq<byte>, consumed: seq<byte>, i: int) {
    |mem| == RING && 0 <= |consumed| + i < |written| && written[|consumed| + i] == mem[(head + i) % RING]
  }

  // The bytes in the ring.
  function Content(head: int, tail: int, mem: seq<byte>): (c: seq<byte>)
    requires |mem| == RING
    ensures |c| == SizeOf(head, tail)
  {
    seq(SizeOf(head, tail), i requires 0 <= i < SizeOf(head, tail) => mem[(head + i) % RING])
  }

  lemma ReadThenRing(head: int, tail: int, mem: seq<byte>, written: seq<byte>, consumed: seq<byte>)
    requires RingOk(head, tail, mem, written, consumed)
    ensures consumed + Content(head, tail, mem) == written && |Content(head, tail, mem)| <= 255
  {
    var c := Content(head, tail, mem);
    forall i | 0 <= i < |c| ensures c[i] == written[|consumed| + i] { assert InPlace(head, mem, written, consumed, i); }
  }

  // Writing to the free part, from the tail on, disturbs no byte of the ring.
  lemma CopyInKeeps(head: int, tail: int, mem: seq<byte>, mem': seq<byte>, written: seq<byte>, consumed: seq<byte>,
                    k: nat)
    requires RingOk(head, tail, mem, written, consumed) && |mem'| == RING
    requires k + SizeOf(head, tail) <= 255 && tail + k <= RING
    requires forall j :: 0 <= j < RING && !(tail <= j < tail + k) ==> mem'[j] == mem[j]
    ensures RingOk(head, tail, mem', written, consumed)
  {
    forall i | 0 <= i < SizeOf(head, tail) ensures InPlace(head, mem', written, consumed, i) {
      assert InPlace(head, mem, written, consumed, i);
    }
  }

  lemma PublishKeeps(head: int, tail: int, mem: seq<byte>, written: seq<byte>, consumed: seq<byte>, k: nat)
    requires RingOk(head, tail, mem, written, consumed)
    requires k + SizeOf(head, tail) <= 255 && tail + k <= RING
    ensures RingOk(head, tail + k, mem, written + mem[tail..tail + k], consumed)
    ensures SizeOf(head, tail + k) == SizeOf(head, tail) + k
  {
    var w, n := written + mem[tail..tail + k], SizeOf(head, tail);
    forall i | 0 <= i < n + k ensures InPlace(head, mem, w, consumed, i) {
      if i < n {
        assert InPlace(head, mem, written, consumed, i);
      } else {
        assert (head + i) % RING == tail + (i - n);
      }
    }
  }

  lemma ConsumeKeeps(head: int, tail: int, mem: seq<byte>, written: seq<byte>, consumed: seq<byte>, k: nat)
    requires RingOk(head, tail, mem, written, consumed)
    requires k <= SizeOf(head, tail) && head + k <= RING
    ensures RingOk(head + k, tail, mem, written, consumed + mem[head..head + k])
    ensures SizeOf(head + k, tail) == SizeOf(head, tail) - k
    ensures mem[head..head + k] == written[|consumed|..|consumed| + k]
  {
    var c := consumed + mem[head..head + k];
    var read, next := mem[head..head + k], written[|consumed|..|consumed| + k];
    forall j | 0 <= j < k ensures read[j] == next[j] {
      assert InPlace(head, mem, written, consumed, j);
      assert (head + j) % RING == head + j;
    }
    assert c == written[..|c|];
    forall i {:trigger InPlace(head + k, mem, written, c, i)} | 0 <= i < SizeOf(head, tail) - k
      ensures InPlace(head + k, mem, written, c, i)
    {
      assert InPlace(head, mem, written, consumed, k + i);
    }
  }

  // 256 and 0 are the same place.
  lemma WrapKeeps(head: int, tail: int, head': int, tail': int, mem: seq<byte>, written: seq<byte>, consumed: seq<byte>)
    requires RingOk(head, tail, mem, written, consumed)
    requires head' == head || (head == RING && head' == 0)
    requires tail' == tail || (tail == RING && tail' == 0)
    ensures RingOk(head', tail', mem, written, consumed) && SizeOf(head', tail') == SizeOf(head, tail)
  {
    forall i | 0 <= i < SizeOf(head, tail) ensures InPlace(head', mem, written, consumed, i) {
      assert InPlace(head, mem, written, consumed, i);
    }
  }

  function Least(a: int, b: int): int { if a < b then a else b }

  lemma Joined(w: seq<byte>, buf: seq<byte>, k: nat)
    requires k <= |buf|
    ensures (w + buf[..k]) + buf[k..] == w + buf
  {
  }

  // ----- the other side -----

  // What the other side does in a turn: a reader takes up to so many bytes; a writer copies
  // some bytes in, as many as there is room for, puts them into the pipe or leaves it at the
  // copy, and may close the pipe.
  datatype Turn = Turn(take: nat, put: seq<byte>, publish: bool, close: bool)

  function At(turns: nat -> Turn, t: nat): Turn { turns(t) }

  predicate Moves(turn: Turn) { turn.close || (turn.publish && |turn.put| > 0) }

  ghost predicate TakesSoon(turns: nat -> Turn, t: nat) { exists u: nat :: t <= u && At(turns, u).take > 0 }

  ghost predicate MovesSoon(turns: nat -> Turn, t: nat) { exists u: nat :: t <= u && Moves(At(turns, u)) }

  // The other side goes on at last, on whichever end of the pipe it is.
  ghost predicate Fair(turns: nat -> Turn) {
    && (forall t: nat {:trigger TakesSoon(turns, t)} :: TakesSoon(turns, t))
    && forall t: nat {:trigger MovesSoon(turns, t)} :: MovesSoon(turns, t)
  }

  // The bytes asked for by the turns from t0 up to t1.
  function Asked(turns: nat -> Turn, t0: nat, t1: nat): nat
    decreases t1
  {
    if t1 <= t0 then 0 else Asked(turns, t0, t1 - 1) + At(turns, t1 - 1).take
  }

  ghost predicate ClosedIn(turns: nat -> Turn, t0: nat, t1: nat) { exists t: nat :: t0 <= t < t1 && At(turns, t).close }

  // After the writer's turns from t0 up to t1, w0 has become w1: each has added the first of
  // its bytes, or none.
  ghost predicate Offered(turns: nat -> Turn, t0: nat, t1: nat, w0: seq<byte>, w1: seq<byte>)
    decreases t1
  {
    if t1 <= t0 then t1 == t0 && w1 == w0
    else exists w: seq<byte> {:trigger Offered(turns, t0, t1 - 1, w0, w)} ::
      Offered(turns, t0, t1 - 1, w0, w) && Adds(At(turns, t1 - 1), w, w1)
  }

  ghost predicate Adds(turn: Turn, w: seq<byte>, w': seq<byte>) {
    w' == w || (turn.publish && w <= w' && w'[|w|..] <= turn.put)
  }

  lemma {:induction false} AskedJoin(turns: nat -> Turn, t0: nat, t1: nat, t2: nat)
    requires t0 <= t1 <= t2
    ensures Asked(turns, t0, t2) == Asked(turns, t0, t1) + Asked(turns, t1, t2)
    decreases t2
  {
    if t1 < t2 { AskedJoin(turns, t0, t1, t2 - 1); }
  }

  lemma {:induction false} OfferedJoin(turns: nat -> Turn, t0: nat, t1: nat, t2: nat, w0: seq<byte>, w1: seq<byte>,
                                       w2: seq<byte>)
    requires Offered(turns, t0, t1, w0, w1) && Offered(turns, t1, t2, w1, w2)
    ensures t0 <= t1 <= t2 && Offered(turns, t0, t2, w0, w2)
    decreases t2
  {
    OfferedForward(turns, t0, t1, w0, w1);
    OfferedForward(turns, t1, t2, w1, w2);
    if t1 < t2 {
      var w :| Offered(turns, t1, t2 - 1, w1, w) && Adds(At(turns, t2 - 1), w, w2);
      OfferedJoin(turns, t0, t1, t2 - 1, w0, w1, w);
    }
  }

  lemma {:induction false} OfferedForward(turns: nat -> Turn, t0: nat, t1: nat, w0: seq<byte>, w1: seq<byte>)
    requires Offered(turns, t0, t1, w0, w1)
    ensures t0 <= t1 && w0 <= w1
    decreases t1
  {
    if t0 < t1 {
      var w :| Offered(turns, t0, t1 - 1, w0, w) && Adds(At(turns, t1 - 1), w, w1);
      OfferedForward(turns, t0, t1 - 1, w0, w);
    }
  }

  // What the reader has done in its turns: the bytes consumed only grow, by what was asked
  // for at most.
  ghost predicate ReaderDid(turns: nat -> Turn, t0: nat, t1: nat, c0: seq<byte>, c1: seq<byte>) {
    t0 <= t1 && c0 <= c1 && |c1| <= |c0| + Asked(turns, t0, t1)
  }

  // What the writer has done in its turns: it has put in bytes offered, and the pipe is
  // closed only by a turn that closes it.
  ghost predicate WriterDid(turns: nat -> Turn, t0: nat, t1: nat, w0: seq<byte>, w1: seq<byte>, open0: bool,
                            open1: bool) {
    && t0 <= t1 && w0 <= w1 && Offered(turns, t0, t1, w0, w1)
    && (open1 <==> open0 && !ClosedIn(turns, t0, t1))
  }

  lemma ReaderJoin(turns: nat -> Turn, t0: nat, t1: nat, t2: nat, c0: seq<byte>, c1: seq<byte>, c2: seq<byte>)
    requires ReaderDid(turns, t0, t1, c0, c1) && ReaderDid(turns, t1, t2, c1, c2)
    ensures ReaderDid(turns, t0, t2, c0, c2)
  {
    AskedJoin(turns, t0, t1, t2);
  }

  lemma WriterJoin(turns: nat -> Turn, t0: nat, t1: nat, t2: nat, w0: seq<byte>, w1: seq<byte>, w2: seq<byte>,
                   open0: bool, open1: bool, open2: bool)
    requires WriterDid(turns, t0, t1, w0, w1, open0, open1) && WriterDid(turns, t1, t2, w1, w2, open1, open2)
    ensures WriterDid(turns, t0, t2, w0, w2, open0, open2)
  {
    OfferedJoin(turns, t0, t1, t2, w0, w1, w2);
    if ClosedIn(turns, t0, t1) {
      var t: nat :| t0 <= t < t1 && At(turns, t).close;
      assert ClosedIn(turns, t0, t2);
    }
    if ClosedIn(turns, t1, t2) {
      var t: nat :| t1 <= t < t2 && At(turns, t).close;
      assert ClosedIn(turns, t0, t2);
    }
    if ClosedIn(turns, t0, t2) {
      var t: nat :| t0 <= t < t2 && At(turns, t).close;
      assert t < t1 ==> ClosedIn(turns, t0, t1);
      assert t1 <= t ==> ClosedIn(turns, t1, t2);
    }
  }

  lemma NoTurns(turns: nat -> Turn, t: nat, c: seq<byte>, w: seq<byte>, open: bool)
    ensures ReaderDid(turns, t, t, c, c) && WriterDid(turns, t, t, w, w, open, open)
  {
  }

  lemma OneWriterTurn(turns: nat -> Turn, t: nat, w0: seq<byte>, w1: seq<byte>, open0: bool, open1: bool)
    requires w0 <= w1 && Adds(At(turns, t), w0, w1) && open1 == (open0 && !At(turns, t).close)
    ensures WriterDid(turns, t, t + 1, w0, w1, open0, open1)
  {
    assert Offered(turns, t, t, w0, w0);
    assert Offered(turns, t, t + 1, w0, w1);
  }

  class Ring {
    var head: int
    var tail: int
    var open: bool
    const mem: array<byte>
    const turns: nat -> Turn       // of the other side
    var time: nat                  // how many of them are over
    ghost var written: seq<byte>   // all that has been written
    ghost var consumed: seq<byte>  // all that has been read

    ghost predicate Valid()
      reads this, mem
    {
      RingOk(head, tail, mem[..], written, consumed) && Fair(turns)
    }

    constructor (turns: nat -> Turn)
      requires Fair(turns)
      ensures Valid() && open && written == [] && consumed == [] && fresh(mem) && this.turns == turns && time == 0
    {
      head, tail, open, written, consumed, time := 0, 0, true, [], [], 0;
      this.turns := turns;
      mem := new byte[RING];
    }

    method GetSize() returns (n: nat)
      requires Valid()
      ensures n == SizeOf(head, tail) == |written| - |consumed| <= 255
    {
      n := (tail - head) % RING;
    }

    // ----- the steps of the writer -----

    // memcpy into the ring; nothing of it is in the pipe yet.
    method CopyIn(buf: seq<byte>)
      requires Valid() && |buf| + SizeOf(head, tail) <= 255 && tail + |buf| <= RING
      modifies mem
      ensures Valid() && mem[tail..tail + |buf|] == buf
    {
      ghost var m := mem[..];
      var i := 0;
      while i < |buf|
        invariant 0 <= i <= |buf|
        invariant forall j :: 0 <= j < RING && !(tail <= j < tail + i) ==> mem[j] == m[j]
        invariant forall j :: 0 <= j < i ==> mem[tail + j] == buf[j]
      {
        mem[tail + i] := buf[i];
        i := i + 1;
      }
      CopyInKeeps(head, tail, m, mem[..], written, consumed, |buf|);
    }

    // tail += count
    method Publish(count: nat)
      requires Valid() && count + SizeOf(head, tail) <= 255 && tail + count <= RING
      modifies `tail, `written
      ensures Valid() && tail == old(tail) + count && written == old(written) + old(mem[tail..tail + count])
      ensures SizeOf(head, tail) == old(SizeOf(head, tail)) + count
    {
      PublishKeeps(head, tail, mem[..], written, consumed, count);
      assert mem[..][tail..tail + count] == mem[tail..tail + count];
      written := written + mem[tail..tail + count];
      tail := tail + count;
    }

    // tail = 0
    method WrapTail()
      requires Valid() && tail == RING
      modifies `tail
      ensures Valid() && tail == 0 && SizeOf(head, tail) == old(SizeOf(head, tail))
    {
      WrapKeeps(head, tail, head, 0, mem[..], written, consumed);
      tail := 0;
    }

    // ----- the steps of the reader -----

    // head += count
    method Consume(count: nat)
      requires Valid() && count <= SizeOf(head, tail) && head + count <= RING
      modifies `head, `consumed
      ensures Valid() && head == old(head) + count && consumed == old(consumed) + old(mem[head..head + count])
      ensures SizeOf(head, tail) == old(SizeOf(head, tail)) - count
    {
      ConsumeKeeps(head, tail, mem[..], written, consumed, count);
      assert mem[..][head..head + count] == mem[head..head + count];
      consumed := consumed + mem[head..head + count];
      head := head + count;
    }

    // head = 0
    method WrapHead()
      requires Valid() && head == RING
      modifies `head
      ensures Valid() && head == 0 && SizeOf(head, tail) == old(SizeOf(head, tail))
    {
      WrapKeeps(head, tail, 0, tail, mem[..], written, consumed);
      head := 0;
    }

    // ----- what the other side may do meanwhile -----

    // One turn of the reader.
    method ReaderTurn()
      requires Valid()
      modifies `head, `consumed, `time
      ensures Valid() && time == old(time) + 1 && ReaderDid(turns, old(time), time, old(consumed), consumed)
      ensures SizeOf(head, tail) <= old(SizeOf(head, tail))
      ensures At(turns, old(time)).take > 0 ==> SizeOf(head, tail) < 255
    {
      if head == RING { WrapHead(); }
      var size := GetSize();
      Consume(Least(turns(time).take, Least(size, RING - head)));
      assert Asked(turns, time, time + 1) == Asked(turns, time, time) + At(turns, time).take;
      time := time + 1;
    }

    // Any number of turns of the reader.
    method OtherReads()
      requires Valid()
      modifies `head, `consumed, `time
      ensures Valid() && ReaderDid(turns, old(time), time, old(consumed), consumed)
      ensures SizeOf(head, tail) <= old(SizeOf(head, tail))
      ensures forall u: nat :: old(time) <= u < time && At(turns, u).take > 0 ==> SizeOf(head, tail) < 255
    {
      NoTurns(turns, time, consumed, written, open);
      var more: nat := *;
      while more > 0
        invariant Valid() && ReaderDid(turns, old(time), time, old(consumed), consumed)
        invariant SizeOf(head, tail) <= old(SizeOf(head, tail))
        invariant forall u: nat :: old(time) <= u < time && At(turns, u).take > 0 ==> SizeOf(head, tail) < 255
      {
        ghost var t, c := time, consumed;
        ReaderTurn();
        ReaderJoin(turns, old(time), t, time, old(consumed), c, consumed);
        more := more - 1;
      }
    }

    // One turn of the writer, or of whoever closes the pipe.
    method WriterTurn()
      requires Valid()
      modifies `tail, `written, `open, `time, mem
      ensures Valid() && time == old(time) + 1
      ensures WriterDid(turns, old(time), time, old(written), written, old(open), open)
      ensures SizeOf(head, tail) >= old(SizeOf(head, tail))
      ensures Moves(At(turns, old(time))) ==> SizeOf(head, tail) > 0 || !open
      ensures open == (old(open) && !At(turns, old(time)).close)
      ensures var turn := At(turns, old(time));
        turn.publish && |turn.put| == 1 && old(SizeOf(head, tail)) == 0 ==>
          written == old(written) + turn.put && SizeOf(head, tail) == 1
    {
      var turn := turns(time);
      if tail == RING { WrapTail(); }
      PutSome(turn);
      if turn.close { open := false; }
      OneWriterTurn(turns, time, old(written), written, old(open), open);
      time := time + 1;
    }

    method PutSome(turn: Turn)
      requires Valid() && tail < RING
      modifies `tail, `written, mem
      ensures Valid() && old(written) <= written && Adds(turn, old(written), written)
      ensures SizeOf(head, tail) >= old(SizeOf(head, tail))
      ensures turn.publish && |turn.put| > 0 ==> SizeOf(head, tail) > 0
      ensures turn.publish && |turn.put| == 1 && old(SizeOf(head, tail)) == 0 ==>
        written == old(written) + turn.put && SizeOf(head, tail) == 1
    {
      var size := GetSize();
      var n := Least(|turn.put|, Least(255 - size, RING - tail));
      CopyIn(turn.put[..n]);
      if turn.publish {
        Publish(n);
        assert written[|old(written)|..] == turn.put[..n];
      }
    }

    // Any number of turns of the writer.
    method OtherWrites()
      requires Valid()
      modifies `tail, `written, `open, `time, mem
      ensures Valid() && WriterDid(turns, old(time), time, old(written), written, old(open), open)
      ensures SizeOf(head, tail) >= old(SizeOf(head, tail))
      ensures forall u: nat :: old(time) <= u < time && Moves(At(turns, u)) ==> SizeOf(head, tail) > 0 || !open
    {
      NoTurns(turns, time, consumed, written, open);
      var more: nat := *;
      while more > 0
        invariant Valid() && WriterDid(turns, old(time), time, old(written), written, old(open), open)
        invariant SizeOf(head, tail) >= old(SizeOf(head, tail))
        invariant forall u: nat :: old(time) <= u < time && Moves(At(turns, u)) ==> SizeOf(head, tail) > 0 || !open
      {
        ghost var t, w, o := time, written, open;
        WriterTurn();
        WriterJoin(turns, old(time), t, time, old(written), w, written, old(open), o, open);
        more := more - 1;
      }
    }

    // _yield: a turn of the other side at least.
    method YieldToReader()
      requires Valid()
      modifies `head, `consumed, `time
      ensures Valid() && old(time) < time && ReaderDid(turns, old(time), time, old(consumed), consumed)
      ensures SizeOf(head, tail) <= old(SizeOf(head, tail))
      ensures forall u: nat :: old(time) <= u < time && At(turns, u).take > 0 ==> SizeOf(head, tail) < 255
    {
      ReaderTurn();
      ghost var t, c := time, consumed;
      OtherReads();
      ReaderJoin(turns, old(time), t, time, old(consumed), c, consumed);
    }

    method YieldToWriter()
      requires Valid()
      modifies `tail, `written, `open, `time, mem
      ensures Valid() && old(time) < time && WriterDid(turns, old(time), time, old(written), written, old(open), open)
      ensures SizeOf(head, tail) >= old(SizeOf(head, tail))
      ensures forall u: nat :: old(time) <= u < time && Moves(At(turns, u)) ==> SizeOf(head, tail) > 0 || !open
    {
      WriterTurn();
      ghost var t, w, o := time, written, open;
      OtherWrites();
      WriterJoin(turns, old(time), t, time, old(written), w, written, old(open), o, open);
    }

    // while (get_size(p) == 0xff) _yield();
    method AwaitSpace() returns (size: nat)
      requires Valid()
      modifies `head, `consumed, `time
      ensures Valid() && ReaderDid(turns, old(time), time, old(consumed), consumed)
      ensures size == SizeOf(head, tail) <= old(SizeOf(head, tail)) && size < 255
    {
      OtherReads();
      size := GetSize();
      assert TakesSoon(turns, time);
      ghost var limit: nat :| time <= limit && At(turns, limit).take > 0;
      while size == 255
        invariant Valid() && ReaderDid(turns, old(time), time, old(consumed), consumed)
        invariant size == SizeOf(head, tail) <= old(SizeOf(head, tail)) && size <= 255
        invariant time <= limit || size < 255
        decreases limit - time
      {
        ghost var t, c := time, consumed;
        YieldToReader();
        ReaderJoin(turns, old(time), t, time, old(consumed), c, consumed);
        size := GetSize();
      }
    }

    // while (get_size(p) == 0) { if (!p->open) return 0; _yield(); }
    // seen is what had been written when the size was last looked at: the writer may go on
    // after that, and close the pipe before `open` is looked at.
    method AwaitData() returns (size: nat, ghost seen: seq<byte>)
      requires Valid()
      modifies `tail, `written, `open, `time, mem
      ensures Valid() && WriterDid(turns, old(time), time, old(written), written, old(open), open)
      ensures old(written) <= seen <= written && |seen| == |consumed| + size && (size == 0 ==> !open)
      ensures old(SizeOf(head, tail)) <= size <= SizeOf(head, tail) && size <= 255
    {
      OtherWrites();
      size := GetSize();
      seen := written;
      assert MovesSoon(turns, time);
      ghost var limit: nat :| time <= limit && Moves(At(turns, limit));
      while size == 0
        invariant Valid() && WriterDid(turns, old(time), time, old(written), written, old(open), open)
        invariant seen == written && size == SizeOf(head, tail) && old(SizeOf(head, tail)) <= size <= 255
        invariant |seen| == |consumed| + size
        invariant time <= limit || size > 0 || !open
        decreases limit - time
      {
        ghost var t, w, o := time, written, open;
        OtherWrites();
        WriterJoin(turns, old(time), t, time, old(written), w, written, old(open), o, open);
        if !open { return; }
        t, w, o := time, written, open;
        YieldToWriter();
        WriterJoin(turns, old(time), t, time, old(written), w, written, old(open), o, open);
        size := GetSize();
        seen := written;
      }
    }

    // pipe_write. All of buf goes in, in order, whatever the reader does meanwhile, and the
    // reader gets no more than it asks for; what fits at once leaves the tail right behind it.
    method Write(buf: seq<byte>) returns (nwrite: nat)
      requires Valid()
      modifies `head, `tail, `written, `consumed, `time, mem
      ensures Valid() && nwrite == |buf| && written == old(written) + buf
      ensures ReaderDid(turns, old(time), time, old(consumed), consumed)
      ensures |buf| + old(SizeOf(head, tail)) <= 255 && old(tail) + |buf| <= RING ==> tail == old(tail) + |buf|
      decreases |buf|, if tail == RING then 1 else 0
    {
      var size := AwaitSpace();
      ghost var t, c := time, consumed;
      if |buf| + size > 0xff {
        nwrite := WriteParts(buf, 0xff - size, false);
      } else if |buf| + tail > 0x100 {
        nwrite := WriteParts(buf, 0x100 - tail, true);
      } else {
        CopyIn(buf);
        OtherReads();
        Publish(|buf|);
        nwrite := |buf|;
      }
      ReaderJoin(turns, old(time), t, time, old(consumed), c, consumed);
    }

    // The first bytes and then the others, from the start of the ring if the tail is at its end.
    method WriteParts(buf: seq<byte>, remain: nat, wrap: bool) returns (nwrite: nat)
      requires Valid() && remain < |buf| && remain + SizeOf(head, tail) <= 255
      requires if wrap then tail + remain == RING else 0 < remain
      modifies `head, `tail, `written, `consumed, `time, mem
      ensures Valid() && nwrite == |buf| && written == old(written) + buf
      ensures ReaderDid(turns, old(time), time, old(consumed), consumed)
      decreases |buf|, if tail == RING then 1 else 0, 0
    {
      var n := Write(buf[..remain]);
      ghost var t, c := time, consumed;
      if wrap { WrapTail(); }
      var n' := Write(buf[remain..]);
      ReaderJoin(turns, old(time), t, time, old(consumed), c, consumed);
      nwrite := n + n';
      Joined(old(written), buf, remain);
    }

    // memcpy out of the ring, and head += count; the bytes stay as they are in between.
    method CopyOut(count: nat) returns (buf: seq<byte>)
      requires Valid() && count <= SizeOf(head, tail) && head + count <= RING
      modifies `head, `tail, `written, `consumed, `open, `time, mem
      ensures Valid() && |buf| == count && consumed == old(consumed) + buf
      ensures WriterDid(turns, old(time), time, old(written), written, old(open), open)
      ensures head == old(head) + count && SizeOf(head, tail) >= old(SizeOf(head, tail)) - count
    {
      ConsumeKeeps(head, tail, mem[..], written, consumed, count);
      buf := mem[head..head + count];
      assert mem[..][head..head + count] == buf;
      OtherWrites();
      ConsumeKeeps(head, tail, mem[..], written, consumed, count);
      assert mem[..][head..head + count] == mem[head..head + count];
      Consume(count);
    }

    // pipe_read of count bytes: it returns as many of the bytes seen as asked for, in order.
    // So for a count above 0 it returns nothing exactly when all the bytes seen had been
    // read, and then the pipe is closed, by a turn of the other side if it was open; bytes
    // written after that are left in the ring.
    // What is there at once leaves the head right behind it.
    method Read(count: nat) returns (buf: seq<byte>, ghost seen: seq<byte>)
      requires Valid()
      modifies `head, `tail, `written, `consumed, `open, `time, mem
      ensures Valid() && consumed == old(consumed) + buf && old(written) <= seen <= written
      ensures WriterDid(turns, old(time), time, old(written), written, old(open), open)
      ensures old(consumed) <= seen && |buf| == Least(count, |seen| - |old(consumed)|)
      ensures buf == [] && count > 0 ==> seen == consumed && !open
      ensures buf == [] && count > 0 && old(open) ==> exists t: nat :: old(time) <= t < time && At(turns, t).close
      ensures 0 < old(SizeOf(head, tail)) && count <= old(SizeOf(head, tail)) ==>
        && |buf| == count && SizeOf(head, tail) >= old(SizeOf(head, tail)) - count
        && (old(head) + count <= RING ==> head == old(head) + count)
      decreases count, if head == RING then 1 else 0
    {
      var size;
      size, seen := AwaitData();
      if size == 0 { return [], seen; }
      ghost var t, w, o := time, written, open;
      if count > size {
        ghost var seen1;
        buf, seen1 := Read(size);
      } else if count + head > 0x100 {
        buf := ReadParts(count, 0x100 - head);
      } else {
        buf := CopyOut(count);
      }
      WriterJoin(turns, old(time), t, time, old(written), w, written, old(open), o, open);
    }

    // The bytes up to the end of the ring, and then the others from its start.
    method ReadParts(count: nat, remain: nat) returns (buf: seq<byte>)
      requires Valid() && remain < count <= SizeOf(head, tail) && head + remain == RING
      modifies `head, `tail, `written, `consumed, `open, `time, mem
      ensures Valid() && |buf| == count && consumed == old(consumed) + buf
      ensures WriterDid(turns, old(time), time, old(written), written, old(open), open)
      ensures SizeOf(head, tail) >= old(SizeOf(head, tail)) - count
      decreases count, if head == RING then 1 else 0, 0
    {
      var first, second;
      ghost var seen1, seen2;
      first, seen1 := Read(remain);
      ghost var t, w, o := time, written, open;
      WrapHead();
      second, seen2 := Read(count - remain);
      WriterJoin(turns, old(time), t, time, old(written), w, written, old(open), o, open);
      buf := first + second;
      assert old(consumed) + (first + second) == (old(consumed) + first) + second;
    }

    // pipe_read around a turn of a writer that writes a byte and closes the pipe, after the
    // size was looked at and before `open` is: nothing is returned, with the byte in the ring.
    method ReadMissesByte(b: byte) returns (buf: seq<byte>)
      requires Valid() && open && SizeOf(head, tail) == 0
      requires At(turns, time).put == [b] && At(turns, time).publish && At(turns, time).close
      modifies `tail, `written, `open, `time, mem
      ensures Valid() && buf == [] && consumed == old(consumed)
      ensures !open && written == old(written) + [b] && SizeOf(head, tail) == 1
    {
      var size := GetSize();
      WriterTurn();
      if size == 0 && !open { buf := []; } else { assert false; }
    }
  }
}
