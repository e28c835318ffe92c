// Counting semaphores: the value, and a ring of POOL_LEN slots for the tasks
// that sleep on it.  Each operation runs under the semaphore's lock.
module Sem {

  const POOL_LEN := 20

  // ----- what the operations mean -----

  datatype Op = Wait(task: int) | Signal

  // woken records, in order, the tasks that were woken.
  datatype State = State(value: int, sleepers: seq<int>, woken: seq<int>)

  function Apply(s: State, op: Op): State {
    match op
    case Wait(t) =>
      if s.value - 1 < 0 then State(s.value - 1, s.sleepers + [t], s.woken)
      else s.(value := s.value - 1)
    case Signal =>
      if s.value + 1 <= 0 && |s.sleepers| > 0 then
        State(s.value + 1, s.sleepers[1..], s.woken + [s.sleepers[0]])
      else s.(value := s.value + 1)
  }

  function Perform(initial: int, ops: seq<Op>): State {
    if |ops| == 0 then State(initial, [], [])
    else Apply(Perform(initial, ops[..|ops| - 1]), ops[|ops| - 1])
  }

  function Waits(ops: seq<Op>): seq<int> {
    if |ops| == 0 then []
    else Waits(ops[..|ops| - 1]) + if ops[|ops| - 1].Wait? then [ops[|ops| - 1].task] else []
  }

  function Signals(ops: seq<Op>): nat {
    if |ops| == 0 then 0
    else Signals(ops[..|ops| - 1]) + if ops[|ops| - 1].Signal? then 1 else 0
  }

  // The tasks that go to sleep, in that order: those that wait when, by the counts alone, no
  // unit is left.
  function Sleeps(initial: int, ops: seq<Op>): seq<int> {
    if |ops| == 0 then []
    else
      var before, op := ops[..|ops| - 1], ops[|ops| - 1];
      Sleeps(initial, before) +
      if op.Wait? && initial + Signals(before) - |Waits(before)| <= 0 then [op.task] else []
  }

  function Max(a: int, b: int): int { if a < b then b else a }

  // For every interleaving: the value counts signals against waits, as many tasks
  // sleep as it is below zero, and those woken and those still asleep are, in that
  // order, the ones that found no unit left.
  lemma {:induction false} CountsAndOrder(initial: int, ops: seq<Op>)
    requires 0 <= initial
    ensures var s := Perform(initial, ops);
      && s.value == initial + Signals(ops) - |Waits(ops)|
      && |s.sleepers| == Max(0, -s.value)
      && s.woken + s.sleepers == Sleeps(initial, ops)
  {
    if |ops| > 0 {
      CountsAndOrder(initial, ops[..|ops| - 1]);
      var s := Perform(initial, ops[..|ops| - 1]);
      match ops[|ops| - 1]
      case Wait(t) =>
        assert s.woken + (s.sleepers + [t]) == s.woken + s.sleepers + [t];
      case Signal =>
        if |s.sleepers| > 0 {
          assert s.woken + s.sleepers == s.woken + [s.sleepers[0]] + s.sleepers[1..];
        }
    }
  }

  // A signal that leaves a negative or zero value always finds a sleeper, so the
  // ring is never read empty.
  lemma SignalFindsSleeper(initial: int, ops: seq<Op>)
    requires 0 <= initial && Perform(initial, ops).value + 1 <= 0
    ensures |Perform(initial, ops).sleepers| > 0
  {
    CountsAndOrder(initial, ops);
  }

  // ----- the ring -----

  class Semaphore {
    var value: int
    var pool: array<int>
    var head: int
    var tail: int
    var asleep: set<int>  // the tasks whose TASK_SLEEP bit is set
    ghost var sleepers: seq<int>

    ghost predicate Valid()
      reads this, pool
    {
      && pool.Length == POOL_LEN && 0 <= head < POOL_LEN && 0 <= tail < POOL_LEN
      && |sleepers| <= POOL_LEN && |sleepers| == Max(0, -value)
      && tail == Slot(head + |sleepers|)
      && (forall i :: 0 <= i < |sleepers| ==> pool[Slot(head + i)] == sleepers[i])
      && (forall i, j :: 0 <= i < j < |sleepers| ==> sleepers[i] != sleepers[j])
      && asleep == set t | t in sleepers
    }

    static function Slot(i: int): int { if i < POOL_LEN then i else i - POOL_LEN }

    constructor (initial: int)
      requires 0 <= initial
      ensures Valid() && fresh(pool) && value == initial && sleepers == [] && asleep == {}
    {
      value, head, tail, asleep, sleepers := initial, 0, 0, {}, [];
      pool := new int[POOL_LEN](_ => 0);
    }

    // The running task takes a unit, or goes to sleep behind the others.
    method SemWait(park: int)
      requires Valid() && park !in asleep && |sleepers| < POOL_LEN
      modifies this, pool
      ensures Valid() && pool == old(pool)
      ensures value == old(value) - 1
      ensures sleepers == if value < 0 then old(sleepers) + [park] else old(sleepers)
      ensures forall w :: var s := Apply(State(old(value), old(sleepers), w), Wait(park));
                s == State(value, sleepers, w)
      ensures asleep == if value < 0 then old(asleep) + {park} else old(asleep)
    {
      value := value - 1;
      if value < 0 {
        pool[tail] := park;
        tail := tail + 1;
        asleep := asleep + {park};
        if tail >= POOL_LEN { tail := tail - POOL_LEN; }
        sleepers := sleepers + [park];
      }
    }

    // Gives a unit back, and wakes the task that has slept longest, if any.
    method SemSignal()
      requires Valid()
      modifies this
      ensures Valid() && pool == old(pool)
      ensures value == old(value) + 1
      ensures sleepers == if old(sleepers) == [] then [] else old(sleepers)[1..]
      ensures forall w :: var s := Apply(State(old(value), old(sleepers), w), Signal);
                s == State(value, sleepers, w + old(sleepers)[..|old(sleepers)| - |sleepers|])
      ensures asleep == if old(sleepers) == [] then old(asleep) else old(asleep) - {old(sleepers)[0]}
    {
      value := value + 1;
      if value <= 0 {
        asleep := asleep - {pool[head]};
        head := head + 1;
        if head >= POOL_LEN { head := head - POOL_LEN; }
        sleepers := sleepers[1..];
      }
    }
  }
}
