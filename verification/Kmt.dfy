// The scheduler code itself, over the arrays it works on: each method is one or
// several steps of module Sched, with those of the other CPUs in between.
module Kmt {
  import opened Sched
  import opened SchedRuns

  const TASK_SLOTS := 0x40
  const TRIES := 10000

  // CPU c looked at the task in a slot in state seen, tried its lock in state tried and got
  // it, and read the slot again in state read; the others went on in between.
  ghost predicate Switches(seen: State, tried: State, read: State, after: State, c: int, slot: int) {
    && CanLook(seen, c, slot) && Others(DoLook(seen, c, slot), tried, c)
    && CanGrab(tried, c) && tried.pc[c] == Seen(seen.table[slot], slot) && LockIsFree(tried, seen.table[slot])
    && Others(DoGrab(tried, c), read, c)
    && CanSet(read, c) && read.pc[c] == Locked(seen.table[slot], slot) && after == DoSet(read, c)
  }

  // A try of a slot that came to nothing, from the state in which CPU c looked at it to the
  // one it left.
  datatype Miss = Miss(look: State, tried: State, after: State)

  // No task in the slot was ready when CPU c looked, or it was, and when c then tried its lock
  // the lock was held; after that c is as far as before.
  ghost predicate Misses(m: Miss, c: int, slot: int) {
    if !CanLook(m.look, c, slot) then m.after == m.look
    else
      && Others(DoLook(m.look, c, slot), m.tried, c)
      && CanGrab(m.tried, c) && m.tried.pc[c] == Seen(m.look.table[slot], slot)
      && !LockIsFree(m.tried, m.look.table[slot]) && m.after == DoGrab(m.tried, c)
  }

  // The state after the first k tries.
  function AfterTries(start: State, misses: seq<Miss>, k: nat): State
    requires k <= |misses|
  {
    if k == 0 then start else misses[k - 1].after
  }

  ghost predicate MissesAt(start: State, c: int, rnd: seq<int>, misses: seq<Miss>, k: nat) {
    && k < |misses| && k < |rnd|
    && Others(AfterTries(start, misses, k), misses[k].look, c) && Misses(misses[k], c, rnd[k])
  }

  // The slots rnd, in order, tried in vain, with steps of the others in between.
  ghost predicate AllMiss(start: State, c: int, rnd: seq<int>, misses: seq<Miss>) {
    forall k: nat {:trigger MissesAt(start, c, rnd, misses, k)} :: k < |misses| ==> MissesAt(start, c, rnd, misses, k)
  }

  lemma OneMiss(start: State, c: int, rnd: seq<int>, misses: seq<Miss>, m: Miss)
    requires AllMiss(start, c, rnd, misses) && |misses| < |rnd|
    requires Others(AfterTries(start, misses, |misses|), m.look, c) && Misses(m, c, rnd[|misses|])
    ensures AllMiss(start, c, rnd, misses + [m]) && AfterTries(start, misses + [m], |misses| + 1) == m.after
  {
    var more := misses + [m];
    forall k: nat | k < |more| ensures MissesAt(start, c, rnd, more, k) {
      assert AfterTries(start, more, k) == AfterTries(start, misses, k);
      if k < |misses| { assert MissesAt(start, c, rnd, misses, k); }
    }
  }

  // A run of the switch: the tries in vain, and then the one that got a task or, with none
  // left, the state in which the CPU gave up.
  datatype Switching = Switching(misses: seq<Miss>, seen: State, tried: State, read: State)

  // Slot rnd[k] is taken for the first k whose try is not in vain; the CPU idles if all are.
  ghost predicate SwitchedBy(start: State, after: State, c: int, rnd: seq<int>, slot: int, w: Switching) {
    var n := |w.misses|;
    && AllMiss(start, c, rnd, w.misses) && n < |rnd|
    && if slot < 0 then n == |rnd| - 1 && w.read == AfterTries(start, w.misses, n) && CanIdle(w.read, c)
         && after == DoIdle(w.read, c)
       else
         && n < |rnd| - 1 && slot == rnd[n] && Others(AfterTries(start, w.misses, n), w.seen, c)
         && Switches(w.seen, w.tried, w.read, after, c, slot)
  }

  // The cleaning: nothing for an empty queue; or its first task, taken, is put back or freed
  // in state mid, the others having gone on.
  ghost predicate Cleans(before: State, mid: State, after: State, c: int) {
    if before.queue == [] then CanSkip(before, c) && after == DoSkip(before, c)
    else
      && CanTake(before, c) && Others(DoTake(before, c), mid, c) && CanTry(mid, c)
      && var s1 := DoTry(mid, c);
      && if s1.pc[c] == User then after == s1 else CanClear(s1, c) && after == DoClear(s1, c)
  }

  // The save: the last task let go, then, in state stored, the current one noted.
  ghost predicate Saves(before: State, stored: State, after: State, c: int) {
    && CanUnlock(before, c) && Others(DoUnlock(before, c), stored, c)
    && CanStore(stored, c) && after == DoStore(stored, c)
  }

  // A trap as a whole, from state to state: save, switch and clean, and between any two of
  // their steps those of the others.
  datatype Passing = Passing(stored: State, start: State, switching: Switching, after: State, cleaning: State,
                             mid: State)

  ghost predicate Passes(before: State, w: Passing, end: State, c: int, rnd: seq<int>, slot: int, late: bool) {
    && CanStore(w.stored, c) && Saves(before, w.stored, DoStore(w.stored, c), c)
    && Others(DoStore(w.stored, c), w.start, c)
    && SwitchedBy(w.start, w.after, c, rnd, slot, w.switching)
    && (late <==> slot >= 0 && Stale(w.switching.read, c))
    && if late then end == w.after else Others(w.after, w.cleaning, c) && Cleans(w.cleaning, w.mid, end, c)
  }

  ghost predicate InSlots(table: map<int, int>) {
    forall pid :: pid in table ==> 0 <= pid < TASK_SLOTS
  }

  ghost predicate SameHere(s: State, s': State, c: int) {
    && IsCpu(s, c) && IsCpu(s', c)
    && s'.pc[c] == s.pc[c] && s'.cur[c] == s.cur[c] && s'.last[c] == s.last[c]
  }

  class Kernel {
    var tasks: array<int>     // the task table, NULL where a slot is free
    var currents: array<int>  // per CPU
    var lasts: array<int>
    var task: map<int, Task>  // the task structures that are allocated
    var queue: seq<int>       // ctx_queue
    var parked: multiset<int> // the tasks in the rings of the semaphores
    var pc: seq<Pc>           // where each CPU is

    ghost predicate Shape()
      reads this, tasks, currents, lasts
    {
      && tasks.Length == TASK_SLOTS
      && currents.Length == lasts.Length == |pc|
      && tasks != currents && tasks != lasts && currents != lasts
    }

    function Table(): map<int, int>
      reads this, tasks
    {
      map pid | 0 <= pid < tasks.Length && tasks[pid] != NULL :: tasks[pid]
    }

    function Snap(): State
      reads this, tasks, currents, lasts
    {
      State(currents[..], lasts[..], pc, task, Table(), queue, parked)
    }

    ghost predicate Valid()
      reads this, tasks, currents, lasts
    {
      Shape() && Inv(Snap())
    }

    // Makes the arrays show the state s'.
    method Show(s': State)
      requires Shape() && Inv(s') && |s'.cur| == currents.Length && InSlots(s'.table)
      modifies this`task, this`queue, this`pc, this`parked, tasks, currents, lasts
      ensures Valid() && Snap() == s'
    {
      assert forall pid {:trigger s'.table[pid]} :: pid in s'.table ==> PidOk(s', pid);
      forall i | 0 <= i < tasks.Length { tasks[i] := if i in s'.table then s'.table[i] else NULL; }
      forall c | 0 <= c < currents.Length { currents[c] := s'.cur[c]; }
      forall c | 0 <= c < lasts.Length { lasts[c] := s'.last[c]; }
      task, queue, pc, parked := s'.task, s'.queue, s'.pc, s'.parked;
      assert Table() == s'.table;
      assert currents[..] == s'.cur && lasts[..] == s'.last;
    }

    // Any number of steps of the other CPUs, none of which reads a slot too late.
    method OtherSteps(c: int)
      requires Valid()
      modifies this`task, this`queue, this`pc, this`parked, tasks, currents, lasts
      ensures Valid() && Others(old(Snap()), Snap(), c)
      ensures IsCpu(old(Snap()), c) ==> SameHere(old(Snap()), Snap(), c)
    {
      ghost var s := Snap();
      NoOthers(s, c);
      var more: nat := *;
      while more > 0
        invariant Valid() && Others(s, Snap(), c)
      {
        var a: Step := *;
        OneStep(s, a, c);
        more := more - 1;
      }
      if IsCpu(s, c) { OthersStay(s, Snap(), c); }
    }

    method OneStep(ghost s: State, a: Step, c: int)
      requires Valid() && Others(s, Snap(), c)
      modifies this`task, this`queue, this`pc, this`parked, tasks, currents, lasts
      ensures Valid() && Others(s, Snap(), c)
    {
      var s1 := Snap();
      if Enabled(s1, a) && !StaleStep(s1, a) && Actor(a) != c && (a.Create? ==> 0 <= a.pid < TASK_SLOTS) {
        KeepInv(s1, a);
        OneOther(s, s1, a, c);
        KeysOf(s1, a);
        Show(Next(s1, a));
      }
    }

    lemma KeysOf(s: State, a: Step)
      requires Enabled(s, a) && InSlots(s.table) && (a.Create? ==> 0 <= a.pid < TASK_SLOTS)
      ensures InSlots(Next(s, a).table) && |Next(s, a).cur| == |s.cur|
    {
    }

    method Unlock(t: int)
      requires t in task
      modifies this`task
      ensures task == old(task)[t := old(task)[t].(lock := Open)]
    {
      task := task[t := task[t].(lock := Open)];
    }

    // Returns false if the lock is taken.
    method TryLock(t: int, holder: Lock) returns (ok: bool)
      requires t in task
      modifies this`task
      ensures ok <==> old(task)[t].lock == Open
      ensures task == if ok then old(task)[t := old(task)[t].(lock := holder)] else old(task)
    {
      ok := task[t].lock == Open;
      if ok { task := task[t := task[t].(lock := holder)]; }
    }

    // kmt_context_save, its two actions on the last task,
    method SaveUnlock(c: int)
      requires Valid() && CanUnlock(Snap(), c)
      modifies this`task, this`pc
      ensures Valid() && Snap() == DoUnlock(old(Snap()), c)
      ensures lasts[c] != NULL && currents[c] != lasts[c] ==>
        lasts[c] in old(task) && task == old(task)[lasts[c] := old(task)[lasts[c]].(lock := Open)]
      ensures lasts[c] == NULL || currents[c] == lasts[c] ==> task == old(task)
    {
      ghost var s := Snap();
      KeepUnlock(s, c);
      if lasts[c] != NULL && currents[c] != lasts[c] {
        Unlock(lasts[c]);
      }
      pc := pc[c := Released];
      assert Snap() == DoUnlock(s, c);
    }

    method SaveStore(c: int)
      requires Valid() && CanStore(Snap(), c)
      modifies this`pc, lasts
      ensures Valid() && Snap() == DoStore(old(Snap()), c) && lasts[c] == currents[c]
    {
      ghost var s := Snap();
      KeepStore(s, c);
      lasts[c] := currents[c];
      pc := pc[c := Saved];
      assert Snap() == DoStore(s, c);
    }

    // with the other CPUs going on in between.
    method ContextSave(c: int) returns (ghost stored: State)
      requires Valid() && CanUnlock(Snap(), c)
      modifies this`task, this`queue, this`pc, this`parked, tasks, currents, lasts
      ensures Valid() && CanIdle(Snap(), c) && lasts[c] == currents[c] == old(currents[c])
      ensures Saves(old(Snap()), stored, Snap(), c)
    {
      SaveUnlock(c);
      OtherSteps(c);
      assert CpuOk(Snap(), c);
      stored := Snap();
      SaveStore(c);
    }

    // Whether the task in a slot is ready, by its attributes alone. An empty slot is not.
    method LookAt(c: int, slot: int) returns (ready: bool)
      requires Valid() && CanIdle(Snap(), c) && 0 <= slot < TASK_SLOTS
      modifies this`pc
      ensures Valid() && ready == CanLook(old(Snap()), c, slot)
      ensures ready <==>
        tasks[slot] != NULL && tasks[slot] in task && !task[tasks[slot]].sleep && !task[tasks[slot]].zombie
      ensures Snap() == if ready then DoLook(old(Snap()), c, slot) else old(Snap())
    {
      ghost var s := Snap();
      var t := tasks[slot];
      ready := false;
      if t != NULL {
        assert PidOk(s, slot);
        if !task[t].sleep && !task[t].zombie {
          KeepLook(s, c, slot);
          pc := pc[c := Seen(t, slot)];
          ready := true;
          assert Snap() == DoLook(s, c, slot);
        }
      }
    }

    // pthread_mutex_trylock on the task seen. A task that is gone is locked by who has freed it.
    method GrabSeen(c: int, t: int, slot: int) returns (ok: bool)
      requires Valid() && CanGrab(Snap(), c) && pc[c] == Seen(t, slot)
      modifies this`task, this`pc
      ensures Valid() && Snap() == DoGrab(old(Snap()), c) && ok == LockIsFree(old(Snap()), t)
      ensures ok <==> t in old(task) && old(task)[t].lock == Open
      ensures task == if ok then old(task)[t := old(task)[t].(lock := Cpu(c))] else old(task)
    {
      ghost var s := Snap();
      KeepGrab(s, c);
      ok := false;
      if t in task { ok := TryLock(t, Cpu(c)); }
      pc := pc[c := if ok then Locked(t, slot) else Saved];
      assert Snap() == DoGrab(s, c);
    }

    // current = tasks[new], whatever the slot holds by now.
    method SetCurrent(c: int, slot: int)
      requires Valid() && CanSet(Snap(), c) && pc[c].pid == slot && 0 <= slot < TASK_SLOTS
      modifies this`task, this`pc, currents
      ensures Shape() && Snap() == DoSet(old(Snap()), c) && currents[c] == tasks[slot]
      ensures Stale(old(Snap()), c) || Valid()
    {
      ghost var s := Snap();
      if !Stale(s, c) { KeepSet(s, c); }
      var t := tasks[slot];
      assert t == Slot(s, slot);
      assert NULL !in task;
      currents[c] := t;
      pc := pc[c := Switched];
      if t in task && task[t].prog.Parked? { task := task[t := task[t].(prog := Idle)]; }
      assert Snap() == DoSet(s, c);
    }

    method GiveUp(c: int)
      requires Valid() && CanIdle(Snap(), c)
      modifies this`pc, currents
      ensures Valid() && Snap() == DoIdle(old(Snap()), c) && currents[c] == NULL
    {
      ghost var s := Snap();
      KeepIdle(s, c);
      currents[c] := NULL;
      pc := pc[c := Switched];
      assert Snap() == DoIdle(s, c);
    }

    // kmt_context_switch. rnd: the random slots tried, in order; at the last try the CPU
    // idles. The other CPUs go on all the time: between two tries, between the look at a
    // task, the try of its lock and the second read of the slot. late: that read came too
    // late, which the code does not notice.
    method ContextSwitch(c: int, rnd: seq<int>) returns (slot: int, late: bool, ghost w: Switching)
      requires Valid() && CanIdle(Snap(), c)
      requires |rnd| == TRIES && forall k :: 0 <= k < TRIES ==> 0 <= rnd[k] < TASK_SLOTS
      modifies this`task, this`queue, this`pc, this`parked, tasks, currents, lasts
      ensures Shape() && IsCpu(Snap(), c) && lasts[c] == old(lasts[c]) && (late || Valid())
      ensures SwitchedBy(old(Snap()), Snap(), c, rnd, slot, w) && (late <==> slot >= 0 && Stale(w.read, c))
    {
      ghost var start, misses: seq<Miss>, seen, tried, read := Snap(), [], Snap(), Snap(), Snap();
      var i := 0;
      while i < TRIES - 1
        invariant 0 <= i == |misses| <= TRIES - 1 && Valid() && CanIdle(Snap(), c) && lasts[c] == old(lasts[c])
        invariant AllMiss(start, c, rnd, misses) && AfterTries(start, misses, i) == Snap()
      {
        var ok;
        ok, late, seen, tried, read := TrySlot(c, rnd[i]);
        if ok { return rnd[i], late, Switching(misses, seen, tried, read); }
        OneMiss(start, c, rnd, misses, Miss(seen, tried, Snap()));
        misses := misses + [Miss(seen, tried, Snap())];
        i := i + 1;
      }
      slot, late, w := -1, false, Switching(misses, seen, tried, Snap());
      GiveUp(c);
    }

    // One turn of the loop.
    method TrySlot(c: int, slot: int)
      returns (ok: bool, late: bool, ghost seen: State, ghost tried: State, ghost read: State)
      requires Valid() && CanIdle(Snap(), c) && 0 <= slot < TASK_SLOTS
      modifies this`task, this`queue, this`pc, this`parked, tasks, currents, lasts
      ensures Shape() && IsCpu(Snap(), c) && lasts[c] == old(lasts[c]) && (late || Valid())
      ensures Others(old(Snap()), seen, c)
      ensures if ok then Switches(seen, tried, read, Snap(), c, slot) && late == Stale(read, c)
        else !late && CanIdle(Snap(), c) && Misses(Miss(seen, tried, Snap()), c, slot)
    {
      OtherSteps(c);
      seen, tried, read, late := Snap(), Snap(), Snap(), false;
      var t := tasks[slot];
      ok := LookAt(c, slot);
      if ok {
        ok, tried := TrySeen(c, t, slot, seen);
        if ok {
          OtherSteps(c);
          read := Snap();
          SetCurrent(c, slot);
          late := currents[c] != t;
        }
      }
    }

    // The try of the lock of the task seen.
    method TrySeen(c: int, t: int, slot: int, ghost seen: State) returns (ok: bool, ghost tried: State)
      requires Valid() && CanLook(seen, c, slot) && Snap() == DoLook(seen, c, slot) && t == seen.table[slot]
      modifies this`task, this`queue, this`pc, this`parked, tasks, currents, lasts
      ensures Valid() && IsCpu(Snap(), c) && lasts[c] == old(lasts[c])
      ensures Others(DoLook(seen, c, slot), tried, c) && CanGrab(tried, c) && tried.pc[c] == Seen(t, slot)
      ensures ok == LockIsFree(tried, t) && Snap() == DoGrab(tried, c)
    {
      OtherSteps(c);
      tried := Snap();
      ok := GrabSeen(c, t, slot);
    }

    // kmt_context_clean up to the test of the lock: takes the first task of the queue.
    method CleanTake(c: int) returns (t: int)
      requires Valid() && CanTake(Snap(), c)
      modifies this`task, this`pc, this`queue
      ensures Valid() && Snap() == DoTake(old(Snap()), c) && old(queue) == [t] + queue
    {
      ghost var s := Snap();
      KeepTake(s, c);
      t := queue[0];
      queue := queue[1..];
      task := task[t := task[t].(claim := InHand(c))];
      pc := pc[c := Cleaning(t)];
      assert Snap() == DoTake(s, c);
    }

    // The rest of it: back into the queue if a CPU holds the task, else freed.
    method CleanTry(c: int, t: int)
      requires Valid() && CanTry(Snap(), c) && pc[c] == Cleaning(t)
      modifies this`task, this`pc, this`queue
      ensures Valid()
      ensures var s1 := DoTry(old(Snap()), c);
        (s1.pc[c] == User && Snap() == s1) || (CanClear(s1, c) && Snap() == DoClear(s1, c))
      ensures old(task)[t].lock == Open ==> task.Keys == old(task.Keys) - {t} && queue == old(queue)
      ensures old(task)[t].lock != Open ==> task.Keys == old(task.Keys) && queue == old(queue) + [t]
    {
      ghost var s := Snap();
      TryTaken(c, t);
      assert Snap() == DoTry(s, c);
      if pc[c] == Clearing(t) { ClearTaken(c, t); }
    }

    method TryTaken(c: int, t: int)
      requires Valid() && CanTry(Snap(), c) && pc[c] == Cleaning(t)
      modifies this`task, this`pc, this`queue
      ensures Valid() && Snap() == DoTry(old(Snap()), c)
    {
      ghost var s := Snap();
      KeepTry(s, c);
      var ok := TryLock(t, Cleaner(c));
      if !ok {
        task := task[t := task[t].(claim := Queued)];
        queue := queue + [t];
      }
      pc := pc[c := if ok then Clearing(t) else User];
      assert Snap() == DoTry(s, c);
    }

    method ClearTaken(c: int, t: int)
      requires Valid() && CanClear(Snap(), c) && pc[c] == Clearing(t)
      modifies this`task, this`pc
      ensures Valid() && Snap() == DoClear(old(Snap()), c)
    {
      ghost var s := Snap();
      KeepClear(s, c);
      task := map u | u in task && u != t :: task[u];
      pc := pc[c := User];
      assert Snap() == DoClear(s, c);
    }

    // kmt_context_clean, with the other CPUs going on between taking a task and trying its lock.
    method ContextClean(c: int) returns (ghost mid: State)
      requires Valid() && IsCpu(Snap(), c) && pc[c] == Switched
      modifies this`task, this`queue, this`pc, this`parked, tasks, currents, lasts
      ensures Valid() && IsCpu(Snap(), c) && pc[c] == User && currents[c] == old(currents[c])
        && lasts[c] == old(lasts[c])
      ensures Cleans(old(Snap()), mid, Snap(), c)
    {
      mid := Snap();
      if queue == [] {
        ghost var s := Snap();
        KeepSkip(s, c);
        pc := pc[c := User];
        assert Snap() == DoSkip(s, c);
      } else {
        assert PlaceOk(Snap(), 0);
        var t := CleanTake(c);
        OtherSteps(c);
        assert CpuOk(Snap(), c);
        mid := Snap();
        CleanTry(c, t);
      }
    }

    // A trap: the three handlers in order, the other CPUs going on in between. It is followed
    // to its end only if the slot was not read too late.
    method Trap(c: int, rnd: seq<int>)
      returns (slot: int, late: bool, ghost w: Passing)
      requires Valid() && CanUnlock(Snap(), c)
      requires |rnd| == TRIES && forall k :: 0 <= k < TRIES ==> 0 <= rnd[k] < TASK_SLOTS
      modifies this`task, this`queue, this`pc, this`parked, tasks, currents, lasts
      ensures IsCpu(Snap(), c) && lasts[c] == old(currents[c])
      ensures Passes(old(Snap()), w, Snap(), c, rnd, slot, late)
      ensures !late ==> Valid() && pc[c] == User
      ensures !late ==> currents[c] == if slot < 0 then NULL else w.switching.seen.table[slot]
    {
      ghost var stored, switching, mid;
      stored := ContextSave(c);
      OtherSteps(c);
      ghost var start := Snap();
      slot, late, switching := ContextSwitch(c, rnd);
      ghost var after, cleaning := Snap(), Snap();
      mid := Snap();
      if !late {
        OtherSteps(c);
        cleaning := Snap();
        mid := ContextClean(c);
      }
      w := Passing(stored, start, switching, after, cleaning, mid);
    }

    // exit with interrupts off: ends the running task and takes it off the table.
    method ExitUnlist(c: int)
      requires Valid() && CanFlag(Snap(), c)
      modifies this`task, tasks
      ensures Valid() && var s1 := DoFlag(old(Snap()), c); CanUnlist(s1, c) && Snap() == DoUnlist(s1, c)
      ensures var t := currents[c];
        && t in task && task[t].zombie && 0 <= task[t].pid < TASK_SLOTS
        && tasks[..] == old(tasks[..])[task[t].pid := NULL]
    {
      ghost var s := Snap();
      KeepFlag(s, c);
      var cur := currents[c];
      assert CpuOk(s, c) && TaskOk(s, cur);
      task := task[cur := task[cur].(zombie := true, prog := Flagged)];
      ghost var s1 := Snap();
      assert s1 == DoFlag(s, c);
      KeepUnlist(s1, c);
      tasks[task[cur].pid] := NULL;
      task := task[cur := task[cur].(prog := Unlisted)];
      assert Snap().table == DoUnlist(s1, c).table;
      assert Snap() == DoUnlist(s1, c);
    }

    // The end of exit: a detached task queues itself for the cleaner.
    method ExitQueue(c: int, full: bool)
      requires Valid() && CanEnd(Snap(), c)
      modifies this`task, this`queue
      ensures Valid() && Snap() == DoEnd(old(Snap()), c, full)
      ensures var t := currents[c];
        && t in old(task)
        && queue == if old(task)[t].nowait && !full then old(queue) + [t] else old(queue)
    {
      ghost var s := Snap();
      KeepEnd(s, c, full);
      var cur := currents[c];
      if task[cur].nowait {
        if full {
          task := task[cur := task[cur].(prog := Dead, claim := Dropped)];
        } else {
          queue := queue + [cur];
          task := task[cur := task[cur].(prog := Dead, claim := Queued)];
        }
      } else {
        task := task[cur := task[cur].(prog := Dead)];
      }
      assert Snap() == DoEnd(s, c, full);
    }

    // run_back_cmd, holding the son's lock: nothing to wait for, or detach it.
    method BackDecide(c: int)
      requires Valid() && CanDecide(Snap(), c)
      modifies this`task
      ensures Valid() && Snap() == DoDecide(old(Snap()), c)
      ensures var p := currents[c]; var t := Son(old(Snap()).task[p].prog);
        && p in task && t in old(task) && t in task
        && if old(task)[t].zombie then task[p].prog == BackReap(t) else task[p].prog == BackUnlock(t) && task[t].nowait
    {
      ghost var s := Snap();
      KeepDecide(s, c);
      var p := currents[c];
      var t := task[p].prog.son;
      if task[t].zombie {
        task := task[p := task[p].(prog := BackReap(t))];
      } else {
        task := task[t := task[t].(nowait := true, claim := Detached)];
        task := task[p := task[p].(prog := BackUnlock(t))];
      }
      assert Snap() == DoDecide(s, c);
    }

    // The parent frees its son, after kmt_wait or at once in run_back_cmd.
    method ReapSon(c: int)
      requires Valid() && CanReap(Snap(), c)
      modifies this`task
      ensures Valid() && Snap() == DoReap(old(Snap()), c)
      ensures task.Keys == old(task.Keys) - {Son(old(Snap()).task[currents[c]].prog)}
    {
      ghost var s := Snap();
      KeepReap(s, c);
      var p := currents[c];
      var t := task[p].prog.son;
      task := task[p := task[p].(prog := Idle)];
      task := map u | u in task && u != t :: task[u];
      assert Snap() == DoReap(s, c);
    }
  }
}
