// Runs that show what can happen between the look at a task, the try of its lock, and the
// reading of its slot.
module SchedRaces {
  import opened Sched
  import opened SchedRuns

  ghost predicate Reachable(s: State) {
    exists states, steps :: Run(states, steps) && states[|steps|] == s
  }

  lemma Reach(s: State, a: Step)
    requires Reachable(s) && Enabled(s, a)
    ensures Reachable(Next(s, a))
  {
    var states, steps :| Run(states, steps) && states[|steps|] == s;
    var states', steps' := states + [Next(s, a)], steps + [a];
    forall i | 0 <= i < |steps'| ensures StepAt(states', steps', i) {
      if i < |steps| { assert StepAt(states, steps, i); }
    }
    assert Run(states', steps') && states'[|steps'|] == Next(s, a);
  }

  lemma ReachInit(s: State)
    requires Init(s)
    ensures Reachable(s)
  {
    var states, steps: seq<Step> := [s], [];
    assert Run(states, steps) && states[|steps|] == s;
  }

  // ----- stretches of a run -----

  function At(s: State, c: int, cur: int, last: int, pc: Pc): State
    requires IsCpu(s, c)
  {
    s.(cur := s.cur[c := cur], last := s.last[c := last], pc := s.pc[c := pc])
  }

  predicate IsAt(s: State, c: int, cur: int, last: int, pc: Pc) {
    IsCpu(s, c) && s.cur[c] == cur && s.last[c] == last && s.pc[c] == pc
  }

  // An idle CPU traps.
  lemma Traps(s: State, c: int)
    requires Reachable(s) && IsAt(s, c, NULL, NULL, User)
    ensures Reachable(At(s, c, NULL, NULL, Saved))
  {
    Reach(s, Unlock(c));
    var s1 := DoUnlock(s, c);
    Reach(s1, Store(c));
    assert DoStore(s1, c) == At(s, c, NULL, NULL, Saved);
  }

  lemma Sees(s: State, c: int, pid: int, t: int)
    requires Reachable(s) && IsAt(s, c, NULL, NULL, Saved) && Listed(s, pid, t) && Ready(s, t)
    ensures Reachable(At(s, c, NULL, NULL, Seen(t, pid)))
  {
    Reach(s, Look(c, pid));
    assert DoLook(s, c, pid) == At(s, c, NULL, NULL, Seen(t, pid));
  }

  // It gets the lock of the task it has seen,
  function Held(s: State, c: int, t: int, pc: Pc): State
    requires IsCpu(s, c) && t in s.task
  {
    At(SetLock(s, t, Cpu(c)), c, s.cur[c], s.last[c], pc)
  }

  lemma Locks(s: State, c: int, pid: int, t: int)
    requires Reachable(s) && IsAt(s, c, NULL, NULL, Seen(t, pid)) && LockIsFree(s, t)
    ensures Reachable(Held(s, c, t, Locked(t, pid)))
  {
    Reach(s, Grab(c));
    assert DoGrab(s, c) == Held(s, c, t, Locked(t, pid));
  }

  // reads the slot, and goes on in the task it finds there.
  lemma Reads(s: State, c: int, pid: int, t: int, u: int)
    requires Reachable(s) && IsAt(s, c, NULL, NULL, Locked(t, pid)) && Slot(s, pid) == u
    requires u in s.task ==> !s.task[u].prog.Parked?
    ensures Reachable(At(s, c, u, NULL, Switched))
  {
    Reach(s, Set(c));
    assert DoSet(s, c) == At(s, c, u, NULL, Switched);
  }

  lemma GoesOn(s: State, c: int, t: int)
    requires Reachable(s) && IsAt(s, c, t, NULL, Switched) && s.queue == []
    ensures Reachable(At(s, c, t, NULL, User))
  {
    Reach(s, Skip(c));
    assert DoSkip(s, c) == At(s, c, t, NULL, User);
  }

  // All of it: a CPU looks for a task, and goes on in it.
  function OnTask(s: State, c: int, t: int): State
    requires IsCpu(s, c) && t in s.task
  {
    At(SetLock(s, t, Cpu(c)), c, t, NULL, User)
  }

  lemma Takes(s: State, c: int, pid: int, t: int)
    requires Reachable(s) && IsAt(s, c, NULL, NULL, Saved) && Listed(s, pid, t) && Ready(s, t) && LockIsFree(s, t)
    requires !s.task[t].prog.Parked? && s.queue == []
    ensures Reachable(OnTask(s, c, t))
  {
    Sees(s, c, pid, t);
    var s1 := At(s, c, NULL, NULL, Seen(t, pid));
    Locks(s1, c, pid, t);
    var s2 := Held(s1, c, t, Locked(t, pid));
    Reads(s2, c, pid, t, t);
    var s3 := At(s2, c, t, NULL, Switched);
    GoesOn(s3, c, t);
    assert At(s3, c, t, NULL, User) == OnTask(s, c, t);
  }

  // A CPU leaves its task to idle.
  lemma Saves(s: State, c: int, t: int)
    requires Reachable(s) && IsAt(s, c, t, NULL, User) && t != NULL && t in s.task
    requires !s.task[t].prog.Flagged? && !s.task[t].prog.Unlisted?
    ensures Reachable(At(s, c, t, t, Saved))
  {
    Reach(s, Unlock(c));
    var s1 := DoUnlock(s, c);
    Reach(s1, Store(c));
    assert DoStore(s1, c) == At(s, c, t, t, Saved);
  }

  lemma Idles(s: State, c: int, t: int)
    requires Reachable(s) && IsAt(s, c, t, t, Saved) && s.queue == []
    ensures Reachable(At(s, c, NULL, t, User))
  {
    Reach(s, StayIdle(c));
    var s1 := DoIdle(s, c);
    Reach(s1, Skip(c));
    assert DoSkip(s1, c) == At(s, c, NULL, t, User);
  }

  function Left(s: State, c: int, t: int): State
    requires IsCpu(s, c) && t in s.task
  {
    At(SetLock(s, t, Open), c, NULL, NULL, Saved)
  }

  lemma LetsGo(s: State, c: int, t: int)
    requires Reachable(s) && IsAt(s, c, NULL, t, User) && t != NULL && t in s.task
    ensures Reachable(Left(s, c, t))
  {
    Reach(s, Unlock(c));
    var s1 := DoUnlock(s, c);
    Reach(s1, Store(c));
    assert DoStore(s1, c) == Left(s, c, t);
  }

  lemma Leaves(s: State, c: int, t: int)
    requires Reachable(s) && IsAt(s, c, t, NULL, User) && t != NULL && t in s.task && s.queue == []
    requires !s.task[t].prog.Flagged? && !s.task[t].prog.Unlisted?
    ensures Reachable(Left(s, c, t))
  {
    Saves(s, c, t);
    Idles(At(s, c, t, t, Saved), c, t);
    var s1 := At(At(s, c, t, t, Saved), c, NULL, t, User);
    LetsGo(s1, c, t);
    assert Left(s1, c, t) == Left(s, c, t);
  }

  // A task ends that nobody has detached.
  function Ended(s: State, t: int): State
    requires t in s.task
  {
    var v := s.task[t];
    SetTask(s, t, v.(zombie := true, prog := Dead)).(table := map q | q in s.table && q != v.pid :: s.table[q])
  }

  lemma EndsBy(s: State, c: int, t: int)
    requires IsAt(s, c, t, NULL, User) && t != NULL && t in s.task && s.task[t].prog == Idle && !s.task[t].nowait
    ensures CanFlag(s, c) && CanUnlist(DoFlag(s, c), c) && CanEnd(DoUnlist(DoFlag(s, c), c), c)
    ensures DoEnd(DoUnlist(DoFlag(s, c), c), c, false) == Ended(s, t)
  {
    var s' := DoEnd(DoUnlist(DoFlag(s, c), c), c, false);
    assert s'.task == Ended(s, t).task && s'.table == Ended(s, t).table;
  }

  lemma Ends(s: State, c: int, t: int)
    requires Reachable(s) && IsAt(s, c, t, NULL, User) && t != NULL && t in s.task
    requires s.task[t].prog == Idle && !s.task[t].nowait
    ensures Reachable(Ended(s, t))
  {
    EndsBy(s, c, t);
    Reach(s, Flag(c));
    Reach(DoFlag(s, c), Unlist(c));
    Reach(DoUnlist(DoFlag(s, c), c), End(c, false));
  }

  // A parent that waits for its son comes to free it.
  function Reaping(s: State, p: int, t: int): State
    requires p in s.task && t in s.task
  {
    SetProg(SetLock(s, t, Parent(p)), p, Reap(t))
  }

  ghost predicate Waits(s: State, c: int, p: int, t: int) {
    && IsAt(s, c, p, NULL, User) && p != NULL && p in s.task && s.task[p].prog == Waiting(t)
    && t != p && t in s.task && s.task[t].zombie && s.task[t].lock == Open
  }

  lemma ComesBy(s: State, c: int, p: int, t: int)
    requires Waits(s, c, p, t)
    ensures CanSee(s, c) && CanLock(DoSee(s, c), c) && DoLock(DoSee(s, c), c) == Reaping(s, p, t)
  {
    assert DoLock(DoSee(s, c), c).task == Reaping(s, p, t).task;
  }

  lemma Comes(s: State, c: int, p: int, t: int)
    requires Reachable(s) && Waits(s, c, p, t)
    ensures Reachable(Reaping(s, p, t))
  {
    ComesBy(s, c, p, t);
    Reach(s, See(c));
    Reach(DoSee(s, c), LockSon(c));
  }

  lemma IsReaping(s: State, c: int, p: int, t: int)
    requires Waits(s, c, p, t)
    ensures var s' := Reaping(s, p, t);
      CanReap(s', c) && AboutToFree(s', c, t) && s'.pc == s.pc && DoReap(s', c).pc == s.pc && DoReap(s', c).cur == s.cur
  {
  }

  // ----- three CPUs: a parent on CPU 1, its son on CPU 0, and CPU 2 that looks on -----

  function Runner(prog: Prog): Task { Task(Cpu(1), false, false, false, 1, prog, Nobody) }

  function Alone(cur: int, pc: Pc, v: Task): State {
    State([NULL, cur, NULL], [NULL, NULL, NULL], [User, pc, User], map[1 := v], map[1 := 1], [], multiset{})
  }

  lemma ParentOnCpu()
    ensures OnTask(Alone(NULL, Saved, Runner(Idle).(lock := Open)), 1, 1) == Alone(1, User, Runner(Idle))
  {
  }

  lemma ParentTraps()
    ensures Reachable(Alone(NULL, Saved, Runner(Idle).(lock := Open)))
  {
    var v := Runner(Idle).(lock := Open);
    ReachInit(Alone(NULL, User, v));
    Traps(Alone(NULL, User, v), 1);
    assert At(Alone(NULL, User, v), 1, NULL, NULL, Saved) == Alone(NULL, Saved, v);
  }

  lemma ParentRuns()
    ensures Reachable(Alone(1, User, Runner(Idle)))
  {
    ParentTraps();
    ParentOnCpu();
    Takes(Alone(NULL, Saved, Runner(Idle).(lock := Open)), 1, 1, 1);
  }

  // kind: what the parent does about its son.
  function Son2(lock: Lock, prog: Prog, kind: Prog): Task {
    Task(lock, prog.Parked?, Exiting(prog), false, 2, prog, if kind == Idle then Nobody else ByParent(1))
  }

  // Task 2 on CPU 0, with CPU 2 at pc2.
  function Pair(cur: int, pc: Pc, pc2: Pc, kind: Prog, v: Task): State {
    State([cur, 1, NULL], [NULL, NULL, NULL], [pc, User, pc2], map[1 := Runner(kind), 2 := v],
          if v.zombie then map[1 := 1] else map[1 := 1, 2 := 2], [], if v.sleep then multiset{2} else multiset{})
  }

  lemma NewSon(kind: Prog)
    requires kind == Idle || kind == Waiting(2)
    ensures var s := Alone(1, User, Runner(Idle));
      CanCreate(s, 1, 2, 2, kind) && DoCreate(s, 1, 2, 2, kind) == Pair(NULL, User, User, kind, Son2(Open, Idle, kind))
  {
    var s := Alone(1, User, Runner(Idle));
    assert DoCreate(s, 1, 2, 2, kind).task == map[1 := Runner(kind), 2 := Son2(Open, Idle, kind)];
  }

  lemma SonIsBorn(kind: Prog)
    requires kind == Idle || kind == Waiting(2)
    ensures Reachable(Pair(NULL, User, User, kind, Son2(Open, Idle, kind)))
  {
    ParentRuns();
    NewSon(kind);
    Reach(Alone(1, User, Runner(Idle)), Create(1, 2, 2, kind));
  }

  lemma BothTrap(kind: Prog)
    requires kind == Idle || kind == Waiting(2)
    ensures Reachable(Pair(NULL, Saved, Saved, kind, Son2(Open, Idle, kind)))
  {
    var v := Son2(Open, Idle, kind);
    SonIsBorn(kind);
    Traps(Pair(NULL, User, User, kind, v), 0);
    assert At(Pair(NULL, User, User, kind, v), 0, NULL, NULL, Saved) == Pair(NULL, Saved, User, kind, v);
    Traps(Pair(NULL, Saved, User, kind, v), 2);
    assert At(Pair(NULL, Saved, User, kind, v), 2, NULL, NULL, Saved) == Pair(NULL, Saved, Saved, kind, v);
  }

  lemma SonOnCpu(kind: Prog)
    ensures var s, s' := Pair(NULL, Saved, Saved, kind, Son2(Open, Idle, kind)),
                         Pair(2, User, Saved, kind, Son2(Cpu(0), Idle, kind));
      OnTask(s, 0, 2) == s'
  {
    var s := Pair(NULL, Saved, Saved, kind, Son2(Open, Idle, kind));
    assert OnTask(s, 0, 2).task == map[1 := Runner(kind), 2 := Son2(Cpu(0), Idle, kind)];
  }

  lemma SonRuns(kind: Prog)
    requires kind == Idle || kind == Waiting(2)
    ensures Reachable(Pair(2, User, Saved, kind, Son2(Cpu(0), Idle, kind)))
  {
    BothTrap(kind);
    SonOnCpu(kind);
    Takes(Pair(NULL, Saved, Saved, kind, Son2(Open, Idle, kind)), 0, 2, 2);
  }

  // CPU 2 looks at task 2 while it runs on CPU 0.
  lemma SonIsSeen(kind: Prog)
    requires kind == Idle || kind == Waiting(2)
    ensures Reachable(Pair(2, User, Seen(2, 2), kind, Son2(Cpu(0), Idle, kind)))
  {
    var w := Son2(Cpu(0), Idle, kind);
    SonRuns(kind);
    Sees(Pair(2, User, Saved, kind, w), 2, 2, 2);
    assert At(Pair(2, User, Saved, kind, w), 2, NULL, NULL, Seen(2, 2)) == Pair(2, User, Seen(2, 2), kind, w);
  }

  // It ends, and CPU 0 leaves it.
  lemma DeadSon(kind: Prog)
    ensures var s, s' := Pair(2, User, Seen(2, 2), kind, Son2(Cpu(0), Idle, kind)),
                         Pair(2, User, Seen(2, 2), kind, Son2(Cpu(0), Dead, kind));
      Ended(s, 2) == s'
  {
    var s, s' := Pair(2, User, Seen(2, 2), kind, Son2(Cpu(0), Idle, kind)),
                 Pair(2, User, Seen(2, 2), kind, Son2(Cpu(0), Dead, kind));
    assert Ended(s, 2).task == s'.task && Ended(s, 2).table == s'.table;
  }

  lemma SonIsDead(kind: Prog)
    requires kind == Idle || kind == Waiting(2)
    ensures Reachable(Pair(2, User, Seen(2, 2), kind, Son2(Cpu(0), Dead, kind)))
  {
    SonIsSeen(kind);
    DeadSon(kind);
    Ends(Pair(2, User, Seen(2, 2), kind, Son2(Cpu(0), Idle, kind)), 0, 2);
  }

  lemma SonEnds(kind: Prog)
    requires kind == Idle || kind == Waiting(2)
    ensures Reachable(Pair(NULL, Saved, Seen(2, 2), kind, Son2(Open, Dead, kind)))
  {
    var s := Pair(2, User, Seen(2, 2), kind, Son2(Cpu(0), Dead, kind));
    SonIsDead(kind);
    Leaves(s, 0, 2);
    assert Left(s, 0, 2) == Pair(NULL, Saved, Seen(2, 2), kind, Son2(Open, Dead, kind));
  }

  // CPU 2 gets the lock of the dead task, finds its slot empty, and has no current task; the
  // lock stays with a CPU that does not use the task.
  lemma DeadTaskStaysLocked()
    ensures exists s :: Reachable(s) && IsCpu(s, 2) && s.cur[2] == NULL && 2 in s.task && s.task[2].prog == Dead
                        && s.task[2].lock == Cpu(2) && !Uses(s, 2, 2)
  {
    var v := Son2(Open, Dead, Idle);
    SonEnds(Idle);
    var s := Pair(NULL, Saved, Seen(2, 2), Idle, v);
    Locks(s, 2, 2, 2);
    var s1 := Held(s, 2, 2, Locked(2, 2));
    Reads(s1, 2, 2, 2, NULL);
    assert Reachable(At(s1, 2, NULL, NULL, Switched));
  }

  // A parent frees its son in the sight of CPU d.
  lemma FreesSeen(s: State, c: int, p: int, t: int, d: int)
    requires Reachable(s) && Waits(s, c, p, t) && HasSeen(s, d, t)
    ensures exists s1 :: Reachable(s1) && AboutToFree(s1, c, t) && CanReap(s1, c) && HasSeen(DoReap(s1, c), d, t)
  {
    Comes(s, c, p, t);
    IsReaping(s, c, p, t);
    var s1 := Reaping(s, p, t);
    assert Reachable(s1) && AboutToFree(s1, c, t) && CanReap(s1, c) && HasSeen(DoReap(s1, c), d, t);
  }

  lemma FreedWhileSeen()
    ensures exists s :: Reachable(s) && AboutToFree(s, 1, 2) && CanReap(s, 1) && HasSeen(DoReap(s, 1), 2, 2)
  {
    SonEnds(Waiting(2));
    FreesSeen(Pair(NULL, Saved, Seen(2, 2), Waiting(2), Son2(Open, Dead, Waiting(2))), 1, 1, 2, 2);
  }

  lemma SonAsleep()
    ensures var s := Pair(2, User, Seen(2, 2), Idle, Son2(Cpu(0), Idle, Idle));
      CanSleep(s, 0) && DoSleep(s, 0) == Pair(2, User, Seen(2, 2), Idle, Son2(Cpu(0), Parked, Idle))
  {
  }

  lemma SonSleeps()
    ensures Reachable(Pair(2, User, Seen(2, 2), Idle, Son2(Cpu(0), Parked, Idle)))
  {
    SonIsSeen(Idle);
    SonAsleep();
    Reach(Pair(2, User, Seen(2, 2), Idle, Son2(Cpu(0), Idle, Idle)), Sleep(0));
  }

  lemma SleeperIsLeft()
    ensures Reachable(Pair(NULL, Saved, Seen(2, 2), Idle, Son2(Open, Parked, Idle)))
  {
    var s := Pair(2, User, Seen(2, 2), Idle, Son2(Cpu(0), Parked, Idle));
    SonSleeps();
    Leaves(s, 0, 2);
    assert Left(s, 0, 2) == Pair(NULL, Saved, Seen(2, 2), Idle, Son2(Open, Parked, Idle));
  }

  // Task 2 goes to sleep on CPU 0 after CPU 2 has looked at it; its slot is unchanged, and
  // CPU 2 takes it while it sleeps.
  lemma SleeperIsTaken()
    ensures exists s :: Reachable(s) && CanSet(s, 2) && !Stale(s, 2) && TakesSleeper(s, Set(2))
                        && DoSet(s, 2).cur[2] == 2 && Asleep(DoSet(s, 2), 2)
  {
    var s := Pair(NULL, Saved, Seen(2, 2), Idle, Son2(Open, Parked, Idle));
    SleeperIsLeft();
    Locks(s, 2, 2, 2);
    var s1 := Held(s, 2, 2, Locked(2, 2));
    assert Reachable(s1) && CanSet(s1, 2);
  }

  // ----- one task on two CPUs -----

  function Son3(lock: Lock, prog: Prog): Task { Task(lock, false, Exiting(prog), false, 2, prog, ByParent(1)) }

  // Task 2 is dead, and task 3 has its slot; CPU 0 is on task cur and CPU 2 on cur2.
  function Trio(cur: int, pc: Pc, cur2: int, pc2: Pc, kind: Prog, lock: Lock, v: Task): State {
    State([cur, 1, cur2], [NULL, NULL, NULL], [pc, User, pc2],
          map[1 := Runner(kind), 2 := Son2(lock, Dead, Idle), 3 := v],
          if v.zombie then map[1 := 1] else map[1 := 1, 2 := 3], [], multiset{})
  }

  // The parent creates task 3 in the slot that task 2 has left.
  lemma SlotIsReused()
    ensures Reachable(Trio(NULL, Saved, NULL, Seen(2, 2), Waiting(3), Open, Son3(Open, Idle)))
  {
    var s := Pair(NULL, Saved, Seen(2, 2), Idle, Son2(Open, Dead, Idle));
    SonEnds(Idle);
    Reach(s, Create(1, 3, 2, Waiting(3)));
    NewInSlot();
  }

  lemma NewInSlot()
    ensures var s := Pair(NULL, Saved, Seen(2, 2), Idle, Son2(Open, Dead, Idle));
      && CanCreate(s, 1, 3, 2, Waiting(3))
      && DoCreate(s, 1, 3, 2, Waiting(3)) == Trio(NULL, Saved, NULL, Seen(2, 2), Waiting(3), Open, Son3(Open, Idle))
  {
  }

  // CPU 0 takes it, and so does CPU 2, which has the lock of the dead task 2.
  lemma Task3Runs()
    ensures Reachable(Trio(3, User, NULL, Seen(2, 2), Waiting(3), Open, Son3(Cpu(0), Idle)))
  {
    var s := Trio(NULL, Saved, NULL, Seen(2, 2), Waiting(3), Open, Son3(Open, Idle));
    SlotIsReused();
    Takes(s, 0, 2, 3);
    assert OnTask(s, 0, 3) == Trio(3, User, NULL, Seen(2, 2), Waiting(3), Open, Son3(Cpu(0), Idle));
  }

  lemma BothOnTask3()
    ensures Reachable(Trio(3, User, 3, Switched, Waiting(3), Cpu(2), Son3(Cpu(0), Idle)))
  {
    var w, k := Son3(Cpu(0), Idle), Waiting(3);
    Task3Runs();
    var s, s1 := Trio(3, User, NULL, Seen(2, 2), k, Open, w), Trio(3, User, NULL, Locked(2, 2), k, Cpu(2), w);
    Locks(s, 2, 2, 2);
    assert Held(s, 2, 2, Locked(2, 2)) == s1;
    Reads(s1, 2, 2, 2, 3);
    assert At(s1, 2, 3, NULL, Switched) == Trio(3, User, 3, Switched, k, Cpu(2), w);
  }

  lemma TaskOnTwoCpus()
    ensures exists s :: Reachable(s) && Uses(s, 0, 3) && Uses(s, 2, 3)
  {
    BothOnTask3();
    var s := Trio(3, User, 3, Switched, Waiting(3), Cpu(2), Son3(Cpu(0), Idle));
    assert Reachable(s) && Uses(s, 0, 3) && Uses(s, 2, 3);
  }

  // Task 3 ends on CPU 0, and its parent frees it while CPU 2 still has it as current.
  lemma Task3Ends()
    ensures Reachable(Trio(3, User, 3, Switched, Waiting(3), Cpu(2), Son3(Cpu(0), Dead)))
  {
    var s, s' := Trio(3, User, 3, Switched, Waiting(3), Cpu(2), Son3(Cpu(0), Idle)),
                 Trio(3, User, 3, Switched, Waiting(3), Cpu(2), Son3(Cpu(0), Dead));
    BothOnTask3();
    Ends(s, 0, 3);
    assert Ended(s, 3).task == s'.task && Ended(s, 3).table == s'.table;
    assert Ended(s, 3) == s';
  }

  lemma Task3IsLeft()
    ensures Reachable(Trio(NULL, Saved, 3, Switched, Waiting(3), Cpu(2), Son3(Open, Dead)))
  {
    var s := Trio(3, User, 3, Switched, Waiting(3), Cpu(2), Son3(Cpu(0), Dead));
    Task3Ends();
    Leaves(s, 0, 3);
    assert Left(s, 0, 3) == Trio(NULL, Saved, 3, Switched, Waiting(3), Cpu(2), Son3(Open, Dead));
  }

  // A parent frees its son while CPU d has it as current.
  lemma FreesCurrent(s: State, c: int, p: int, t: int, d: int)
    requires Reachable(s) && Waits(s, c, p, t) && IsCpu(s, d) && s.cur[d] == t && t != NULL
    ensures exists s1 :: Reachable(s1) && AboutToFree(s1, c, t) && CanReap(s1, c) && Uses(s1, d, t)
  {
    Comes(s, c, p, t);
    IsReaping(s, c, p, t);
    var s1 := Reaping(s, p, t);
    assert Reachable(s1) && AboutToFree(s1, c, t) && CanReap(s1, c) && Uses(s1, d, t);
  }

  lemma FreedWhileCurrent()
    ensures exists s :: Reachable(s) && AboutToFree(s, 1, 3) && CanReap(s, 1) && Uses(s, 2, 3)
  {
    Task3IsLeft();
    FreesCurrent(Trio(NULL, Saved, 3, Switched, Waiting(3), Cpu(2), Son3(Open, Dead)), 1, 1, 3, 2);
  }
}
