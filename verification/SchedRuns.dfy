// What holds in every run of the scheduler: who holds which lock, what a task that is
// taken was last seen as, and that a task is freed once, dead, by the one with the claim.
module SchedRuns {
  import opened Sched

  ghost predicate StepAt(states: seq<State>, steps: seq<Step>, i: int) {
    0 <= i < |steps| && i + 1 < |states| && Enabled(states[i], steps[i]) && states[i + 1] == Next(states[i], steps[i])
  }

  ghost predicate Path(states: seq<State>, steps: seq<Step>) {
    |states| == |steps| + 1 && forall i {:trigger StepAt(states, steps, i)} :: 0 <= i < |steps| ==>
      StepAt(states, steps, i)
  }

  ghost predicate Run(states: seq<State>, steps: seq<Step>) {
    Path(states, steps) && Init(states[0])
  }

  ghost predicate StaleAt(states: seq<State>, steps: seq<Step>, k: int) {
    0 <= k < |steps| && k < |states| && StaleStep(states[k], steps[k])
  }

  // Up to state n no CPU has read a slot that no longer held the task it had locked.
  ghost predicate Clean(states: seq<State>, steps: seq<Step>, n: int) {
    forall k :: 0 <= k < n ==> !StaleAt(states, steps, k)
  }

  lemma {:induction false} RunInv(states: seq<State>, steps: seq<Step>, n: nat)
    requires Run(states, steps) && n < |states| && Clean(states, steps, n)
    ensures Inv(states[n])
  {
    if n == 0 {
      InitInv(states[0]);
    } else {
      RunInv(states, steps, n - 1);
      assert StepAt(states, steps, n - 1) && !StaleAt(states, steps, n - 1);
      KeepInv(states[n - 1], steps[n - 1]);
    }
  }

  // ----- slots and locks -----

  // CPU c has the task as current or last one, or has got its lock and is to read the slot.
  ghost predicate Uses(s: State, c: int, t: int) { t != NULL && OnCpu(s, c, t) }

  ghost predicate LockFits(s: State, c: int, t: int) {
    && (t in s.task ==> (s.task[t].lock == Cpu(c) <==> Uses(s, c, t)))
    && (Uses(s, c, t) ==> t in s.task)
  }

  ghost predicate LocksFit(s: State) {
    forall c, t {:trigger LockFits(s, c, t)} :: IsCpu(s, c) ==> LockFits(s, c, t)
  }

  // A CPU holds exactly the locks of the tasks in its two slots and of the one it has just
  // locked, so no task, and no task's stack, is in use by two CPUs; and the two slots differ
  // except while a task is chosen.
  lemma SlotsAreLocks(states: seq<State>, steps: seq<Step>, n: nat, c: int, t: int)
    requires Run(states, steps) && n < |states| && Clean(states, steps, n) && IsCpu(states[n], c)
    ensures var s := states[n];
      && LocksFit(s)
      && (Uses(s, c, t) ==> forall d :: Uses(s, d, t) ==> d == c)
      && (s.cur[c] != NULL && s.cur[c] == s.last[c] ==> Choosing(s.pc[c]))
  {
    RunInv(states, steps, n);
    InvLocks(states[n]);
    var s := states[n];
    assert CpuOk(s, c);
    forall d | Uses(s, d, t) && Uses(s, c, t) ensures d == c { assert LockFits(s, c, t) && LockFits(s, d, t); }
  }

  lemma InvLocks(s: State)
    requires Inv(s)
    ensures LocksFit(s)
  {
    forall c, t | IsCpu(s, c) ensures LockFits(s, c, t) {
      assert CpuOk(s, c);
      if t in s.task { assert TaskOk(s, t); }
    }
  }

  // Reading a slot that has changed leaves the lock of a task with a CPU that does not use it.
  lemma StaleBreaks(s: State, c: int)
    requires Inv(s) && Stale(s, c)
    ensures var s', t := DoSet(s, c), s.pc[c].task;
      t in s'.task && s'.task[t].lock == Cpu(c) && IsCpu(s', c) && !Uses(s', c, t) && !LocksFit(s')
  {
    var s', t := DoSet(s, c), s.pc[c].task;
    assert CpuOk(s, c);
    assert !LockFits(s', c, t);
  }

  lemma {:induction false} FirstStale(states: seq<State>, steps: seq<Step>, n: nat) returns (j: nat)
    requires !Clean(states, steps, n)
    ensures j < n && Clean(states, steps, j) && StaleAt(states, steps, j)
  {
    if Clean(states, steps, n - 1) {
      j := n - 1;
      var k :| 0 <= k < n && StaleAt(states, steps, k);
    } else {
      j := FirstStale(states, steps, n - 1);
    }
  }

  // Locks and slots fit in all states of a run up to one exactly when no slot was read too
  // late before it.
  lemma LocksFitIff(states: seq<State>, steps: seq<Step>, n: nat)
    requires Run(states, steps) && n < |states|
    ensures Clean(states, steps, n) <==> forall m :: 0 <= m <= n ==> LocksFit(states[m])
  {
    if Clean(states, steps, n) {
      forall m | 0 <= m <= n ensures LocksFit(states[m]) {
        RunInv(states, steps, m);
        InvLocks(states[m]);
      }
    } else {
      var j := FirstStale(states, steps, n);
      RunInv(states, steps, j);
      assert StepAt(states, steps, j);
      StaleBreaks(states[j], steps[j].c);
      assert !LocksFit(states[j + 1]);
    }
  }

  // ----- what the other CPUs do meanwhile -----

  // The CPU that takes a step; a wake-up only touches the task it wakes.
  function Actor(a: Step): int { if a.Wake? then -1 else a.c }

  ghost predicate Leads(states: seq<State>, steps: seq<Step>, c: int, s: State, s': State) {
    && Path(states, steps) && states[0] == s && states[|steps|] == s'
    && forall i :: 0 <= i < |steps| ==> Actor(steps[i]) != c && !StaleAt(states, steps, i)
  }

  // Any steps, none of them by CPU c and none reading a slot too late, lead from s to s'.
  ghost predicate Others(s: State, s': State, c: int) {
    exists states, steps :: Leads(states, steps, c, s, s')
  }

  lemma NoOthers(s: State, c: int)
    ensures Others(s, s, c)
  {
    assert Leads([s], [], c, s, s);
  }

  lemma OneOther(s: State, s': State, a: Step, c: int)
    requires Others(s, s', c) && Enabled(s', a) && Actor(a) != c && !StaleStep(s', a)
    ensures Others(s, Next(s', a), c)
  {
    var states, steps :| Leads(states, steps, c, s, s');
    var states', steps' := states + [Next(s', a)], steps + [a];
    forall i | 0 <= i < |steps'| ensures StepAt(states', steps', i) {
      if i < |steps| { assert StepAt(states, steps, i); }
    }
    forall i | 0 <= i < |steps'| ensures Actor(steps'[i]) != c && !StaleAt(states', steps', i) {
      if i < |steps| { assert !StaleAt(states, steps, i); }
    }
    assert Leads(states', steps', c, s, Next(s', a));
  }

  // They leave the slots and the place of CPU c alone.
  lemma OthersStay(s: State, s': State, c: int)
    requires Others(s, s', c) && IsCpu(s, c)
    ensures IsCpu(s', c) && s'.pc[c] == s.pc[c] && s'.cur[c] == s.cur[c] && s'.last[c] == s.last[c]
  {
    var states, steps :| Leads(states, steps, c, s, s');
    StayAlong(states, steps, c, |steps|);
  }

  lemma {:induction false} StayAlong(states: seq<State>, steps: seq<Step>, c: int, n: nat)
    requires Path(states, steps) && n <= |steps| && IsCpu(states[0], c)
    requires forall i :: 0 <= i < |steps| ==> Actor(steps[i]) != c
    ensures IsCpu(states[n], c) && states[n].pc[c] == states[0].pc[c]
    ensures states[n].cur[c] == states[0].cur[c] && states[n].last[c] == states[0].last[c]
  {
    if n > 0 {
      StayAlong(states, steps, c, n - 1);
      assert StepAt(states, steps, n - 1);
      OtherCpuStep(states[n - 1], steps[n - 1], c);
    }
  }

  lemma OtherCpuStep(s: State, a: Step, c: int)
    requires Enabled(s, a) && Actor(a) != c && IsCpu(s, c)
    ensures IsCpu(Next(s, a), c) && Next(s, a).pc[c] == s.pc[c] && Next(s, a).cur[c] == s.cur[c]
      && Next(s, a).last[c] == s.last[c]
  {
  }

  // ----- the kinds of steps -----

  predicate OfExit(a: Step) { a.Flag? || a.Unlist? || a.End? }

  predicate OfRing(a: Step) { a.Sleep? || a.Wake? }

  predicate OfCpu(a: Step) {
    a.Unlock? || a.Store? || a.Look? || a.Grab? || a.Set? || a.StayIdle? || a.Skip? || a.Take? || a.Try?
  }

  predicate OfFreer(a: Step) { a.ReapSon? || a.Clear? }

  // ----- no step meets a task that is gone -----

  ghost predicate InCode(s: State, c: int) { IsCpu(s, c) && s.pc[c] == User && s.cur[c] != NULL }

  // The code of the task on CPU c is at p, as far as that task is still there.
  ghost predicate AtProg(s: State, c: int, p: Prog) {
    InCode(s, c) && (s.cur[c] in s.task ==> s.task[s.cur[c]].prog == p)
  }

  // The program of CPU c is at step a: all that the code itself tests, and nothing about
  // which tasks exist.
  ghost predicate Position(s: State, a: Step, p: Prog) {
    match a
    case Store(c) => IsCpu(s, c) && s.pc[c] == Released
    case Set(c) => IsCpu(s, c) && s.pc[c].Locked?
    case Unlock(c) =>
      IsCpu(s, c) && s.pc[c] == User && (s.cur[c] != NULL ==> AtProg(s, c, p) && !p.Flagged? && !p.Unlisted?)
    case Look(c, pid) =>
      && IsCpu(s, c) && s.pc[c] == Saved && pid in s.table
      && (s.table[pid] in s.task ==> !s.task[s.table[pid]].sleep && !s.task[s.table[pid]].zombie)
    case Grab(c) => IsCpu(s, c) && s.pc[c].Seen?
    case StayIdle(c) => IsCpu(s, c) && s.pc[c] == Saved
    case Skip(c) => IsCpu(s, c) && s.pc[c] == Switched && s.queue == []
    case Take(c) => IsCpu(s, c) && s.pc[c] == Switched && s.queue != []
    case Try(c) => IsCpu(s, c) && s.pc[c].Cleaning?
    case Clear(c) => IsCpu(s, c) && s.pc[c].Clearing?
    case Create(c, t, pid, kind) =>
      AtProg(s, c, Idle) && t != NULL && t !in s.task && pid !in s.table
        && (kind == Idle || kind == Waiting(t) || kind == BackLock(t))
    case See(c) => AtProg(s, c, p) && p.Waiting? && (p.son in s.task ==> s.task[p.son].zombie)
    case LockSon(c) => AtProg(s, c, p) && p.WantLock? && (p.son in s.task ==> s.task[p.son].lock == Open)
    case ReapSon(c) => AtProg(s, c, p) && (p.Reap? || p.BackReap?)
    case Hold(c) => AtProg(s, c, p) && p.BackLock? && (p.son in s.task ==> s.task[p.son].lock == Open)
    case Decide(c) => AtProg(s, c, p) && p.BackHeld?
    case Release(c) => AtProg(s, c, p) && p.BackUnlock?
    case Flag(c) => AtProg(s, c, Idle)
    case Unlist(c) => AtProg(s, c, Flagged)
    case End(c, full) => AtProg(s, c, Unlisted)
    case Sleep(c) => AtProg(s, c, Idle)
    case Wake(t) => t in s.parked
  }

  // Up to state n no slot was read too late, and no task was taken that was asleep.
  ghost predicate Awake(states: seq<State>, steps: seq<Step>, n: int) {
    Clean(states, steps, n) && forall k :: 0 <= k < n ==> !SleeperAt(states, steps, k)
  }

  ghost predicate Asleep(s: State, t: int) { t in s.task && s.task[t].sleep }

  ghost predicate TakesSleeper(s: State, a: Step) { a.Set? && CanSet(s, a.c) && Asleep(s, Slot(s, s.pc[a.c].pid)) }

  ghost predicate SleeperAt(states: seq<State>, steps: seq<Step>, k: int) {
    0 <= k < |steps| && k < |states| && TakesSleeper(states[k], steps[k])
  }

  // The rings hold each sleeping task once, and no other; it is inside the semaphore's code.
  ghost predicate ParkOk(s: State, t: int) {
    s.parked[t] == (if Asleep(s, t) then 1 else 0) && (Asleep(s, t) ==> s.task[t].prog == Parked)
  }

  ghost predicate Rings(s: State) { forall t {:trigger ParkOk(s, t)} :: ParkOk(s, t) }

  lemma ParkExit(s: State, a: Step, t: int)
    requires Inv(s) && Enabled(s, a) && OfExit(a) && Rings(s)
    ensures ParkOk(Next(s, a), t)
  {
    assert ParkOk(s, t);
  }

  lemma ParkRing(s: State, a: Step, t: int)
    requires Inv(s) && Enabled(s, a) && OfRing(a) && Rings(s)
    ensures ParkOk(Next(s, a), t)
  {
    assert ParkOk(s, t);
  }

  lemma ParkCpu(s: State, a: Step, t: int)
    requires Inv(s) && Enabled(s, a) && OfCpu(a) && !TakesSleeper(s, a) && Rings(s)
    ensures ParkOk(Next(s, a), t)
  {
    assert ParkOk(s, t);
  }

  lemma ParkFreer(s: State, a: Step, t: int)
    requires Inv(s) && Enabled(s, a) && OfFreer(a) && Rings(s)
    ensures ParkOk(Next(s, a), t)
  {
    assert ParkOk(s, t);
    match a
    case ReapSon(c) => assert CpuOk(s, c) && TaskOk(s, s.cur[c]) && TaskOk(s, Prg(s, c).son);
    case Clear(c) => assert CpuOk(s, c) && TaskOk(s, s.pc[c].task);
  }

  lemma ParkParent(s: State, a: Step, t: int)
    requires Inv(s) && Enabled(s, a) && !OfExit(a) && !OfRing(a) && !OfCpu(a) && !OfFreer(a) && Rings(s)
    ensures ParkOk(Next(s, a), t)
  {
    assert ParkOk(s, t);
  }

  lemma KeepRings(s: State, a: Step)
    requires Inv(s) && Enabled(s, a) && !TakesSleeper(s, a) && Rings(s)
    ensures Rings(Next(s, a))
  {
    forall t ensures ParkOk(Next(s, a), t) {
      if OfExit(a) { ParkExit(s, a, t); } else if OfRing(a) { ParkRing(s, a, t); }
      else if OfCpu(a) { ParkCpu(s, a, t); } else if OfFreer(a) { ParkFreer(s, a, t); } else { ParkParent(s, a, t); }
    }
  }

  lemma {:induction false} RunRings(states: seq<State>, steps: seq<Step>, n: nat)
    requires Run(states, steps) && n < |states| && Awake(states, steps, n)
    ensures Rings(states[n])
  {
    if n == 0 {
      forall t ensures ParkOk(states[0], t) {}
    } else {
      RunRings(states, steps, n - 1);
      RunInv(states, steps, n - 1);
      assert StepAt(states, steps, n - 1) && !SleeperAt(states, steps, n - 1);
      KeepRings(states[n - 1], steps[n - 1]);
    }
  }

  // A task that goes to sleep is in no ring yet, and one that is woken is there.
  lemma RingsServe(states: seq<State>, steps: seq<Step>, n: nat, c: int, t: int)
    requires Run(states, steps) && n < |states| && Awake(states, steps, n)
    ensures CanSleep(states[n], c) ==> states[n].cur[c] !in states[n].parked
    ensures t in states[n].parked <==> Asleep(states[n], t)
  {
    RunRings(states, steps, n);
    assert ParkOk(states[n], t);
    if CanSleep(states[n], c) { assert ParkOk(states[n], states[n].cur[c]); }
  }

  // The tasks that a step reads or writes are there: those in the two slots, in the table, at
  // the head of the queue, in the cleaner's hand, in the rings, and the sons.
  lemma NoTaskIsMissing(states: seq<State>, steps: seq<Step>, n: nat, a: Step, p: Prog)
    requires Run(states, steps) && n < |states| && Clean(states, steps, n) && Position(states[n], a, p)
    requires a.Wake? ==> Awake(states, steps, n)
    ensures Enabled(states[n], a)
  {
    RunInv(states, steps, n);
    if a.Wake? { RingsServe(states, steps, n, 0, a.t); }
    PositionSuffices(states[n], a, p);
  }

  lemma PositionSuffices(s: State, a: Step, p: Prog)
    requires Inv(s) && Position(s, a, p) && (a.Wake? ==> a.t in s.task)
    ensures Enabled(s, a)
  {
    match a
    case Look(c, pid) => assert PidOk(s, pid);
    case Take(c) => assert PlaceOk(s, 0);
    case Wake(t) =>
    case _ =>
      assert CpuOk(s, a.c);
      if s.cur[a.c] != NULL { assert TaskOk(s, s.cur[a.c]); }
  }

  // ----- what a CPU takes -----

  ghost predicate HasSeen(s: State, c: int, t: int) { IsCpu(s, c) && s.pc[c].Seen? && s.pc[c].task == t }

  ghost predicate Live(s: State, t: int) { t in s.task && !s.task[t].zombie }

  ghost predicate Ready(s: State, t: int) { Live(s, t) && !s.task[t].sleep }

  ghost predicate Flags(s: State, a: Step, t: int) { a.Flag? && IsCpu(s, a.c) && s.cur[a.c] == t }

  ghost predicate Sleeps(s: State, a: Step, t: int) { a.Sleep? && IsCpu(s, a.c) && s.cur[a.c] == t }

  ghost predicate Creates(a: Step, t: int) { a.Create? && a.t == t }

  ghost predicate FlagAt(states: seq<State>, steps: seq<Step>, k: int, t: int) {
    0 <= k < |steps| && k < |states| && Flags(states[k], steps[k], t)
  }

  ghost predicate SleepAt(states: seq<State>, steps: seq<Step>, k: int, t: int) {
    0 <= k < |steps| && k < |states| && Sleeps(states[k], steps[k], t)
  }

  ghost predicate WakeAt(steps: seq<Step>, k: int, t: int) { 0 <= k < |steps| && steps[k] == Wake(t) }

  ghost predicate Unlists(s: State, a: Step, t: int) { a.Unlist? && IsCpu(s, a.c) && s.cur[a.c] == t }

  ghost predicate UnlistAt(states: seq<State>, steps: seq<Step>, k: int, t: int) {
    0 <= k < |steps| && k < |states| && Unlists(states[k], steps[k], t)
  }

  ghost predicate CreateAt(steps: seq<Step>, k: int, t: int) { 0 <= k < |steps| && Creates(steps[k], t) }

  ghost predicate GrabAt(steps: seq<Step>, k: int, c: int) { 0 <= k < |steps| && steps[k] == Grab(c) }

  ghost predicate SetAt(steps: seq<Step>, k: int, c: int) { 0 <= k < |steps| && steps[k] == Set(c) }

  ghost predicate NotUnlisted(states: seq<State>, steps: seq<Step>, from: int, n: int, t: int) {
    forall k :: from < k < n ==> !UnlistAt(states, steps, k, t)
  }

  ghost predicate Unflagged(states: seq<State>, steps: seq<Step>, from: int, n: int, t: int) {
    forall k :: from < k < n ==> !FlagAt(states, steps, k, t)
  }

  ghost predicate Woken(states: seq<State>, steps: seq<Step>, from: int, n: int, t: int) {
    forall k :: from < k < n && SleepAt(states, steps, k, t) ==> exists m :: k < m < n && WakeAt(steps, m, t)
  }

  ghost predicate NotCreated(steps: seq<Step>, from: int, n: int, t: int) {
    forall k :: from < k < n ==> !CreateAt(steps, k, t)
  }

  // How one step changes what a task looks like to the scheduler: steps that free a task,
  lemma FreeStep(s: State, a: Step, t: int)
    requires Inv(s) && Enabled(s, a) && OfFreer(a)
    ensures Live(Next(s, a), t) <==> Live(s, t)
    ensures t in Next(s, a).task ==> t in s.task && Next(s, a).task[t].pid == s.task[t].pid
    ensures Live(s, t) ==> Next(s, a).task[t].sleep == s.task[t].sleep
  {
    if t in s.task { assert TaskOk(s, t); }
    match a
    case ReapSon(c) => assert CpuOk(s, c) && TaskOk(s, s.cur[c]) && TaskOk(s, Prg(s, c).son);
    case Clear(c) => assert CpuOk(s, c) && TaskOk(s, s.pc[c].task);
  }

  // steps that end one,
  lemma ExitStep(s: State, a: Step, t: int)
    requires Inv(s) && Enabled(s, a) && OfExit(a)
    ensures Live(Next(s, a), t) <==> Live(s, t) && !Flags(s, a, t)
    ensures t in Next(s, a).task <==> t in s.task
    ensures t in s.task ==> Next(s, a).task[t].pid == s.task[t].pid && Next(s, a).task[t].sleep == s.task[t].sleep
  {
    if t in s.task { assert TaskOk(s, t); }
  }

  // steps of the semaphores,
  lemma RingStep(s: State, a: Step, t: int)
    requires Inv(s) && Enabled(s, a) && OfRing(a)
    ensures Live(Next(s, a), t) <==> Live(s, t)
    ensures t in Next(s, a).task <==> t in s.task
    ensures t in s.task ==> Next(s, a).task[t].pid == s.task[t].pid
    ensures t in s.task ==>
      Next(s, a).task[t].sleep == if Sleeps(s, a, t) then true else if a == Wake(t) then false else s.task[t].sleep
  {
  }

  // and the others, which change neither: those of the trap handlers,
  ghost predicate SameLook(s: State, s': State, t: int) {
    && (t in s'.task <==> t in s.task)
    && (t in s.task ==> var v, v' := s.task[t], s'.task[t];
          v'.pid == v.pid && v'.zombie == v.zombie && v'.sleep == v.sleep)
  }

  lemma CpuStep(s: State, a: Step, t: int)
    requires Inv(s) && Enabled(s, a) && OfCpu(a)
    ensures SameLook(s, Next(s, a), t)
  {
  }

  // and those of a parent.
  lemma ParentStep(s: State, a: Step, t: int)
    requires Inv(s) && Enabled(s, a) && !OfExit(a) && !OfRing(a) && !OfCpu(a) && !OfFreer(a) && !Creates(a, t)
    ensures SameLook(s, Next(s, a), t)
  {
  }

  lemma ReadyStep(s: State, a: Step, t: int)
    requires Inv(s) && Enabled(s, a) && !Creates(a, t)
    ensures Live(Next(s, a), t) <==> Live(s, t) && !Flags(s, a, t)
    ensures t in Next(s, a).task ==> t in s.task && Next(s, a).task[t].pid == s.task[t].pid
    ensures Live(Next(s, a), t) ==>
      Next(s, a).task[t].sleep == if Sleeps(s, a, t) then true else if a == Wake(t) then false else s.task[t].sleep
  {
    if OfFreer(a) { FreeStep(s, a, t); } else if OfExit(a) { ExitStep(s, a, t); }
    else if OfRing(a) { RingStep(s, a, t); } else if OfCpu(a) { CpuStep(s, a, t); } else { ParentStep(s, a, t); }
  }

  // A task that was ready is ready later exactly when since then it has not ended, and has
  // been woken after each time it went to sleep; and it keeps its slot.
  lemma {:induction false} ReadyIff(states: seq<State>, steps: seq<Step>, from: nat, n: nat, t: int)
    requires Run(states, steps) && from < n <= |steps| && Clean(states, steps, n)
    requires Ready(states[from + 1], t) && NotCreated(steps, from, n, t)
    ensures Live(states[n], t) <==> Unflagged(states, steps, from, n, t)
    ensures Live(states[n], t) ==> (Ready(states[n], t) <==> Woken(states, steps, from, n, t))
    ensures t in states[n].task ==> states[n].task[t].pid == states[from + 1].task[t].pid
    decreases n
  {
    if from + 1 < n {
      ReadyIff(states, steps, from, n - 1, t);
      RunInv(states, steps, n - 1);
      assert StepAt(states, steps, n - 1);
      assert !CreateAt(steps, n - 1, t);
      ReadyStep(states[n - 1], steps[n - 1], t);
      OneMore(states, steps, from, n - 1, t);
    }
  }

  lemma OneMore(states: seq<State>, steps: seq<Step>, from: nat, n: nat, t: int)
    requires |states| == |steps| + 1 && from < n < |steps|
    ensures Unflagged(states, steps, from, n + 1, t) <==>
      Unflagged(states, steps, from, n, t) && !Flags(states[n], steps[n], t)
    ensures Woken(states, steps, from, n + 1, t) <==>
      !Sleeps(states[n], steps[n], t) && (steps[n] == Wake(t) || Woken(states, steps, from, n, t))
  {
    assert FlagAt(states, steps, n, t) <==> Flags(states[n], steps[n], t);
    assert SleepAt(states, steps, n, t) <==> Sleeps(states[n], steps[n], t);
    assert WakeAt(steps, n, t) <==> steps[n] == Wake(t);
    if Woken(states, steps, from, n + 1, t) && steps[n] != Wake(t) {
      forall k | from < k < n && SleepAt(states, steps, k, t) ensures exists m :: k < m < n && WakeAt(steps, m, t) {
        var m :| k < m < n + 1 && WakeAt(steps, m, t);
        assert m < n;
      }
    }
  }

  // A slot keeps a task until the task itself leaves it.
  ghost predicate Listed(s: State, pid: int, t: int) { pid in s.table && s.table[pid] == t }

  lemma UnlistStep(s: State, c: int, pid: int, t: int)
    requires Inv(s) && CanUnlist(s, c)
    ensures Listed(DoUnlist(s, c), pid, t) <==> Listed(s, pid, t) && s.cur[c] != t
  {
    if pid in s.table { assert PidOk(s, pid); }
    assert TaskOk(s, s.cur[c]);
  }

  lemma SlotStep(s: State, a: Step, pid: int, t: int)
    requires Inv(s) && Enabled(s, a) && !Creates(a, t)
    ensures Listed(Next(s, a), pid, t) <==> Listed(s, pid, t) && !Unlists(s, a, t)
  {
    if a.Unlist? { UnlistStep(s, a.c, pid, t); }
  }

  lemma {:induction false} SlotIff(states: seq<State>, steps: seq<Step>, from: nat, n: nat, pid: int, t: int)
    requires Run(states, steps) && from < n <= |steps| && Clean(states, steps, n) && NotCreated(steps, from, n, t)
    ensures Listed(states[n], pid, t) <==> Listed(states[from + 1], pid, t) && NotUnlisted(states, steps, from, n, t)
    decreases n
  {
    if from + 1 < n {
      SlotIff(states, steps, from, n - 1, pid, t);
      RunInv(states, steps, n - 1);
      assert StepAt(states, steps, n - 1);
      assert !CreateAt(steps, n - 1, t);
      SlotStep(states[n - 1], steps[n - 1], pid, t);
      assert UnlistAt(states, steps, n - 1, t) <==> Unlists(states[n - 1], steps[n - 1], t);
    }
  }

  // A CPU that has a task in sight looked at it, and has not tried its lock since.
  lemma {:induction false} SeenWasLookedAt(states: seq<State>, steps: seq<Step>, n: nat, c: int) returns (from: nat)
    requires Run(states, steps) && n < |states| && IsCpu(states[n], c) && states[n].pc[c].Seen?
    ensures from < n && steps[from] == Look(c, states[n].pc[c].pid)
    ensures Listed(states[from], states[n].pc[c].pid, states[n].pc[c].task) && Ready(states[from], states[n].pc[c].task)
    ensures forall k :: from < k < n ==> !GrabAt(steps, k, c)
    decreases n
  {
    assert n > 0;
    var s, a := states[n - 1], steps[n - 1];
    assert StepAt(states, steps, n - 1);
    if a.Look? && a.c == c {
      from := n - 1;
    } else {
      StaysSeen(s, a, c);
      from := SeenWasLookedAt(states, steps, n - 1, c);
      assert !GrabAt(steps, n - 1, c);
    }
  }

  lemma StaysSeen(s: State, a: Step, c: int)
    requires Enabled(s, a) && IsCpu(Next(s, a), c) && !(a.Look? && a.c == c)
    ensures IsCpu(s, c)
    ensures Next(s, a).pc[c].Seen? <==> s.pc[c].Seen? && a != Grab(c)
    ensures Next(s, a).pc[c].Seen? ==> Next(s, a).pc[c] == s.pc[c]
  {
  }

  lemma StaysLocked(s: State, a: Step, c: int)
    requires Enabled(s, a) && IsCpu(Next(s, a), c) && Next(s, a).pc[c].Locked?
    ensures IsCpu(s, c)
    ensures var pc, pc' := s.pc[c], Next(s, a).pc[c];
      if a == Grab(c) then pc == Seen(pc'.task, pc'.pid) && LockIsFree(s, pc'.task) else pc == pc' && a != Set(c)
  {
  }

  // At step from, CPU c looked at task t in slot pid, and at step g it got the lock of t; it
  // has done neither again before state n.
  ghost predicate Chose(states: seq<State>, steps: seq<Step>, from: nat, g: nat, n: nat, c: int, pid: int, t: int) {
    && from < g < n <= |steps| && |states| == |steps| + 1
    && steps[from] == Look(c, pid) && Listed(states[from], pid, t) && Ready(states[from], t)
    && steps[g] == Grab(c) && LockIsFree(states[g], t)
    && (forall k :: from < k < g ==> !GrabAt(steps, k, c)) && (forall k :: g < k < n ==> !SetAt(steps, k, c))
  }

  lemma {:induction false} LockedWasChosen(states: seq<State>, steps: seq<Step>, n: nat, c: int)
    returns (from: nat, g: nat)
    requires Run(states, steps) && n < |states| && IsCpu(states[n], c) && states[n].pc[c].Locked?
    ensures Chose(states, steps, from, g, n, c, states[n].pc[c].pid, states[n].pc[c].task)
    decreases n
  {
    assert n > 0;
    assert StepAt(states, steps, n - 1);
    StaysLocked(states[n - 1], steps[n - 1], c);
    if steps[n - 1] == Grab(c) {
      g := n - 1;
      from := SeenWasLookedAt(states, steps, n - 1, c);
    } else {
      from, g := LockedWasChosen(states, steps, n - 1, c);
      StillChosen(states, steps, from, g, n - 1, c, states[n].pc[c].pid, states[n].pc[c].task);
    }
  }

  lemma StillChosen(states: seq<State>, steps: seq<Step>, from: nat, g: nat, n: nat, c: int, pid: int, t: int)
    requires n < |steps| && Chose(states, steps, from, g, n, c, pid, t) && steps[n] != Set(c)
    ensures Chose(states, steps, from, g, n + 1, c, pid, t)
  {
  }

  // The last time the memory at t became a task, if that was after step from.
  ghost predicate Born(steps: seq<Step>, from: nat, born: nat, n: nat, t: int) {
    from <= born < n && (born == from || CreateAt(steps, born, t)) && NotCreated(steps, born, n, t)
  }

  lemma {:induction false} LastCreate(steps: seq<Step>, from: nat, n: nat, t: int) returns (born: nat)
    requires from < n <= |steps|
    ensures Born(steps, from, born, n, t)
  {
    if from + 1 == n {
      born := from;
    } else if CreateAt(steps, n - 1, t) {
      born := n - 1;
    } else {
      born := LastCreate(steps, from, n - 1, t);
    }
  }

  lemma SetSlot(s: State, c: int)
    requires Inv(s) && CanSet(s, c)
    ensures var s', t := DoSet(s, c), s.pc[c].task;
      && IsCpu(s', c) && (s'.cur[c] == t <==> !Stale(s, c)) && (!Stale(s, c) <==> Listed(s, s.pc[c].pid, t))
      && t in s'.task && s'.task[t].lock == Cpu(c)
      && (!Stale(s, c) ==> Live(s, t))
  {
    var t, pid := s.pc[c].task, s.pc[c].pid;
    assert CpuOk(s, c) && TaskOk(s, t);
    if pid in s.table { assert PidOk(s, pid); }
  }

  // What CPU c makes current after it got a lock. It is the task whose lock it is exactly when
  // the slot still holds that task, and exactly when the task has not left the table since the
  // look at it; or, if its memory has become a new task since, when that one got the same slot
  // and has not left it. The task is then live, and it is ready exactly when it has been woken
  // after each sleep since.
  lemma SetTakesIff(states: seq<State>, steps: seq<Step>, j: nat, c: int) returns (from: nat, g: nat, born: nat)
    requires Run(states, steps) && j < |steps| && Clean(states, steps, j) && steps[j] == Set(c)
    ensures CanSet(states[j], c)
    ensures var s, s' := states[j], states[j + 1]; var t, pid := s.pc[c].task, s.pc[c].pid;
      && Chose(states, steps, from, g, j, c, pid, t) && Born(steps, from, born, j, t)
      && IsCpu(s', c) && t in s'.task && s'.task[t].lock == Cpu(c)
      && (s'.cur[c] == t <==> Listed(s, pid, t))
      && (Listed(s, pid, t) <==> (born == from || steps[born].pid == pid) && NotUnlisted(states, steps, born, j, t))
      && (Listed(s, pid, t) ==> Live(s, t) && (Ready(s, t) <==> Woken(states, steps, born, j, t)))
  {
    assert StepAt(states, steps, j);
    var s := states[j];
    var t, pid := s.pc[c].task, s.pc[c].pid;
    from, g := LockedWasChosen(states, steps, j, c);
    born := LastCreate(steps, from, j, t);
    RunInv(states, steps, j);
    SetSlot(s, c);
    FreshAt(states, steps, from, born, j, c, pid, t);
    SlotIff(states, steps, born, j, pid, t);
    ReadyIff(states, steps, born, j, t);
  }

  // Right after the look, or the creation, the task is ready.
  lemma FreshAt(states: seq<State>, steps: seq<Step>, from: nat, born: nat, n: nat, c: int, pid: int, t: int)
    requires Run(states, steps) && Clean(states, steps, n) && from < n <= |steps| && Born(steps, from, born, n, t)
    requires steps[from] == Look(c, pid) && Listed(states[from], pid, t) && Ready(states[from], t)
    ensures Ready(states[born + 1], t)
    ensures Listed(states[born + 1], pid, t) <==> born == from || steps[born].pid == pid
  {
    assert StepAt(states, steps, born);
    RunInv(states, steps, born);
    if pid in states[born].table { assert PidOk(states[born], pid); }
  }

  // ----- freeing -----

  // CPU c is about to free t: it is in the cleaner behind the lock, or runs a task whose
  // code has come to that. Whether t is still there does not matter.
  ghost predicate AboutToFree(s: State, c: int, t: int) {
    && IsCpu(s, c)
    && (|| s.pc[c] == Clearing(t)
        || (InCode(s, c) && s.cur[c] in s.task
          && (s.task[s.cur[c]].prog == Reap(t) || s.task[s.cur[c]].prog == BackReap(t))))
  }

  ghost predicate FreeAt(states: seq<State>, steps: seq<Step>, n: int, t: int) {
    && 0 <= n < |steps| && n < |states|
    && OfFreer(steps[n]) && AboutToFree(states[n], steps[n].c, t)
  }

  // Nothing in the state leads to t any more. A last slot that is about to be overwritten
  // does not count.
  ghost predicate Forgotten(s: State, t: int) {
    && (forall c :: IsCpu(s, c) ==> !OnCpu(s, c, t) && s.pc[c] != Cleaning(t) && s.pc[c] != Clearing(t))
    && (forall c :: !HasSeen(s, c, t))
    && (forall u :: u in s.task ==> Son(s.task[u].prog) != t)
    && (forall pid :: pid in s.table ==> s.table[pid] != t)
    && t !in s.queue
  }

  lemma FreeTarget(s: State, c: int, t: int)
    requires Inv(s) && AboutToFree(s, c, t)
    ensures t in s.task && s.task[t].prog == Dead
    ensures s.task[t].lock == if s.pc[c] == Clearing(t) then Cleaner(c) else Parent(s.cur[c])
    ensures s.task[t].claim == if s.pc[c] == Clearing(t) then InHand(c) else ByParent(s.cur[c])
  {
    assert CpuOk(s, c);
    if s.pc[c] != Clearing(t) { assert TaskOk(s, s.cur[c]); }
    assert TaskOk(s, t);
  }

  // A CPU that is about to free a task has the only claim to it: the task is there and has
  // ended, no CPU is on it, and no other CPU is about to free it.
  lemma OneFreer(states: seq<State>, steps: seq<Step>, n: nat, c: int, t: int)
    requires Run(states, steps) && n < |states| && Clean(states, steps, n) && AboutToFree(states[n], c, t)
    ensures var s := states[n];
      && t in s.task && s.task[t].prog == Dead
      && (forall d :: !Uses(s, d, t))
      && (forall d :: AboutToFree(s, d, t) ==> d == c)
  {
    RunInv(states, steps, n);
    var s := states[n];
    FreeTarget(s, c, t);
    forall d ensures !Uses(s, d, t) {
      if IsCpu(s, d) { assert CpuOk(s, d); }
    }
    forall d | AboutToFree(s, d, t) ensures d == c {
      FreeTarget(s, d, t);
      assert CpuOk(s, c) && CpuOk(s, d);
    }
  }

  // A task is freed only when it has ended, by the one that has the claim to it, while no
  // CPU is on it; and the only thing that can still lead to it is a CPU that has seen it
  // and has not tried its lock yet.
  lemma FreeIsSafe(states: seq<State>, steps: seq<Step>, n: nat, t: int)
    requires Run(states, steps) && n < |steps| && Clean(states, steps, n) && FreeAt(states, steps, n, t)
    ensures var s, a := states[n], steps[n];
      && t in s.task && t !in states[n + 1].task && s.task[t].prog == Dead
      && (forall c :: !Uses(s, c, t))
      && (if a.Clear? then s.task[t].claim == InHand(a.c) && s.task[t].nowait
          else s.task[t].claim == ByParent(s.cur[a.c]) && !s.task[t].nowait)
      && (Forgotten(states[n + 1], t) <==> forall c :: !HasSeen(s, c, t))
  {
    RunInv(states, steps, n);
    assert StepAt(states, steps, n);
    KeepInv(states[n], steps[n]);
    var s, a, s' := states[n], steps[n], states[n + 1];
    FreeTarget(s, a.c, t);
    OneFreer(states, steps, n, a.c, t);
    assert TaskOk(s, t);
    forall c | IsCpu(s', c)
      ensures !OnCpu(s', c, t) && s'.pc[c] != Cleaning(t) && s'.pc[c] != Clearing(t)
    {
      assert CpuOk(s', c);
    }
    forall c ensures HasSeen(s', c, t) <==> HasSeen(s, c, t) {}
    forall u | u in s'.task ensures Son(s'.task[u].prog) != t { assert TaskOk(s', u); }
    forall pid | pid in s'.table ensures s'.table[pid] != t { assert PidOk(s', pid); }
    forall i | 0 <= i < |s'.queue| ensures s'.queue[i] != t { assert PlaceOk(s', i); }
  }

  // A task that has ended has flagged itself, and stays ended from then on.
  lemma {:induction false} EndedHasFlagged(states: seq<State>, steps: seq<Step>, n: nat, t: int) returns (f: nat)
    requires Run(states, steps) && n < |states| && Clean(states, steps, n)
    requires t in states[n].task && states[n].task[t].zombie
    ensures f < n && FlagAt(states, steps, f, t)
    ensures forall k :: f < k <= n ==> t in states[k].task && states[k].task[t].zombie
    decreases n
  {
    assert n > 0;
    RunInv(states, steps, n - 1);
    assert StepAt(states, steps, n - 1);
    if Creates(steps[n - 1], t) {
      assert false;
    }
    ReadyStep(states[n - 1], steps[n - 1], t);
    if Live(states[n - 1], t) {
      f := n - 1;
    } else {
      f := EndedHasFlagged(states, steps, n - 1, t);
    }
  }

  // Nobody gets sight of a task that has ended.
  lemma {:induction false} SeenBeforeEnd(states: seq<State>, steps: seq<Step>, f: nat, n: nat, c: int, t: int)
    requires Run(states, steps) && f < n < |states| && FlagAt(states, steps, f, t)
    requires forall k :: f < k <= n ==> t in states[k].task && states[k].task[t].zombie
    ensures HasSeen(states[n], c, t) <==> HasSeen(states[f], c, t) && forall k :: f < k < n ==> !GrabAt(steps, k, c)
    decreases n
  {
    assert StepAt(states, steps, n - 1);
    if f + 1 < n {
      SeenBeforeEnd(states, steps, f, n - 1, c, t);
      SeenStep(states[n - 1], steps[n - 1], c, t);
      assert GrabAt(steps, n - 1, c) <==> steps[n - 1] == Grab(c);
    }
  }

  lemma SeenStep(s: State, a: Step, c: int, t: int)
    requires Enabled(s, a) && t in s.task && s.task[t].zombie
    ensures HasSeen(Next(s, a), c, t) <==> HasSeen(s, c, t) && a != Grab(c)
  {
    SameCpus(s, a, c);
    if IsCpu(s, c) {
      if a.Look? && a.c == c { assert !HasSeen(Next(s, a), c, t) && !HasSeen(s, c, t); } else { StaysSeen(s, a, c); }
    }
  }

  lemma SameCpus(s: State, a: Step, c: int)
    requires Enabled(s, a)
    ensures IsCpu(Next(s, a), c) <==> IsCpu(s, c)
  {
  }

  // So a free leaves nothing behind exactly when every CPU that had the task in sight when
  // it ended has tried its lock before the free.
  lemma ForgottenIff(states: seq<State>, steps: seq<Step>, n: nat, t: int) returns (f: nat)
    requires Run(states, steps) && n < |steps| && Clean(states, steps, n) && FreeAt(states, steps, n, t)
    ensures f < n && FlagAt(states, steps, f, t)
    ensures Forgotten(states[n + 1], t) <==>
      forall c :: HasSeen(states[f], c, t) ==> exists k :: f < k < n && GrabAt(steps, k, c)
  {
    FreeIsSafe(states, steps, n, t);
    RunInv(states, steps, n);
    assert TaskOk(states[n], t);
    f := EndedHasFlagged(states, steps, n, t);
    forall c
      ensures HasSeen(states[n], c, t) <==> HasSeen(states[f], c, t) && !exists k :: f < k < n && GrabAt(steps, k, c)
    {
      SeenBeforeEnd(states, steps, f, n, c, t);
    }
  }

  // No task is freed twice: from the free of a task until its memory is a task again, no
  // CPU comes to free it.
  lemma FreedAtMostOnce(states: seq<State>, steps: seq<Step>, i: nat, j: nat, c: int, t: int)
    requires Run(states, steps) && i < |steps| && i < j < |states| && FreeAt(states, steps, i, t)
    requires Clean(states, steps, j) && AboutToFree(states[j], c, t)
    ensures exists k :: i < k < j && CreateAt(steps, k, t)
  {
    FreeIsSafe(states, steps, i, t);
    OneFreer(states, steps, j, c, t);
    if NotCreated(steps, i, j, t) {
      StaysFreed(states, steps, i, j, t);
      assert false;
    }
  }

  lemma {:induction false} StaysFreed(states: seq<State>, steps: seq<Step>, i: nat, j: nat, t: int)
    requires Run(states, steps) && i < j < |states| && Clean(states, steps, j)
    requires t !in states[i + 1].task && NotCreated(steps, i, j, t)
    ensures t !in states[j].task
    decreases j
  {
    if i + 1 < j {
      StaysFreed(states, steps, i, j - 1, t);
      assert StepAt(states, steps, j - 1) && !CreateAt(steps, j - 1, t);
      RunInv(states, steps, j - 1);
      ReadyStep(states[j - 1], steps[j - 1], t);
    }
  }

  // Every task that has ended and is not free yet is waited for by its parent,
  // queued, or in a cleaner's hand, unless nobody ever claimed it.
  lemma EndedIsClaimed(states: seq<State>, steps: seq<Step>, n: nat, t: int)
    requires Run(states, steps) && n < |states| && Clean(states, steps, n)
    requires t in states[n].task && states[n].task[t].prog == Dead
    ensures var s := states[n];
      match s.task[t].claim
      case Nobody => true
      case Dropped => true
      case ByParent(p) => p in s.task && Son(s.task[p].prog) == t
      case Detached => false
      case Queued => t in s.queue
      case InHand(c) => IsCpu(s, c) && (s.pc[c] == Cleaning(t) || s.pc[c] == Clearing(t))
  {
    RunInv(states, steps, n);
    assert TaskOk(states[n], t);
  }
}
