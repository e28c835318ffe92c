// The kernel scheduler and task reclaim protocol, as steps of N CPUs: context
// save, switch and clean in every trap, and the code of the running tasks that
// creates, waits for, detaches, ends and frees tasks.
module Sched {

  const NULL := 0

  // Who holds a task's running lock.  The code only tests whether it is held;
  // the holder is recorded to state the protocol.
  datatype Lock = Open | Cpu(cpu: int) | Parent(task: int) | Cleaner(cpu: int)

  // Who is going to free a task: its parent, or the cleaner by way of the queue.
  // Recorded for the statement; no step looks at it.
  datatype Claim = Nobody | ByParent(task: int) | Detached | Queued | InHand(cpu: int) | Dropped

  // Where the code of a task is: the wait and reap of run_list_cmd, the lock,
  // test and detach of run_back_cmd, the sleep in a semaphore, and exit.
  datatype Prog =
    | Idle | Parked
    | Waiting(son: int) | WantLock(son: int) | Reap(son: int)
    | BackLock(son: int) | BackHeld(son: int) | BackReap(son: int) | BackUnlock(son: int)
    | Flagged | Unlisted | Dead

  datatype Task = Task(lock: Lock, sleep: bool, zombie: bool, nowait: bool, pid: int, prog: Prog, claim: Claim)

  // Where a CPU is: in the task (or the idle loop), or between the trap handlers.
  // Released: it has let go of its last task, and its slot still names that task.
  // Seen: it has looked at the attributes of the task in slot pid, and is going to try its
  // lock. Locked: it got the lock, and is going to read the slot again.
  datatype Pc =
    | User | Released | Saved | Seen(task: int, pid: int) | Locked(task: int, pid: int)
    | Switched | Cleaning(task: int) | Clearing(task: int)

  // parked: the tasks in the rings of the semaphores.
  datatype State = State(cur: seq<int>, last: seq<int>, pc: seq<Pc>, task: map<int, Task>, table: map<int, int>,
                         queue: seq<int>, parked: multiset<int>)

  function Son(p: Prog): int {
    match p
    case Waiting(t) => t
    case WantLock(t) => t
    case Reap(t) => t
    case BackLock(t) => t
    case BackHeld(t) => t
    case BackReap(t) => t
    case BackUnlock(t) => t
    case _ => NULL
  }

  predicate HoldsSon(p: Prog) { p.Reap? || p.BackHeld? || p.BackReap? || p.BackUnlock? }

  predicate KnowsDead(p: Prog) { p.WantLock? || p.Reap? || p.BackReap? }

  predicate Exiting(p: Prog) { p.Flagged? || p.Unlisted? || p.Dead? }

  // ----- the steps -----

  predicate IsCpu(s: State, c: int) {
    0 <= c < |s.cur| && |s.last| == |s.cur| && |s.pc| == |s.cur|
  }

  // The task whose code CPU c executes.
  predicate Runs(s: State, c: int, t: int) {
    IsCpu(s, c) && s.pc[c] == User && s.cur[c] == t && t != NULL && t in s.task
  }

  function SetTask(s: State, t: int, v: Task): State { s.(task := s.task[t := v]) }

  function SetProg(s: State, t: int, p: Prog): State
    requires t in s.task
  {
    SetTask(s, t, s.task[t].(prog := p))
  }

  function SetLock(s: State, t: int, l: Lock): State
    requires t in s.task
  {
    SetTask(s, t, s.task[t].(lock := l))
  }

  function Remove(s: State, t: int): State { s.(task := map u | u in s.task && u != t :: s.task[u]) }

  // A trap cannot come while the task is in the part of exit that runs with
  // interrupts off.
  predicate CanUnlock(s: State, c: int) {
    && IsCpu(s, c) && s.pc[c] == User
    && (s.cur[c] != NULL ==> s.cur[c] in s.task && !s.task[s.cur[c]].prog.Flagged? && !s.task[s.cur[c]].prog.Unlisted?)
    && (s.last[c] != NULL ==> s.last[c] in s.task)
  }

  // kmt_context_save lets go of the task before the one that was running,
  function DoUnlock(s: State, c: int): State
    requires CanUnlock(s, c)
  {
    var s1 := if s.last[c] != NULL && s.cur[c] != s.last[c] then SetLock(s, s.last[c], Open) else s;
    s1.(pc := s.pc[c := Released])
  }

  predicate CanStore(s: State, c: int) {
    IsCpu(s, c) && s.pc[c] == Released && (s.cur[c] != NULL ==> s.cur[c] in s.task)
  }

  // and then notes the one that was running as the last.
  function DoStore(s: State, c: int): State
    requires CanStore(s, c)
  {
    s.(last := s.last[c := s.cur[c]], pc := s.pc[c := Saved])
  }

  // kmt_context_switch looks at the attributes of a listed task,
  predicate CanLook(s: State, c: int, pid: int) {
    && IsCpu(s, c) && s.pc[c] == Saved && pid in s.table && s.table[pid] in s.task
    && var v := s.task[s.table[pid]]; !v.sleep && !v.zombie
  }

  function DoLook(s: State, c: int, pid: int): State
    requires CanLook(s, c, pid)
  {
    s.(pc := s.pc[c := Seen(s.table[pid], pid)])
  }

  // then tries its lock, as a second action, and goes on looking if it is held. The lock of
  // a task that is freed stays with who freed it until the memory is a task again.
  predicate CanGrab(s: State, c: int) { IsCpu(s, c) && s.pc[c].Seen? }

  predicate LockIsFree(s: State, t: int) { t in s.task && s.task[t].lock == Open }

  function DoGrab(s: State, c: int): State
    requires CanGrab(s, c)
  {
    var t := s.pc[c].task;
    if LockIsFree(s, t) then SetLock(s, t, Cpu(c)).(pc := s.pc[c := Locked(t, s.pc[c].pid)])
    else s.(pc := s.pc[c := Saved])
  }

  // and, as a third, makes current what the slot holds by then.
  predicate CanSet(s: State, c: int) { IsCpu(s, c) && s.pc[c].Locked? }

  function Slot(s: State, pid: int): int { if pid in s.table then s.table[pid] else NULL }

  // A task that slept in a semaphore goes on from there.
  function Resumed(s: State, t: int): State {
    if t in s.task && s.task[t].prog.Parked? then SetProg(s, t, Idle) else s
  }

  function DoSet(s: State, c: int): State
    requires CanSet(s, c)
  {
    var t := Slot(s, s.pc[c].pid);
    Resumed(s, t).(cur := s.cur[c := t], pc := s.pc[c := Switched])
  }

  // By then the slot no longer holds the task whose lock the CPU got.
  predicate Stale(s: State, c: int) { CanSet(s, c) && Slot(s, s.pc[c].pid) != s.pc[c].task }

  // or it gives up and idles.
  predicate CanIdle(s: State, c: int) { IsCpu(s, c) && s.pc[c] == Saved }

  function DoIdle(s: State, c: int): State
    requires CanIdle(s, c)
  {
    s.(cur := s.cur[c := NULL], pc := s.pc[c := Switched])
  }

  // kmt_context_clean: frees one task of the queue, unless a CPU still holds it.
  predicate CanSkip(s: State, c: int) { IsCpu(s, c) && s.pc[c] == Switched && s.queue == [] }

  function DoSkip(s: State, c: int): State
    requires CanSkip(s, c)
  {
    s.(pc := s.pc[c := User])
  }

  predicate CanTake(s: State, c: int) {
    IsCpu(s, c) && s.pc[c] == Switched && s.queue != [] && s.queue[0] in s.task
  }

  function DoTake(s: State, c: int): State
    requires CanTake(s, c)
  {
    var t := s.queue[0];
    SetTask(s, t, s.task[t].(claim := InHand(c))).(queue := s.queue[1..], pc := s.pc[c := Cleaning(t)])
  }

  predicate CanTry(s: State, c: int) { IsCpu(s, c) && s.pc[c].Cleaning? && s.pc[c].task in s.task }

  function DoTry(s: State, c: int): State
    requires CanTry(s, c)
  {
    var t := s.pc[c].task;
    if s.task[t].lock != Open then
      SetTask(s, t, s.task[t].(claim := Queued)).(queue := s.queue + [t], pc := s.pc[c := User])
    else SetLock(s, t, Cleaner(c)).(pc := s.pc[c := Clearing(t)])
  }

  predicate CanClear(s: State, c: int) { IsCpu(s, c) && s.pc[c].Clearing? && s.pc[c].task in s.task }

  function DoClear(s: State, c: int): State
    requires CanClear(s, c)
  {
    Remove(s, s.pc[c].task).(pc := s.pc[c := User])
  }

  // kmt_create, by a parent that will wait (run_list_cmd), detach (run_back_cmd) or do neither.
  predicate CanCreate(s: State, c: int, t: int, pid: int, kind: Prog) {
    && IsCpu(s, c) && Runs(s, c, s.cur[c]) && Prg(s, c) == Idle
    && t != NULL && t !in s.task && pid !in s.table && (kind == Idle || kind == Waiting(t) || kind == BackLock(t))
  }

  function DoCreate(s: State, c: int, t: int, pid: int, kind: Prog): State
    requires CanCreate(s, c, t, pid, kind)
  {
    var v := Task(Open, false, false, false, pid, Idle, if kind == Idle then Nobody else ByParent(s.cur[c]));
    SetProg(SetTask(s, t, v), s.cur[c], kind).(table := s.table[pid := t])
  }

  // CPU c runs a task that deals with a son that still exists.
  predicate At(s: State, c: int) {
    IsCpu(s, c) && Runs(s, c, s.cur[c]) && Son(s.task[s.cur[c]].prog) in s.task
  }

  function Prg(s: State, c: int): Prog
    requires IsCpu(s, c) && Runs(s, c, s.cur[c])
  {
    s.task[s.cur[c]].prog
  }

  // kmt_wait, then the teardown and free of run_list_cmd.
  predicate CanSee(s: State, c: int) { At(s, c) && Prg(s, c).Waiting? && s.task[Prg(s, c).son].zombie }

  function DoSee(s: State, c: int): State
    requires CanSee(s, c)
  {
    SetProg(s, s.cur[c], WantLock(Prg(s, c).son))
  }

  predicate CanLock(s: State, c: int) { At(s, c) && Prg(s, c).WantLock? && s.task[Prg(s, c).son].lock == Open }

  function DoLock(s: State, c: int): State
    requires CanLock(s, c)
  {
    SetProg(SetLock(s, Prg(s, c).son, Parent(s.cur[c])), s.cur[c], Reap(Prg(s, c).son))
  }

  predicate CanReap(s: State, c: int) { At(s, c) && (Prg(s, c).Reap? || Prg(s, c).BackReap?) }

  function DoReap(s: State, c: int): State
    requires CanReap(s, c)
  {
    Remove(SetProg(s, s.cur[c], Idle), Prg(s, c).son)
  }

  // run_back_cmd: under the son's lock, frees it if it has ended, else detaches it.
  predicate CanHold(s: State, c: int) { At(s, c) && Prg(s, c).BackLock? && s.task[Prg(s, c).son].lock == Open }

  function DoHold(s: State, c: int): State
    requires CanHold(s, c)
  {
    SetProg(SetLock(s, Prg(s, c).son, Parent(s.cur[c])), s.cur[c], BackHeld(Prg(s, c).son))
  }

  predicate CanDecide(s: State, c: int) { At(s, c) && Prg(s, c).BackHeld? }

  function DoDecide(s: State, c: int): State
    requires CanDecide(s, c)
  {
    var t := Prg(s, c).son;
    if s.task[t].zombie then SetProg(s, s.cur[c], BackReap(t))
    else SetProg(SetTask(s, t, s.task[t].(nowait := true, claim := Detached)), s.cur[c], BackUnlock(t))
  }

  predicate CanRelease(s: State, c: int) { At(s, c) && Prg(s, c).BackUnlock? }

  function DoRelease(s: State, c: int): State
    requires CanRelease(s, c)
  {
    SetProg(SetLock(s, Prg(s, c).son, Open), s.cur[c], Idle)
  }

  // exit: becomes a zombie, leaves the table, and queues itself if detached
  // (full: there was no room, and it is never freed).
  predicate CanFlag(s: State, c: int) { IsCpu(s, c) && Runs(s, c, s.cur[c]) && Prg(s, c) == Idle }

  function DoFlag(s: State, c: int): State
    requires CanFlag(s, c)
  {
    SetTask(s, s.cur[c], s.task[s.cur[c]].(zombie := true, prog := Flagged))
  }

  predicate CanUnlist(s: State, c: int) { IsCpu(s, c) && Runs(s, c, s.cur[c]) && Prg(s, c) == Flagged }

  function DoUnlist(s: State, c: int): State
    requires CanUnlist(s, c)
  {
    var pid := s.task[s.cur[c]].pid;
    SetProg(s, s.cur[c], Unlisted).(table := map q | q in s.table && q != pid :: s.table[q])
  }

  predicate CanEnd(s: State, c: int) { IsCpu(s, c) && Runs(s, c, s.cur[c]) && Prg(s, c) == Unlisted }

  function DoEnd(s: State, c: int, full: bool): State
    requires CanEnd(s, c)
  {
    var t := s.cur[c];
    if !s.task[t].nowait then SetProg(s, t, Dead)
    else if full then SetTask(s, t, s.task[t].(prog := Dead, claim := Dropped))
    else SetTask(s, t, s.task[t].(prog := Dead, claim := Queued)).(queue := s.queue + [t])
  }

  // A semaphore puts the running task to sleep, or wakes another.
  predicate CanSleep(s: State, c: int) { IsCpu(s, c) && Runs(s, c, s.cur[c]) && Prg(s, c) == Idle }

  function DoSleep(s: State, c: int): State
    requires CanSleep(s, c)
  {
    SetTask(s, s.cur[c], s.task[s.cur[c]].(sleep := true, prog := Parked)).(parked := s.parked + multiset{s.cur[c]})
  }

  predicate CanWake(s: State, t: int) { t in s.parked && t in s.task }

  function DoWake(s: State, t: int): State
    requires CanWake(s, t)
  {
    SetTask(s, t, s.task[t].(sleep := false)).(parked := s.parked - multiset{t})
  }

  datatype Step =
    | Unlock(c: int) | Store(c: int)
    | Look(c: int, pid: int) | Grab(c: int) | Set(c: int) | StayIdle(c: int)
    | Skip(c: int) | Take(c: int) | Try(c: int) | Clear(c: int)
    | Create(c: int, t: int, pid: int, kind: Prog)
    | See(c: int) | LockSon(c: int) | ReapSon(c: int)
    | Hold(c: int) | Decide(c: int) | Release(c: int)
    | Flag(c: int) | Unlist(c: int) | End(c: int, full: bool)
    | Sleep(c: int) | Wake(t: int)

  predicate Enabled(s: State, a: Step) {
    match a
    case Unlock(c) => CanUnlock(s, c)
    case Store(c) => CanStore(s, c)
    case Look(c, pid) => CanLook(s, c, pid)
    case Grab(c) => CanGrab(s, c)
    case Set(c) => CanSet(s, c)
    case StayIdle(c) => CanIdle(s, c)
    case Skip(c) => CanSkip(s, c)
    case Take(c) => CanTake(s, c)
    case Try(c) => CanTry(s, c)
    case Clear(c) => CanClear(s, c)
    case Create(c, t, pid, kind) => CanCreate(s, c, t, pid, kind)
    case See(c) => CanSee(s, c)
    case LockSon(c) => CanLock(s, c)
    case ReapSon(c) => CanReap(s, c)
    case Hold(c) => CanHold(s, c)
    case Decide(c) => CanDecide(s, c)
    case Release(c) => CanRelease(s, c)
    case Flag(c) => CanFlag(s, c)
    case Unlist(c) => CanUnlist(s, c)
    case End(c, full) => CanEnd(s, c)
    case Sleep(c) => CanSleep(s, c)
    case Wake(t) => CanWake(s, t)
  }

  function Next(s: State, a: Step): State
    requires Enabled(s, a)
  {
    match a
    case Unlock(c) => DoUnlock(s, c)
    case Store(c) => DoStore(s, c)
    case Look(c, pid) => DoLook(s, c, pid)
    case Grab(c) => DoGrab(s, c)
    case Set(c) => DoSet(s, c)
    case StayIdle(c) => DoIdle(s, c)
    case Skip(c) => DoSkip(s, c)
    case Take(c) => DoTake(s, c)
    case Try(c) => DoTry(s, c)
    case Clear(c) => DoClear(s, c)
    case Create(c, t, pid, kind) => DoCreate(s, c, t, pid, kind)
    case See(c) => DoSee(s, c)
    case LockSon(c) => DoLock(s, c)
    case ReapSon(c) => DoReap(s, c)
    case Hold(c) => DoHold(s, c)
    case Decide(c) => DoDecide(s, c)
    case Release(c) => DoRelease(s, c)
    case Flag(c) => DoFlag(s, c)
    case Unlist(c) => DoUnlist(s, c)
    case End(c, full) => DoEnd(s, c, full)
    case Sleep(c) => DoSleep(s, c)
    case Wake(t) => DoWake(s, t)
  }

  predicate StaleStep(s: State, a: Step) { a.Set? && Stale(s, a.c) }

  // ----- what every step keeps that is not stale -----

  predicate Looking(pc: Pc) { pc.Saved? || pc.Seen? }

  predicate Choosing(pc: Pc) { Looking(pc) || pc.Locked? }

  // CPU c has the task as current or last one, or has just got its lock.
  predicate OnCpu(s: State, c: int, t: int) {
    && IsCpu(s, c)
    && (s.cur[c] == t || (s.last[c] == t && !s.pc[c].Released?) || (s.pc[c].Locked? && s.pc[c].task == t))
  }

  // The slots of CPU c name live tasks whose lock it holds.
  ghost predicate CpuOk(s: State, c: int) {
    && IsCpu(s, c)
    && var cur, last, pc := s.cur[c], s.last[c], s.pc[c];
    && (cur != NULL ==> cur in s.task && s.task[cur].lock == Cpu(c))
    && (last != NULL && !pc.Released? ==> last in s.task && s.task[last].lock == Cpu(c))
    && (pc.Locked? ==> pc.task in s.task && s.task[pc.task].lock == Cpu(c) && pc.task != cur)
    && (Choosing(pc) ==> last == cur)
    && (!Choosing(pc) && cur != NULL ==> cur != last)
    && (pc.Cleaning? ==> pc.task in s.task && s.task[pc.task].claim == InHand(c))
    && (pc.Clearing? ==> pc.task in s.task && s.task[pc.task].claim == InHand(c) && s.task[pc.task].lock == Cleaner(c))
  }

  // A held lock has the holder it names; whoever is in the wait or detach code
  // for a son has the only claim to it.
  ghost predicate LockOk(s: State, t: int)
    requires t in s.task
  {
    match s.task[t].lock
    case Open => true
    case Cpu(c) => OnCpu(s, c, t)
    case Parent(p) => p in s.task && HoldsSon(s.task[p].prog) && Son(s.task[p].prog) == t
    case Cleaner(c) => IsCpu(s, c) && s.pc[c] == Clearing(t)
  }

  ghost predicate SonOk(s: State, t: int)
    requires t in s.task
  {
    var p := s.task[t].prog;
    if p.Idle? || p.Parked? || Exiting(p) then true else
      && Son(p) in s.task && Son(p) != t
      && var v := s.task[Son(p)];
      && (HoldsSon(p) ==> v.lock == Parent(t))
      && (KnowsDead(p) ==> v.zombie)
      && if p.BackUnlock? then v.claim == Detached && !v.zombie else v.claim == ByParent(t)
  }

  ghost predicate ClaimOk(s: State, t: int)
    requires t in s.task
  {
    var v := s.task[t];
    && (v.nowait <==> v.claim.Detached? || v.claim.Queued? || v.claim.InHand? || v.claim.Dropped?)
    && match v.claim
       case Nobody => true
       case ByParent(p) => p in s.task && Son(s.task[p].prog) == t
       case Detached => !v.prog.Dead?
       case Queued => v.prog.Dead? && t in s.queue
       case InHand(c) => v.prog.Dead? && IsCpu(s, c) && (s.pc[c] == Cleaning(t) || s.pc[c] == Clearing(t))
       case Dropped => v.prog.Dead?
  }

  ghost predicate TaskOk(s: State, t: int) {
    && t in s.task
    && var v := s.task[t];
    && LockOk(s, t) && SonOk(s, t) && ClaimOk(s, t)
    && (v.zombie <==> Exiting(v.prog))
    && (v.prog.Flagged? || v.prog.Unlisted? ==> v.lock.Cpu? && Runs(s, v.lock.cpu, t))
    && (!v.zombie || v.prog.Flagged? ==> v.pid in s.table && s.table[v.pid] == t)
  }

  ghost predicate PidOk(s: State, pid: int) {
    pid in s.table && s.table[pid] in s.task
    && var v := s.task[s.table[pid]]; v.pid == pid && (v.zombie ==> v.prog.Flagged?)
  }

  ghost predicate PlaceOk(s: State, i: int) {
    0 <= i < |s.queue| && s.queue[i] in s.task && s.task[s.queue[i]].claim == Queued
  }

  ghost predicate OncePlaced(s: State, i: int, j: int) {
    0 <= i < |s.queue| && 0 <= j < |s.queue| && s.queue[i] != s.queue[j]
  }

  ghost predicate Tasks(s: State) {
    && |s.last| == |s.cur| && |s.pc| == |s.cur| && NULL !in s.task
    && (forall c {:trigger CpuOk(s, c)} :: 0 <= c < |s.cur| ==> CpuOk(s, c))
    && (forall t {:trigger TaskOk(s, t)} :: t in s.task ==> TaskOk(s, t))
  }

  ghost predicate Lists(s: State) {
    && (forall pid {:trigger PidOk(s, pid)} :: pid in s.table ==> PidOk(s, pid))
    && (forall i {:trigger PlaceOk(s, i)} :: 0 <= i < |s.queue| ==> PlaceOk(s, i))
    && (forall i, j {:trigger OncePlaced(s, i, j)} :: 0 <= i < j < |s.queue| ==> OncePlaced(s, i, j))
  }

  ghost predicate Inv(s: State) {
    Tasks(s) && Lists(s)
  }

  // Nothing is scheduled yet: every CPU idles, every task is ready to run.
  ghost predicate Init(s: State) {
    && |s.last| == |s.cur| && |s.pc| == |s.cur| && NULL !in s.task && s.queue == [] && s.parked == multiset{}
    && (forall c :: 0 <= c < |s.cur| ==> s.cur[c] == NULL && s.last[c] == NULL && s.pc[c] == User)
    && (forall t :: t in s.task ==> var v := s.task[t];
          v == Task(Open, false, false, false, v.pid, Idle, Nobody) && v.pid in s.table && s.table[v.pid] == t)
    && forall pid :: pid in s.table ==> s.table[pid] in s.task && s.task[s.table[pid]].pid == pid
  }

  lemma InitInv(s: State)
    requires Init(s)
    ensures Inv(s)
  {
    forall c | 0 <= c < |s.cur| ensures CpuOk(s, c) {}
    forall t | t in s.task ensures TaskOk(s, t) {}
    forall pid | pid in s.table ensures PidOk(s, pid) {
      var t := s.table[pid];
      assert t in s.task;
    }
  }

  // The task table and the reclaim queue stay right when no task on them changes
  // in a way they care about; gone is a task that is freed.
  ghost predicate Alike(v: Task, v': Task) {
    && v'.pid == v.pid
    && (v'.zombie ==> v'.prog.Flagged? || (v.zombie && !v.prog.Flagged?))
    && (v.claim == Queued ==> v'.claim == Queued)
  }

  lemma ListsKept(s: State, s': State, gone: int)
    requires Inv(s) && s'.table == s.table && s'.queue == s.queue
    requires gone in s.task ==> s.task[gone].zombie && s.task[gone].prog.Dead? && s.task[gone].claim != Queued
    requires forall t {:trigger t in s.task} :: t in s.task && t != gone ==>
      t in s'.task && Alike(s.task[t], s'.task[t])
    ensures Lists(s')
  {
    forall pid | pid in s'.table ensures PidOk(s', pid) {
      assert PidOk(s, pid);
      var t := s.table[pid];
      assert t in s.task && t != gone;
    }
    forall i | 0 <= i < |s'.queue| ensures PlaceOk(s', i) { assert PlaceOk(s, i); }
    forall i, j | 0 <= i < j < |s'.queue| ensures OncePlaced(s', i, j) { assert OncePlaced(s, i, j); }
  }

  // Putting a task at the end of the queue.
  lemma Enqueued(s: State, s': State, x: int)
    requires Inv(s) && s'.table == s.table && s'.queue == s.queue + [x]
    requires x in s.task && s.task[x].claim != Queued && x in s'.task && s'.task[x].claim == Queued
    requires forall t {:trigger t in s.task} :: t in s.task ==> t in s'.task && Alike(s.task[t], s'.task[t])
    ensures Lists(s') && x in s'.queue && forall t :: t in s.queue ==> t in s'.queue
  {
    assert s'.queue[|s.queue|] == x;
    forall t | t in s.queue ensures t in s'.queue {
      var k :| 0 <= k < |s.queue| && s.queue[k] == t;
      assert s'.queue[k] == t;
    }
    forall q | q in s'.table ensures PidOk(s', q) {
      assert PidOk(s, q);
      var t := s.table[q];
      assert t in s.task;
    }
    forall i | 0 <= i < |s'.queue| ensures PlaceOk(s', i) {
      if i < |s.queue| {
        assert PlaceOk(s, i);
        var t := s.queue[i];
        assert t in s.task;
      }
    }
    forall i, j | 0 <= i < j < |s'.queue| ensures OncePlaced(s', i, j) {
      assert PlaceOk(s, i);
      if j < |s.queue| { assert OncePlaced(s, i, j); }
    }
  }

  // ----- the invariant, step by step -----

  lemma UnlockKeepsTask(s: State, c: int, t: int)
    requires Inv(s) && CanUnlock(s, c) && t in s.task
    ensures TaskOk(DoUnlock(s, c), t)
  {
    assert CpuOk(s, c) && TaskOk(s, t);
  }

  lemma KeepUnlock(s: State, c: int)
    requires Inv(s) && CanUnlock(s, c)
    ensures Inv(DoUnlock(s, c))
  {
    var s' := DoUnlock(s, c);
    assert CpuOk(s, c);
    forall d | 0 <= d < |s'.cur| ensures CpuOk(s', d) { assert CpuOk(s, d); }
    forall t | t in s'.task ensures TaskOk(s', t) { UnlockKeepsTask(s, c, t); }
    ListsKept(s, s', NULL);
  }

  lemma KeepStore(s: State, c: int)
    requires Inv(s) && CanStore(s, c)
    ensures Inv(DoStore(s, c))
  {
    var s' := DoStore(s, c);
    assert CpuOk(s, c);
    forall d | 0 <= d < |s'.cur| ensures CpuOk(s', d) { assert CpuOk(s, d); }
    forall t | t in s'.task ensures TaskOk(s', t) { assert TaskOk(s, t); }
    ListsKept(s, s', NULL);
  }

  // A CPU that looks for a task goes on looking.
  lemma LookingKeeps(s: State, c: int, pc: Pc)
    requires Inv(s) && IsCpu(s, c) && Looking(s.pc[c]) && Looking(pc)
    ensures Inv(s.(pc := s.pc[c := pc]))
  {
    var s' := s.(pc := s.pc[c := pc]);
    assert CpuOk(s, c);
    forall d | 0 <= d < |s'.cur| ensures CpuOk(s', d) { assert CpuOk(s, d); }
    forall t | t in s'.task ensures TaskOk(s', t) { assert TaskOk(s, t); }
    ListsKept(s, s', NULL);
  }

  lemma KeepLook(s: State, c: int, pid: int)
    requires Inv(s) && CanLook(s, c, pid)
    ensures Inv(DoLook(s, c, pid))
  {
    LookingKeeps(s, c, Seen(s.table[pid], pid));
  }

  lemma GrabKeepsOther(s: State, c: int, t: int)
    requires Inv(s) && CanGrab(s, c) && LockIsFree(s, s.pc[c].task) && t in s.task && t != s.pc[c].task
    ensures TaskOk(DoGrab(s, c), t)
  {
    assert CpuOk(s, c) && TaskOk(s, t);
  }

  lemma GrabKeepsTaken(s: State, c: int)
    requires Inv(s) && CanGrab(s, c) && LockIsFree(s, s.pc[c].task)
    ensures TaskOk(DoGrab(s, c), s.pc[c].task)
  {
    assert CpuOk(s, c) && TaskOk(s, s.pc[c].task);
  }

  lemma KeepGrab(s: State, c: int)
    requires Inv(s) && CanGrab(s, c)
    ensures Inv(DoGrab(s, c))
  {
    var s', x := DoGrab(s, c), s.pc[c].task;
    if LockIsFree(s, x) {
      assert CpuOk(s, c) && TaskOk(s, x);
      forall d | 0 <= d < |s'.cur| ensures CpuOk(s', d) { assert CpuOk(s, d); }
      GrabKeepsTaken(s, c);
      forall t | t in s'.task ensures TaskOk(s', t) { if t != x { GrabKeepsOther(s, c, t); } }
      ListsKept(s, s', NULL);
    } else {
      LookingKeeps(s, c, Saved);
    }
  }

  lemma SetKeepsTask(s: State, c: int, t: int)
    requires Inv(s) && CanSet(s, c) && !Stale(s, c) && t in s.task
    ensures TaskOk(DoSet(s, c), t)
  {
    assert CpuOk(s, c) && TaskOk(s, t);
  }

  // As long as the slot still holds the task.
  lemma KeepSet(s: State, c: int)
    requires Inv(s) && CanSet(s, c) && !Stale(s, c)
    ensures Inv(DoSet(s, c))
  {
    var s' := DoSet(s, c);
    assert CpuOk(s, c) && TaskOk(s, s.pc[c].task);
    forall d | 0 <= d < |s'.cur| ensures CpuOk(s', d) { assert CpuOk(s, d); }
    forall t | t in s'.task ensures TaskOk(s', t) { SetKeepsTask(s, c, t); }
    ListsKept(s, s', NULL);
  }

  lemma KeepIdle(s: State, c: int)
    requires Inv(s) && CanIdle(s, c)
    ensures Inv(DoIdle(s, c))
  {
    var s' := DoIdle(s, c);
    assert CpuOk(s, c);
    forall d | 0 <= d < |s'.cur| ensures CpuOk(s', d) { assert CpuOk(s, d); }
    forall t | t in s'.task ensures TaskOk(s', t) { assert TaskOk(s, t); }
    ListsKept(s, s', NULL);
  }

  lemma KeepSkip(s: State, c: int)
    requires Inv(s) && CanSkip(s, c)
    ensures Inv(DoSkip(s, c))
  {
    var s' := DoSkip(s, c);
    assert CpuOk(s, c);
    forall d | 0 <= d < |s'.cur| ensures CpuOk(s', d) { assert CpuOk(s, d); }
    forall t | t in s'.task ensures TaskOk(s', t) { assert TaskOk(s, t); }
    ListsKept(s, s', NULL);
  }

  lemma KeepTake(s: State, c: int)
    requires Inv(s) && CanTake(s, c)
    ensures Inv(DoTake(s, c))
  {
    var s' := DoTake(s, c);
    assert CpuOk(s, c);
    assert PlaceOk(s, 0) && TaskOk(s, s.queue[0]);
    forall d | 0 <= d < |s'.cur| ensures CpuOk(s', d) { assert CpuOk(s, d); }
    forall t | t in s'.task ensures TaskOk(s', t) { 
      assert TaskOk(s, t);
      if t in s.queue {
        var k :| 0 <= k < |s.queue| && s.queue[k] == t;
        if k > 0 { assert OncePlaced(s, 0, k) && s'.queue[k - 1] == t; }
      }
    }
    forall q | q in s'.table ensures PidOk(s', q) { assert PidOk(s, q); }
    forall i | 0 <= i < |s'.queue| ensures PlaceOk(s', i) { assert PlaceOk(s, i + 1) && OncePlaced(s, 0, i + 1); }
    forall i, j | 0 <= i < j < |s'.queue| ensures OncePlaced(s', i, j) { assert OncePlaced(s, i + 1, j + 1); }
  }

  lemma TryKeepsCpu(s: State, c: int, d: int)
    requires Inv(s) && CanTry(s, c) && 0 <= d < |s.cur|
    ensures CpuOk(DoTry(s, c), d)
  {
    assert CpuOk(s, c) && CpuOk(s, d);
  }

  lemma TryKeepsTaken(s: State, c: int)
    requires Inv(s) && CanTry(s, c)
    ensures TaskOk(DoTry(s, c), s.pc[c].task)
  {
    var x := s.pc[c].task;
    assert CpuOk(s, c) && TaskOk(s, x);
    if s.task[x].lock != Open { Enqueued(s, DoTry(s, c), x); }
  }

  lemma TryKeepsOther(s: State, c: int, t: int)
    requires Inv(s) && CanTry(s, c) && t in s.task && t != s.pc[c].task
    ensures TaskOk(DoTry(s, c), t)
  {
    var x := s.pc[c].task;
    assert CpuOk(s, c) && TaskOk(s, t);
    if s.task[x].lock != Open { Enqueued(s, DoTry(s, c), x); }
  }

  lemma KeepTry(s: State, c: int)
    requires Inv(s) && CanTry(s, c)
    ensures Inv(DoTry(s, c))
  {
    var s', x := DoTry(s, c), s.pc[c].task;
    assert CpuOk(s, c) && TaskOk(s, x);
    forall d | 0 <= d < |s'.cur| ensures CpuOk(s', d) { TryKeepsCpu(s, c, d); }
    TryKeepsTaken(s, c);
    forall t | t in s'.task ensures TaskOk(s', t) { if t != x { TryKeepsOther(s, c, t); } }
    if s.task[x].lock != Open { Enqueued(s, s', x); } else { ListsKept(s, s', NULL); }
  }

  lemma KeepClear(s: State, c: int)
    requires Inv(s) && CanClear(s, c)
    ensures Inv(DoClear(s, c))
  {
    var s' := DoClear(s, c);
    assert CpuOk(s, c);
    assert TaskOk(s, s.pc[c].task);
    forall d | 0 <= d < |s'.cur| ensures CpuOk(s', d) { assert CpuOk(s, d); }
    forall t | t in s'.task ensures TaskOk(s', t) { assert TaskOk(s, t); }
    ListsKept(s, s', s.pc[c].task);
  }

  lemma CreateKeepsOther(s: State, c: int, t': int, pid: int, kind: Prog, t: int)
    requires Inv(s) && CanCreate(s, c, t', pid, kind) && t in s.task && t != s.cur[c]
    ensures TaskOk(DoCreate(s, c, t', pid, kind), t)
  {
    assert CpuOk(s, c) && TaskOk(s, s.cur[c]) && TaskOk(s, t);
  }

  lemma CreateKeepsBoth(s: State, c: int, t': int, pid: int, kind: Prog)
    requires Inv(s) && CanCreate(s, c, t', pid, kind)
    ensures TaskOk(DoCreate(s, c, t', pid, kind), s.cur[c]) && TaskOk(DoCreate(s, c, t', pid, kind), t')
  {
    assert CpuOk(s, c) && TaskOk(s, s.cur[c]);
  }

  lemma KeepCreate(s: State, c: int, t': int, pid: int, kind: Prog)
    requires Inv(s) && CanCreate(s, c, t', pid, kind)
    ensures Inv(DoCreate(s, c, t', pid, kind))
  {
    var s' := DoCreate(s, c, t', pid, kind);
    CreateKeepsBoth(s, c, t', pid, kind);
    forall d | 0 <= d < |s'.cur| ensures CpuOk(s', d) { assert CpuOk(s, d); }
    forall t | t in s'.task ensures TaskOk(s', t) {
      if t != t' && t != s.cur[c] { CreateKeepsOther(s, c, t', pid, kind, t); }
    }
    forall q | q in s'.table ensures PidOk(s', q) { if q != pid { assert PidOk(s, q); } }
    forall i | 0 <= i < |s'.queue| ensures PlaceOk(s', i) { assert PlaceOk(s, i); }
    forall i, j | 0 <= i < j < |s'.queue| ensures OncePlaced(s', i, j) { assert OncePlaced(s, i, j); }
  }

  // A step of the task p that deals with its son x: nothing else changes, and of the son
  // only its lock and who has the claim to it, or it is freed.
  ghost predicate Deals(s: State, s': State, p: int, x: int) {
    && s'.cur == s.cur && s'.last == s.last && s'.pc == s.pc && s'.table == s.table && s'.queue == s.queue
    && p in s.task && x in s.task && p in s'.task && p != x && x != NULL && Son(s.task[p].prog) == x
    && s'.task[p] == s.task[p].(prog := s'.task[p].prog) && (Son(s'.task[p].prog) == NULL || Son(s'.task[p].prog) == x)
    && !Exiting(s'.task[p].prog)
    && (forall t {:trigger t in s.task} {:trigger t in s'.task} :: t != p && t != x ==>
          (t in s'.task <==> t in s.task) && (t in s.task ==> s'.task[t] == s.task[t]))
    && if x in s'.task then SonDealt(s.task[x], s'.task[x])
       else s.task[x].prog.Dead? && s.task[x].lock == Parent(p) && s.task[x].claim == ByParent(p)
  }

  ghost predicate SonDealt(v: Task, v': Task) {
    && v' == v.(lock := v'.lock, nowait := v'.nowait, claim := v'.claim)
    && (v.lock.Cpu? || v.lock.Cleaner? || v'.lock.Cpu? || v'.lock.Cleaner? ==> v'.lock == v.lock)
    && (v.claim.ByParent? || v.claim.Detached?)
  }

  lemma OthersKept(s: State, s': State, p: int, x: int, t: int)
    requires Inv(s) && Deals(s, s', p, x) && t in s.task && t != p && t != x
    ensures TaskOk(s', t)
  {
    assert TaskOk(s, t) && TaskOk(s, p) && TaskOk(s, x);
  }

  lemma CpusKept(s: State, s': State, p: int, x: int)
    requires Inv(s) && Deals(s, s', p, x)
    ensures forall d {:trigger CpuOk(s', d)} :: 0 <= d < |s'.cur| ==> CpuOk(s', d)
  {
    assert TaskOk(s, x);
    forall d | 0 <= d < |s'.cur| ensures CpuOk(s', d) { assert CpuOk(s, d); }
  }

  lemma DealsKept(s: State, s': State, p: int, x: int)
    requires Inv(s) && Deals(s, s', p, x)
    requires TaskOk(s', p) && (x in s'.task ==> TaskOk(s', x))
    ensures Inv(s')
  {
    assert TaskOk(s, p) && TaskOk(s, x);
    CpusKept(s, s', p, x);
    forall t | t in s'.task ensures TaskOk(s', t) { if t != p && t != x { OthersKept(s, s', p, x, t); } }
    ListsKept(s, s', if x in s'.task then NULL else x);
  }

  lemma KeepSee(s: State, c: int)
    requires Inv(s) && CanSee(s, c)
    ensures Inv(DoSee(s, c))
  {
    assert CpuOk(s, c) && TaskOk(s, s.cur[c]) && TaskOk(s, Prg(s, c).son);
    DealsKept(s, DoSee(s, c), s.cur[c], Prg(s, c).son);
  }

  lemma KeepLock(s: State, c: int)
    requires Inv(s) && CanLock(s, c)
    ensures Inv(DoLock(s, c))
  {
    assert CpuOk(s, c) && TaskOk(s, s.cur[c]) && TaskOk(s, Prg(s, c).son);
    DealsKept(s, DoLock(s, c), s.cur[c], Prg(s, c).son);
  }

  lemma KeepReap(s: State, c: int)
    requires Inv(s) && CanReap(s, c)
    ensures Inv(DoReap(s, c))
  {
    assert CpuOk(s, c) && TaskOk(s, s.cur[c]) && TaskOk(s, Prg(s, c).son);
    DealsKept(s, DoReap(s, c), s.cur[c], Prg(s, c).son);
  }

  lemma KeepHold(s: State, c: int)
    requires Inv(s) && CanHold(s, c)
    ensures Inv(DoHold(s, c))
  {
    assert CpuOk(s, c) && TaskOk(s, s.cur[c]) && TaskOk(s, Prg(s, c).son);
    DealsKept(s, DoHold(s, c), s.cur[c], Prg(s, c).son);
  }

  lemma KeepDecide(s: State, c: int)
    requires Inv(s) && CanDecide(s, c)
    ensures Inv(DoDecide(s, c))
  {
    assert CpuOk(s, c) && TaskOk(s, s.cur[c]) && TaskOk(s, Prg(s, c).son);
    DealsKept(s, DoDecide(s, c), s.cur[c], Prg(s, c).son);
  }

  lemma KeepRelease(s: State, c: int)
    requires Inv(s) && CanRelease(s, c)
    ensures Inv(DoRelease(s, c))
  {
    assert CpuOk(s, c) && TaskOk(s, s.cur[c]) && TaskOk(s, Prg(s, c).son);
    DealsKept(s, DoRelease(s, c), s.cur[c], Prg(s, c).son);
  }

  lemma KeepFlag(s: State, c: int)
    requires Inv(s) && CanFlag(s, c)
    ensures Inv(DoFlag(s, c))
  {
    var s' := DoFlag(s, c);
    assert CpuOk(s, c) && TaskOk(s, s.cur[c]);
    forall d | 0 <= d < |s'.cur| ensures CpuOk(s', d) { assert CpuOk(s, d); }
    forall t | t in s'.task ensures TaskOk(s', t) { assert TaskOk(s, t); }
    ListsKept(s, s', NULL);
  }

  lemma KeepUnlist(s: State, c: int)
    requires Inv(s) && CanUnlist(s, c)
    ensures Inv(DoUnlist(s, c))
  {
    var s' := DoUnlist(s, c);
    assert CpuOk(s, c) && TaskOk(s, s.cur[c]);
    forall d | 0 <= d < |s'.cur| ensures CpuOk(s', d) { assert CpuOk(s, d); }
    forall t | t in s'.task ensures TaskOk(s', t) { assert TaskOk(s, t); }
    forall q | q in s'.table ensures PidOk(s', q) { assert PidOk(s, q); }
    forall i | 0 <= i < |s'.queue| ensures PlaceOk(s', i) { assert PlaceOk(s, i); }
    forall i, j | 0 <= i < j < |s'.queue| ensures OncePlaced(s', i, j) { assert OncePlaced(s, i, j); }
  }

  lemma EndKeepsCpu(s: State, c: int, full: bool, d: int)
    requires Inv(s) && CanEnd(s, c) && 0 <= d < |s.cur|
    ensures CpuOk(DoEnd(s, c, full), d)
  {
    assert CpuOk(s, d) && TaskOk(s, s.cur[c]);
  }

  lemma EndKeepsSelf(s: State, c: int, full: bool)
    requires Inv(s) && CanEnd(s, c)
    ensures TaskOk(DoEnd(s, c, full), s.cur[c])
  {
    assert CpuOk(s, c) && TaskOk(s, s.cur[c]);
    if s.task[s.cur[c]].nowait && !full { Enqueued(s, DoEnd(s, c, full), s.cur[c]); }
  }

  lemma EndKeepsOther(s: State, c: int, full: bool, t: int)
    requires Inv(s) && CanEnd(s, c) && t in s.task && t != s.cur[c]
    ensures TaskOk(DoEnd(s, c, full), t)
  {
    assert CpuOk(s, c) && TaskOk(s, s.cur[c]) && TaskOk(s, t);
    if s.task[s.cur[c]].nowait && !full { Enqueued(s, DoEnd(s, c, full), s.cur[c]); }
  }

  lemma KeepEnd(s: State, c: int, full: bool)
    requires Inv(s) && CanEnd(s, c)
    ensures Inv(DoEnd(s, c, full))
  {
    var s' := DoEnd(s, c, full);
    assert CpuOk(s, c) && TaskOk(s, s.cur[c]);
    forall d | 0 <= d < |s'.cur| ensures CpuOk(s', d) { EndKeepsCpu(s, c, full, d); }
    EndKeepsSelf(s, c, full);
    forall t | t in s'.task ensures TaskOk(s', t) { if t != s.cur[c] { EndKeepsOther(s, c, full, t); } }
    if s.task[s.cur[c]].nowait && !full { Enqueued(s, s', s.cur[c]); } else { ListsKept(s, s', NULL); }
  }

  lemma KeepSleep(s: State, c: int)
    requires Inv(s) && CanSleep(s, c)
    ensures Inv(DoSleep(s, c))
  {
    var s' := DoSleep(s, c);
    assert CpuOk(s, c) && TaskOk(s, s.cur[c]);
    forall d | 0 <= d < |s'.cur| ensures CpuOk(s', d) { assert CpuOk(s, d); }
    forall t | t in s'.task ensures TaskOk(s', t) { assert TaskOk(s, t); }
    ListsKept(s, s', NULL);
  }

  lemma KeepWake(s: State, u: int)
    requires Inv(s) && CanWake(s, u)
    ensures Inv(DoWake(s, u))
  {
    var s' := DoWake(s, u);
    forall d | 0 <= d < |s'.cur| ensures CpuOk(s', d) { assert CpuOk(s, d); }
    forall t | t in s'.task ensures TaskOk(s', t) { assert TaskOk(s, t); }
    ListsKept(s, s', NULL);
  }

  lemma KeepInv(s: State, a: Step)
    requires Inv(s) && Enabled(s, a) && !StaleStep(s, a)
    ensures Inv(Next(s, a))
  {
    match a
    case Unlock(c) => KeepUnlock(s, c);
    case Store(c) => KeepStore(s, c);
    case Look(c, pid) => KeepLook(s, c, pid);
    case Grab(c) => KeepGrab(s, c);
    case Set(c) => KeepSet(s, c);
    case StayIdle(c) => KeepIdle(s, c);
    case Skip(c) => KeepSkip(s, c);
    case Take(c) => KeepTake(s, c);
    case Try(c) => KeepTry(s, c);
    case Clear(c) => KeepClear(s, c);
    case Create(c, t, pid, kind) => KeepCreate(s, c, t, pid, kind);
    case See(c) => KeepSee(s, c);
    case LockSon(c) => KeepLock(s, c);
    case ReapSon(c) => KeepReap(s, c);
    case Hold(c) => KeepHold(s, c);
    case Decide(c) => KeepDecide(s, c);
    case Release(c) => KeepRelease(s, c);
    case Flag(c) => KeepFlag(s, c);
    case Unlist(c) => KeepUnlist(s, c);
    case End(c, full) => KeepEnd(s, c, full);
    case Sleep(c) => KeepSleep(s, c);
    case Wake(t) => KeepWake(s, t);
  }
}
