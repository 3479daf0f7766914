/** Environments, their run queue, their ids and their messages, one kernel entry at a time
    (kern/env.c, kern/sched.c, kern/syscall_all.c). */
module EnvMachine {
  import opened Links
  import opened Mmu

  const NENV: nat := 1024
  const TWO32: nat := 0x1_0000_0000
  const E_BAD_ENV: int := 2
  const E_INVAL: int := 3
  const E_NO_MEM: int := 4
  const E_NO_FREE_ENV: int := 6
  const E_IPC_NOT_RECV: int := 7
  const UTEMP: nat := 0x3f_e000
  const UTOP: nat := 0x7f40_0000

  datatype Status = Free | Runnable | NotRunnable

  datatype Env = Env(id: nat, parent: nat, status: Status, pri: int, runs: nat,
                     ipcValue: nat, ipcFrom: nat, ipcPerm: Word, recving: bool, ipcDstva: nat)

  datatype Current = Nobody | Running(e: nat)

  /** `count` is schedule's remaining slices; `ids` is mkenvid's counter. */
  datatype Kern = Kern(envs: seq<Env>, free: seq<nat>, sched: seq<nat>, cur: Current, count: int, ids: nat)

  /** How env_alloc's page and ASID allocations turn out. */
  datatype Supply = Enough | NoPage | NoAsid

  datatype Step =
    | Tick
    | Yield
    | Exofork(supply: Supply)
    | SetStatus(envid: nat, status: nat)
    | Destroy(envid: nat)
    | Recv(dstva: nat)
    | TrySend(envid: nat, value: nat, srcva: nat, perm: Word, mapped: bool)

  // ---- ids

  /** `((++i) << 11) | idx` in 32 bits; the shifted counter has no low bits for idx to meet. */
  function MkEnvId(i: nat, idx: nat): nat {
    i * 2048 % TWO32 + idx
  }

  function EnvX(id: nat): nat {
    id % 1024
  }

  predicate IllegalVa(va: nat) {
    va < UTEMP || va >= UTOP
  }

  /** envid2env: the slot, or BadEnv. */
  datatype Lookup = BadEnv | Slot(e: nat)

  function Envid2Env(s: Kern, envid: nat, checkperm: bool): (r: Lookup)
    requires |s.envs| == NENV && s.cur.Running? && s.cur.e < NENV
    ensures r.Slot? ==> r.e < NENV
  {
    if envid == 0 then Slot(s.cur.e)
    else
      var e := EnvX(envid);
      if s.envs[e].status == Free || s.envs[e].id != envid then BadEnv
      else if checkperm && !(e == s.cur.e || s.envs[e].parent == s.envs[s.cur.e].id) then BadEnv
      else Slot(e)
  }

  // ---- the scheduler

  function RunEnv(s: Kern, e: nat, count: int): Kern
    requires e < |s.envs|
  {
    s.(cur := Running(e), count := count, envs := s.envs[e := s.envs[e].(runs := (s.envs[e].runs + 1) % TWO32)])
  }

  /** Picks the head of the run queue for a fresh ration of slices. */
  function RunHead(s: Kern): Kern
    requires s.sched != [] && forall e :: e in s.sched ==> e < |s.envs|
  {
    assert s.sched[0] in s.sched;
    RunEnv(s, s.sched[0], s.envs[s.sched[0]].pri)
  }

  predicate CurRuns(s: Kern) {
    s.cur.Running? && s.cur.e < |s.envs| && s.envs[s.cur.e].status == Runnable
  }

  ghost predicate CanSchedule(s: Kern) {
    && s.sched != [] && (forall e :: e in s.sched ==> e < |s.envs|)
    && (CurRuns(s) ==> s.cur.e in s.sched)
  }

  ghost function Schedule(s: Kern, giveUp: bool): Kern
    requires CanSchedule(s)
  {
    var count := s.count - 1;
    if !CurRuns(s) then RunHead(s)
    else if giveUp || count <= 0 then
      WithoutMembers(s.sched, s.cur.e);
      RunHead(s.(sched := Without(s.sched, s.cur.e) + [s.cur.e]))
    else RunEnv(s, s.cur.e, count)
  }

  lemma {:induction false} WithoutMembers(q: seq<nat>, e: nat)
    ensures |Without(q, e)| == if e in q then |q| - 1 else |q|
    ensures forall x :: x in Without(q, e) ==> x in q
    ensures forall x :: x in q && x != e ==> x in Without(q, e)
    ensures Distinct(q) ==> e !in Without(q, e) && Distinct(Without(q, e))
  {
    if q != [] && q[0] != e {
      WithoutMembers(q[1..], e);
      assert q == [q[0]] + q[1..];
      if Distinct(q) {
        assert q[0] !in q[1..];
      }
    } else if q != [] {
      assert q == [q[0]] + q[1..];
    }
  }

  // ---- system calls; each also gives the value returned to the caller

  /** env_alloc: `id` is 0 when it fails. */
  datatype Alloc = Alloc(s: Kern, e: nat, r: int)

  function EnvAlloc(s: Kern, parent: nat, supply: Supply): (a: Alloc)
    requires forall e :: e in s.free ==> e < |s.envs|
    ensures a.r == 0 ==> a.e < |s.envs| == |a.s.envs|
  {
    if s.free == [] then Alloc(s, 0, -E_NO_FREE_ENV)
    else if supply == NoPage then Alloc(s, 0, -E_NO_MEM)
    else
      assert s.free[0] in s.free;
      var e, i := s.free[0], (s.ids + 1) % TWO32;
      var env := s.envs[e].(id := MkEnvId(i, e), runs := 0);
      var s1 := s.(ids := i, envs := s.envs[e := env]);
      if supply == NoAsid then Alloc(s1, 0, -E_NO_FREE_ENV)
      else Alloc(s1.(envs := s.envs[e := env.(parent := parent)], free := Without(s.free, e)), e, 0)
  }

  function SysExofork(s: Kern, supply: Supply): (Kern, int)
    requires s.cur.Running? && s.cur.e < |s.envs| && forall e :: e in s.free ==> e < |s.envs|
  {
    var a := EnvAlloc(s, s.envs[s.cur.e].id, supply);
    if a.r != 0 then (a.s, a.r)
    else
      var env := a.s.envs[a.e].(status := NotRunnable, pri := s.envs[s.cur.e].pri);
      (a.s.(envs := a.s.envs[a.e := env]), env.id)
  }

  function SysSetEnvStatus(s: Kern, envid: nat, status: nat): (Kern, int)
    requires |s.envs| == NENV && s.cur.Running? && s.cur.e < NENV
  {
    if status != 1 && status != 2 then (s, -E_INVAL)
    else
      var want := if status == 1 then Runnable else NotRunnable;
      match Envid2Env(s, envid, true)
      case BadEnv => (s, -E_BAD_ENV)
      case Slot(e) =>
        var sched :=
          if s.envs[e].status == Runnable && want == NotRunnable then Without(s.sched, e)
          else if s.envs[e].status == NotRunnable && want == Runnable then s.sched + [e]
          else s.sched;
        (s.(sched := sched, envs := s.envs[e := s.envs[e].(status := want)]), 0)
  }

  /** env_free's bookkeeping; the memory side is KernelMemory.Kernel.EnvFree. */
  function EnvFree(s: Kern, e: nat): Kern
    requires e < |s.envs|
  {
    s.(envs := s.envs[e := s.envs[e].(status := Free)], free := [e] + s.free, sched := Without(s.sched, e))
  }

  function BlockCurrent(s: Kern, dstva: nat): Kern
    requires s.cur.Running? && s.cur.e < |s.envs|
  {
    var env := s.envs[s.cur.e].(recving := true, ipcDstva := dstva, status := NotRunnable);
    s.(envs := s.envs[s.cur.e := env], sched := Without(s.sched, s.cur.e))
  }

  function SysIpcTrySend(s: Kern, envid: nat, value: nat, srcva: nat, perm: Word, mapped: bool): (Kern, int)
    requires |s.envs| == NENV && s.cur.Running? && s.cur.e < NENV
  {
    if srcva != 0 && IllegalVa(srcva) then (s, -E_INVAL)
    else match Envid2Env(s, envid, false)
      case BadEnv => (s, -E_BAD_ENV)
      case Slot(e) =>
        if !s.envs[e].recving then (s, -E_IPC_NOT_RECV)
        else
          var env := s.envs[e].(ipcValue := value, ipcFrom := s.envs[s.cur.e].id, ipcPerm := SetValid(perm),
                                recving := false, status := Runnable);
          (s.(envs := s.envs[e := env], sched := s.sched + [e]), if srcva != 0 && !mapped then -E_INVAL else 0)
  }

  // ---- the state that the kernel's comment promises (kern/env.c:18), and the steps

  ghost predicate SlotOk(s: Kern, e: nat)
    requires e < |s.envs|
  {
    && (e in s.free <==> s.envs[e].status == Free)
    && (e in s.sched <==> s.envs[e].status == Runnable)
    && (s.envs[e].recving ==> s.envs[e].status == NotRunnable)
  }

  ghost predicate Inv(s: Kern) {
    && |s.envs| == NENV && Distinct(s.free) && Distinct(s.sched)
    && (forall e :: e in s.free ==> e < NENV)
    && (forall e :: e in s.sched ==> e < NENV)
    && (forall e {:trigger SlotOk(s, e)} :: 0 <= e < NENV ==> SlotOk(s, e))
    && (s.cur.Running? ==> s.cur.e < NENV)
  }

  /** After boot the current env is runnable and heads the queue whenever user code runs. */
  ghost predicate Settled(s: Kern) {
    CurRuns(s) && s.sched != [] && s.sched[0] == s.cur.e
  }

  /** The side conditions under which the code keeps its invariant: destroyed envs are runnable, sys_set_env_status
      neither wakes a receiving env nor stops the caller, and some env is left to run. */
  ghost predicate Enabled(s: Kern, l: Step)
    requires Inv(s) && Settled(s)
  {
    match l
    case Tick => true
    case Yield => true
    case Exofork(_) => true
    case SetStatus(envid, status) =>
      var t := Envid2Env(s, envid, true);
      t.Slot? ==> !(status == 1 && s.envs[t.e].recving) && !(status == 2 && t.e == s.cur.e)
    case Destroy(envid) =>
      var t := Envid2Env(s, envid, true);
      t.Slot? ==> s.envs[t.e].status == Runnable && (t.e == s.cur.e ==> |s.sched| > 1)
    case Recv(dstva) => dstva == 0 || !IllegalVa(dstva) ==> |s.sched| > 1
    case TrySend(_, _, _, _, _) => true
  }

  /** Leaving the head of the queue empty-handed still leaves something to schedule. */
  lemma AfterHeadLeaves(s: Kern)
    requires Inv(s) && Settled(s) && |s.sched| > 1
    ensures Without(s.sched, s.cur.e) == s.sched[1..]
    ensures forall x :: x in Without(s.sched, s.cur.e) ==> x in s.sched
  {
  }

  ghost function Next(s: Kern, l: Step): Kern
    requires Inv(s) && Settled(s) && Enabled(s, l)
  {
    match l
    case Tick => Schedule(s, false)
    case Yield => Schedule(s, true)
    case Exofork(supply) => SysExofork(s, supply).0
    case SetStatus(envid, status) => SysSetEnvStatus(s, envid, status).0
    case Destroy(envid) =>
      (match Envid2Env(s, envid, true)
       case BadEnv => s
       case Slot(e) =>
         if e != s.cur.e then EnvFree(s, e)
         else
           AfterHeadLeaves(s);
           Schedule(EnvFree(s, e).(cur := Nobody), true))
    case Recv(dstva) =>
      if dstva != 0 && IllegalVa(dstva) then s
      else
        AfterHeadLeaves(s);
        Schedule(BlockCurrent(s, dstva), true)
    case TrySend(envid, value, srcva, perm, mapped) => SysIpcTrySend(s, envid, value, srcva, perm, mapped).0
  }

  /** How many times a step calls schedule. */
  ghost function Schedules(s: Kern, l: Step): nat
    requires Inv(s) && Settled(s)
  {
    match l
    case Tick => 1
    case Yield => 1
    case Exofork(_) => 0
    case SetStatus(_, _) => 0
    case Destroy(envid) => if Envid2Env(s, envid, true) == Slot(s.cur.e) then 1 else 0
    case Recv(dstva) => if dstva != 0 && IllegalVa(dstva) then 0 else 1
    case TrySend(_, _, _, _, _) => 0
  }

  // ---- boot

  /** env_init: every slot free, slot 0 first. */
  function InitState(env: Env): Kern {
    Kern(seq(NENV, _ => env.(status := Free, recving := false)), seq(NENV, i => i), [], Nobody, 0, 0)
  }

  /** env_create: a runnable env at the head of the queue. */
  function EnvCreate(s: Kern, pri: int): Kern
    requires s.free != [] && forall e :: e in s.free ==> e < |s.envs|
  {
    var a := EnvAlloc(s, 0, Enough);
    a.s.(envs := a.s.envs[a.e := a.s.envs[a.e].(status := Runnable, pri := pri)], sched := [a.e] + a.s.sched)
  }
}
