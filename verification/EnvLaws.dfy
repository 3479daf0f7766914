/** What each kernel entry does, in terms of what programs can observe, and what that means over runs
    (kern/sched.c, kern/env.c, kern/syscall_all.c). */
module EnvLaws {
  import opened Links
  import opened EnvMachine
  import opened EnvInvariant
  import opened EnvRuns
  import opened Mmu

  /** Apart from e's record no env changes. */
  ghost predicate OnlyEnv(s: Kern, t: Kern, e: nat) {
    |t.envs| == |s.envs| == NENV && forall x {:trigger t.envs[x]} :: 0 <= x < NENV && x != e ==> t.envs[x] == s.envs[x]
  }

  /** The env now running has one more run to its name; no other record changed. */
  ghost predicate OneMoreRun(s: Kern, t: Kern) {
    && t.cur.Running? && t.cur.e < NENV && OnlyEnv(s, t, t.cur.e)
    && t.envs[t.cur.e] == s.envs[t.cur.e].(runs := (s.envs[t.cur.e].runs + 1) % TWO32)
  }

  // ---- the scheduler

  /** The head's turn is over: it goes to the tail, and the new head runs with exactly its priority. */
  ghost predicate Turned(s: Kern, t: Kern) {
    && s.sched != [] && t.sched == s.sched[1..] + [s.sched[0]] && t.cur == Running(t.sched[0])
    && t.sched[0] < |t.envs| && t.count == t.envs[t.sched[0]].pri && t.free == s.free && t.ids == s.ids
  }

  /** With slices left a clock tick lets the current env go on and takes one slice. */
  lemma TickKeeps(s: Kern)
    requires Inv(s) && Settled(s) && s.count > 1
    ensures var t := Next(s, Tick);
            && t.cur == s.cur && t.sched == s.sched && t.count == s.count - 1 && t.free == s.free && t.ids == s.ids
            && OneMoreRun(s, t)
  {
    InvCanSchedule(s);
  }

  /** On the last slice, or by sys_yield at any time, the current env hands the processor on. */
  lemma TurnPasses(s: Kern, l: Step)
    requires Inv(s) && Settled(s) && (l.Yield? || (l.Tick? && s.count <= 1))
    ensures Turned(s, Next(s, l)) && OneMoreRun(s, Next(s, l))
  {
    InvCanSchedule(s);
    assert Without(s.sched, s.cur.e) == s.sched[1..];
    RotateInv(s);
    var q := s.sched[1..] + [s.cur.e];
    assert q[0] in q;
  }

  /** Of the entries that call schedule, the run has clock ticks only. */
  ghost predicate OnlyTicks(s: Kern, ls: seq<Step>)
    requires Inv(s) && Settled(s) && CanRun(s, ls)
    decreases |ls|
  {
    ls == [] || ((ls[0].Tick? || Schedules(s, ls[0]) == 0) && (StepInv(s, ls[0]); OnlyTicks(Next(s, ls[0]), ls[1..])))
  }

  function Ticks(ls: seq<Step>): nat {
    if ls == [] then 0 else (if ls[0].Tick? then 1 else 0) + Ticks(ls[1..])
  }

  /** An entry that does not call schedule leaves the processor and the slices where they are. */
  lemma QuietKeeps(s: Kern, l: Step)
    requires Inv(s) && Settled(s) && Enabled(s, l) && Schedules(s, l) == 0
    ensures Next(s, l).cur == s.cur && Next(s, l).count == s.count
  {
    if l.Exofork? {
      ExoforkInv(s, l.supply);
    }
  }

  /** Whatever system calls the current env makes, as long as it neither yields nor blocks: it keeps the processor for
      `count` clock ticks, the last of which passes it on. */
  lemma {:induction false} RationKept(s: Kern, ls: seq<Step>)
    requires Inv(s) && Settled(s) && CanRun(s, ls) && OnlyTicks(s, ls) && (Ticks(ls) == 0 || Ticks(ls) < s.count)
    ensures var t := Last(s, ls);
            && t.cur == s.cur && t.count == s.count - Ticks(ls)
            && (t.count <= 1 ==> Turned(t, Next(t, Tick)))
    decreases |ls|
  {
    hide Enabled, Inv;
    if ls == [] {
      if s.count <= 1 {
        TurnPasses(s, Tick);
      }
    } else {
      var s' := Next(s, ls[0]);
      StepInv(s, ls[0]);
      if ls[0].Tick? {
        TickKeeps(s);
      } else {
        QuietKeeps(s, ls[0]);
      }
      hide Next, Turned;
      RationKept(s', ls[1..]);
    }
  }

  /** An env that is passed the processor with priority p keeps it for max(1, p) clock ticks. */
  lemma FullRation(s: Kern, l: Step, ls: seq<Step>)
    requires Inv(s) && Settled(s) && (l.Yield? || (l.Tick? && s.count <= 1))
    requires Inv(Next(s, l)) && Settled(Next(s, l)) && CanRun(Next(s, l), ls) && OnlyTicks(Next(s, l), ls)
    requires |Next(s, l).envs| == NENV && Next(s, l).cur.e < NENV
    ensures var t := Next(s, l);
            var p := t.envs[t.cur.e].pri;
            && t.cur == Running((s.sched[1..] + [s.sched[0]])[0])
            && (Ticks(ls) == 0 || Ticks(ls) < p ==> Last(t, ls).cur == t.cur)
            && (Ticks(ls) + 1 == (if p > 1 then p else 1) ==> Turned(Last(t, ls), Next(Last(t, ls), Tick)))
  {
    TurnPasses(s, l);
    var t := Next(s, l);
    hide Next, CanRun, Inv;
    if Ticks(ls) == 0 || Ticks(ls) < t.count {
      RationKept(t, ls);
    }
  }

  // ---- blocking receive

  /** The caller of sys_ipc_recv waits, off the queue, at the address it gave; the next env in the queue runs. */
  lemma RecvArms(s: Kern, dstva: nat)
    requires Inv(s) && Settled(s) && Enabled(s, Recv(dstva))
    ensures var t, e := Next(s, Recv(dstva)), s.cur.e;
            if dstva != 0 && (dstva < 0x3f_e000 || dstva >= 0x7f40_0000) then t == s
            else
              && |s.sched| > 1 && |t.envs| == NENV && t.sched == s.sched[1..] && t.free == s.free && t.ids == s.ids
              && t.cur == Running(s.sched[1]) && s.sched[1] < NENV && t.count == s.envs[s.sched[1]].pri
              && t.envs[e] == s.envs[e].(recving := true, ipcDstva := dstva, status := NotRunnable)
              && e !in t.sched
              && (forall x :: 0 <= x < NENV && x != e && x != s.sched[1] ==> t.envs[x] == s.envs[x])
  {
    if Legal(dstva) {
      AfterHeadLeaves(s);
      assert s.sched[1] in s.sched;
    }
  }

  /** e waits at dstva. */
  ghost predicate Armed(s: Kern, e: nat, dstva: nat) {
    && e < |s.envs| && s.envs[e].recving && s.envs[e].status == NotRunnable && s.envs[e].ipcDstva == dstva && e !in s.sched
  }

  /** No send in the run reaches e. */
  ghost predicate NoSend(s: Kern, ls: seq<Step>, e: nat)
    requires Inv(s) && Settled(s) && CanRun(s, ls) && e < NENV
    decreases |ls|
  {
    ls == [] || (!SendsTo(s, ls[0], e) && (StepInv(s, ls[0]); NoSend(Next(s, ls[0]), ls[1..], e)))
  }

  lemma ArmedStep(s: Kern, l: Step, e: nat, dstva: nat)
    requires Inv(s) && Settled(s) && Enabled(s, l) && Armed(s, e, dstva) && !SendsTo(s, l, e)
    requires Inv(Next(s, l)) && Settled(Next(s, l))
    ensures Armed(Next(s, l), e, dstva) && Next(s, l).envs[e].id == s.envs[e].id
  {
    MessageSteps(s, l, e);
    StepSlots(s, l, e);
    assert SlotOk(s, e) && SlotOk(Next(s, l), e) && SlotOk(s, s.cur.e);
  }

  /** A receiver waits until a send reaches it, however long that takes. */
  lemma {:induction false} StaysArmed(s: Kern, ls: seq<Step>, e: nat, dstva: nat)
    requires Inv(s) && Settled(s) && CanRun(s, ls) && Armed(s, e, dstva) && NoSend(s, ls, e)
    ensures forall t :: t in Trace(s, ls) ==> Armed(t, e, dstva) && t.envs[e].id == s.envs[e].id
    ensures Armed(Last(s, ls), e, dstva) && Last(s, ls).envs[e].id == s.envs[e].id
    decreases |ls|
  {
    if ls != [] {
      StepInv(s, ls[0]);
      ArmedStep(s, ls[0], e, dstva);
      hide Next, Inv, Armed;
      StaysArmed(Next(s, ls[0]), ls[1..], e, dstva);
    }
  }

  /** What the send leaves in its receiver, and what its sender gets back. */
  ghost predicate Delivered(s: Kern, t: Kern, r: int, e: nat, value: nat, srcva: nat, perm: Word, mapped: bool)
    requires s.cur.Running? && s.cur.e < |s.envs|
  {
    && OnlyEnv(s, t, e) && e < NENV && t.sched == s.sched + [e] && t.cur == s.cur && t.free == s.free
    && t.envs[e].status == Runnable && !t.envs[e].recving
    && t.envs[e].ipcValue == value && t.envs[e].ipcFrom == s.envs[s.cur.e].id && t.envs[e].ipcDstva == s.envs[e].ipcDstva
    && t.envs[e].ipcPerm.ppn == perm.ppn && t.envs[e].ipcPerm.low & PTE_V != 0
    && t.envs[e].ipcPerm.low & !PTE_V == perm.low & !PTE_V
    && r == if srcva != 0 && !mapped then -E_INVAL else 0
  }

  /** From the receive on: the first send by the receiver's id, whoever makes it and however late, is accepted, wakes the
      receiver and delivers. */
  lemma FirstSendDelivers(s: Kern, dstva: nat, ls: seq<Step>, value: nat, srcva: nat, perm: Word, mapped: bool)
    requires Inv(s) && Settled(s) && Enabled(s, Recv(dstva)) && Legal(dstva) && IdsOk(s)
    requires Inv(Next(s, Recv(dstva))) && Settled(Next(s, Recv(dstva))) && CanRun(Next(s, Recv(dstva)), ls)
    requires NoSend(Next(s, Recv(dstva)), ls, s.cur.e) && s.ids + IdCalls(Next(s, Recv(dstva)), ls) < GENERATIONS
    requires srcva == 0 || !IllegalVa(srcva)
    ensures var e, t := s.cur.e, Last(Next(s, Recv(dstva)), ls);
            && Armed(t, e, dstva)
            && var (u, r) := SysIpcTrySend(t, s.envs[e].id, value, srcva, perm, mapped);
               Delivered(t, u, r, e, value, srcva, perm, mapped) && u.envs[e].ipcDstva == dstva
  {
    var e, m := s.cur.e, Next(s, Recv(dstva));
    RecvArms(s, dstva);
    StepIds(s, Recv(dstva));
    CounterStep(s, Recv(dstva));
    StaysArmed(m, ls, e, dstva);
    LastIds(m, ls);
    var t := Last(m, ls);
    hide Next, CanRun, NoSend, IdCalls;
    LiveResolves(t, e);
    SendSets(t, s.envs[e].id, e, value, srcva, perm, mapped);
  }

  lemma PermKept(perm: Word)
    ensures SetValid(perm).ppn == perm.ppn && SetValid(perm).low & PTE_V != 0
    ensures SetValid(perm).low & !PTE_V == perm.low & !PTE_V
  {
  }

  lemma SendSets(s: Kern, envid: nat, e: nat, value: nat, srcva: nat, perm: Word, mapped: bool)
    requires Inv(s) && s.cur.Running? && Envid2Env(s, envid, false) == Slot(e) && s.envs[e].recving
    requires srcva == 0 || !IllegalVa(srcva)
    ensures var (u, r) := SysIpcTrySend(s, envid, value, srcva, perm, mapped);
            Delivered(s, u, r, e, value, srcva, perm, mapped)
  {
    PermKept(perm);
  }

  /** Every outcome of sys_ipc_try_send; a refused send changes nothing. */
  lemma SendOutcomes(s: Kern, envid: nat, value: nat, srcva: nat, perm: Word, mapped: bool)
    requires Inv(s) && s.cur.Running?
    ensures var (t, r) := SysIpcTrySend(s, envid, value, srcva, perm, mapped);
            var target := Envid2Env(s, envid, false);
            && (r == -E_IPC_NOT_RECV <==> (srcva == 0 || !IllegalVa(srcva)) && target.Slot? && !s.envs[target.e].recving)
            && (r == -E_BAD_ENV <==> (srcva == 0 || !IllegalVa(srcva)) && target == BadEnv)
            && (r in {0, -E_INVAL, -E_BAD_ENV, -E_IPC_NOT_RECV})
            && (srcva != 0 && IllegalVa(srcva) ==> r == -E_INVAL && t == s)
            && (r == -E_BAD_ENV || r == -E_IPC_NOT_RECV ==> t == s)
            && (r == 0 ==> target.Slot? && Delivered(s, t, r, target.e, value, srcva, perm, mapped))
  {
    var target := Envid2Env(s, envid, false);
    if target.Slot? && s.envs[target.e].recving && (srcva == 0 || !IllegalVa(srcva)) {
      SendSets(s, envid, target.e, value, srcva, perm, mapped);
    }
  }

  // ---- creating, stopping and ending envs

  /** After env_init every slot is free, slot 0 the first to be handed out, nothing runs and no id has been given. */
  lemma BootState(env: Env, k: nat)
    requires k < NENV
    ensures var s := InitState(env);
            && |s.free| == |s.envs| == NENV && s.free[k] == k && s.envs[k].status == Free && !s.envs[k].recving
            && s.sched == [] && s.cur == Nobody && s.ids == 0
  {
  }

  /** The first free slot holds a new env of the given parent, with a new id and no runs. */
  ghost predicate Allotted(s: Kern, t: Kern, parent: nat) {
    && s.free != [] && t.free == s.free[1..] && s.free[0] < NENV && OnlyEnv(s, t, s.free[0])
    && t.ids == (s.ids + 1) % TWO32
    && var env := t.envs[s.free[0]];
       env.id == MkEnvId(t.ids, s.free[0]) && env.parent == parent && env.runs == 0
  }

  /** sys_exofork gives the caller a child that does not run yet, of its own priority, and says its id. */
  lemma ForkGives(s: Kern, supply: Supply)
    requires Inv(s) && s.cur.Running?
    ensures var (t, r) := SysExofork(s, supply);
            && t.sched == s.sched && t.cur == s.cur && t.count == s.count
            && if s.free == [] then r == -E_NO_FREE_ENV && t == s
               else if supply == NoPage then r == -E_NO_MEM && t == s
               else if supply == NoAsid then r == -E_NO_FREE_ENV && t.free == s.free && OnlyEnv(s, t, s.free[0])
               else
                 && Allotted(s, t, s.envs[s.cur.e].id) && t.envs[s.free[0]].status == NotRunnable
                 && t.envs[s.free[0]].pri == s.envs[s.cur.e].pri && r == t.envs[s.free[0]].id
  {
    if s.free != [] {
      assert s.free[0] in s.free && SlotOk(s, s.free[0]);
      assert Without(s.free, s.free[0]) == s.free[1..];
    }
  }

  /** env_create puts an env without parent at the head of the queue. */
  lemma CreateGives(s: Kern, pri: int)
    requires Inv(s) && s.free != [] && s.cur == Nobody
    ensures forall e :: e in s.free ==> e < |s.envs|
    ensures var t := EnvCreate(s, pri);
            && Allotted(s, t, 0) && t.sched == [s.free[0]] + s.sched && t.cur == s.cur && t.count == s.count
            && t.envs[s.free[0]].status == Runnable && t.envs[s.free[0]].pri == pri
  {
    assert s.free[0] in s.free && SlotOk(s, s.free[0]);
    assert Without(s.free, s.free[0]) == s.free[1..];
  }

  /** sys_set_env_status: 1 is ENV_RUNNABLE, 2 is ENV_NOT_RUNNABLE; a target that changes joins the queue at its tail, or
      leaves it. */
  lemma StatusSets(s: Kern, envid: nat, status: nat)
    requires Inv(s) && Settled(s)
    ensures var (t, r) := SysSetEnvStatus(s, envid, status);
            var target := Envid2Env(s, envid, true);
            && t.free == s.free && t.cur == s.cur && t.count == s.count && t.ids == s.ids
            && if status != 1 && status != 2 then r == -E_INVAL && t == s
               else if target == BadEnv then r == -E_BAD_ENV && t == s
               else
                 var e := target.e;
                 && r == 0 && OnlyEnv(s, t, e)
                 && t.envs[e] == s.envs[e].(status := t.envs[e].status)
                 && (status == 1 ==> t.envs[e].status == Runnable && t.sched == if e in s.sched then s.sched else s.sched + [e])
                 && (status == 2 ==> t.envs[e].status == NotRunnable && e !in t.sched)
                 && (status == 2 ==> forall x :: x in t.sched <==> x in s.sched && x != e)
  {
    var target := Envid2Env(s, envid, true);
    if target.Slot? {
      assert SlotOk(s, target.e);
      WithoutDistinct(s, target.e);
    }
  }

  /** The destroyed env's slot is the next one to be handed out; if the caller destroyed itself, the env behind it runs. */
  lemma DestroyEnds(s: Kern, envid: nat)
    requires Inv(s) && Settled(s) && Enabled(s, Destroy(envid))
    ensures var t, target := Next(s, Destroy(envid)), Envid2Env(s, envid, true);
            if target == BadEnv then t == s
            else
              var e := target.e;
              && |t.envs| == NENV && t.envs[e] == s.envs[e].(status := Free) && t.free == [e] + s.free && t.ids == s.ids
              && (forall x :: x in t.sched <==> x in s.sched && x != e)
              && if e != s.cur.e then t.cur == s.cur && t.count == s.count && OnlyEnv(s, t, e)
                 else
                   && |s.sched| > 1 && t.sched == s.sched[1..] && t.cur == Running(s.sched[1]) && s.sched[1] < NENV
                   && t.count == s.envs[s.sched[1]].pri
                   && forall x :: 0 <= x < NENV && x != e && x != s.sched[1] ==> t.envs[x] == s.envs[x]
  {
    var target := Envid2Env(s, envid, true);
    if target.Slot? {
      WithoutDistinct(s, target.e);
      assert SlotOk(s, target.e);
      if target.e == s.cur.e {
        AfterHeadLeaves(s);
        assert s.sched[1] in s.sched;
      }
    }
  }
}
