/** The env table with its intrusive queues, updated in place (kern/env.c, kern/sched.c, kern/syscall_all.c). */
module EnvKernel {
  import opened Links
  import opened Queues
  import opened EnvMachine
  import opened EnvInvariant
  import opened Mmu

  class EnvTable {
    var envs: seq<Env>
    const freeList: List
    const runQueue: TailQueue
    var cur: Current
    var count: int
    var ids: nat

    ghost function State(): Kern
      reads this, freeList, runQueue
    {
      Kern(envs, freeList.elems, runQueue.elems, cur, count, ids)
    }

    ghost predicate Valid()
      reads this, freeList, runQueue
    {
      freeList.Valid() && runQueue.Valid() && |freeList.next| == |runQueue.next| == NENV && Inv(State())
    }

    /** env_init: slots are pushed from the last to the first, so that slot 0 is handed out first. */
    constructor (env: Env, next: seq<Ptr>, prev: seq<Cell>)
      requires |next| == |prev| == NENV
      ensures Valid() && State() == InitState(env)
      ensures fresh(freeList) && fresh(runQueue)
    {
      freeList := new List(next, prev);
      runQueue := new TailQueue(next, prev);
      envs := seq(NENV, _ => env.(recving := false));
      cur, count, ids := Nobody, 0, 0;
      new;
      for i := NENV downto 0
        invariant freeList.Valid() && runQueue.Valid() && |freeList.next| == |runQueue.next| == NENV
        invariant fresh(freeList) && fresh(runQueue) && runQueue.elems == []
        invariant |envs| == NENV && cur == Nobody && count == 0 && ids == 0
        invariant freeList.elems == seq(NENV - i, k requires 0 <= k => i + k)
        invariant forall k :: 0 <= k < i ==> envs[k] == env.(recving := false)
        invariant forall k :: i <= k < NENV ==> envs[k] == env.(status := Free, recving := false)
      {
        envs := envs[i := envs[i].(status := Free)];
        freeList.PushFront(i);
      }
      assert State() == InitState(env);
      InitInv(env);
    }

    method RunEnv(e: nat, ration: int)
      requires e < |envs|
      modifies this`envs, this`cur, this`count
      ensures State() == EnvMachine.RunEnv(old(State()), e, ration)
    {
      cur, count := Running(e), ration;
      envs := envs[e := envs[e].(runs := (envs[e].runs + 1) % TWO32)];
    }

    /** schedule: an empty queue is outside what callers may leave behind. */
    method Schedule(giveUp: bool)
      requires Valid() && runQueue.elems != [] && (CurRuns(State()) ==> runQueue.elems[0] == cur.e)
      modifies this`envs, this`cur, this`count, runQueue
      ensures Valid() && CanSchedule(old(State())) && State() == EnvMachine.Schedule(old(State()), giveUp)
      ensures Settled(State())
    {
      ghost var s := State();
      ScheduleInv(s, giveUp);
      var left := count - 1;
      if cur == Nobody || envs[cur.e].status != Runnable {
        assert runQueue.elems[0] in runQueue.elems;
        var e := runQueue.first.n;
        RunEnv(e, envs[e].pri);
      } else if giveUp || left <= 0 {
        WithoutDistinct(s, cur.e);
        runQueue.Delete(cur.e);
        runQueue.PushBack(cur.e);
        assert runQueue.elems[0] in runQueue.elems;
        var e := runQueue.first.n;
        RunEnv(e, envs[e].pri);
      } else {
        RunEnv(cur.e, left);
      }
      assert State() == EnvMachine.Schedule(s, giveUp);
    }

    /** env_alloc, with the memory and ASID outcome given; the memory side is KernelMemory.Kernel.SpaceAlloc. */
    method EnvAlloc(parent: nat, supply: Supply) returns (e: nat, r: int)
      requires Valid()
      modifies this`envs, this`ids, freeList
      ensures freeList.Valid() && |freeList.next| == NENV && runQueue.elems == old(runQueue.elems)
      ensures EnvMachine.Alloc(State(), e, r) == EnvMachine.EnvAlloc(old(State()), parent, supply)
    {
      if freeList.first == Null {
        return 0, -E_NO_FREE_ENV;
      }
      assert freeList.elems[0] in freeList.elems;
      e := freeList.first.n;
      if supply == NoPage {
        return 0, -E_NO_MEM;
      }
      ids := (ids + 1) % TWO32;
      envs := envs[e := envs[e].(id := MkEnvId(ids, e), runs := 0)];
      if supply == NoAsid {
        return 0, -E_NO_FREE_ENV;
      }
      envs := envs[e := envs[e].(parent := parent)];
      freeList.Delete(e);
      r := 0;
    }

    /** env_create once env_alloc succeeds: the new env heads the queue. */
    method EnvCreate(pri: int) returns (e: nat)
      requires Valid() && cur == Nobody && freeList.elems != []
      modifies this`envs, this`ids, freeList, runQueue
      ensures Valid() && e == old(freeList.elems)[0] && e in old(freeList.elems)
      ensures forall x :: x in old(freeList.elems) ==> x < old(|envs|)
      ensures State() == EnvMachine.EnvCreate(old(State()), pri)
    {
      EnvCreateInv(State(), pri);
      assert freeList.elems[0] in freeList.elems && SlotOk(State(), freeList.elems[0]);
      var r;
      e, r := EnvAlloc(0, Enough);
      envs := envs[e := envs[e].(status := Runnable, pri := pri)];
      runQueue.PushFront(e);
    }

    method SysExofork(supply: Supply) returns (r: int)
      requires Valid() && cur.Running?
      modifies this`envs, this`ids, freeList
      ensures Valid() && (State(), r) == EnvMachine.SysExofork(old(State()), supply)
    {
      ExoforkInv(State(), supply);
      var e;
      var pri := envs[cur.e].pri;
      e, r := EnvAlloc(envs[cur.e].id, supply);
      if r != 0 {
        return;
      }
      envs := envs[e := envs[e].(status := NotRunnable, pri := pri)];
      r := envs[e].id;
    }

    method SysSetEnvStatus(envid: nat, status: nat) returns (r: int)
      requires Valid() && Settled(State()) && Enabled(State(), SetStatus(envid, status))
      modifies this`envs, runQueue
      ensures Valid() && Settled(State()) && (State(), r) == EnvMachine.SysSetEnvStatus(old(State()), envid, status)
    {
      SetStatusInv(State(), envid, status);
      if status != 1 && status != 2 {
        return -E_INVAL;
      }
      var t := Envid2Env(Kern(envs, [], [], cur, count, ids), envid, true);
      if t == BadEnv {
        return -E_BAD_ENV;
      }
      assert SlotOk(State(), t.e);
      if envs[t.e].status == Runnable && status == 2 {
        runQueue.Delete(t.e);
      } else if envs[t.e].status == NotRunnable && status == 1 {
        runQueue.PushBack(t.e);
      }
      envs := envs[t.e := envs[t.e].(status := if status == 1 then Runnable else NotRunnable)];
      r := 0;
    }

    /** Freeing e leaves the table intact: e is queued, or it is not receiving and its stale queue links do no harm. */
    ghost predicate SafeToFree(e: nat)
      requires e < |envs| && (e in runQueue.elems || CanRemove(runQueue.State(), e))
      reads this, runQueue
    {
      e in runQueue.elems || (!envs[e].recving && Agrees(runQueue.State(), runQueue.elems, e))
    }

    /** env_free's bookkeeping. TAILQ_REMOVE is unconditional: the table survives exactly when that is safe, for which
        a RUNNABLE env is enough. */
    method EnvFree(e: nat)
      requires Valid() && e < NENV && envs[e].status != Free
      requires envs[e].status == Runnable || CanRemove(runQueue.State(), e)
      modifies this`envs, freeList, runQueue
      ensures State() == EnvMachine.EnvFree(old(State()), e) && |freeList.next| == |runQueue.next| == NENV
      ensures old(e in runQueue.elems || CanRemove(runQueue.State(), e))
      ensures Valid() <==> old(SafeToFree(e))
      ensures old(envs[e].status) == Runnable ==> Valid()
    {
      EnvFreeExact(State(), e);
      assert SlotOk(State(), e);
      envs := envs[e := envs[e].(status := Free)];
      freeList.PushFront(e);
      runQueue.Delete(e);
    }

    /** sys_env_destroy and env_destroy, as long as someone is left to run. */
    method SysEnvDestroy(envid: nat) returns (r: int)
      requires Valid() && Settled(State())
      requires var t := Envid2Env(State(), envid, true);
               t.Slot? ==> (if t.e == cur.e then |runQueue.elems| > 1
                            else envs[t.e].status == Runnable || CanRemove(runQueue.State(), t.e))
      modifies this`envs, this`cur, this`count, freeList, runQueue
      ensures r == if Envid2Env(old(State()), envid, true).Slot? then 0 else -E_BAD_ENV
      ensures Enabled(old(State()), Destroy(envid)) ==>
                Valid() && Settled(State()) && State() == Next(old(State()), Destroy(envid))
      ensures !Enabled(old(State()), Destroy(envid)) ==>
                var e := Envid2Env(old(State()), envid, true).e;
                && State() == EnvMachine.EnvFree(old(State()), e)
                && (Valid() <==> old(CanRemove(runQueue.State(), e) && SafeToFree(e)))
    {
      ghost var s := State();
      var t := Envid2Env(Kern(envs, [], [], cur, count, ids), envid, true);
      if t == BadEnv {
        return -E_BAD_ENV;
      }
      assert SlotOk(s, t.e);
      if Enabled(s, Destroy(envid)) {
        DestroyInv(s, envid);
        AfterHeadIfMany(s);
      }
      EnvFree(t.e);
      if cur == Running(t.e) {
        NobodyInv(State());
        cur := Nobody;
        Schedule(true);
      }
      r := 0;
    }

    method SysIpcRecv(dstva: nat) returns (r: int)
      requires Valid() && Settled(State()) && Enabled(State(), Recv(dstva))
      modifies this`envs, this`cur, this`count, runQueue
      ensures Valid() && Settled(State()) && State() == Next(old(State()), Recv(dstva))
      ensures r == if dstva != 0 && IllegalVa(dstva) then -E_INVAL else 0
    {
      if dstva != 0 && IllegalVa(dstva) {
        return -E_INVAL;
      }
      ghost var s := State();
      AfterHeadLeaves(s);
      DequeueInv(s, cur.e, envs[cur.e].(recving := true, ipcDstva := dstva, status := NotRunnable));
      envs := envs[cur.e := envs[cur.e].(recving := true, ipcDstva := dstva, status := NotRunnable)];
      runQueue.Delete(cur.e);
      assert State() == BlockCurrent(s, dstva);
      Schedule(true);
      r := 0;
    }

    /** sys_ipc_try_send's bookkeeping; `mapped` says whether srcva is mapped in the sender. */
    method SysIpcTrySend(envid: nat, value: nat, srcva: nat, perm: Word, mapped: bool) returns (r: int)
      requires Valid() && Settled(State())
      modifies this`envs, runQueue
      ensures Valid() && Settled(State())
      ensures (State(), r) == EnvMachine.SysIpcTrySend(old(State()), envid, value, srcva, perm, mapped)
    {
      TrySendInv(State(), envid, value, srcva, perm, mapped);
      if srcva != 0 && IllegalVa(srcva) {
        return -E_INVAL;
      }
      var t := Envid2Env(Kern(envs, [], [], cur, count, ids), envid, false);
      if t == BadEnv {
        return -E_BAD_ENV;
      }
      if !envs[t.e].recving {
        return -E_IPC_NOT_RECV;
      }
      assert SlotOk(State(), t.e);
      envs := envs[t.e := envs[t.e].(ipcValue := value, ipcFrom := envs[cur.e].id, ipcPerm := SetValid(perm),
                                     recving := false)];
      envs := envs[t.e := envs[t.e].(status := Runnable)];
      runQueue.PushBack(t.e);
      assert State() == EnvMachine.SysIpcTrySend(old(State()), envid, value, srcva, perm, mapped).0;
      if srcva != 0 && !mapped {
        return -E_INVAL;
      }
      r := 0;
    }
  }
}
