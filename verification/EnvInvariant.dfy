/** What every kernel entry keeps, and what whole runs guarantee. */
module EnvInvariant {
  import opened Links
  import opened EnvMachine
  import opened Mmu

  lemma WithoutDistinct(s: Kern, e: nat)
    requires Inv(s)
    ensures var q := Without(s.sched, e);
            Distinct(q) && e !in q && forall x :: x in q <==> x in s.sched && x != e
  {
    WithoutMembers(s.sched, e);
  }

  lemma {:induction false} RunEnvInv(s: Kern, e: nat, count: int)
    requires Inv(s) && e < NENV && s.envs[e].status == Runnable
    ensures Inv(RunEnv(s, e, count))
  {
    var s' := RunEnv(s, e, count);
    forall x | 0 <= x < NENV ensures SlotOk(s', x) {
      assert SlotOk(s, x);
    }
  }

  /** Moving a member to the tail permutes the queue. */
  lemma RotateInv(s: Kern)
    requires Inv(s) && CurRuns(s) && s.cur.e in s.sched
    ensures Inv(s.(sched := Without(s.sched, s.cur.e) + [s.cur.e]))
  {
    WithoutDistinct(s, s.cur.e);
    var s' := s.(sched := Without(s.sched, s.cur.e) + [s.cur.e]);
    forall x | 0 <= x < NENV ensures SlotOk(s', x) {
      assert SlotOk(s, x);
      assert x in s'.sched <==> x in Without(s.sched, s.cur.e) || x == s.cur.e;
    }
  }

  lemma InvCanSchedule(s: Kern)
    requires Inv(s) && s.sched != []
    ensures CanSchedule(s)
  {
    if CurRuns(s) {
      assert SlotOk(s, s.cur.e);
    }
  }

  lemma ScheduleInv(s: Kern, giveUp: bool)
    requires Inv(s) && s.sched != []
    requires CurRuns(s) ==> s.sched[0] == s.cur.e
    ensures CanSchedule(s) && Inv(Schedule(s, giveUp)) && Settled(Schedule(s, giveUp))
  {
    InvCanSchedule(s);
    if !CurRuns(s) {
      assert s.sched[0] in s.sched && SlotOk(s, s.sched[0]);
      RunEnvInv(s, s.sched[0], s.envs[s.sched[0]].pri);
    } else if giveUp || s.count - 1 <= 0 {
      RotateInv(s);
      var s1 := s.(sched := Without(s.sched, s.cur.e) + [s.cur.e]);
      assert s1.sched[0] in s1.sched && SlotOk(s1, s1.sched[0]);
      RunEnvInv(s1, s1.sched[0], s1.envs[s1.sched[0]].pri);
    } else {
      RunEnvInv(s, s.cur.e, s.count - 1);
    }
  }

  /** Taking an env off the queue into a state that is not runnable. */
  lemma DequeueInv(s: Kern, e: nat, env: Env)
    requires Inv(s) && e < NENV && s.envs[e].status != Free && env.status == NotRunnable
    ensures Inv(s.(envs := s.envs[e := env], sched := Without(s.sched, e)))
  {
    WithoutDistinct(s, e);
    var s' := s.(envs := s.envs[e := env], sched := Without(s.sched, e));
    forall x | 0 <= x < NENV ensures SlotOk(s', x) {
      assert SlotOk(s, x);
    }
  }

  /** Putting an env that is neither free nor queued at the tail. */
  lemma EnqueueInv(s: Kern, e: nat, env: Env)
    requires Inv(s) && e < NENV && s.envs[e].status == NotRunnable && env.status == Runnable && !env.recving
    ensures Inv(s.(envs := s.envs[e := env], sched := s.sched + [e]))
  {
    var s' := s.(envs := s.envs[e := env], sched := s.sched + [e]);
    assert SlotOk(s, e);
    forall x | 0 <= x < NENV ensures SlotOk(s', x) {
      assert SlotOk(s, x);
    }
  }

  lemma EnvFreeInv(s: Kern, e: nat)
    requires Inv(s) && e < NENV && s.envs[e].status == Runnable
    ensures Inv(EnvFree(s, e))
  {
    WithoutDistinct(s, e);
    var s' := EnvFree(s, e);
    assert SlotOk(s, e);
    forall x | 0 <= x < NENV ensures SlotOk(s', x) {
      assert SlotOk(s, x);
    }
  }

  /** A receiving env must not be freed: sends would still find it, and wake its slot. */
  lemma EnvFreeExact(s: Kern, e: nat)
    requires Inv(s) && e < NENV && s.envs[e].status != Free
    ensures Inv(EnvFree(s, e)) <==> !s.envs[e].recving
  {
    WithoutDistinct(s, e);
    var s' := EnvFree(s, e);
    assert SlotOk(s, e);
    if s.envs[e].recving {
      assert !SlotOk(s', e);
    } else {
      forall x | 0 <= x < NENV ensures SlotOk(s', x) {
        assert SlotOk(s, x);
      }
    }
  }

  /** Blocking or destroying the current env leaves schedule an empty queue exactly when nobody else is runnable. */
  lemma LastRunner(s: Kern)
    requires Inv(s) && Settled(s)
    ensures Without(s.sched, s.cur.e) == [] <==> forall e :: 0 <= e < NENV && s.envs[e].status == Runnable ==> e == s.cur.e
  {
    WithoutDistinct(s, s.cur.e);
    if Without(s.sched, s.cur.e) != [] {
      var x := Without(s.sched, s.cur.e)[0];
      assert x in Without(s.sched, s.cur.e) && SlotOk(s, x);
    } else {
      forall e | 0 <= e < NENV && s.envs[e].status == Runnable ensures e == s.cur.e {
        assert SlotOk(s, e);
      }
    }
  }

  lemma ExoforkInv(s: Kern, supply: Supply)
    requires Inv(s) && s.cur.Running?
    ensures Inv(SysExofork(s, supply).0)
    ensures SysExofork(s, supply).0.sched == s.sched && SysExofork(s, supply).0.cur == s.cur
    ensures forall e :: 0 <= e < NENV && s.envs[e].status != Free ==> SysExofork(s, supply).0.envs[e] == s.envs[e]
    ensures s.free != [] && supply == Enough ==> SysExofork(s, supply).0.free == s.free[1..]
  {
    var s' := SysExofork(s, supply).0;
    if s.free != [] {
      assert Without(s.free, s.free[0]) == s.free[1..];
      assert s.free[0] in s.free && SlotOk(s, s.free[0]);
      assert forall x :: x in s.free[1..] ==> x in s.free;
      forall x | 0 <= x < NENV ensures SlotOk(s', x) {
        assert SlotOk(s, x);
      }
    }
  }

  /** Every kernel entry keeps the queue exactly the runnable envs, the free list exactly the free ones, receivers
      blocked, and the current env at the head. */
  lemma StepInv(s: Kern, l: Step)
    requires Inv(s) && Settled(s) && Enabled(s, l)
    ensures Inv(Next(s, l)) && Settled(Next(s, l))
  {
    var c := s.cur.e;
    match l
    case Tick => ScheduleInv(s, false);
    case Yield => ScheduleInv(s, true);
    case Exofork(supply) =>
      ExoforkInv(s, supply);
      assert SlotOk(s, c);
    case SetStatus(envid, status) => SetStatusInv(s, envid, status);
    case Destroy(envid) => DestroyInv(s, envid);
    case Recv(dstva) => RecvInv(s, dstva);
    case TrySend(envid, value, srcva, perm, mapped) => TrySendInv(s, envid, value, srcva, perm, mapped);
  }

  lemma SetStatusInv(s: Kern, envid: nat, status: nat)
    requires Inv(s) && Settled(s) && Enabled(s, SetStatus(envid, status))
    ensures Inv(SysSetEnvStatus(s, envid, status).0) && Settled(SysSetEnvStatus(s, envid, status).0)
  {
    var t := Envid2Env(s, envid, true);
    if t.Slot? && status in {1, 2} {
      var e := t.e;
      var want := if status == 1 then Runnable else NotRunnable;
      var env := s.envs[e].(status := want);
      assert SlotOk(s, e);
      if s.envs[e].status == Runnable && want == NotRunnable {
        DequeueInv(s, e, env);
      } else if s.envs[e].status == NotRunnable && want == Runnable {
        EnqueueInv(s, e, env);
      } else {
        assert s.envs[e := env] == s.envs;
      }
    }
  }

  lemma NobodyInv(s: Kern)
    requires Inv(s)
    ensures Inv(s.(cur := Nobody))
  {
    forall x | 0 <= x < NENV ensures SlotOk(s.(cur := Nobody), x) {
      assert SlotOk(s, x);
    }
  }

  lemma DestroyInv(s: Kern, envid: nat)
    requires Inv(s) && Settled(s) && Enabled(s, Destroy(envid))
    ensures Inv(Next(s, Destroy(envid))) && Settled(Next(s, Destroy(envid)))
  {
    var t := Envid2Env(s, envid, true);
    if t.Slot? {
      EnvFreeInv(s, t.e);
      if t.e == s.cur.e {
        AfterHeadLeaves(s);
        NobodyInv(EnvFree(s, t.e));
        ScheduleInv(EnvFree(s, t.e).(cur := Nobody), true);
      }
    }
  }

  lemma RecvInv(s: Kern, dstva: nat)
    requires Inv(s) && Settled(s) && Enabled(s, Recv(dstva))
    ensures Inv(Next(s, Recv(dstva))) && Settled(Next(s, Recv(dstva)))
  {
    if dstva == 0 || !IllegalVa(dstva) {
      AfterHeadLeaves(s);
      DequeueInv(s, s.cur.e, s.envs[s.cur.e].(recving := true, ipcDstva := dstva, status := NotRunnable));
      ScheduleInv(BlockCurrent(s, dstva), true);
    }
  }

  lemma TrySendInv(s: Kern, envid: nat, value: nat, srcva: nat, perm: Word, mapped: bool)
    requires Inv(s) && Settled(s)
    ensures Inv(SysIpcTrySend(s, envid, value, srcva, perm, mapped).0)
    ensures Settled(SysIpcTrySend(s, envid, value, srcva, perm, mapped).0)
  {
    var t := Envid2Env(s, envid, false);
    if t.Slot? && s.envs[t.e].recving && !(srcva != 0 && IllegalVa(srcva)) {
      assert SlotOk(s, t.e);
      EnqueueInv(s, t.e, s.envs[t.e].(ipcValue := value, ipcFrom := s.envs[s.cur.e].id, ipcPerm := SetValid(perm),
                                      recving := false, status := Runnable));
    }
  }

  lemma InitInv(env: Env)
    ensures Inv(InitState(env))
  {
    var s := InitState(env);
    forall e | 0 <= e < NENV ensures SlotOk(s, e) {
      assert s.free[e] == e;
    }
  }

  lemma EnvCreateInv(s: Kern, pri: int)
    requires Inv(s) && s.free != [] && s.cur == Nobody
    ensures Inv(EnvCreate(s, pri)) && EnvCreate(s, pri).sched == [s.free[0]] + s.sched && EnvCreate(s, pri).cur == Nobody
  {
    var s' := EnvCreate(s, pri);
    assert s.free[0] in s.free && SlotOk(s, s.free[0]);
    assert Without(s.free, s.free[0]) == s.free[1..];
    assert forall x :: x in s.free[1..] ==> x in s.free;
    forall x | 0 <= x < NENV ensures SlotOk(s', x) {
      assert SlotOk(s, x);
    }
  }

  lemma AfterHeadIfMany(s: Kern)
    requires Inv(s) && Settled(s)
    ensures |s.sched| > 1 ==> Without(s.sched, s.cur.e) == s.sched[1..]
  {
  }
}
