/** Bounded waiting, env ids and messages over whole runs of the kernel. */
module EnvRuns {
  import opened Links
  import opened EnvMachine
  import opened EnvInvariant
  import opened Mmu
  import opened Arithmetic

  ghost predicate CanRun(s: Kern, ls: seq<Step>)
    requires Inv(s) && Settled(s)
    decreases |ls|
  {
    ls == [] || (Enabled(s, ls[0]) && (StepInv(s, ls[0]); CanRun(Next(s, ls[0]), ls[1..])))
  }

  /** The states a run passes through, the first included. */
  ghost function Trace(s: Kern, ls: seq<Step>): seq<Kern>
    requires Inv(s) && Settled(s) && CanRun(s, ls)
    decreases |ls|
  {
    if ls == [] then [s] else (StepInv(s, ls[0]); [s] + Trace(Next(s, ls[0]), ls[1..]))
  }

  // ---- bounded waiting

  /** How many schedule calls a ration of `pri` slices lasts. */
  function Slices(pri: int): nat {
    if pri > 1 then pri else 1
  }

  predicate Below(q: seq<nat>, n: nat) {
    forall i :: 0 <= i < |q| ==> q[i] < n
  }

  lemma SchedBelow(s: Kern)
    requires Inv(s)
    ensures Below(s.sched, |s.envs|)
  {
    forall i | 0 <= i < |s.sched| ensures s.sched[i] < NENV {
      assert s.sched[i] in s.sched;
    }
  }

  /** The rations of the envs of q ahead of e. */
  function Load(envs: seq<Env>, q: seq<nat>, e: nat): nat
    requires Below(q, |envs|)
  {
    if q == [] || q[0] == e then 0
    else
      Slices(envs[q[0]].pri) + Load(envs, q[1..], e)
  }

  /** What the current env has left, and the rations of the others ahead of e. */
  ghost function Wait(s: Kern, e: nat): nat
    requires Inv(s) && Settled(s)
  {
    SchedBelow(s);
    Slices(s.count) + Load(s.envs, s.sched[1..], e)
  }

  lemma {:induction false} LoadAppend(envs: seq<Env>, q: seq<nat>, x: nat, e: nat)
    requires Below(q, |envs|) && x < |envs| && e in q
    ensures Load(envs, q + [x], e) == Load(envs, q, e)
  {
    if q[0] != e {
      LoadAppend(envs, q[1..], x, e);
      assert (q + [x])[1..] == q[1..] + [x];
    }
  }

  lemma {:induction false} LoadWithout(envs: seq<Env>, q: seq<nat>, x: nat, e: nat)
    requires Below(q, |envs|) && x != e
    ensures Below(Without(q, x), |envs|)
    ensures Load(envs, Without(q, x), e) <= Load(envs, q, e)
  {
    if q != [] && q[0] != x {
      LoadWithout(envs, q[1..], x, e);
    }
  }

  lemma {:induction false} LoadSamePri(envs: seq<Env>, envs': seq<Env>, q: seq<nat>, e: nat)
    requires Below(q, |envs|) && |envs'| == |envs|
    requires forall i :: 0 <= i < |q| ==> envs'[q[i]].pri == envs[q[i]].pri
    ensures Load(envs', q, e) == Load(envs, q, e)
  {
    if q != [] && q[0] != e {
      LoadSamePri(envs, envs', q[1..], e);
    }
  }

  /** Priorities of queued envs never change. */
  lemma PriKept(s: Kern, l: Step, x: nat)
    requires Inv(s) && Settled(s) && Enabled(s, l) && x in s.sched
    ensures |Next(s, l).envs| == NENV && Next(s, l).envs[x].pri == s.envs[x].pri
  {
    StepInv(s, l);
    assert SlotOk(s, x);
    if s.free != [] {
      assert s.free[0] in s.free && SlotOk(s, s.free[0]);
    }
  }

  ghost predicate SamePri(s: Kern, s': Kern) {
    |s'.envs| == |s.envs| && forall i :: 0 <= i < |s.sched| && s.sched[i] < |s.envs| ==>
      s'.envs[s.sched[i]].pri == s.envs[s.sched[i]].pri
  }

  lemma StepPri(s: Kern, l: Step)
    requires Inv(s) && Settled(s) && Enabled(s, l)
    ensures SamePri(s, Next(s, l))
  {
    StepInv(s, l);
    SchedBelow(s);
    forall i | 0 <= i < |s.sched| ensures Next(s, l).envs[s.sched[i]].pri == s.envs[s.sched[i]].pri {
      assert s.sched[i] in s.sched;
      PriKept(s, l, s.sched[i]);
    }
  }

  /** schedule, seen from an env that waits: the current env's ration shrinks, or the next env gets its own. */
  lemma ScheduleWait(s: Kern, giveUp: bool, e: nat)
    requires Inv(s) && Settled(s) && e in s.sched && e != s.cur.e && CanSchedule(s)
    requires var s' := Schedule(s, giveUp); Inv(s') && Settled(s') && s'.cur.e != e
    ensures Wait(Schedule(s, giveUp), e) < Wait(s, e)
  {
    var s' := Schedule(s, giveUp);
    SchedBelow(s);
    if giveUp || s.count - 1 <= 0 {
      var q := s.sched[1..];
      assert Without(s.sched, s.cur.e) == q;
      assert s'.sched[1..] == q[1..] + [s.cur.e];
      HandOver(s, s', e);
    } else {
      LoadSamePri(s.envs, s'.envs, s.sched[1..], e);
    }
  }

  /** The new current env headed the rest of the old queue, and newcomers are behind e. */
  lemma HandOver(s: Kern, s': Kern, e: nat)
    requires Inv(s) && Settled(s) && e in s.sched && e != s.cur.e && Inv(s') && Settled(s') && s'.cur.e != e
    requires |s.sched| > 1 && s'.sched[0] == s.sched[1] && s'.count == s.envs[s.sched[1]].pri
    requires s'.sched[1..] == s.sched[2..] || s'.sched[1..] == s.sched[2..] + [s.cur.e]
    requires SamePri(s, s')
    ensures Wait(s', e) < Wait(s, e)
  {
    var q := s.sched[2..];
    SchedBelow(s);
    assert s.sched[1..][1..] == q;
    assert e in q by { assert s.sched == [s.sched[0], s.sched[1]] + q; }
    LoadSamePri(s.envs, s'.envs, q, e);
    LoadAppend(s'.envs, q, s.cur.e, e);
  }

  lemma {:induction false} WithoutTail(q: seq<nat>, x: nat)
    requires q != [] && q[0] != x
    ensures Without(q, x) == [q[0]] + Without(q[1..], x) && Without(q, x)[1..] == Without(q[1..], x)
  {
  }

  lemma LeaveQueue(s: Kern, s': Kern, x: nat, e: nat)
    requires Inv(s) && Settled(s) && Inv(s') && Settled(s') && x != e && x != s.cur.e
    requires s'.sched == Without(s.sched, x) && s'.count == s.count
    requires SamePri(s, s')
    ensures Wait(s', e) <= Wait(s, e)
  {
    WithoutTail(s.sched, x);
    var q := s.sched[1..];
    SchedBelow(s);
    LoadSamePri(s.envs, s'.envs, q, e);
    LoadWithout(s'.envs, q, x, e);
  }

  lemma JoinQueue(s: Kern, s': Kern, e: nat)
    requires Inv(s) && Settled(s) && Inv(s') && Settled(s') && e in s.sched && e != s.cur.e
    requires s'.sched == s.sched || exists x: nat :: x < NENV && s'.sched == s.sched + [x]
    requires s'.count == s.count && SamePri(s, s')
    ensures Wait(s', e) <= Wait(s, e)
  {
    var q := s.sched[1..];
    SchedBelow(s);
    assert s.sched == [s.sched[0]] + q;
    LoadSamePri(s.envs, s'.envs, q, e);
    if s'.sched != s.sched {
      var x: nat :| x < NENV && s'.sched == s.sched + [x];
      assert s'.sched[1..] == q + [x];
      LoadAppend(s'.envs, q, x, e);
    }
  }

  /** Each schedule call brings a waiting env one slice nearer; nothing ever sets it back. */
  lemma StepWait(s: Kern, l: Step, e: nat)
    requires Inv(s) && Settled(s) && Enabled(s, l) && e in s.sched && e != s.cur.e
    requires Inv(Next(s, l)) && Settled(Next(s, l)) && e in Next(s, l).sched && e != Next(s, l).cur.e
    ensures Wait(Next(s, l), e) + Schedules(s, l) <= Wait(s, e)
  {
    var s' := Next(s, l);
    StepPri(s, l);
    InvCanSchedule(s);
    match l
    case Tick => ScheduleWait(s, false, e);
    case Yield => ScheduleWait(s, true, e);
    case Exofork(supply) =>
      ExoforkInv(s, supply);
      JoinQueue(s, s', e);
    case SetStatus(envid, status) => SetStatusWait(s, envid, status, e);
    case Destroy(envid) => DestroyWait(s, envid, e);
    case Recv(dstva) =>
      if dstva == 0 || !IllegalVa(dstva) {
        AfterHeadLeaves(s);
        HandOver(s, s', e);
      }
    case TrySend(envid, value, srcva, perm, mapped) => JoinQueue(s, s', e);
  }

  lemma SetStatusWait(s: Kern, envid: nat, status: nat, e: nat)
    requires Inv(s) && Settled(s) && Enabled(s, SetStatus(envid, status)) && e in s.sched && e != s.cur.e
    requires var s' := SysSetEnvStatus(s, envid, status).0; Inv(s') && Settled(s') && e in s'.sched
    ensures Wait(SysSetEnvStatus(s, envid, status).0, e) <= Wait(s, e)
  {
    var s' := SysSetEnvStatus(s, envid, status).0;
    StepPri(s, SetStatus(envid, status));
    var t := Envid2Env(s, envid, true);
    if t.Slot? && s'.sched == Without(s.sched, t.e) && s'.sched != s.sched {
      WithoutDistinct(s, t.e);
      LeaveQueue(s, s', t.e, e);
    } else {
      JoinQueue(s, s', e);
    }
  }

  lemma DestroyWait(s: Kern, envid: nat, e: nat)
    requires Inv(s) && Settled(s) && Enabled(s, Destroy(envid)) && e in s.sched && e != s.cur.e
    requires var s' := Next(s, Destroy(envid)); Inv(s') && Settled(s') && e in s'.sched && e != s'.cur.e
    ensures Wait(Next(s, Destroy(envid)), e) + Schedules(s, Destroy(envid)) <= Wait(s, e)
  {
    var s' := Next(s, Destroy(envid));
    StepPri(s, Destroy(envid));
    var t := Envid2Env(s, envid, true);
    if t.Slot? {
      WithoutDistinct(s, t.e);
      if t.e == s.cur.e {
        AfterHeadLeaves(s);
        HandOver(s, s', e);
      } else {
        LeaveQueue(s, s', t.e, e);
      }
    }
  }

  ghost function ScheduleCalls(s: Kern, ls: seq<Step>): nat
    requires Inv(s) && Settled(s) && CanRun(s, ls)
    decreases |ls|
  {
    if ls == [] then 0 else (StepInv(s, ls[0]); Schedules(s, ls[0]) + ScheduleCalls(Next(s, ls[0]), ls[1..]))
  }

  /** An env that stays queued and is not run sees fewer schedule calls than its wait, whatever happens meanwhile. */
  lemma {:induction false} BoundedWaiting(s: Kern, ls: seq<Step>, e: nat)
    requires Inv(s) && Settled(s) && CanRun(s, ls)
    requires forall t :: t in Trace(s, ls) ==> e in t.sched && t.cur != Running(e)
    ensures ScheduleCalls(s, ls) < Wait(s, e)
    decreases |ls|
  {
    hide Next, Enabled, Inv, Wait, Schedules;
    if ls == [] {
      assert s in Trace(s, ls);
      WaitPositive(s, e);
    } else {
      StepInv(s, ls[0]);
      var s' := Next(s, ls[0]);
      forall t | t in Trace(s', ls[1..]) ensures t in Trace(s, ls) {
      }
      BoundedWaiting(s', ls[1..], e);
      assert s in Trace(s, ls);
      TraceStarts(s', ls[1..]);
      assert s' in Trace(s, ls);
      StepWait(s, ls[0], e);
    }
  }

  lemma WaitPositive(s: Kern, e: nat)
    requires Inv(s) && Settled(s)
    ensures Wait(s, e) > 0
  {
  }

  lemma TraceStarts(s: Kern, ls: seq<Step>)
    requires Inv(s) && Settled(s) && CanRun(s, ls)
    ensures s in Trace(s, ls)
  {
    assert Trace(s, ls)[0] == s;
  }

  // ---- ids

  const GENERATIONS: nat := 0x20_0000

  /** Before the counter has run through 2^21 values, the id is the counter above the slot. */
  lemma MkEnvIdParts(i: nat, idx: nat)
    requires 1 <= i < GENERATIONS && idx < NENV
    ensures MkEnvId(i, idx) == i * 2048 + idx < TWO32 && MkEnvId(i, idx) != 0
    ensures EnvX(MkEnvId(i, idx)) == idx && MkEnvId(i, idx) / 2048 == i
  {
    Remainder(2 * i, 1024, idx);
    Remainder(i, 2048, idx);
  }

  /** Ids repeat with the counter's period, and the first id after it is 0 for slot 0. */
  lemma MkEnvIdWraps(i: nat, idx: nat)
    ensures MkEnvId(i + GENERATIONS, idx) == MkEnvId(i, idx)
    ensures MkEnvId(GENERATIONS, 0) == 0
  {
    assert (i + GENERATIONS) * 2048 == i * 2048 + TWO32;
  }

  /** Two calls made before the wrap never return the same id. */
  lemma MkEnvIdDistinct(i: nat, idx: nat, i': nat, idx': nat)
    requires 1 <= i < GENERATIONS && 1 <= i' < GENERATIONS && idx < NENV && idx' < NENV
    ensures MkEnvId(i, idx) == MkEnvId(i', idx') <==> i == i' && idx == idx'
  {
    MkEnvIdParts(i, idx);
    MkEnvIdParts(i', idx');
  }

  lemma MkEnvIdResidue(i: nat, idx: nat)
    requires idx < NENV
    ensures MkEnvId(i, idx) == i % GENERATIONS * 2048 + idx
  {
    var q, r := i / GENERATIONS, i % GENERATIONS;
    assert i * 2048 == q * TWO32 + r * 2048;
    Remainder(q, TWO32, r * 2048);
  }

  /** Over all calls, wraps included: two ids are equal exactly when slot and counter modulo 2^21 are. */
  lemma MkEnvIdExact(i: nat, idx: nat, i': nat, idx': nat)
    requires idx < NENV && idx' < NENV
    ensures MkEnvId(i, idx) == MkEnvId(i', idx') <==> idx == idx' && i % GENERATIONS == i' % GENERATIONS
  {
    MkEnvIdResidue(i, idx);
    MkEnvIdResidue(i', idx');
  }

  predicate IdOf(ids: nat, e: nat, id: nat) {
    1 <= id / 2048 <= ids && id == id / 2048 * 2048 + e
  }

  ghost predicate IdsOk(s: Kern)
    requires |s.envs| == NENV
  {
    && s.ids < GENERATIONS
    && forall e :: 0 <= e < NENV && s.envs[e].status != Free ==> IdOf(s.ids, e, s.envs[e].id)
  }

  /** An id that was handed out and belongs to nobody any more. */
  ghost predicate Dead(s: Kern, id: nat)
    requires Inv(s) && s.cur.Running?
  {
    1 <= id / 2048 <= s.ids && Envid2Env(s, id, false) == BadEnv
  }

  lemma ScheduleIds(s: Kern, giveUp: bool)
    requires Inv(s) && CanSchedule(s)
    ensures Schedule(s, giveUp).ids == s.ids && |Schedule(s, giveUp).envs| == NENV
    ensures forall e :: 0 <= e < NENV ==>
      Schedule(s, giveUp).envs[e] == s.envs[e].(runs := Schedule(s, giveUp).envs[e].runs)
  {
    assert s.sched[0] in s.sched;
    if CurRuns(s) {
      RotateInv(s);
      var q := Without(s.sched, s.cur.e) + [s.cur.e];
      assert q[0] in q;
    }
  }

  /** The step calls mkenvid. */
  predicate Mints(s: Kern, l: Step) {
    l.Exofork? && s.free != [] && l.supply != NoPage
  }

  /** A step hands out at most one id, of a new generation, to a slot that was free. */
  lemma StepSlots(s: Kern, l: Step, e: nat)
    requires Inv(s) && Settled(s) && Enabled(s, l) && e < NENV
    ensures var s' := Next(s, l);
      && |s'.envs| == NENV && s'.ids == (if Mints(s, l) then (s.ids + 1) % TWO32 else s.ids)
      && (s.envs[e].status != Free ==> s'.envs[e].id == s.envs[e].id)
      && (s.envs[e].status == Free && s'.envs[e].status != Free ==> Mints(s, l) && s'.envs[e].id == MkEnvId(s'.ids, e))
  {
    InvCanSchedule(s);
    match l
    case Tick => ScheduleIds(s, false);
    case Yield => ScheduleIds(s, true);
    case Exofork(supply) =>
      ExoforkInv(s, supply);
    case SetStatus(envid, status) =>
    case Destroy(envid) =>
      var t := Envid2Env(s, envid, true);
      if t.Slot? && t.e == s.cur.e {
        EnvFreeInv(s, t.e);
        NobodyInv(EnvFree(s, t.e));
        AfterHeadLeaves(s);
        ScheduleIds(EnvFree(s, t.e).(cur := Nobody), true);
      }
    case Recv(dstva) =>
      if dstva == 0 || !IllegalVa(dstva) {
        AfterHeadLeaves(s);
        DequeueInv(s, s.cur.e, s.envs[s.cur.e].(recving := true, ipcDstva := dstva, status := NotRunnable));
        ScheduleIds(BlockCurrent(s, dstva), true);
      }
    case TrySend(envid, value, srcva, perm, mapped) =>
      var t := Envid2Env(s, envid, false);
      if t.Slot? {
        assert SlotOk(s, t.e);
      }
  }

  lemma StepIds(s: Kern, l: Step)
    requires Inv(s) && Settled(s) && Enabled(s, l) && IdsOk(s) && (Mints(s, l) ==> s.ids + 1 < GENERATIONS)
    ensures |Next(s, l).envs| == NENV && IdsOk(Next(s, l))
  {
    StepSlots(s, l, 0);
    var s' := Next(s, l);
    forall e | 0 <= e < NENV && s'.envs[e].status != Free ensures IdOf(s'.ids, e, s'.envs[e].id) {
      StepSlots(s, l, e);
      if s.envs[e].status == Free {
        MkEnvIdParts(s'.ids, e);
      }
    }
  }

  /** A live env's id names its slot and resolves to it. */
  lemma LiveResolves(s: Kern, e: nat)
    requires Inv(s) && s.cur.Running? && IdsOk(s) && e < NENV && s.envs[e].status != Free
    ensures s.envs[e].id != 0 && EnvX(s.envs[e].id) == e && Envid2Env(s, s.envs[e].id, false) == Slot(e)
    ensures Envid2Env(s, s.envs[e].id, true) ==
              if e == s.cur.e || s.envs[e].parent == s.envs[s.cur.e].id then Slot(e) else BadEnv
  {
    MkEnvIdParts(s.envs[e].id / 2048, e);
  }

  /** envid2env finds the live env with that id wherever it stands, and nothing else; with the permission check only
      the caller and its children. Id 0 is the caller. */
  lemma ResolvesExactly(s: Kern, envid: nat, checkperm: bool, e: nat)
    requires Inv(s) && s.cur.Running? && IdsOk(s) && e < NENV
    ensures envid != 0 ==>
      (Envid2Env(s, envid, checkperm) == Slot(e) <==>
       s.envs[e].status != Free && s.envs[e].id == envid &&
       (checkperm ==> e == s.cur.e || s.envs[e].parent == s.envs[s.cur.e].id))
    ensures envid == 0 ==> Envid2Env(s, envid, checkperm) == Slot(s.cur.e)
  {
    if s.envs[e].status != Free && s.envs[e].id == envid {
      LiveResolves(s, e);
    }
  }

  /** Two live envs have two ids. */
  lemma LiveIdsDiffer(s: Kern, e: nat, e': nat)
    requires Inv(s) && s.cur.Running? && IdsOk(s) && e < NENV && e' < NENV && e != e'
    requires s.envs[e].status != Free && s.envs[e'].status != Free
    ensures s.envs[e].id != s.envs[e'].id
  {
    LiveResolves(s, e);
    LiveResolves(s, e');
  }

  /** Destroying an env retires its id. */
  lemma DestroyKillsId(s: Kern, envid: nat, e: nat)
    requires Inv(s) && Settled(s) && Enabled(s, Destroy(envid)) && IdsOk(s)
    requires Envid2Env(s, envid, true) == Slot(e)
    ensures Inv(Next(s, Destroy(envid))) && Settled(Next(s, Destroy(envid)))
    ensures Dead(Next(s, Destroy(envid)), s.envs[e].id)
  {
    StepInv(s, Destroy(envid));
    StepSlots(s, Destroy(envid), e);
    assert SlotOk(s, e) && SlotOk(s, s.cur.e);
    LiveResolves(s, e);
    EnvFreeInv(s, e);
    if e == s.cur.e {
      NobodyInv(EnvFree(s, e));
      AfterHeadLeaves(s);
      ScheduleIds(EnvFree(s, e).(cur := Nobody), true);
    }
  }

  lemma StepDead(s: Kern, l: Step, id: nat)
    requires Inv(s) && Settled(s) && Enabled(s, l) && IdsOk(s) && Dead(s, id)
    requires Mints(s, l) ==> s.ids + 1 < GENERATIONS
    requires Inv(Next(s, l)) && Settled(Next(s, l))
    ensures Dead(Next(s, l), id)
  {
    var e, s' := EnvX(id), Next(s, l);
    StepSlots(s, l, e);
    if s.envs[e].status == Free && s'.envs[e].status != Free {
      MkEnvIdParts(s'.ids, e);
    }
  }

  /** How many times a run calls mkenvid. */
  ghost function IdCalls(s: Kern, ls: seq<Step>): nat
    requires Inv(s) && Settled(s) && CanRun(s, ls)
    decreases |ls|
  {
    if ls == [] then 0
    else (StepInv(s, ls[0]); (if Mints(s, ls[0]) then 1 else 0) + IdCalls(Next(s, ls[0]), ls[1..]))
  }

  /** A retired id never resolves again, even after its slot is reused, as long as mkenvid has not wrapped. */
  lemma {:induction false} DeadForever(s: Kern, ls: seq<Step>, id: nat)
    requires Inv(s) && Settled(s) && CanRun(s, ls) && IdsOk(s) && s.ids + IdCalls(s, ls) < GENERATIONS && Dead(s, id)
    ensures forall t :: t in Trace(s, ls) ==> Inv(t) && Settled(t) && IdsOk(t) && Dead(t, id)
    decreases |ls|
  {
    hide Next, Enabled, Inv, Settled, IdsOk, Dead;
    if ls != [] {
      StepInv(s, ls[0]);
      CounterStep(s, ls[0]);
      StepIds(s, ls[0]);
      StepDead(s, ls[0], id);
      DeadForever(Next(s, ls[0]), ls[1..], id);
    }
  }

  lemma CounterStep(s: Kern, l: Step)
    requires Inv(s) && Settled(s) && Enabled(s, l)
    ensures !Mints(s, l) ==> Next(s, l).ids == s.ids
    ensures Mints(s, l) && s.ids + 1 < GENERATIONS ==> Next(s, l).ids == s.ids + 1
  {
    StepSlots(s, l, 0);
  }

  // ---- boot

  /** env_init, then one env_create for each priority. */
  ghost function Created(env: Env, pris: seq<int>): (s: Kern)
    requires |pris| <= NENV
    ensures Inv(s) && s.cur == Nobody && |s.free| == NENV - |pris| && |s.sched| == |pris|
    ensures IdsOk(s) && s.ids == |pris|
  {
    if pris == [] then
      InitInv(env);
      InitState(env)
    else
      var last := |pris| - 1;
      var s := Created(env, pris[..last]);
      EnvCreateInv(s, pris[last]);
      EnvCreateIds(s, pris[last]);
      EnvCreate(s, pris[last])
  }

  lemma EnvCreateIds(s: Kern, pri: int)
    requires Inv(s) && s.free != [] && s.cur == Nobody && IdsOk(s) && s.ids + 1 < GENERATIONS
    ensures s.free[0] in s.free
    ensures var t := EnvCreate(s, pri);
            && Inv(t) && IdsOk(t) && t.ids == s.ids + 1
            && |t.free| == |s.free| - 1 && |t.sched| == |s.sched| + 1
  {
    EnvCreateInv(s, pri);
    assert s.free[0] in s.free;
    assert Without(s.free, s.free[0]) == s.free[1..];
    MkEnvIdParts(s.ids + 1, s.free[0]);
  }

  /** The first clock tick after boot. */
  ghost function Booted(env: Env, pris: seq<int>): (s: Kern)
    requires 0 < |pris| <= NENV
    ensures Inv(s) && Settled(s) && IdsOk(s) && s.ids == |pris|
  {
    var s := Created(env, pris);
    ScheduleInv(s, false);
    ScheduleIds(s, false);
    Schedule(s, false)
  }

  /** From boot on: with fewer than 2^21 ids handed out, boot included, an id that was retired stays retired. */
  lemma DeadSinceBoot(env: Env, pris: seq<int>, before: seq<Step>, after: seq<Step>, id: nat)
    requires 0 < |pris| <= NENV && CanRun(Booted(env, pris), before)
    requires |pris| + IdCalls(Booted(env, pris), before) < GENERATIONS
    ensures var s := Last(Booted(env, pris), before);
      && Inv(s) && Settled(s) && IdsOk(s) && s.ids == |pris| + IdCalls(Booted(env, pris), before)
      && (CanRun(s, after) && s.ids + IdCalls(s, after) < GENERATIONS && Dead(s, id) ==>
            forall t :: t in Trace(s, after) ==> Inv(t) && Settled(t) && Dead(t, id))
  {
    LastIds(Booted(env, pris), before);
    var s := Last(Booted(env, pris), before);
    if CanRun(s, after) && s.ids + IdCalls(s, after) < GENERATIONS && Dead(s, id) {
      DeadForever(s, after, id);
    }
  }

  /** The state a run ends in. */
  ghost function Last(s: Kern, ls: seq<Step>): (t: Kern)
    requires Inv(s) && Settled(s) && CanRun(s, ls)
    ensures Inv(t) && Settled(t)
    decreases |ls|
  {
    if ls == [] then s else (StepInv(s, ls[0]); Last(Next(s, ls[0]), ls[1..]))
  }

  lemma {:induction false} LastIds(s: Kern, ls: seq<Step>)
    requires Inv(s) && Settled(s) && CanRun(s, ls) && IdsOk(s) && s.ids + IdCalls(s, ls) < GENERATIONS
    ensures IdsOk(Last(s, ls)) && Last(s, ls).ids == s.ids + IdCalls(s, ls)
    decreases |ls|
  {
    hide Next, Enabled, Inv, Settled, IdsOk;
    if ls != [] {
      StepInv(s, ls[0]);
      CounterStep(s, ls[0]);
      StepIds(s, ls[0]);
      LastIds(Next(s, ls[0]), ls[1..]);
    }
  }

  // ---- messages

  predicate Legal(dstva: nat) {
    dstva == 0 || !IllegalVa(dstva)
  }

  predicate SameMessage(a: Env, b: Env) {
    a.ipcValue == b.ipcValue && a.ipcFrom == b.ipcFrom && a.ipcPerm == b.ipcPerm && a.ipcDstva == b.ipcDstva
  }

  /** The only thing that wakes a receiver, or writes its message, is one send addressed to it; nothing but its own
      receive call arms it. */
  lemma MessageSteps(s: Kern, l: Step, e: nat)
    requires Inv(s) && Settled(s) && Enabled(s, l) && e < NENV
    requires |Next(s, l).envs| == NENV
    ensures var s' := Next(s, l);
      && (!SameMessage(s'.envs[e].(ipcDstva := s.envs[e].ipcDstva), s.envs[e]) ==> SendsTo(s, l, e))
      && (s.envs[e].recving && !s'.envs[e].recving ==> SendsTo(s, l, e))
      && (s'.envs[e].ipcDstva != s.envs[e].ipcDstva ==> l.Recv? && s.cur.e == e)
      && (!s.envs[e].recving && s'.envs[e].recving ==> l.Recv? && s.cur.e == e)
      && (s.envs[e].recving ==> s'.envs[e].status == if SendsTo(s, l, e) then Runnable else NotRunnable)
  {
    InvCanSchedule(s);
    assert SlotOk(s, e) && SlotOk(s, s.cur.e);
    match l
    case Tick => ScheduleIds(s, false);
    case Yield => ScheduleIds(s, true);
    case Exofork(supply) => ExoforkInv(s, supply);
    case SetStatus(envid, status) =>
    case Destroy(envid) =>
      var t := Envid2Env(s, envid, true);
      if t.Slot? && t.e == s.cur.e {
        EnvFreeInv(s, t.e);
        NobodyInv(EnvFree(s, t.e));
        AfterHeadLeaves(s);
        ScheduleIds(EnvFree(s, t.e).(cur := Nobody), true);
      }
    case Recv(dstva) =>
      if Legal(dstva) {
        AfterHeadLeaves(s);
        DequeueInv(s, s.cur.e, s.envs[s.cur.e].(recving := true, ipcDstva := dstva, status := NotRunnable));
        ScheduleIds(BlockCurrent(s, dstva), true);
      }
    case TrySend(envid, value, srcva, perm, mapped) =>
  }

  /** l is a send accepted by receiver e. */
  ghost predicate SendsTo(s: Kern, l: Step, e: nat)
    requires Inv(s) && s.cur.Running? && e < NENV
  {
    && l.TrySend? && (l.srcva == 0 || !IllegalVa(l.srcva)) && Envid2Env(s, l.envid, false) == Slot(e)
    && s.envs[e].recving
  }

  /** What an accepted send leaves: the message, a runnable receiver at the tail, and an error only for an unmapped page. */
  lemma SendDelivers(s: Kern, l: Step, e: nat)
    requires Inv(s) && Settled(s) && Enabled(s, l) && e < NENV && SendsTo(s, l, e)
    ensures var (s', r) := SysIpcTrySend(s, l.envid, l.value, l.srcva, l.perm, l.mapped);
      && s' == Next(s, l) && |s'.envs| == NENV
      && s'.envs[e].ipcValue == l.value && s'.envs[e].ipcFrom == s.envs[s.cur.e].id
      && s'.envs[e].ipcPerm == SetValid(l.perm) && s'.envs[e].ipcDstva == s.envs[e].ipcDstva
      && !s'.envs[e].recving && s'.envs[e].status == Runnable && s'.sched == s.sched + [e]
      && (r == 0 <==> l.srcva == 0 || l.mapped) && (r != 0 ==> r == -E_INVAL)
  {
  }

  /** e does not call sys_ipc_recv in the run. */
  ghost predicate NeverReceives(s: Kern, ls: seq<Step>, e: nat)
    requires Inv(s) && Settled(s) && CanRun(s, ls)
    decreases |ls|
  {
    ls == [] || (!(ls[0].Recv? && s.cur.e == e) &&
                 (StepInv(s, ls[0]); NeverReceives(Next(s, ls[0]), ls[1..], e)))
  }

  /** Until the receiver receives again it reads one message: value, sender and permission of the same send. */
  lemma {:induction false} MessageStays(s: Kern, ls: seq<Step>, e: nat)
    requires Inv(s) && Settled(s) && CanRun(s, ls) && e < NENV && !s.envs[e].recving && NeverReceives(s, ls, e)
    ensures forall t :: t in Trace(s, ls) ==> |t.envs| == NENV && SameMessage(t.envs[e], s.envs[e])
    decreases |ls|
  {
    if ls != [] {
      StepInv(s, ls[0]);
      MessageSteps(s, ls[0], e);
      MessageStays(Next(s, ls[0]), ls[1..], e);
    }
  }

  /** What the receiver finds when it runs again, however long that takes, is exactly what one sender sent. */
  lemma ReceiverReadsOneSend(s: Kern, l: Step, ls: seq<Step>, e: nat)
    requires Inv(s) && Settled(s) && Enabled(s, l) && e < NENV && SendsTo(s, l, e)
    requires Inv(Next(s, l)) && Settled(Next(s, l)) && CanRun(Next(s, l), ls) && NeverReceives(Next(s, l), ls, e)
    ensures forall t :: t in Trace(Next(s, l), ls) ==>
      && |t.envs| == NENV && t.envs[e].ipcValue == l.value && t.envs[e].ipcFrom == s.envs[s.cur.e].id
      && t.envs[e].ipcPerm == SetValid(l.perm) && t.envs[e].ipcDstva == s.envs[e].ipcDstva
  {
    SendDelivers(s, l, e);
    MessageStays(Next(s, l), ls, e);
  }

  // ---- the side conditions

  /** sys_set_env_status keeps the invariant exactly when it does not make a receiving env runnable. */
  lemma SetStatusExact(s: Kern, envid: nat, status: nat, e: nat)
    requires Inv(s) && Settled(s) && Envid2Env(s, envid, true) == Slot(e) && status in {1, 2}
    ensures Inv(SysSetEnvStatus(s, envid, status).0) <==> !(s.envs[e].recving && status == 1)
    ensures Settled(SysSetEnvStatus(s, envid, status).0) <==> !(e == s.cur.e && status == 2)
  {
    var s' := SysSetEnvStatus(s, envid, status).0;
    assert SlotOk(s, e) && SlotOk(s, s.cur.e);
    if s.envs[e].recving && status == 1 {
      assert !SlotOk(s', e);
    } else if e != s.cur.e && !s.envs[e].recving {
      SetStatusInv(s, envid, status);
    } else {
      var want := if status == 1 then Runnable else NotRunnable;
      if s.envs[e].status == Runnable && want == NotRunnable {
        DequeueInv(s, e, s.envs[e].(status := want));
      } else {
        assert s.envs[e := s.envs[e].(status := want)] == s.envs;
      }
    }
  }
}
