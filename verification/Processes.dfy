/** Envs together with their address spaces: the system calls that touch both (kern/env.c, kern/syscall_all.c). */
module Processes {
  import opened Mmu
  import PageTables
  import opened AddressSpaces
  import KM = KernelMemory
  import opened Links
  import opened EnvMachine
  import opened EnvInvariant
  import EK = EnvKernel
  import EnvRuns

  const BY2PG: nat := 4096

  predicate Live(envs: seq<Env>, e: nat) {
    e < |envs| && envs[e].status != Free
  }

  /** Each live env's ASID serves its own page directory, no two share one, and no ASID serves anyone else. */
  ghost predicate Coupled(envs: seq<Env>, asids: seq<nat>, dirs: seq<nat>, owner: map<nat, nat>) {
    && |envs| == |asids| == |dirs| == NENV
    && (forall e: nat {:trigger asids[e]} :: Live(envs, e) ==> asids[e] in owner && owner[asids[e]] == dirs[e])
    && (forall e: nat, f: nat {:trigger asids[e], asids[f]} :: Live(envs, e) && Live(envs, f) && e != f ==> asids[e] != asids[f])
    && (forall a {:trigger a in owner} :: a in owner ==> exists e: nat :: Live(envs, e) && asids[e] == a)
  }

  /** A receiver arms itself with 0 or a legal address. */
  predicate Armable(dstva: nat) {
    dstva == 0 || !IllegalVa(dstva)
  }

  ghost predicate ArmedOk(envs: seq<Env>) {
    forall e {:trigger envs[e]} :: 0 <= e < |envs| && envs[e].recving ==> Armable(envs[e].ipcDstva)
  }

  /** The same envs are alive, and each receiver was waiting for the same address or has just armed itself. */
  ghost predicate SameLives(envs: seq<Env>, envs': seq<Env>) {
    |envs'| == |envs| && forall e {:trigger envs'[e]} :: 0 <= e < |envs| ==>
      && (envs'[e].status == Free <==> envs[e].status == Free)
      && (envs'[e].recving ==> (envs[e].recving && envs'[e].ipcDstva == envs[e].ipcDstva) || Armable(envs'[e].ipcDstva))
  }

  lemma LivesKept(envs: seq<Env>, envs': seq<Env>, asids: seq<nat>, dirs: seq<nat>, owner: map<nat, nat>)
    requires SameLives(envs, envs') && Coupled(envs, asids, dirs, owner) && ArmedOk(envs)
    ensures Coupled(envs', asids, dirs, owner) && ArmedOk(envs')
  {
    forall e: nat ensures Live(envs, e) <==> Live(envs', e) {
      assert e < |envs| ==> envs'[e].status == Free || envs'[e].status != Free;
    }
  }

  /** A new env e gets an ASID that nobody owns. */
  lemma Born(envs: seq<Env>, envs': seq<Env>, asids: seq<nat>, dirs: seq<nat>, owner: map<nat, nat>, e: nat, a: nat, d: nat)
    requires Coupled(envs, asids, dirs, owner) && ArmedOk(envs) && e < NENV && envs[e].status == Free && a !in owner
    requires |envs'| == NENV && envs'[e].status != Free && !envs'[e].recving
    requires forall f :: 0 <= f < NENV && f != e ==> envs'[f] == envs[f]
    ensures Coupled(envs', asids[e := a], dirs[e := d], owner[a := d]) && ArmedOk(envs')
  {
    var asids', owner' := asids[e := a], owner[a := d];
    assert forall f: nat :: Live(envs', f) <==> f == e || Live(envs, f);
    forall b | b in owner' ensures exists f: nat :: Live(envs', f) && asids'[f] == b {
      if b == a {
        assert Live(envs', e) && asids'[e] == a;
      } else {
        var f: nat :| Live(envs, f) && asids[f] == b;
        assert Live(envs', f) && asids'[f] == b;
      }
    }
  }

  lemma Died(envs: seq<Env>, envs': seq<Env>, asids: seq<nat>, dirs: seq<nat>, owner: map<nat, nat>, e: nat)
    requires Coupled(envs, asids, dirs, owner) && ArmedOk(envs) && Live(envs, e) && |envs'| == NENV
    requires SameLives(envs[e := envs'[e]], envs') && envs'[e].status == Free
    requires envs'[e].recving ==> envs[e].recving && envs'[e].ipcDstva == envs[e].ipcDstva
    ensures Coupled(envs', asids, dirs, owner - {asids[e]}) && ArmedOk(envs')
  {
    assert forall f: nat :: Live(envs', f) <==> f != e && Live(envs, f);
    forall b | b in owner && b != asids[e] ensures exists f: nat :: Live(envs', f) && asids[f] == b {
      var f: nat :| Live(envs, f) && asids[f] == b;
      assert Live(envs', f);
    }
  }

  class System {
    const mem: KM.Kernel
    const table: EK.EnvTable
    var asids: seq<nat>   // env_asid
    var dirs: seq<nat>    // env_pgdir, as page numbers

    ghost predicate Ready()
      reads this, mem, table, table.freeList, table.runQueue
    {
      mem.Valid() && table.Valid() && Coupled(table.envs, asids, dirs, mem.owner) && ArmedOk(table.envs)
    }

    ghost predicate Valid()
      reads this, mem, table, table.freeList, table.runQueue
    {
      Ready() && Settled(table.State())
    }

    /** After page_init and env_init, whatever the unused slots hold. */
    constructor (mem: KM.Kernel, table: EK.EnvTable, asids: seq<nat>, dirs: seq<nat>, ghost env: Env)
      requires mem.Valid() && mem.owner == map[] && table.Valid() && table.State() == InitState(env)
      requires |asids| == |dirs| == NENV
      ensures Ready() && this.mem == mem && this.table == table
    {
      this.mem, this.table, this.asids, this.dirs := mem, table, asids, dirs;
    }

    /** envid2env on the live table; an env found owns its address space. */
    method Resolve(envid: nat, checkperm: bool) returns (t: Lookup)
      requires Valid()
      ensures t == Envid2Env(table.State(), envid, checkperm)
      ensures t.Slot? ==> Live(table.envs, t.e) && mem.Owns(dirs[t.e], asids[t.e])
    {
      t := Envid2Env(Kern(table.envs, [], [], table.cur, table.count, table.ids), envid, checkperm);
      assert table.cur.Running? && Live(table.envs, table.cur.e);
      assert t.Slot? ==> asids[t.e] in mem.owner;
    }

    /** A clock tick or sys_yield, with the memory untouched. */
    method Tick(giveUp: bool)
      requires Ready() && table.runQueue.elems != []
      requires CurRuns(table.State()) ==> table.runQueue.elems[0] == table.cur.e
      modifies table, table.runQueue
      ensures Valid() && CanSchedule(old(table.State())) && table.State() == Schedule(old(table.State()), giveUp)
    {
      ghost var s, envs := table.State(), table.envs;
      InvCanSchedule(s);
      EnvRuns.ScheduleIds(s, giveUp);
      table.Schedule(giveUp);
      LivesKept(envs, table.envs, asids, dirs, mem.owner);
    }

    /** env_create, when a slot, a page and an ASID are to be had. */
    method EnvCreate(pri: int) returns (e: nat)
      requires Ready() && table.cur == Nobody && table.freeList.elems != [] && mem.free != []
      requires exists a :: 0 <= a < NASID && a !in mem.owner
      modifies this`asids, this`dirs, mem, table, table.freeList, table.runQueue
      ensures Ready() && Live(table.envs, e) && mem.Owns(dirs[e], asids[e])
      ensures mem.FlatNow() == old(mem.FlatNow()) && forall v: nat :: (dirs[e], v) !in mem.FlatNow()
    {
      ghost var envs := table.envs;
      FreeSlot(table.State());
      var d, a, r := mem.SpaceAlloc();
      e := table.EnvCreate(pri);
      Born(envs, table.envs, asids, dirs, old(mem.owner), e, a, d);
      asids, dirs := asids[e := a], dirs[e := d];
    }

    /** sys_exofork: the child gets an address space of its own that maps nothing yet. */
    method Exofork() returns (r: int)
      requires Valid()
      modifies this`asids, this`dirs, mem, table, table.freeList, table.runQueue
      ensures Valid() && mem.FlatNow() == old(mem.FlatNow())
      ensures exists supply :: (table.State(), r) == SysExofork(old(table.State()), supply)
      ensures r == -E_NO_MEM <==> old(table.freeList.elems) != [] && old(mem.free) == []
      ensures old(table.freeList.elems) != [] && old(mem.free) != [] && (exists a :: 0 <= a < NASID && a !in old(mem.owner)) ==>
        var e := old(table.freeList.elems)[0];
        Live(table.envs, e) && r == table.envs[e].id && mem.Owns(dirs[e], asids[e]) && forall v: nat :: (dirs[e], v) !in mem.FlatNow()
    {
      ghost var s := table.State();
      if table.freeList.first == Null {
        r := table.SysExofork(Enough);
        return;
      }
      hide Coherent, NoGlobals, AsidsOk;
      r := Spawn();
    }

    method Spawn() returns (r: int)
      requires Valid() && table.freeList.elems != []
      modifies this`asids, this`dirs, mem, table, table.freeList, table.runQueue
      ensures Valid() && mem.FlatNow() == old(mem.FlatNow())
      ensures exists supply :: (table.State(), r) == SysExofork(old(table.State()), supply)
      ensures r == -E_NO_MEM <==> old(mem.free) == []
      ensures old(mem.free) != [] && (exists a :: 0 <= a < NASID && a !in old(mem.owner)) ==>
        var e := old(table.freeList.elems)[0];
        Live(table.envs, e) && r == table.envs[e].id && mem.Owns(dirs[e], asids[e]) &&
        forall v: nat :: (dirs[e], v) !in mem.FlatNow()
    {
      hide Coherent, NoGlobals, AsidsOk, Coupled, ArmedOk, Inv, SysExofork;
      ghost var was := mem.owner;
      var d, a, m := mem.SpaceAlloc();
      var supply := if m == 0 then Enough else if m == -KM.E_NO_MEM then NoPage else NoAsid;
      r := Enroll(d, a, supply, was);
    }

    /** The rest of env_alloc and sys_exofork once the memory side is decided. */
    method Enroll(d: nat, a: nat, supply: Supply, ghost was: map<nat, nat>) returns (r: int)
      requires mem.Valid() && table.Valid() && Settled(table.State()) && table.freeList.elems != []
      requires Coupled(table.envs, asids, dirs, was) && ArmedOk(table.envs)
      requires supply != Enough ==> mem.owner == was
      requires supply == Enough ==> a !in was && mem.owner == was[a := d]
      modifies this`asids, this`dirs, table, table.freeList, table.runQueue
      ensures Valid() && (table.State(), r) == SysExofork(old(table.State()), supply)
      ensures supply == NoPage <==> r == -E_NO_MEM
      ensures supply == Enough ==>
        var e := old(table.freeList.elems)[0];
        Live(table.envs, e) && r == table.envs[e].id && |asids| == |dirs| == NENV && asids[e] == a && dirs[e] == d
    {
      ghost var s := table.State();
      FreeSlot(s);
      ForkLives(s, supply);
      hide SysExofork, Coherent, NoGlobals, AsidsOk;
      var e := table.freeList.first.n;
      r := table.SysExofork(supply);
      if supply == Enough {
        Born(s.envs, table.envs, asids, dirs, was, e, a, d);
        asids, dirs := asids[e := a], dirs[e := d];
      } else {
        LivesKept(s.envs, table.envs, asids, dirs, was);
      }
    }

    /** sys_env_destroy: the env's mappings go, its pages are conserved, and its ASID is free for others. A target that
        is not queued is taken off the queue all the same, which the table survives exactly when that is safe. */
    method Destroy(envid: nat) returns (r: int)
      requires Valid()
      requires var t := Envid2Env(table.State(), envid, true);
               t.Slot? ==> (if t.e == table.cur.e then |table.runQueue.elems| > 1
                            else table.envs[t.e].status == Runnable || CanRemove(table.runQueue.State(), t.e))
      modifies this`asids, this`dirs, mem, table, table.freeList, table.runQueue
      ensures mem.Valid() && Coupled(table.envs, asids, dirs, mem.owner) && ArmedOk(table.envs)
      ensures Enabled(old(table.State()), EnvMachine.Destroy(envid)) ==>
                Valid() && table.State() == Next(old(table.State()), EnvMachine.Destroy(envid))
      ensures !Enabled(old(table.State()), EnvMachine.Destroy(envid)) ==>
        var e := Envid2Env(old(table.State()), envid, true).e;
        && table.State() == EnvMachine.EnvFree(old(table.State()), e)
        && (Valid() <==> old(CanRemove(table.runQueue.State(), e) && table.SafeToFree(e)))
      ensures var t := Envid2Env(old(table.State()), envid, true);
        if t == BadEnv then r == -E_BAD_ENV && mem.FlatNow() == old(mem.FlatNow())
        else
          && r == 0 && |old(dirs)| == |old(asids)| == NENV
          && mem.FlatNow() == Cleared(old(mem.FlatNow()), old(dirs)[t.e], VPN_UTOP)
          && Conserved(old(mem.State()), mem.State(), old(dirs)[t.e])
          && mem.owner == old(mem.owner) - {old(asids)[t.e]}
    {
      ghost var s := table.State();
      var t := Resolve(envid, true);
      if t == BadEnv {
        return -E_BAD_ENV;
      }
      hide PageTables.Good, Coherent, NoGlobals, AsidsOk, OwnersOk, Conserved;
      mem.EnvFree(dirs[t.e], asids[t.e]);
      r := table.SysEnvDestroy(envid);
      if Enabled(s, EnvMachine.Destroy(envid)) {
        DestroyLives(s, envid, t.e);
      } else {
        FreeLives(s, t.e);
      }
      Died(s.envs, table.envs, asids, dirs, old(mem.owner), t.e);
    }

    method SetStatus(envid: nat, status: nat) returns (r: int)
      requires Valid() && Enabled(table.State(), EnvMachine.SetStatus(envid, status))
      modifies table, table.runQueue
      ensures Valid() && (table.State(), r) == SysSetEnvStatus(old(table.State()), envid, status)
    {
      ghost var envs := table.envs;
      SetStatusInv(table.State(), envid, status);
      r := table.SysSetEnvStatus(envid, status);
      LivesKept(envs, table.envs, asids, dirs, mem.owner);
    }

    method IpcRecv(dstva: nat) returns (r: int)
      requires Valid() && Enabled(table.State(), Recv(dstva))
      modifies table, table.runQueue
      ensures Valid() && table.State() == Next(old(table.State()), Recv(dstva))
      ensures r == if Armable(dstva) then 0 else -E_INVAL
    {
      ghost var s := table.State();
      RecvLives(s, dstva);
      r := table.SysIpcRecv(dstva);
      LivesKept(s.envs, table.envs, asids, dirs, mem.owner);
    }

    /** sys_ipc_try_send as a whole. An accepted send with a mapped page puts that very page where the receiver armed
        itself, unless no page is left for a table, and changes no other mapping. */
    method IpcTrySend(envid: nat, value: nat, srcva: nat, perm: Word) returns (r: int)
      requires Valid()
      requires srcva != 0 && !IllegalVa(srcva) && (dirs[table.cur.e], srcva / BY2PG) in mem.FlatNow() ==>
                 mem.Shareable(dirs[table.cur.e], srcva / BY2PG, perm)
      modifies mem, table, table.runQueue
      ensures Valid() && |dirs| == NENV && old(table.State()).cur.Running? && old(table.State()).cur.e < NENV
      ensures var s, k := old(table.State()), (dirs[old(table.State()).cur.e], srcva / BY2PG);
        && (table.State(), r) == SysIpcTrySend(s, envid, value, srcva, perm, k in old(mem.FlatNow()))
        && (r != 0 || srcva == 0 ==> mem.State() == old(mem.State()))
        && (r == 0 && srcva != 0 ==>
              var t := Envid2Env(s, envid, false);
              t.Slot? &&
              PageSent(old(mem.State()), mem.State(), k, (dirs[t.e], s.envs[t.e].ipcDstva / BY2PG), perm))
    {
      hide PageSent, PageTables.Good, Coherent, NoGlobals, AsidsOk, Coupled, ArmedOk, Inv, SysIpcTrySend;
      var me := table.cur.e;
      Caller();
      var mapped := false;
      if srcva != 0 && !IllegalVa(srcva) {
        var p;
        p, mapped := mem.PageLookup(dirs[me], srcva / BY2PG);
      }
      SendIgnores(table.State(), envid, value, srcva, perm, mapped, (dirs[me], srcva / BY2PG) in mem.FlatNow());
      var t, dstva;
      r, t, dstva := Post(envid, value, srcva, perm, mapped);
      if r == 0 && srcva != 0 {
        SendPage(me, t.e, srcva, dstva, perm);
      }
    }

    lemma Caller()
      requires Valid()
      ensures table.cur.Running? && table.cur.e < NENV == |asids| == |dirs| == |table.envs|
      ensures mem.Owns(dirs[table.cur.e], asids[table.cur.e])
    {
      assert Live(table.envs, table.cur.e) && asids[table.cur.e] in mem.owner;
    }

    /** The bookkeeping of the send; `dstva` is where the target armed itself. */
    method Post(envid: nat, value: nat, srcva: nat, perm: Word, mapped: bool) returns (r: int, t: Lookup, dstva: nat)
      requires Valid()
      modifies table, table.runQueue
      ensures Valid() && |dirs| == |asids| == NENV
      ensures (table.State(), r) == SysIpcTrySend(old(table.State()), envid, value, srcva, perm, mapped)
      ensures t == Envid2Env(old(table.State()), envid, false)
      ensures r == 0 ==>
        && t.Slot? && dstva == old(table.envs)[t.e].ipcDstva && Armable(dstva) && mem.Owns(dirs[t.e], asids[t.e])
        && (srcva != 0 ==> !IllegalVa(srcva) && mapped)
    {
      ghost var s := table.State();
      t := Resolve(envid, false);
      dstva := if t.Slot? then table.envs[t.e].ipcDstva else 0;
      SendLives(s, envid, value, srcva, perm, mapped);
      r := table.SysIpcTrySend(envid, value, srcva, perm, mapped);
      LivesKept(s.envs, table.envs, asids, dirs, mem.owner);
    }

    method SendPage(me: nat, to: nat, srcva: nat, dstva: nat, perm: Word)
      requires Valid() && |dirs| == |asids| == NENV && me < NENV && to < NENV
      requires mem.Owns(dirs[me], asids[me]) && mem.Owns(dirs[to], asids[to])
      requires !IllegalVa(srcva) && Armable(dstva) && (dirs[me], srcva / BY2PG) in mem.FlatNow()
      requires mem.Shareable(dirs[me], srcva / BY2PG, perm)
      modifies mem
      ensures Valid()
      ensures PageSent(old(mem.State()), mem.State(), (dirs[me], srcva / BY2PG), (dirs[to], dstva / BY2PG), perm)
    {
      hide PageSent, PageTables.Good, Coherent, NoGlobals, AsidsOk, Coupled, ArmedOk;
      var done := mem.IpcSendPage(dirs[me], srcva / BY2PG, dirs[to], asids[to], dstva / BY2PG, perm);
    }

    method MemAlloc(envid: nat, va: nat, perm: Word) returns (r: int)
      requires Valid() && !Global(perm) && (mem.free != [] ==> Fits(perm, mem.free[0]))
      modifies mem
      ensures Valid() && |dirs| == NENV
      ensures var t := Envid2Env(table.State(), envid, true);
        if IllegalVa(va) then r == -E_INVAL && mem.State() == old(mem.State())
        else if t == BadEnv then r == -E_BAD_ENV && mem.State() == old(mem.State())
        else
          && r == (if NoPageLeft(old(mem.State()), dirs[t.e], va / BY2PG) then -E_NO_MEM else 0)
          && (r == 0 ==> Allocated(old(mem.State()), mem.State(), dirs[t.e], va / BY2PG, perm))
          && (r != 0 ==> mem.FlatNow() == old(mem.FlatNow()))
    {
      if IllegalVa(va) {
        return -E_INVAL;
      }
      var t := Resolve(envid, true);
      if t == BadEnv {
        return -E_BAD_ENV;
      }
      hide PageTables.Good, Coherent, NoGlobals, AsidsOk, Coupled, ArmedOk, Inv, Allocated;
      r := mem.SysMemAlloc(dirs[t.e], asids[t.e], va / BY2PG, perm);
    }

    method MemMap(srcid: nat, srcva: nat, dstid: nat, dstva: nat, perm: Word) returns (r: int)
      requires Valid()
      requires var t := Envid2Env(table.State(), srcid, true);
               t.Slot? && (dirs[t.e], srcva / BY2PG) in mem.FlatNow() ==> mem.Shareable(dirs[t.e], srcva / BY2PG, perm)
      modifies mem
      ensures Valid() && |dirs| == NENV
      ensures var t, u := Envid2Env(table.State(), srcid, true), Envid2Env(table.State(), dstid, true);
        if IllegalVa(srcva) || IllegalVa(dstva) then r == -E_INVAL && mem.State() == old(mem.State())
        else if t == BadEnv || u == BadEnv then r == -E_BAD_ENV && mem.State() == old(mem.State())
        else
          var from, to := (dirs[t.e], srcva / BY2PG), (dirs[u.e], dstva / BY2PG);
          && r == (if from !in old(mem.FlatNow()) then -E_INVAL else if NoTableLeft(old(mem.State()), to.0, to.1) then -E_NO_MEM else 0)
          && (r == 0 ==> mem.FlatNow() == old(mem.FlatNow())[to := MakePte(old(mem.FlatNow())[from].ppn, perm.low)])
          && (r != 0 ==> mem.State() == old(mem.State()))
    {
      hide Coherent, NoGlobals, AsidsOk;
      if IllegalVa(srcva) || IllegalVa(dstva) {
        return -E_INVAL;
      }
      var t := Resolve(srcid, true);
      if t == BadEnv {
        return -E_BAD_ENV;
      }
      var u := Resolve(dstid, true);
      if u == BadEnv {
        return -E_BAD_ENV;
      }
      r := Share(t.e, srcva, u.e, dstva, perm);
    }

    method Share(from: nat, srcva: nat, to: nat, dstva: nat, perm: Word) returns (r: int)
      requires Valid() && |dirs| == |asids| == NENV && from < NENV && to < NENV
      requires mem.Owns(dirs[from], asids[from]) && mem.Owns(dirs[to], asids[to])
      requires !IllegalVa(srcva) && !IllegalVa(dstva)
      requires (dirs[from], srcva / BY2PG) in mem.FlatNow() ==> mem.Shareable(dirs[from], srcva / BY2PG, perm)
      modifies mem
      ensures Valid()
      ensures var k := (dirs[from], srcva / BY2PG);
        && r == (if k !in old(mem.FlatNow()) then -E_INVAL
                 else if NoTableLeft(old(mem.State()), dirs[to], dstva / BY2PG) then -E_NO_MEM else 0)
        && (r == 0 ==>
              mem.FlatNow() == old(mem.FlatNow())[(dirs[to], dstva / BY2PG) := MakePte(old(mem.FlatNow())[k].ppn, perm.low)])
        && (r != 0 ==> mem.State() == old(mem.State()))
    {
      hide PageTables.Good, Coherent, NoGlobals, AsidsOk, Coupled, ArmedOk;
      r := mem.SysMemMap(dirs[from], srcva / BY2PG, dirs[to], asids[to], dstva / BY2PG, perm);
    }

    method MemUnmap(envid: nat, va: nat) returns (r: int)
      requires Valid()
      modifies mem
      ensures Valid() && |dirs| == NENV
      ensures var t := Envid2Env(table.State(), envid, true);
        if IllegalVa(va) then r == -E_INVAL && mem.State() == old(mem.State())
        else if t == BadEnv then r == -E_BAD_ENV && mem.State() == old(mem.State())
        else r == 0 && mem.FlatNow() == old(mem.FlatNow()) - {(dirs[t.e], va / BY2PG)}
    {
      if IllegalVa(va) {
        return -E_INVAL;
      }
      var t := Resolve(envid, true);
      if t == BadEnv {
        return -E_BAD_ENV;
      }
      hide Coupled, ArmedOk, Coherent, NoGlobals, AsidsOk;
      r := mem.SysMemUnmap(dirs[t.e], asids[t.e], va / BY2PG);
    }
  }

  lemma RecvLives(s: Kern, dstva: nat)
    requires Inv(s) && Settled(s) && Enabled(s, Recv(dstva))
    ensures |Next(s, Recv(dstva)).envs| == NENV && SameLives(s.envs, Next(s, Recv(dstva)).envs)
  {
    if Armable(dstva) {
      AfterHeadLeaves(s);
      DequeueInv(s, s.cur.e, s.envs[s.cur.e].(recving := true, ipcDstva := dstva, status := NotRunnable));
      InvCanSchedule(BlockCurrent(s, dstva));
      EnvRuns.ScheduleIds(BlockCurrent(s, dstva), true);
    }
  }

  /** Whether srcva is mapped matters only when it is a legal address other than 0. */
  lemma SendIgnores(s: Kern, envid: nat, value: nat, srcva: nat, perm: Word, a: bool, b: bool)
    requires |s.envs| == NENV && s.cur.Running? && s.cur.e < NENV
    requires srcva != 0 && !IllegalVa(srcva) ==> a == b
    ensures SysIpcTrySend(s, envid, value, srcva, perm, a) == SysIpcTrySend(s, envid, value, srcva, perm, b)
  {
  }

  lemma SendLives(s: Kern, envid: nat, value: nat, srcva: nat, perm: Word, mapped: bool)
    requires Inv(s) && Settled(s)
    ensures SameLives(s.envs, SysIpcTrySend(s, envid, value, srcva, perm, mapped).0.envs)
  {
    var t := Envid2Env(s, envid, false);
    if t.Slot? {
      assert SlotOk(s, t.e);
    }
  }

  lemma FreeSlot(s: Kern)
    requires Inv(s) && s.free != []
    ensures s.free[0] < NENV && s.envs[s.free[0]].status == Free && !s.envs[s.free[0]].recving
  {
    assert s.free[0] in s.free && SlotOk(s, s.free[0]);
  }

  lemma ForkLives(s: Kern, supply: Supply)
    requires Inv(s) && s.cur.Running? && s.free != []
    ensures var (t, r) := SysExofork(s, supply); var e := s.free[0];
      && |t.envs| == NENV && e < NENV && Inv(t) && t.cur == s.cur && t.sched == s.sched
      && (supply != Enough ==> SameLives(s.envs, t.envs) && r == if supply == NoPage then -E_NO_MEM else -E_NO_FREE_ENV)
      && (supply == Enough ==>
            && t.envs[e].status == NotRunnable && !t.envs[e].recving && r == t.envs[e].id
            && forall f :: 0 <= f < NENV && f != e ==> t.envs[f] == s.envs[f])
  {
    FreeSlot(s);
    ExoforkInv(s, supply);
  }

  /** Freeing an env that is not queued leaves the one that runs where it is. */
  lemma FreeLives(s: Kern, e: nat)
    requires Inv(s) && Settled(s) && e < NENV && s.envs[e].status == NotRunnable
    ensures var t := EnvFree(s, e);
            && |t.envs| == NENV && SameLives(s.envs[e := t.envs[e]], t.envs) && Settled(t)
            && t.envs[e].status == Free && t.envs[e] == s.envs[e].(status := Free)
  {
    assert SlotOk(s, e) && SlotOk(s, s.cur.e);
    WithoutAbsent(s.sched, e);
  }

  lemma DestroyLives(s: Kern, envid: nat, e: nat)
    requires Inv(s) && Settled(s) && Enabled(s, EnvMachine.Destroy(envid)) && Envid2Env(s, envid, true) == Slot(e)
    ensures var t := Next(s, EnvMachine.Destroy(envid));
            && |t.envs| == NENV && SameLives(s.envs[e := t.envs[e]], t.envs)
            && t.envs[e].status == Free && !t.envs[e].recving
  {
    assert SlotOk(s, e) && SlotOk(s, s.cur.e);
    EnvFreeInv(s, e);
    if e == s.cur.e {
      AfterHeadLeaves(s);
      NobodyInv(EnvFree(s, e));
      var s1 := EnvFree(s, e).(cur := Nobody);
      InvCanSchedule(s1);
      EnvRuns.ScheduleIds(s1, true);
    }
  }
}