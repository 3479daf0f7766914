/** The kernel calls behind the steps of fork and cow_entry (user/lib/fork.c over kern/syscall_all.c). */
module ForkCalls {
  import opened Mmu
  import PT = PageTables
  import opened AddressSpaces
  import KM = KernelMemory
  import opened CowPerms
  import opened CowMachine

  /** The tables of directory dirs[e] map for env e what the user-level state says, and its pages hold what it says. */
  ghost predicate Stands(f: FlatMap, mem: map<nat, Page>, m: PT.Pool, dirs: map<nat, nat>) {
    && (forall e, e' :: e in dirs && e' in dirs && dirs[e] == dirs[e'] ==> e == e')
    && (forall k: (nat, nat) {:trigger f[k]} {:trigger k in f} :: k in f ==>
          && k.0 in dirs && (dirs[k.0], k.1) in PT.FlatOf(m) && PT.FlatOf(m)[(dirs[k.0], k.1)] == f[k]
          && f[k].ppn in mem && f[k].ppn < |m.pages| && m.pages[f[k].ppn] == mem[f[k].ppn])
    && (forall e, v {:trigger (e, v) in f} {:trigger (dirs[e], v)} :: e in dirs && (dirs[e], v) in PT.FlatOf(m) ==> (e, v) in f)
  }

  lemma StandsAt(f: FlatMap, mem: map<nat, Page>, m: PT.Pool, dirs: map<nat, nat>, e: nat, v: nat)
    requires Stands(f, mem, m, dirs) && e in dirs
    ensures (e, v) in f <==> (dirs[e], v) in PT.FlatOf(m)
    ensures (e, v) in f ==> PT.FlatOf(m)[(dirs[e], v)] == f[(e, v)]
  {
    assert (dirs[e], v) == (dirs[e], v);
  }

  /** What one write to the tables and its frame do to both views. */
  lemma MapStands(f: FlatMap, mem: map<nat, Page>, m: PT.Pool, m': PT.Pool, dirs: map<nat, nat>, e: nat, v: nat, w: Word, j: (nat, nat))
    requires Stands(f, mem, m, dirs) && e in dirs && PT.Good(m') && Framed(m, m')
    requires PT.FlatOf(m') == PT.FlatOf(m)[(dirs[e], v) := w] && j in f && f[j].ppn == w.ppn
    ensures Stands(f[(e, v) := w], mem, m', dirs)
  {
    hide PT.FlatOf, PT.RefsOk, PT.FreeListOk;
    var f' := f[(e, v) := w];
    forall k: (nat, nat) | k in f'
      ensures k.0 in dirs && (dirs[k.0], k.1) in PT.FlatOf(m') && PT.FlatOf(m')[(dirs[k.0], k.1)] == f'[k]
      ensures f'[k].ppn in mem && f'[k].ppn < |m'.pages| && m'.pages[f'[k].ppn] == mem[f'[k].ppn]
    {
      assert k != (e, v) ==> k in f && (k.0 == e ==> k.1 != v);
      PT.UserNamed(m', (dirs[k.0], k.1));
    }
    forall x, u | x in dirs && (dirs[x], u) in PT.FlatOf(m') ensures (x, u) in f' {
      assert (dirs[x], u) == (dirs[e], v) ==> x == e;
    }
  }

  lemma DropStands(f: FlatMap, mem: map<nat, Page>, m: PT.Pool, m': PT.Pool, dirs: map<nat, nat>, e: nat, v: nat)
    requires Stands(f, mem, m, dirs) && e in dirs && PT.Good(m') && Framed(m, m')
    requires PT.FlatOf(m') == PT.FlatOf(m) - {(dirs[e], v)}
    ensures Stands(f - {(e, v)}, mem, m', dirs)
  {
    hide PT.FlatOf, PT.RefsOk, PT.FreeListOk;
    var f' := f - {(e, v)};
    forall k: (nat, nat) | k in f'
      ensures k.0 in dirs && (dirs[k.0], k.1) in PT.FlatOf(m') && PT.FlatOf(m')[(dirs[k.0], k.1)] == f'[k]
      ensures f'[k].ppn in mem && f'[k].ppn < |m'.pages| && m'.pages[f'[k].ppn] == mem[f'[k].ppn]
    {
      assert k in f && (k.0 == e ==> k.1 != v);
      PT.UserNamed(m', (dirs[k.0], k.1));
    }
  }

  lemma AllocStands(f: FlatMap, mem: map<nat, Page>, m: PT.Pool, m': PT.Pool, dirs: map<nat, nat>, e: nat, v: nat, perm: Word)
    requires Stands(f, mem, m, dirs) && e in dirs && PT.Good(m) && PT.Good(m') && Allocated(m, m', dirs[e], v, perm)
    ensures forall k :: k in f ==> f[k].ppn != m.free[0]
    ensures Stands(f[(e, v) := MakePte(m.free[0], perm.low)], mem[m.free[0] := ZeroedPage()], m', dirs)
  {
    hide PT.FlatOf, PT.RefsOk, PT.FreeListOk;
    var p: Ppn := m.free[0];
    var f', mem' := f[(e, v) := MakePte(p, perm.low)], mem[p := ZeroedPage()];
    assert PT.ZeroPage() == ZeroedPage();
    forall k: (nat, nat) | k in f ensures f[k].ppn != p {
      assert (dirs[k.0], k.1) !in Naming(PT.FlatOf(m), p);
    }
    forall k: (nat, nat) | k in f'
      ensures k.0 in dirs && (dirs[k.0], k.1) in PT.FlatOf(m') && PT.FlatOf(m')[(dirs[k.0], k.1)] == f'[k]
      ensures f'[k].ppn in mem' && f'[k].ppn < |m'.pages| && m'.pages[f'[k].ppn] == mem'[f'[k].ppn]
    {
      if k != (e, v) {
        assert k in f && (k.0 == e ==> k.1 != v);
        PT.UserNamed(m, (dirs[k.0], k.1));
        PT.UserNamed(m', (dirs[k.0], k.1));
      }
    }
    forall x, u | x in dirs && (dirs[x], u) in PT.FlatOf(m') ensures (x, u) in f' {
      assert (dirs[x], u) == (dirs[e], v) ==> x == e;
    }
  }

  lemma StoreStands(f: FlatMap, mem: map<nat, Page>, m: PT.Pool, m': PT.Pool, dirs: map<nat, nat>, k: (nat, nat), off: nat, w: Word)
    requires Stands(f, mem, m, dirs) && k in f && off < WORDS_PER_PAGE && f[k].ppn < |m.pages| && off < |m.pages[f[k].ppn]|
    requires PT.FlatOf(m') == PT.FlatOf(m) && m'.pages == PT.SetWord(m.pages, f[k].ppn, off, w)
    ensures Stands(f, mem[f[k].ppn := mem[f[k].ppn][off := w]], m', dirs)
  {
    hide PT.FlatOf;
  }

  /** The kernel state behind the user-level state; `asids` are the envs' ASIDs. */
  ghost predicate Backs(k: KM.Kernel, s: System, dirs: map<nat, nat>, asids: map<nat, nat>)
    reads k
  {
    && k.Valid() && Stands(s.flat, s.mem, k.State(), dirs)
    && forall e :: e in dirs ==> e in asids && k.Owns(dirs[e], asids[e])
  }

  /** Page n of env e may be mapped once more. */
  ghost predicate Countable(k: KM.Kernel, d: nat, n: nat)
    reads k
  {
    (d, n) in k.FlatNow() ==> |Naming(k.FlatNow(), k.FlatNow()[(d, n)].ppn)| < 0xffff
  }

  /** syscall_mem_map with a permission of twelve bits. */
  method MapPage(k: KM.Kernel, ghost s: System, dirs: map<nat, nat>, asids: map<nat, nat>,
                 e: nat, v: nat, to: nat, u: nat, perm: bv12) returns (r: int)
    requires Backs(k, s, dirs, asids) && e in dirs && to in dirs && (e, v) in s.flat
    requires Countable(k, dirs[e], v) && perm & PTE_G == 0
    modifies k
    ensures k.owner == old(k.owner) && k.Valid() && r in {0, -KM.E_INVAL, -KM.E_NO_MEM}
    ensures r == -KM.E_INVAL <==> KM.IllegalVa(v) || KM.IllegalVa(u)
    ensures r == -KM.E_NO_MEM <==> !KM.IllegalVa(v) && !KM.IllegalVa(u) && NoTableLeft(old(k.State()), dirs[to], u)
    ensures r == 0 ==> Stands(s.flat[(to, u) := MakePte(s.flat[(e, v)].ppn, perm)], s.mem, k.State(), dirs)
    ensures r != 0 ==> Stands(s.flat, s.mem, k.State(), dirs)
  {
    hide PT.Good, Coherent, NoGlobals, AsidsOk, SharedOk, Framed, Stands;
    ghost var before := k.State();
    StandsAt(s.flat, s.mem, before, dirs, e, v);
    EntryNames(s.flat[(e, v)].ppn, Word(0, perm));
    assert k.Owns(dirs[e], asids[e]) && k.Owns(dirs[to], asids[to]);
    hide EntryWord, Fits;
    r := k.SysMemMap(dirs[e], v, dirs[to], asids[to], u, Word(0, perm));
    if r == 0 {
      MapStands(s.flat, s.mem, before, k.State(), dirs, to, u, MakePte(s.flat[(e, v)].ppn, perm), (e, v));
    }
  }

  /** duppage's first syscall_mem_map is the step LinkChild, unless the kernel has no page for a table. */
  method LinkChildCall(k: KM.Kernel, ghost s: System, dirs: map<nat, nat>, asids: map<nat, nat>, e: nat, c: nat, n: nat, perm: bv12)
    returns (r: int)
    requires CodeEnabled(s, LinkChild(e)) && e in dirs && c in dirs && perm & PTE_G == 0
    requires s.threads[e].fork.child == c && s.threads[e].fork.next == n
    requires var was := s.threads[e].fork.dup.perm; perm == if ShareAsIs(was) then was else CowPerm(was)
    requires Backs(k, s, dirs, asids) && Countable(k, dirs[e], n)
    modifies k
    ensures r == -KM.E_INVAL <==> n < VPN_UTEMP
    ensures r == -KM.E_NO_MEM <==> n >= VPN_UTEMP && NoTableLeft(old(k.State()), dirs[c], n)
    ensures r != -KM.E_NO_MEM ==> Backs(k, Next(s, LinkChild(e)), dirs, asids)
  {
    hide Sound, AsidsOk, SharedOk, Stands, Countable;
    r := MapPage(k, s, dirs, asids, e, n, c, n, perm);
  }

  /** duppage's second syscall_mem_map is the step LinkParent. */
  method LinkParentCall(k: KM.Kernel, ghost s: System, dirs: map<nat, nat>, asids: map<nat, nat>, e: nat, n: nat, perm: bv12)
    returns (r: int)
    requires CodeEnabled(s, LinkParent(e)) && e in dirs && n >= VPN_UTEMP && perm & PTE_G == 0
    requires s.threads[e].fork.next == n && s.threads[e].fork.dup == Linked(perm)
    requires Backs(k, s, dirs, asids) && Countable(k, dirs[e], n)
    modifies k
    ensures r == -KM.E_NO_MEM <==> NoTableLeft(old(k.State()), dirs[e], n)
    ensures r != -KM.E_NO_MEM ==> r == 0 && Backs(k, Next(s, LinkParent(e)), dirs, asids)
  {
    hide Sound, AsidsOk, SharedOk, Stands, Countable;
    r := MapPage(k, s, dirs, asids, e, n, e, n, perm);
  }

  /** cow_entry's syscall_mem_map from UCOW is the step MapCopy. */
  method MapCopyCall(k: KM.Kernel, ghost s: System, dirs: map<nat, nat>, asids: map<nat, nat>, e: nat, v: nat, perm: bv12)
    returns (r: int)
    requires CodeEnabled(s, MapCopy(e)) && e in dirs && VPN_UTEMP <= v < VPN_UTOP && perm & PTE_G == 0
    requires s.threads[e].fault.v == v && s.threads[e].fault.perm == perm
    requires Backs(k, s, dirs, asids) && Countable(k, dirs[e], VPN_UCOW)
    modifies k
    ensures r == -KM.E_NO_MEM <==> NoTableLeft(old(k.State()), dirs[e], v)
    ensures r != -KM.E_NO_MEM ==> r == 0 && Backs(k, Next(s, MapCopy(e)), dirs, asids)
  {
    hide Sound, AsidsOk, SharedOk, Stands, Countable;
    r := MapPage(k, s, dirs, asids, e, VPN_UCOW, e, v, perm);
  }

  /** cow_entry's syscall_mem_unmap is the step UnmapCopy. */
  method UnmapCopyCall(k: KM.Kernel, ghost s: System, dirs: map<nat, nat>, asids: map<nat, nat>, e: nat) returns (r: int)
    requires Backs(k, s, dirs, asids) && CodeEnabled(s, UnmapCopy(e)) && e in dirs
    modifies k
    ensures r == 0 && Backs(k, Next(s, UnmapCopy(e)), dirs, asids)
  {
    hide PT.Good, Coherent, NoGlobals, AsidsOk, SharedOk, Framed, Stands;
    ghost var before := k.State();
    assert k.Owns(dirs[e], asids[e]);
    r := k.SysMemUnmap(dirs[e], asids[e], VPN_UCOW);
    DropStands(s.flat, s.mem, before, k.State(), dirs, e, VPN_UCOW);
  }

  /** cow_entry's syscall_mem_alloc at UCOW is the step AllocCopy, with the page that heads the free list. */
  method AllocCopyCall(k: KM.Kernel, ghost s: System, dirs: map<nat, nat>, asids: map<nat, nat>, e: nat, perm: bv12) returns (r: int)
    requires Backs(k, s, dirs, asids) && Runs(s, e) && s.threads[e].fault.Entered? && e in dirs
    requires s.threads[e].fault.perm == perm && perm & PTE_G == 0
    modifies k
    ensures r == if NoPageLeft(old(k.State()), dirs[e], VPN_UCOW) then -KM.E_NO_MEM else 0
    ensures r == 0 ==>
      old(k.free) != [] && old(k.free)[0] < 0x10_0000 && CodeEnabled(s, AllocCopy(e, old(k.free)[0])) &&
      Backs(k, Next(s, AllocCopy(e, old(k.free)[0])), dirs, asids)
  {
    hide PT.Good, Coherent, NoGlobals, AsidsOk, SharedOk, Stands, Allocated;
    ghost var before := k.State();
    assert k.Owns(dirs[e], asids[e]);
    WithinZero(if k.free == [] then 0 else k.free[0], 20);
    r := k.SysMemAlloc(dirs[e], asids[e], VPN_UCOW, Word(0, perm));
    if r == 0 {
      AllocStands(s.flat, s.mem, before, k.State(), dirs, e, VPN_UCOW, Word(0, perm));
      assert before.free != [] && before.free[0] < 0x10_0000 by { AllocatedPage(before, k.State(), dirs[e], VPN_UCOW, Word(0, perm)); }
    }
  }

  /** The first touch of an absent page, a TLB refill to the kernel, is the step Demand. */
  method DemandCall(k: KM.Kernel, ghost s: System, dirs: map<nat, nat>, asids: map<nat, nat>, e: nat, v: nat, victim: (nat, nat))
    returns (ok: bool)
    requires Runs(s, e) && s.threads[e].fault == Calm && (e, v) !in s.flat && v != VPN_UCOW && v < VPN_UTOP && e in dirs
    requires Backs(k, s, dirs, asids) && victim != (v, asids[e])
    modifies k
    ensures ok ==>
      old(k.free) != [] && old(k.free)[0] < 0x10_0000 && CodeEnabled(s, Demand(e, v, old(k.free)[0])) &&
      Backs(k, Next(s, Demand(e, v, old(k.free)[0])), dirs, asids)
    ensures ok <==> v >= VPN_UTEMP && v != VPN_USTACKTOP && !NoPageLeft(old(k.State()), dirs[e], v)
  {
    hide PT.Good, Coherent, NoGlobals, AsidsOk, SharedOk, Stands, Allocated;
    ghost var before := k.State();
    assert k.Owns(dirs[e], asids[e]);
    StandsAt(s.flat, s.mem, before, dirs, e, v);
    ok := k.TlbRefill(dirs[e], asids[e], v, victim);
    if ok {
      AllocStands(s.flat, s.mem, before, k.State(), dirs, e, v, Word(0, PTE_D));
      AllocatedPage(before, k.State(), dirs[e], v, Word(0, PTE_D));
    }
  }

  lemma AllocatedPage(m: PT.Pool, m': PT.Pool, d: nat, v: nat, perm: Word)
    requires Allocated(m, m', d, v, perm)
    ensures m.free != [] && m.free[0] < 0x10_0000
  {
  }

  /** A store of env e's program through its TLB entry is the step Store. */
  method StoreCall(k: KM.Kernel, ghost s: System, dirs: map<nat, nat>, asids: map<nat, nat>, e: nat, v: nat, a: nat, off: nat, w: Word)
    requires Backs(k, s, dirs, asids) && e in dirs && v < VPN_UTOP && off < WORDS_PER_PAGE
    requires Hits(k.tlb, v, a, asids[e]) && k.tlb[(v, a)].low & PTE_D != 0
    modifies k
    ensures (e, v) in s.flat && Writable(s.flat[(e, v)])
    ensures CodeEnabled(s, CowMachine.Store(e, v, off, w)) ==> Backs(k, Next(s, CowMachine.Store(e, v, off, w)), dirs, asids)
  {
    hide PT.Good, Coherent, NoGlobals, AsidsOk, SharedOk, Stands;
    ghost var before := k.State();
    assert k.Owns(dirs[e], asids[e]);
    k.Store(v, a, asids[e], off, w);
    StandsAt(s.flat, s.mem, before, dirs, e, v);
    StoreStands(s.flat, s.mem, before, k.State(), dirs, (e, v), off, w);
  }
}

/** The counts that the pipe reads are the kernel's (user/lib/pageref.c). */
module PipeCounts {
  import opened Mmu
  import PT = PageTables
  import AddressSpaces
  import opened PipeClosed

  const VPN_FDTABLE: nat := 0x5_fc00
  const VPN_FILEBASE: nat := 0x6_0000

  /** Where slot i keeps its fd page, or its data page. */
  function Place(data: bool, i: nat): nat {
    if data then VPN_FILEBASE + i * 1024 else VPN_FDTABLE + i
  }

  predicate Injective(dirs: map<nat, nat>) {
    forall e, e' :: e in dirs && e' in dirs && dirs[e] == dirs[e'] ==> e == e'
  }

  /** The places of these slots in the flat map. */
  function Places(slots: set<Slot>, dirs: map<nat, nat>, data: bool): set<(nat, nat)> {
    set k | k in slots && k.0 in dirs :: (dirs[k.0], Place(data, k.1))
  }

  predicate Homed(slots: set<Slot>, dirs: map<nat, nat>) {
    forall k {:trigger k in slots} :: k in slots ==> k.0 in dirs
  }

  /** Page p is mapped at the place of each of these slots and nowhere else. */
  ghost predicate Placed(m: PT.Pool, slots: set<Slot>, dirs: map<nat, nat>, data: bool, p: nat) {
    && Injective(dirs) && Homed(slots, dirs) && Naming(PT.FlatOf(m), p) == Places(slots, dirs, data)
    && p < |m.role| == |m.refs| && m.role[p] in {PT.User, PT.Held, PT.Free}
  }

  lemma PlacesMore(slots: set<Slot>, dirs: map<nat, nat>, data: bool, k: Slot)
    requires Injective(dirs) && k !in slots && k.0 in dirs
    ensures Places(slots + {k}, dirs, data) == Places(slots, dirs, data) + {(dirs[k.0], Place(data, k.1))}
    ensures (dirs[k.0], Place(data, k.1)) !in Places(slots, dirs, data)
  {
    assert k == (k.0, k.1);
  }

  lemma {:induction false} PlacesSize(slots: set<Slot>, dirs: map<nat, nat>, data: bool)
    requires Injective(dirs) && Homed(slots, dirs)
    ensures |Places(slots, dirs, data)| == |slots|
  {
    if slots != {} {
      var k :| k in slots;
      PlacesMore(slots - {k}, dirs, data, k);
      PlacesSize(slots - {k}, dirs, data);
      hide Places;
      assert slots - {k} + {k} == slots;
    }
  }

  /** pp_ref of a pipe's page is the number of slots that have it. */
  lemma PageRef(m: PT.Pool, slots: set<Slot>, dirs: map<nat, nat>, data: bool, p: nat)
    requires PT.Good(m) && Placed(m, slots, dirs, data, p)
    ensures m.refs[p] == |slots|
  {
    hide PT.Good, PT.FlatOf, Places;
    AddressSpaces.UserOrHeld(m, p);
    PlacesSize(slots, dirs, data);
  }

  /** Mapping the page at one more slot's place. */
  lemma PlaceMore(m: PT.Pool, m': PT.Pool, slots: set<Slot>, dirs: map<nat, nat>, data: bool, p: nat, k: Slot, w: Word)
    requires Placed(m, slots, dirs, data, p) && k.0 in dirs && k !in slots && w.ppn == p
    requires PT.FlatOf(m') == PT.FlatOf(m)[(dirs[k.0], Place(data, k.1)) := w]
    requires p < |m'.role| == |m'.refs| && m'.role[p] == PT.User
    ensures Placed(m', slots + {k}, dirs, data, p)
  {
    hide PT.FlatOf;
    NamingInsert(PT.FlatOf(m), (dirs[k.0], Place(data, k.1)), w);
    PlacesMore(slots, dirs, data, k);
    hide Places, Naming;
  }

  /** Unmapping one slot's place. */
  lemma PlaceLess(m: PT.Pool, m': PT.Pool, slots: set<Slot>, dirs: map<nat, nat>, data: bool, p: nat, k: Slot)
    requires Placed(m, slots, dirs, data, p) && k in slots
    requires k.0 in dirs && PT.FlatOf(m') == PT.FlatOf(m) - {(dirs[k.0], Place(data, k.1))}
    requires p < |m'.role| == |m'.refs| && m'.role[p] in {PT.User, PT.Free}
    ensures Placed(m', slots - {k}, dirs, data, p)
  {
    hide PT.FlatOf;
    NamingRemove(PT.FlatOf(m), (dirs[k.0], Place(data, k.1)));
    PlacesMore(slots - {k}, dirs, data, k);
    assert slots - {k} + {k} == slots;
    hide Places, Naming;
  }

  /** The pages of the pipe: one for each end's descriptor and one for the ring. */
  datatype PipePages = PipePages(reader: nat, writer: nat, ring: nat)

  function FdPage(pages: PipePages, end: End): nat {
    if end == ReadEnd then pages.reader else pages.writer
  }

  ghost predicate Piped(m: PT.Pool, s: State, dirs: map<nat, nat>, pages: PipePages) {
    && PT.Good(m)
    && Placed(m, s.readers, dirs, false, pages.reader) && Placed(m, s.writers, dirs, false, pages.writer)
    && Placed(m, s.data, dirs, true, pages.ring)
  }

  lemma AllRefs(m: PT.Pool, s: State, dirs: map<nat, nat>, pages: PipePages)
    requires Piped(m, s, dirs, pages)
    ensures pages.reader < |m.refs| && pages.writer < |m.refs| && pages.ring < |m.refs|
    ensures m.refs[pages.reader] == |s.readers| && m.refs[pages.writer] == |s.writers| && m.refs[pages.ring] == |s.data|
  {
    hide PT.Good;
    PageRef(m, s.readers, dirs, false, pages.reader);
    PageRef(m, s.writers, dirs, false, pages.writer);
    PageRef(m, s.data, dirs, true, pages.ring);
  }

  /** pageref at the fd page or the ring page. */
  ghost function RefOf(m: PT.Pool, p: nat): nat {
    if p < |m.refs| then m.refs[p] else 0
  }

  /** The steps that read a count read pp_ref. */
  lemma StepReadsRef(m: PT.Pool, s: State, dirs: map<nat, nat>, pages: PipePages)
    requires Piped(m, s, dirs, pages)
    ensures Enabled(s, ReadFdRef) ==>
              Next(s, ReadFdRef).pcs[s.cur].fdRef == RefOf(m, FdPage(pages, EndOf(s, (s.cur, s.pcs[s.cur].i))))
    ensures Enabled(s, ReadPipeRef) ==> Next(s, ReadPipeRef).pcs[s.cur].pipeRef == RefOf(m, pages.ring)
  {
    AllRefs(m, s, dirs, pages);
    hide Piped;
  }

  /** Two counts that the retry accepts are the two pp_refs of that moment. */
  lemma AcceptedAreRefs(m: PT.Pool, s: State, dirs: map<nat, nat>, pages: PipePages)
    requires Inv(s) && Accepts(s) && Piped(m, s, dirs, pages)
    ensures s.pcs[s.cur].fdRef == RefOf(m, FdPage(pages, AskedEnd(s))) && s.pcs[s.cur].pipeRef == RefOf(m, pages.ring)
  {
    CountsAreSnapshot(s);
    AllRefs(m, s, dirs, pages);
    hide Piped, Inv;
  }
}
