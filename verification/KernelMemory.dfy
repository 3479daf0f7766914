/** The kernel's memory state updated in place (kern/pmap.c, kern/tlbex.c, kern/env.c). */
module KernelMemory {
  import opened Mmu
  import opened PageTables
  import opened AddressSpaces
  import opened Bits

  const E_INVAL: int := 3
  const E_NO_MEM: int := 4
  const E_NO_FREE_ENV: int := 6

  /** is_illegal_va on page numbers: both bounds are page-aligned. */
  predicate IllegalVa(v: nat) {
    v < VPN_UTEMP || v >= VPN_UTOP
  }

  /** Where passive_alloc panics below UTOP: low addresses and the page under the exception stack. */
  predicate LowOrGuard(v: nat) {
    v < VPN_UTEMP || v == VPN_USTACKTOP
  }

  datatype Walk = NoMem | Absent | Slot(table: nat)

  class Kernel {
    var pages: Pages
    var refs: seq<nat>
    var free: seq<nat>
    var tlb: Tlb
    var asids: seq<Word32>
    var shared: seq<Word>  // base_pgdir's entries for [UTOP, UVPT)
    ghost var role: seq<Role>
    ghost var owner: map<nat, nat>

    ghost function State(): Pool
      reads this
    {
      Pool(pages, refs, free, role)
    }

    ghost function FlatNow(): FlatMap
      reads this
    {
      FlatOf(State())
    }

    ghost predicate Valid()
      reads this
    {
      Sound(State(), tlb, owner) && AsidsOk(asids, owner) && SharedOk(shared, role)
    }

    ghost predicate Owns(d: nat, asid: nat)
      reads this
    {
      asid in owner && owner[asid] == d
    }

    /** page_init: npage pages of which the first `boot` are taken by the kernel image. */
    constructor (npage: nat, boot: nat, contents: seq<seq<Word>>)
      requires boot <= npage == |contents| <= 0x10_0000
      requires forall p :: 0 <= p < npage ==> |contents[p]| == WORDS_PER_PAGE
      ensures Valid() && FlatNow() == map[] && owner == map[] && shared == [ZERO_WORD, ZERO_WORD]
      ensures |free| == npage - boot && |role| == npage
      ensures forall p :: 0 <= p < npage ==> role[p] == (if p < boot then Reserved else Free)
    {
      var refs0, free0 := [], [];
      ghost var role0 := [];
      for i := 0 to npage
        invariant |refs0| == |role0| == i && |free0| == if i < boot then 0 else i - boot
        invariant forall p :: 0 <= p < i ==> role0[p] == (if p < boot then Reserved else Free)
        invariant forall p :: 0 <= p < i ==> refs0[p] == (if p < boot then 1 else 0)
        invariant forall k :: 0 <= k < |free0| ==> free0[k] == i - 1 - k
      {
        if i < boot {
          refs0, role0 := refs0 + [1], role0 + [Reserved];
        } else {
          refs0, role0 := refs0 + [0], role0 + [Free];
          free0 := [i] + free0;
        }
      }
      pages, refs, free, role := contents, refs0, free0, role0;
      shared := [ZERO_WORD, ZERO_WORD];
      tlb, owner := map[], map[];
      var none: Word32 := seq(32, _ => false);
      asids := [none, none];
      new;
      assert FreeListOk(State()) by {
        forall p: nat | p < |role| && role[p] == Free ensures p in free {
          assert free[npage - 1 - p] == p;
        }
      }
      InitGood(State());
    }

    /** env_init's template: a page for base_pgdir, then the kernel's arrays of pages and envs mapped read-only for
        everyone. False stands for the kernel's panic. */
    method EnvInit(pagesAt: nat, pageCount: nat, envsAt: nat, envCount: nat) returns (ok: bool)
      requires Valid() && 0 < pageCount <= 1024 && 0 < envCount <= 1024
      requires Reserves(pagesAt, pageCount) && Reserves(envsAt, envCount)
      modifies this`pages, this`refs, this`free, this`role, this`shared
      ensures Valid() && FlatNow() == old(FlatNow())
      ensures ok <==> |old(free)| >= 3
      ensures ok ==> free == old(free)[3..] && Template(0, envsAt, envCount) && Template(1, pagesAt, pageCount)
    {
      hide Good, Coherent, NoGlobals, AsidsOk, OwnersOk;
      var base;
      base, ok := ReservePage();
      if !ok {
        return;
      }
      ok := MapSegment(1, pagesAt, pageCount);
      if !ok {
        return;
      }
      ghost var before := State();
      ok := MapSegment(0, envsAt, envCount);
    }

    ghost predicate Reserves(start: nat, count: nat)
      reads this
    {
      start + count <= |role| && |role| <= 0x10_0000 && forall p :: start <= p < start + count ==> role[p] == Reserved
    }

    /** Shared slot i has a table whose first entries are the pages from `start` on, readable by everyone. */
    ghost predicate Template(i: nat, start: nat, count: nat)
      reads this
    {
      && i < |shared| && Mmu.Valid(shared[i]) && shared[i].ppn < |pages| && start + count <= 0x10_0000
      && |pages[shared[i].ppn]| == 1024
      && forall j :: 0 <= j < 1024 ==>
           pages[shared[i].ppn][j] == if j < count then MakePte(start + j, PTE_G) else ZERO_WORD
    }

    method ReservePage() returns (p: nat, ok: bool)
      requires Valid()
      modifies this`pages, this`refs, this`free, this`role
      ensures Valid() && FlatNow() == old(FlatNow())
      ensures ok <==> old(free) != []
      ensures ok ==> p == old(free)[0] && free == old(free)[1..] && p < |role| == |pages| <= 0x10_0000
      ensures ok ==> old(p < |role| && role[p] == Free) && role[p] == Reserved && pages[p] == ZeroPage()
      ensures ReservedKept(old(State()), State())
    {
      hide Good, Coherent, NoGlobals, AsidsOk, OwnersOk;
      ghost var before := State();
      SoundShape(before, tlb, owner);
      p, ok := PageAlloc();
      if !ok {
        return;
      }
      ghost var taken := State();
      ReserveSound(taken, tlb, owner, p, pages[p], 1);
      refs := refs[p := 1];
      role := role[p := Reserved];
      assert State() == taken.(pages := taken.pages[p := taken.pages[p]], refs := taken.refs[p := 1], role := taken.role[p := Reserved]);
      SharedKept(shared, before, State());
    }

    /** map_segment on one slot of base_pgdir: a table for it, then an entry and a count for each page. */
    method MapSegment(i: nat, start: nat, count: nat) returns (ok: bool)
      requires Valid() && i < PDX_UVPT - PDX_UTOP && 0 < count <= 1024 && Reserves(start, count)
      modifies this`pages, this`refs, this`free, this`role, this`shared
      ensures Valid() && FlatNow() == old(FlatNow()) && ReservedKept(old(State()), State())
      ensures ok <==> old(free) != []
      ensures ok ==> free == old(free)[1..] && Template(i, start, count)
      ensures ok ==> |shared| == |old(shared)| && forall k :: 0 <= k < |shared| && k != i ==> shared[k] == old(shared)[k]
    {
      hide Good, Coherent, NoGlobals, AsidsOk, OwnersOk;
      ghost var before := State();
      var t;
      t, ok := ReservePage();
      if !ok {
        return;
      }
      shared := shared[i := MakePte(t, PTE_D)];
      ghost var ready := State();
      for j := 0 to count
        invariant shared == old(shared)[i := MakePte(t, PTE_D)]
        invariant Valid() && FlatNow() == FlatOf(before) && free == ready.free && role == ready.role
        invariant |pages| == |ready.pages| && |pages[t]| == 1024 && pages == ready.pages[t := pages[t]]
        invariant forall k :: 0 <= k < 1024 ==> pages[t][k] == if k < j then MakePte(start + k, PTE_G) else ZERO_WORD
      {
        ShareEntry(t, j, start + j);
      }
    }

    /** page_insert on base_pgdir once the table is there. */
    method ShareEntry(t: nat, j: nat, p: Ppn)
      requires Valid() && t < |role| && role[t] == Reserved && j < 1024 && p < |role| && role[p] == Reserved
      modifies this`pages, this`refs
      ensures Valid() && FlatNow() == old(FlatNow())
      ensures t < |old(pages)| && |old(pages)[t]| == 1024 && pages == SetWord(old(pages), t, j, MakePte(p, PTE_G))
    {
      hide Good, Coherent, NoGlobals, AsidsOk, OwnersOk;
      SoundShape(State(), tlb, owner);
      ghost var page := pages[t][j := MakePte(p, PTE_G)];
      ReserveSound(State(), tlb, owner, t, page, refs[t]);
      assert role[t := Reserved] == role && refs[t := refs[t]] == refs;
      pages := SetWord(pages, t, j, MakePte(p, PTE_G));
      SoundShape(State(), tlb, owner);
      ReserveSound(State(), tlb, owner, p, pages[p], Inc16(refs[p]));
      assert role[p := Reserved] == role && pages[p := pages[p]] == pages;
      refs := refs[p := Inc16(refs[p])];
    }

    method PageAlloc() returns (p: nat, ok: bool)
      requires Valid()
      modifies this`pages, this`free, this`role
      ensures Valid() && FlatNow() == old(FlatNow())
      ensures ok <==> old(free) != []
      ensures !ok ==> State() == old(State())
      ensures ok ==> p == old(free)[0] < |role| == |old(role)| == |old(pages)| && old(role)[p] == Free
      ensures ok ==> State() == AfterAlloc(old(State()))
      ensures ReservedKept(old(State()), State())
    {
      if free == [] {
        return 0, false;
      }
      AllocSound(State(), tlb, owner);
      SharedKept(shared, State(), AfterAlloc(State()));
      p, ok := free[0], true;
      free := free[1..];
      pages := pages[p := ZeroPage()];
      role := role[p := Held];
    }

    method TlbInvalidate(asid: nat, v: nat)
      modifies this`tlb
      ensures tlb == old(tlb) - {(v, asid)}
    {
      tlb := tlb - {(v, asid)};
    }

    method PgdirWalk(d: nat, v: nat, create: bool) returns (r: Walk)
      requires Valid() && IsDir(role, d) && v < VPN_UTOP
      modifies this`pages, this`refs, this`free, this`role
      ensures Valid() && FlatNow() == old(FlatNow())
      ensures r == Absent <==> !create && !old(Mmu.Valid(pages[d][v / 1024]))
      ensures r == NoMem <==> create && !old(Mmu.Valid(pages[d][v / 1024])) && old(free) == []
      ensures r.Slot? ==> IsDir(role, d) && Mmu.Valid(pages[d][v / 1024]) && r.table == TableOf(pages, d, v / 1024) < |pages|
      ensures var grows := create && !old(Mmu.Valid(pages[d][v / 1024])) && old(free) != [];
              if grows then CanGrow(old(State()), d, v / 1024) && State() == AfterGrow(old(State()), d, v / 1024)
              else State() == old(State())
    {
      if !Mmu.Valid(pages[d][v / 1024]) {
        if !create {
          return Absent;
        }
        GrowSound(State(), tlb, owner, d, v / 1024);
        if free != [] {
          SharedKept(shared, State(), AfterGrow(State(), d, v / 1024));
        }
        var t, ok := PageAlloc();
        if !ok {
          return NoMem;
        }
        pages := SetWord(pages, d, v / 1024, MakePte(t, PTE_D));
        refs := refs[t := Inc16(refs[t])];
        role := role[t := Table(d, v / 1024)];
      }
      assert role[TableOf(pages, d, v / 1024)] == Table(d, v / 1024);
      return Slot(TableOf(pages, d, v / 1024));
    }

    /** Returns the page mapped at v, if any. */
    method PageLookup(d: nat, v: nat) returns (p: nat, found: bool)
      requires Valid() && IsDir(role, d) && v < VPN_UTOP
      ensures found <==> (d, v) in FlatNow()
      ensures found ==> p == FlatNow()[(d, v)].ppn < |role| && role[p] == User
      ensures found ==> IsDir(role, d) && |pages| == |role| && |pages[d]| == 1024 && Mmu.Valid(pages[d][v / 1024])
    {
      FlatAt(pages, role, (d, v));
      if !Mmu.Valid(pages[d][v / 1024]) {
        return 0, false;
      }
      var t := TableOf(pages, d, v / 1024);
      assert role[t] == Table(d, v / 1024);
      if !Mmu.Valid(pages[t][v % 1024]) {
        return 0, false;
      }
      return pages[t][v % 1024].ppn, true;
    }

    /** `--pp_ref`, releasing the page at zero; the caller still has to clear the entry. */
    method PageDecref(p: nat)
      requires p < |refs| && p < |role| && refs[p] > 0
      modifies this`refs, this`free, this`role
      ensures State() == AfterDecref(old(State()), p)
    {
      refs := refs[p := refs[p] - 1];
      if refs[p] == 0 {
        PageFree(p);
      }
    }

    method PageFree(p: nat)
      requires p < |refs| && p < |role| && refs[p] == 0
      modifies this`free, this`role
      ensures State() == AfterFree(old(State()), p)
    {
      free := [p] + free;
      role := role[p := Free];
    }

    /** page_remove's two writes, the count before the entry. */
    method DropEntry(d: nat, v: nat)
      requires CanUnmap(State(), d, v)
      modifies this`pages, this`refs, this`free, this`role
      ensures State() == AfterRemove(old(State()), d, v)
    {
      var t := TableOf(pages, d, v / 1024);
      PageDecref(PteOf(pages, d, v).ppn);
      pages := SetWord(pages, t, v % 1024, ZERO_WORD);
    }

    method PageRemove(d: nat, asid: nat, v: nat)
      requires Valid() && Owns(d, asid) && v < VPN_UTOP
      modifies this`pages, this`refs, this`free, this`role, this`tlb
      ensures Valid() && FlatNow() == old(FlatNow()) - {(d, v)}
      ensures RemovedOnly(old(State()), State(), d, v)
      ensures (d, v) !in old(FlatNow()) ==> State() == old(State())
      ensures tlb == if (d, v) in old(FlatNow()) then old(tlb) - {(v, asid)} else old(tlb)
      ensures ReservedKept(old(State()), State())
    {
      hide Good, RemovedOnly, Coherent, NoGlobals;
      RemoveSound(State(), tlb, owner, d, asid, v);
      RemovedKept(State(), AfterRemove(State(), d, v), d, v);
      SharedKept(shared, State(), AfterRemove(State(), d, v));
      hide ReservedKept;
      var p, found := PageLookup(d, v);
      if !found {
        return;
      }
      DropEntry(d, v);
      TlbInvalidate(asid, v);
    }

    /** page_insert over the page that v already maps: flush, then new permission bits. */
    method Remap(d: nat, asid: nat, p: Ppn, v: nat, perm: Word)
      requires Valid() && Owns(d, asid) && v < VPN_UTOP && (d, v) in FlatNow() && FlatNow()[(d, v)].ppn == p
      requires Fits(perm, p) && !Global(perm)
      modifies this`pages, this`tlb
      ensures Valid() && FlatNow() == old(FlatNow())[(d, v) := MakePte(p, perm.low)]
      ensures Framed(old(State()), State()) && tlb == old(tlb) - {(v, asid)}
    {
      hide Good, Framed, FlatOf, NoGlobals;
      EntryNames(p, perm);
      hide EntryWord, Fits, Global;
      FlushSound(State(), tlb, owner, (v, asid));
      TlbInvalidate(asid, v);
      InsertSame(State(), tlb, owner, d, asid, v, EntryWord(p, perm));
      pages := SetWord(pages, TableOf(pages, d, v / 1024), v % 1024, EntryWord(p, perm));
    }

    /** page_insert's last two writes. */
    method WriteEntry(d: nat, v: nat, t: nat, p: Ppn, perm: Word)
      requires Shaped(pages, role) && d < |pages| && v < VPN_UTOP && t == TableOf(pages, d, v / 1024) < |pages|
      requires p < |role| == |refs|
      modifies this`pages, this`refs, this`role
      ensures State() == AfterMap(old(State()), d, v, p, EntryWord(p, perm))
    {
      pages := SetWord(pages, t, v % 1024, EntryWord(p, perm));
      refs := refs[p := Inc16(refs[p])];
      role := role[p := User];
    }

    /** page_insert into an unmapped slot: walk, creating the table if needed, then map. */
    method MapFresh(d: nat, asid: nat, p: Ppn, v: nat, perm: Word) returns (ok: bool)
      requires Valid() && Owns(d, asid) && v < VPN_UTOP && (d, v) !in FlatNow()
      requires p < |role| && role[p] in {User, Held} && refs[p] < 0xffff && Fits(perm, p) && !Global(perm)
      modifies this`pages, this`refs, this`free, this`role
      ensures Valid()
      ensures ok ==> FlatNow() == old(FlatNow())[(d, v) := MakePte(p, perm.low)]
      ensures ok ==> Framed(old(State()), State()) && role[p] == User
      ensures ok <==> old(Mmu.Valid(pages[d][v / 1024])) || old(free) != []
      ensures !ok ==> State() == old(State())
    {
      hide Coherent, Framed, FlatOf, AfterGrow, NoGlobals;
      EntryNames(p, perm);
      hide EntryWord, Fits, Global;
      ghost var before := State();
      var r := PgdirWalk(d, v, true);
      if r == NoMem {
        return false;
      }
      WalkKeeps(before, State(), d, v, p);
      ghost var grown := State();
      InsertFresh(grown, tlb, owner, d, asid, v, EntryWord(p, perm));
      WriteEntry(d, v, r.table, p, perm);
      FramedTrans(before, grown, State());
      return true;
    }

    /** Maps p at v. On failure nothing but the TLB entry of v is touched. The permission is the caller's whole 32-bit
        word; AddressSpaces.MapExact and RemapExact say why its high bits have to lie within the page number. */
    method PageInsert(d: nat, asid: nat, p: Ppn, v: nat, perm: Word) returns (ok: bool)
      requires Valid() && Owns(d, asid) && v < VPN_UTOP
      requires p < |role| && role[p] in {User, Held} && Fits(perm, p) && !Global(perm)
      requires refs[p] < 0xffff || ((d, v) in FlatNow() && FlatNow()[(d, v)].ppn == p)
      modifies this`pages, this`refs, this`free, this`role, this`tlb
      ensures Valid()
      ensures ok ==> FlatNow() == old(FlatNow())[(d, v) := MakePte(p, perm.low)]
      ensures ok ==> Framed(old(State()), State()) && role[p] == User
      ensures !ok ==> State() == old(State()) && free == [] && (d, v) !in FlatNow()
      ensures ok <==> old(Mmu.Valid(pages[d][v / 1024])) || old(free) != []
      ensures tlb == old(tlb) - {(v, asid)}
      ensures ReservedKept(old(State()), State())
    {
      hide Good, Coherent, Framed, FlatOf, Fits, Global, NoGlobals;
      ghost var before := State();
      InsertOver(FlatNow(), (d, v), MakePte(p, perm.low));
      var q, found := PageLookup(d, v);
      if found && q == p {
        Remap(d, asid, p, v, perm);
        KeptFramed(before, State());
        return true;
      }
      FramedRefl(before);
      KeptFramed(before, before);
      if found {
        PageRemove(d, asid, v);
      }
      FlushSound(State(), tlb, owner, (v, asid));
      TlbInvalidate(asid, v);
      ghost var cleared := State();
      DirEntryKept(before, cleared, d, v);
      ok := MapFresh(d, asid, p, v, perm);
      if ok {
        FramedTrans(before, cleared, State());
        KeptFramed(before, State());
      }
    }

    /** env_free's inner loop: drop every entry of the table at directory slot i. */
    method UnmapTable(d: nat, asid: nat, i: nat, ghost flat: FlatMap)
      requires Valid() && Owns(d, asid) && i < PDX_UTOP && Mmu.Valid(pages[d][i])
      requires FlatNow() == Cleared(flat, d, i * 1024)
      modifies this`pages, this`refs, this`free, this`role, this`tlb
      ensures Valid() && FlatNow() == Cleared(flat, d, (i + 1) * 1024)
      ensures FreedOnly(old(State()), State(), d) && IsDir(role, d) && pages[d] == old(pages[d])
    {
      hide Coherent, DirsOk, TablesOk, RefsOk, FlatOf, FreedOnly, NoGlobals;
      ghost var before := State();
      FreedRefl(before, d);
      for j := 0 to 1024
        invariant Valid() && FlatNow() == Cleared(flat, d, i * 1024 + j)
        invariant FreedOnly(before, State(), d) && IsDir(role, d) && pages[d] == before.pages[d]
      {
        ghost var here := State();
        ClearedNext(flat, d, i * 1024 + j);
        WordInFlat(here, d, i, j);
        if Mmu.Valid(pages[TableOf(pages, d, i)][j]) {
          PageRemove(d, asid, i * 1024 + j);
          RemovedIsFreed(here, State(), d, i * 1024 + j);
          FreedTrans(before, here, State(), d);
        }
      }
    }

    /** env_free's work on directory slot i: its entries, the slot, then the table page. */
    method ReleaseSlot(d: nat, asid: nat, i: nat, ghost flat: FlatMap)
      requires Valid() && Owns(d, asid) && i < PDX_UTOP && Mmu.Valid(pages[d][i])
      requires FlatNow() == Cleared(flat, d, i * 1024)
      modifies this`pages, this`refs, this`free, this`role, this`tlb
      ensures Valid() && FlatNow() == Cleared(flat, d, (i + 1) * 1024)
      ensures FreedOnly(old(State()), State(), d) && IsDir(role, d) && |pages| == |role|
      ensures |old(pages[d])| == 1024 && pages[d] == old(pages[d])[i := ZERO_WORD]
    {
      hide DirsOk, TablesOk, RefsOk, FreeListOk, Coherent, FreedOnly, NoGlobals;
      ghost var before := State();
      UnmapTable(d, asid, i, flat);
      ghost var emptied := State();
      ReleaseSound(emptied, tlb, owner, flat, d, i);
      var t := TableOf(pages, d, i);
      pages := SetWord(pages, d, i, ZERO_WORD);
      PageDecref(t);
      assert State() == AfterReleaseTable(emptied, d, i);
      FreedTrans(before, emptied, State(), d);
      FlushSound(State(), tlb, owner, (VPN_UVPT + i, asid));
      TlbInvalidate(asid, VPN_UVPT + i);
    }

    method VisitSlot(d: nat, asid: nat, i: nat, ghost flat: FlatMap)
      requires Valid() && Owns(d, asid) && i < PDX_UTOP && FlatNow() == Cleared(flat, d, i * 1024)
      modifies this`pages, this`refs, this`free, this`role, this`tlb
      ensures Valid() && FlatNow() == Cleared(flat, d, (i + 1) * 1024) && FreedOnly(old(State()), State(), d)
      ensures IsDir(role, d) && |pages| == |role| && |old(pages[d])| == |pages[d]| == 1024 && !Mmu.Valid(pages[d][i])
      ensures forall k :: 0 <= k < PDX_UTOP && k != i ==> pages[d][k] == old(pages[d])[k]
    {
      hide DirsOk, TablesOk, RefsOk, FreeListOk, Coherent, FreedOnly, NoGlobals, AsidsOk, FlatOf;
      FreedRefl(State(), d);
      if Mmu.Valid(pages[d][i]) {
        ReleaseSlot(d, asid, i, flat);
      } else {
        NoTableNoEntries(State(), flat, d, i);
      }
    }

    /** env_free's loop over the directory. */
    method ReleaseTables(d: nat, asid: nat)
      requires Valid() && Owns(d, asid)
      modifies this`pages, this`refs, this`free, this`role, this`tlb
      ensures Valid() && FlatNow() == Cleared(old(FlatNow()), d, VPN_UTOP) && FreedOnly(old(State()), State(), d)
      ensures IsDir(role, d) && |pages| == |role| && |pages[d]| == 1024
      ensures forall k :: 0 <= k < PDX_UTOP ==> !Mmu.Valid(pages[d][k])
    {
      hide DirsOk, TablesOk, RefsOk, FreeListOk, Coherent, FreedOnly, AsidsOk, NoGlobals, FlatOf;
      ghost var before, flat := State(), FlatNow();
      FreedRefl(before, d);
      ClearedNext(flat, d, 0);
      for i := 0 to PDX_UTOP
        invariant Valid() && FlatNow() == Cleared(flat, d, i * 1024)
        invariant FreedOnly(before, State(), d) && IsDir(role, d) && |pages| == |role|
        invariant forall k :: 0 <= k < i ==> !Mmu.Valid(pages[d][k])
      {
        ghost var here := State();
        VisitSlot(d, asid, i, flat);
        FreedTrans(before, here, State(), d);
      }
    }

    /** env_free's last lines: the directory, its ASID, and the TLB entry of the self-mapping. */
    method ReleaseDir(d: nat, asid: nat, ghost flat: FlatMap)
      requires Valid() && Owns(d, asid) && FlatNow() == Cleared(flat, d, VPN_UTOP)
      requires IsDir(role, d) && |pages| == |role| && |pages[d]| == 1024
      requires forall k :: 0 <= k < PDX_UTOP ==> !Mmu.Valid(pages[d][k])
      modifies this`refs, this`free, this`role, this`tlb, this`owner, this`asids
      ensures Valid() && FlatNow() == old(FlatNow()) && FreedOnly(old(State()), State(), d)
      ensures owner == old(owner) - {asid} && d < |role| && role[d] == Free
    {
      hide DirsOk, TablesOk, RefsOk, FreeListOk, Coherent, FreedOnly, AsidsOk, NoGlobals;
      ReleaseDirSound(State(), tlb, owner, flat, d, asid);
      PageDecref(d);
      AsidFree(asid);
      FlushSound(State(), tlb, owner, (VPN_UVPT + PDX_UVPT, asid));
      TlbInvalidate(asid, VPN_UVPT + PDX_UVPT);
    }

    /** env_free's memory work: every user entry, every table, the directory and the ASID. */
    method EnvFree(d: nat, asid: nat)
      requires Valid() && Owns(d, asid)
      modifies this`pages, this`refs, this`free, this`role, this`tlb, this`owner, this`asids
      ensures Valid() && FlatNow() == Cleared(old(FlatNow()), d, VPN_UTOP)
      ensures FreedOnly(old(State()), State(), d) && Conserved(old(State()), State(), d)
      ensures owner == old(owner) - {asid} && d < |role| && role[d] == Free
      ensures ReservedKept(old(State()), State())
    {
      hide Layout, RefsOk, FreeListOk, Coherent, FreedOnly, AsidsOk, NoGlobals, Conserved;
      ghost var before, flat := State(), FlatNow();
      ReleaseTables(d, asid);
      ghost var here := State();
      ReleaseDir(d, asid, flat);
      FreedTrans(before, here, State(), d);
      FreeConserves(before, State(), d);
      KeptFreed(before, State(), d);
    }

    method AsidFree(asid: nat)
      requires AsidsOk(asids, owner) && asid < NASID
      modifies this`asids, this`owner
      ensures AsidsOk(asids, owner) && owner == old(owner) - {asid}
    {
      AsidTaken(asids, owner, asid, 0);
      asids := PutBit(asids, asid, false);
      owner := owner - {asid};
    }

    /** The lowest ASID not in use, now marked; the caller gives it to directory d. */
    method AsidAlloc(ghost d: nat) returns (asid: nat, ok: bool)
      requires AsidsOk(asids, owner)
      modifies this`asids, this`owner
      ensures AsidsOk(asids, owner)
      ensures ok ==> asid < NASID && asid !in old(owner) && owner == old(owner)[asid := d]
      ensures ok ==> forall a :: 0 <= a < asid ==> a in old(owner)
      ensures !ok ==> owner == old(owner) && asids == old(asids) && forall a :: 0 <= a < NASID ==> a in owner
    {
      for i := 0 to NASID
        invariant asids == old(asids) && owner == old(owner)
        invariant forall a :: 0 <= a < i ==> a in owner
      {
        if !MapBit(asids, i) {
          AsidTaken(asids, owner, i, d);
          asids := PutBit(asids, i, true);
          owner := owner[i := d];
          return i, true;
        }
      }
      return 0, false;
    }

    /** env_setup_vm: a fresh directory sharing the tables of [UTOP, UVPT) and mapping itself at UVPT. */
    method EnvSetupVm() returns (d: nat, ok: bool)
      requires Valid()
      modifies this`pages, this`refs, this`free, this`role
      ensures Valid() && FlatNow() == old(FlatNow())
      ensures ok <==> old(free) != []
      ensures !ok ==> State() == old(State())
      ensures ok ==> d == old(free)[0] < |old(role)| == |role| == |pages| && old(role)[d] == Free && |pages[d]| == 1024
      ensures ok ==> role == old(role)[d := Dir] && pages[d][PDX_UTOP..PDX_UVPT] == shared
      ensures ok ==> pages[d][PDX_UVPT] == Word(d, PTE_V)
      ensures ReservedKept(old(State()), State())
    {
      hide DirsOk, TablesOk, Coherent;
      KeptSame(State(), tlb, owner);
      if free == [] {
        return 0, false;
      }
      SetupSound(State(), tlb, owner, shared);
      SharedKept(shared, State(), AfterInstallDir(AfterAlloc(State()), free[0], shared));
      d, ok := PageAlloc();
      refs := refs[d := Inc16(refs[d])];
      pages := pages[d := pages[d][..PDX_UTOP] + shared + [Word(d, PTE_V)] + pages[d][PDX_UVPT + 1..]];
      role := role[d := Dir];
    }

    /** env_alloc's memory work. Without a free ASID the new directory stays allocated and unused. */
    method SpaceAlloc() returns (d: nat, asid: nat, r: int)
      requires Valid()
      modifies this`pages, this`refs, this`free, this`role, this`owner, this`asids
      ensures Valid() && FlatNow() == old(FlatNow())
      ensures r in {0, -E_NO_MEM, -E_NO_FREE_ENV}
      ensures r == -E_NO_MEM <==> old(free) == []
      ensures r == 0 ==> asid !in old(owner) && owner == old(owner)[asid := d] && d !in old(owner).Values
      ensures r == 0 ==> forall v: nat :: (d, v) !in FlatNow()
      ensures r != 0 ==> owner == old(owner)
      ensures r == -E_NO_FREE_ENV <==> old(free) != [] && forall a :: 0 <= a < NASID ==> a in old(owner)
      ensures ReservedKept(old(State()), State())
    {
      hide Good, Coherent, AsidsOk, ReservedKept;
      var ok;
      d, ok := EnvSetupVm();
      if !ok {
        return 0, 0, -E_NO_MEM;
      }
      FreshDirUnmapped(old(State()), tlb, old(owner), d);
      ghost var before := owner;
      asid, ok := AsidAlloc(d);
      if !ok {
        return d, 0, -E_NO_FREE_ENV;
      }
      AdoptSound(State(), tlb, before, d, asid);
      r := 0;
    }

    /** sys_mem_alloc on a resolved env. A page got from the allocator but not mapped for want of a table stays held. */
    method SysMemAlloc(d: nat, asid: nat, v: nat, perm: Word) returns (r: int)
      requires Valid() && Owns(d, asid) && !Global(perm) && (free != [] ==> Fits(perm, free[0]))
      modifies this`pages, this`refs, this`free, this`role, this`tlb
      ensures Valid()
      ensures r == -E_INVAL <==> IllegalVa(v)
      ensures r == -E_INVAL ==> State() == old(State()) && tlb == old(tlb)
      ensures r in {0, -E_INVAL, -E_NO_MEM}
      ensures r == 0 ==> Allocated(old(State()), State(), d, v, perm)
      ensures r == -E_NO_MEM ==> FlatNow() == old(FlatNow()) && free == [] && |old(free)| <= 1
      ensures !IllegalVa(v) ==>
                (r == -E_NO_MEM <==> old(free) == [] || (|old(free)| == 1 && !old(Mmu.Valid(pages[d][v / 1024]))))
      ensures !IllegalVa(v) ==> (r == -E_NO_MEM <==> NoPageLeft(old(State()), d, v))
      ensures ReservedKept(old(State()), State())
    {
      hide Good, Coherent, AsidsOk, Framed, Fits, Global, NoGlobals, ReservedKept;
      KeptSame(State(), tlb, owner);
      if IllegalVa(v) {
        return -E_INVAL;
      }
      DirShape(State(), tlb, owner, asid, v);
      ghost var before := State();
      var p, ok := PageAlloc();
      if !ok {
        return -E_NO_MEM;
      }
      HeldFresh(before, State(), tlb, owner, p);
      ghost var taken := State();
      ok := PageInsert(d, asid, p, v, perm);
      KeptTrans(before, taken, State());
      if !ok {
        return -E_NO_MEM;
      }
      AllocatedStep(before, taken, State(), p, d, v, perm);
      return 0;
    }

    /** sys_mem_map on resolved envs: the page at (sd, sv) becomes mapped at (dd, dv) as well. */
    method SysMemMap(sd: nat, sv: nat, dd: nat, dasid: nat, dv: nat, perm: Word) returns (r: int)
      requires Valid() && IsDir(role, sd) && Owns(dd, dasid)
      requires (sd, sv) in FlatNow() ==> Shareable(sd, sv, perm)
      modifies this`pages, this`refs, this`free, this`role, this`tlb
      ensures Valid()
      ensures r == -E_INVAL <==> IllegalVa(sv) || IllegalVa(dv) || (sd, sv) !in old(FlatNow())
      ensures r in {0, -E_INVAL, -E_NO_MEM}
      ensures r == -E_NO_MEM <==> !IllegalVa(sv) && !IllegalVa(dv) && (sd, sv) in old(FlatNow()) && NoTableLeft(old(State()), dd, dv)
      ensures r == 0 ==> FlatNow() == old(FlatNow())[(dd, dv) := MakePte(old(FlatNow())[(sd, sv)].ppn, perm.low)]
      ensures r == 0 ==> Framed(old(State()), State())
      ensures r != 0 ==> State() == old(State())
      ensures ReservedKept(old(State()), State())
    {
      hide DirsOk, TablesOk, FreeListOk, Coherent, AsidsOk, Framed, Fits, Global, NoGlobals, ReservedKept;
      KeptSame(State(), tlb, owner);
      if IllegalVa(sv) || IllegalVa(dv) {
        return -E_INVAL;
      }
      var p, found := PageLookup(sd, sv);
      if !found {
        return -E_INVAL;
      }
      UserOrHeld(State(), p);
      var ok := PageInsert(dd, dasid, p, dv, perm);
      r := if ok then 0 else -E_NO_MEM;
    }

    /** What page_insert needs of the page at (d, v) and of the permission for one more mapping. */
    ghost predicate Shareable(d: nat, v: nat, perm: Word)
      requires (d, v) in FlatNow()
      reads this
    {
      && |Naming(FlatNow(), FlatNow()[(d, v)].ppn)| < 0xffff
      && Fits(perm, FlatNow()[(d, v)].ppn) && !Global(perm)
    }

    /** The page part of sys_ipc_try_send: `dv` is the receiver's chosen page, or 0. The result of page_insert is
        dropped, so success is reported even when no table could be had. */
    method IpcSendPage(sd: nat, sv: nat, dd: nat, dasid: nat, dv: nat, perm: Word) returns (r: int)
      requires Valid() && IsDir(role, sd) && Owns(dd, dasid) && sv < VPN_UTOP && dv < VPN_UTOP
      requires (sd, sv) in FlatNow() ==> Shareable(sd, sv, perm)
      modifies this`pages, this`refs, this`free, this`role, this`tlb
      ensures Valid() && r == if (sd, sv) in old(FlatNow()) then 0 else -E_INVAL
      ensures r == 0 ==> PageSent(old(State()), State(), (sd, sv), (dd, dv), perm)
      ensures r == 0 && !NoTableLeft(old(State()), dd, dv) ==>
        (dd, dv) in FlatNow() && (sd, sv) in FlatNow() && FlatNow()[(dd, dv)].ppn == FlatNow()[(sd, sv)].ppn
      ensures r != 0 ==> State() == old(State())
      ensures ReservedKept(old(State()), State())
    {
      ghost var before := State();
      DirShape(before, tlb, owner, dasid, dv);
      KeptSame(before, tlb, owner);
      hide Good, FlatOf, OwnersOk, SharedOk, Coherent, AsidsOk, Framed, Fits, Global, NoGlobals, ReservedKept, PageSent, NoTableLeft;
      var p, found := PageLookup(sd, sv);
      if !found {
        return -E_INVAL;
      }
      UserOrHeld(before, p);
      var ok := PageInsert(dd, dasid, p, dv, perm);
      SentStep(before, State(), (sd, sv), (dd, dv), perm, ok);
      r := 0;
    }

    method SysMemUnmap(d: nat, asid: nat, v: nat) returns (r: int)
      requires Valid() && Owns(d, asid)
      modifies this`pages, this`refs, this`free, this`role, this`tlb
      ensures Valid() && r == if IllegalVa(v) then -E_INVAL else 0
      ensures FlatNow() == if IllegalVa(v) then old(FlatNow()) else old(FlatNow()) - {(d, v)}
      ensures r == 0 ==> RemovedOnly(old(State()), State(), d, v)
      ensures ReservedKept(old(State()), State())
    {
      hide Good, Coherent, AsidsOk, RemovedOnly, ReservedKept;
      KeptSame(State(), tlb, owner);
      if IllegalVa(v) {
        return -E_INVAL;
      }
      PageRemove(d, asid, v);
      return 0;
    }

    /** _do_tlb_refill for the running address space: look up, mapping a zeroed page if there is none, then load the
        entry into a TLB slot whose previous occupant `victim` is lost. False stands for the kernel's panics. */
    method TlbRefill(d: nat, asid: nat, v: nat, victim: (nat, nat)) returns (ok: bool)
      requires Valid() && Owns(d, asid) && v < VPN_UTOP && victim != (v, asid)
      modifies this`pages, this`refs, this`free, this`role, this`tlb
      ensures Valid()
      ensures ok <==> (d, v) in FlatNow()
      ensures ok ==> (v, asid) in tlb && tlb[(v, asid)] == FlatNow()[(d, v)]
      ensures (d, v) in old(FlatNow()) ==> ok && State() == old(State())
      ensures (d, v) !in old(FlatNow()) ==>
                (ok <==> v >= 0x3fe && v != VPN_UTOP - 2 && |old(free)| > if old(Mmu.Valid(pages[d][v / 1024])) then 0 else 1)
      ensures (d, v) !in old(FlatNow()) ==> (ok <==> !LowOrGuard(v) && !NoPageLeft(old(State()), d, v))
      ensures (d, v) !in old(FlatNow()) && ok ==>
        !LowOrGuard(v) && Allocated(old(State()), State(), d, v, Word(0, PTE_D))
      ensures ReservedKept(old(State()), State())
    {
      hide Good, Coherent, AsidsOk, Framed, Allocated, ReservedKept;
      KeptSame(State(), tlb, owner);
      var p, found := PageLookup(d, v);
      if !found {
        DirShape(State(), tlb, owner, asid, v);
        if LowOrGuard(v) {
          return false;
        }
        DemandPermission(if free == [] then 0 else free[0]);
        var r := SysMemAlloc(d, asid, v, Word(0, PTE_D));
        if r != 0 {
          return false;
        }
        AllocatedMaps(old(State()), State(), d, v, Word(0, PTE_D));
        p, found := PageLookup(d, v);
      }
      RefillSound(State(), tlb, owner, d, asid, v, victim);
      var t := TableOf(pages, d, v / 1024);
      tlb := (tlb - {victim})[(v, asid) := pages[t][v % 1024]];
      ok := true;
    }

    /** A store of the program that runs under `asid`, through the TLB entry that the MMU finds writable. */
    method Store(v: nat, a: nat, asid: nat, off: nat, w: Word)
      requires Valid() && v < VPN_UTOP && asid in owner && off < WORDS_PER_PAGE
      requires Hits(tlb, v, a, asid) && tlb[(v, a)].low & PTE_D != 0
      modifies this`pages
      ensures Valid() && FlatNow() == old(FlatNow()) && ReservedKept(old(State()), State())
      ensures (owner[asid], v) in FlatNow() && FlatNow()[(owner[asid], v)].low & PTE_D != 0
      ensures var p := FlatNow()[(owner[asid], v)].ppn;
              && p < |role| && role[p] == User && p < |old(pages)| && off < |old(pages[p])|
              && pages == SetWord(old(pages), p, off, w)
    {
      hide Good, Coherent, AsidsOk, NoGlobals, FlatOf;
      StoreSound(State(), tlb, owner, v, a, asid, off, w);
      pages := SetWord(pages, tlb[(v, a)].ppn, off, w);
    }
  }
}
