/** Live address spaces, their ASIDs and the TLB over the page tables, one kernel operation at a time
    (kern/pmap.c, kern/env.c, kern/tlb_asm.S). */
module AddressSpaces {
  import opened Mmu
  import opened PageTables
  import opened Bits

  const NASID: nat := 64

  /** TLB entries by (virtual page, ASID). */
  type Tlb = map<(nat, nat), Word>

  /** Live address spaces by ASID; no directory serves two ASIDs. */
  ghost predicate OwnersOk(owner: map<nat, nat>, role: seq<Role>) {
    && (forall a :: a in owner ==> a < NASID && IsDir(role, owner[a]))
    && (forall a, b :: a in owner && b in owner && owner[a] == owner[b] ==> a == b)
  }

  /** Every TLB entry below UTOP is the current entry of the live address space that owns its ASID. */
  ghost predicate Coherent(tlb: Tlb, owner: map<nat, nat>, flat: FlatMap) {
    forall v, a :: (v, a) in tlb && v < VPN_UTOP ==>
      a in owner && (owner[a], v) in flat && flat[(owner[a], v)] == tlb[(v, a)]
  }

  /** Once its TLB entry is flushed, a slot may change without breaking coherence. */
  lemma FlushCovers(tlb: Tlb, owner: map<nat, nat>, role: seq<Role>, flat: FlatMap, d: nat, v: nat, a: nat, w: Word)
    requires OwnersOk(owner, role) && Coherent(tlb, owner, flat) && a in owner && owner[a] == d
    ensures Coherent(tlb - {(v, a)}, owner, flat - {(d, v)})
    ensures Coherent(tlb - {(v, a)}, owner, flat[(d, v) := w])
  {
  }

  /** No user mapping carries PTE_G, which would let its TLB entry answer for every ASID. */
  ghost predicate NoGlobals(flat: FlatMap) {
    forall k {:trigger flat[k]} :: k in flat ==> !Global(flat[k])
  }

  ghost predicate Sound(m: Pool, tlb: Tlb, owner: map<nat, nat>) {
    Good(m) && OwnersOk(owner, m.role) && Coherent(tlb, owner, FlatOf(m)) && NoGlobals(FlatOf(m))
  }

  /** The MMU takes entry (v, a) for an access to v by ASID b. */
  predicate Hits(tlb: Tlb, v: nat, a: nat, b: nat) {
    (v, a) in tlb && (a == b || Global(tlb[(v, a)]))
  }

  /** Whatever entry the MMU takes for a live address space is that space's current entry. */
  ghost predicate HitsRight(tlb: Tlb, owner: map<nat, nat>, flat: FlatMap) {
    forall v: nat, a: nat, b: nat :: v < VPN_UTOP && b in owner && Hits(tlb, v, a, b) ==>
      (owner[b], v) in flat && flat[(owner[b], v)] == tlb[(v, a)]
  }

  /** In a sound state every TLB hit is right. */
  lemma SoundHits(m: Pool, tlb: Tlb, owner: map<nat, nat>)
    requires Sound(m, tlb, owner)
    ensures HitsRight(tlb, owner, FlatOf(m))
  {
    hide Good, OwnersOk;
    forall v: nat, a: nat, b: nat | v < VPN_UTOP && b in owner && Hits(tlb, v, a, b)
      ensures (owner[b], v) in FlatOf(m) && FlatOf(m)[(owner[b], v)] == tlb[(v, a)]
    {
      assert !Global(FlatOf(m)[(owner[a], v)]);
    }
  }

  /** A loaded entry with PTE_G is right for every ASID exactly when all live address spaces map the page alike. */
  lemma GlobalExact(tlb: Tlb, owner: map<nat, nat>, flat: FlatMap, v: nat, a: nat)
    requires Coherent(tlb, owner, flat) && v < VPN_UTOP && (v, a) in tlb && Global(tlb[(v, a)])
    requires forall u, b :: (u, b) in tlb && (u, b) != (v, a) ==> !Global(tlb[(u, b)])
    ensures HitsRight(tlb, owner, flat) <==>
            forall b :: b in owner ==> (owner[b], v) in flat && flat[(owner[b], v)] == tlb[(v, a)]
  {
    forall b | b in owner ensures Hits(tlb, v, a, b) {
    }
  }

  /** Contents and uses that page_insert and page_remove leave alone. */
  ghost predicate Framed(m: Pool, m': Pool) {
    && |m.role| == |m'.role| == |m.pages| == |m'.pages|
    && forall x {:trigger m'.role[x]} :: 0 <= x < |m.role| ==>
         && (m'.role[x] == Dir <==> m.role[x] == Dir)
         && (m'.role[x] == Reserved <==> m.role[x] == Reserved)
         && (m'.role[x] in {User, Held, Reserved} ==> m'.pages[x] == m.pages[x])
         && (m'.role[x] == Held ==> m.role[x] == Held)
         && (m'.role[x] == User ==> m.role[x] in {User, Held})
         && (m.role[x].Table? ==> m'.role[x] == m.role[x])
  }

  /** The entries of [UTOP, UVPT) name tables that boot code keeps, so that no one else is ever given them. */
  ghost predicate SharedOk(shared: seq<Word>, role: seq<Role>) {
    && |shared| == PDX_UVPT - PDX_UTOP
    && forall i {:trigger shared[i]} :: 0 <= i < |shared| && Mmu.Valid(shared[i]) ==>
         shared[i].ppn < |role| && role[shared[i].ppn] == Reserved
  }

  /** Reserved pages keep their use and their contents, the shared tables among them. */
  ghost predicate ReservedKept(m: Pool, m': Pool) {
    && |m.role| == |m'.role| == |m.pages| == |m'.pages|
    && forall x {:trigger m'.role[x]} {:trigger m'.pages[x]} :: 0 <= x < |m.role| && m.role[x] == Reserved ==>
         m'.role[x] == Reserved && m'.pages[x] == m.pages[x]
  }

  lemma SharedKept(shared: seq<Word>, m: Pool, m': Pool)
    requires SharedOk(shared, m.role) && ReservedKept(m, m')
    ensures SharedOk(shared, m'.role)
    ensures forall i :: 0 <= i < |shared| && Mmu.Valid(shared[i]) ==>
              shared[i].ppn < |m'.pages| == |m.pages| && m'.pages[shared[i].ppn] == m.pages[shared[i].ppn]
  {
  }

  lemma KeptTrans(m0: Pool, m1: Pool, m2: Pool)
    requires ReservedKept(m0, m1) && ReservedKept(m1, m2)
    ensures ReservedKept(m0, m2)
  {
  }

  lemma KeptFramed(m: Pool, m': Pool)
    requires Framed(m, m')
    ensures ReservedKept(m, m')
  {
  }

  lemma KeptFreed(m: Pool, m': Pool, d: nat)
    requires FreedOnly(m, m', d)
    ensures ReservedKept(m, m')
  {
  }

  lemma KeptSame(m: Pool, tlb: Tlb, owner: map<nat, nat>)
    requires Sound(m, tlb, owner)
    ensures ReservedKept(m, m)
  {
  }

  /** pgdir_walk creating the missing table of directory slot (d, i) from the head of the free list. */
  ghost predicate CanGrow(m: Pool, d: nat, i: nat) {
    && Shaped(m.pages, m.role) && |m.refs| == |m.role| && |m.free| > 0 && m.free[0] < |m.role|
    && d < |m.role| && i < WORDS_PER_PAGE && m.free[0] != d
  }

  ghost function AfterGrow(m: Pool, d: nat, i: nat): Pool
    requires CanGrow(m, d, i)
  {
    AfterInstallTable(AfterAlloc(m), d, i, m.free[0])
  }

  lemma AllocSound(m: Pool, tlb: Tlb, owner: map<nat, nat>)
    requires Sound(m, tlb, owner) && m.free != []
    ensures m.free[0] < |m.role| && m.role[m.free[0]] == Free
    ensures Sound(AfterAlloc(m), tlb, owner) && FlatOf(AfterAlloc(m)) == FlatOf(m)
    ensures ReservedKept(m, AfterAlloc(m))
  {
    assert m.free[0] in m.free;
    AllocStep(m);
  }

  lemma ReserveSound(m: Pool, tlb: Tlb, owner: map<nat, nat>, p: nat, page: seq<Word>, count: nat)
    requires Sound(m, tlb, owner) && p < |m.role| && m.role[p] in {Held, Reserved}
    requires |page| == WORDS_PER_PAGE && count < 0x1_0000
    ensures var m' := m.(pages := m.pages[p := page], refs := m.refs[p := count], role := m.role[p := Reserved]);
            Sound(m', tlb, owner) && FlatOf(m') == FlatOf(m)
  {
    ReserveStep(m, p, page, count);
  }

  lemma SoundShape(m: Pool, tlb: Tlb, owner: map<nat, nat>)
    requires Sound(m, tlb, owner)
    ensures |m.pages| == |m.role| == |m.refs| <= 0x10_0000
    ensures forall p :: 0 <= p < |m.pages| ==> |m.pages[p]| == WORDS_PER_PAGE && m.refs[p] < 0x1_0000
    ensures forall p: nat :: p in m.free <==> p < |m.role| && m.role[p] == Free
  {
    forall p | 0 <= p < |m.pages| ensures m.refs[p] < 0x1_0000 {
      assert RefOk(m, FlatOf(m), p);
    }
  }

  /** A store of the running program through a writable TLB entry goes to the page that its address space maps there,
      and changes no mapping of anyone. */
  lemma StoreSound(m: Pool, tlb: Tlb, owner: map<nat, nat>, v: nat, a: nat, b: nat, off: nat, w: Word)
    requires Sound(m, tlb, owner) && v < VPN_UTOP && b in owner && Hits(tlb, v, a, b) && off < WORDS_PER_PAGE
    ensures (owner[b], v) in FlatOf(m) && FlatOf(m)[(owner[b], v)] == tlb[(v, a)]
    ensures var p := tlb[(v, a)].ppn;
            && p < |m.role| == |m.pages| && m.role[p] == User && |m.pages[p]| == WORDS_PER_PAGE
            && var m' := m.(pages := SetWord(m.pages, p, off, w));
               Sound(m', tlb, owner) && FlatOf(m') == FlatOf(m) && ReservedKept(m, m')
  {
    SoundHits(m, tlb, owner);
    var p := tlb[(v, a)].ppn;
    UserNamed(m, (owner[b], v));
    StoreStep(m, p, m.pages[p][off := w]);
  }

  lemma GrowSound(m: Pool, tlb: Tlb, owner: map<nat, nat>, d: nat, i: nat)
    requires Sound(m, tlb, owner) && IsDir(m.role, d) && i < PDX_UTOP && !Mmu.Valid(m.pages[d][i])
    ensures m.free != [] ==>
      && CanGrow(m, d, i) && Sound(AfterGrow(m, d, i), tlb, owner) && FlatOf(AfterGrow(m, d, i)) == FlatOf(m)
      && ReservedKept(m, AfterGrow(m, d, i))
  {
    if m.free != [] {
      AllocSound(m, tlb, owner);
      InstallTableStep(AfterAlloc(m), d, i, m.free[0]);
    }
  }

  lemma GrowFramed(m: Pool, d: nat, i: nat)
    requires Good(m) && IsDir(m.role, d) && CanGrow(m, d, i)
    ensures Framed(m, AfterGrow(m, d, i))
    ensures forall p :: 0 <= p < |m.role| && m.role[p] in {User, Held} ==>
              AfterGrow(m, d, i).role[p] == m.role[p] && AfterGrow(m, d, i).refs[p] == m.refs[p]
  {
    assert m.free[0] in m.free;
  }

  ghost predicate CanUnmap(m: Pool, d: nat, v: nat) {
    && Shaped(m.pages, m.role) && |m.refs| == |m.role| && Mapped(m.pages, d, v)
    && PteOf(m.pages, d, v).ppn < |m.role| && m.refs[PteOf(m.pages, d, v).ppn] > 0
  }

  /** page_remove: nothing when v is not mapped. */
  ghost function AfterRemove(m: Pool, d: nat, v: nat): Pool {
    if CanUnmap(m, d, v) then AfterUnmap(m, d, v) else m
  }

  lemma RemoveCases(m: Pool, d: nat, v: nat)
    requires Good(m) && IsDir(m.role, d) && v < VPN_UTOP
    ensures (d, v) in FlatOf(m) <==> CanUnmap(m, d, v)
    ensures CanUnmap(m, d, v) ==> FlatOf(m)[(d, v)] == PteOf(m.pages, d, v)
  {
    FlatAt(m.pages, m.role, (d, v));
    if (d, v) in FlatOf(m) {
      UserNamed(m, (d, v));
      assert RefOk(m, FlatOf(m), PteOf(m.pages, d, v).ppn);
    }
  }

  lemma RemoveFramed(m: Pool, d: nat, v: nat)
    requires Good(m) && IsDir(m.role, d) && v < VPN_UTOP
    ensures Framed(m, AfterRemove(m, d, v))
  {
    if CanUnmap(m, d, v) {
      assert m.role[TableOf(m.pages, d, v / 1024)] == Table(d, v / 1024);
      assert m.role[PteOf(m.pages, d, v).ppn] == User;
    }
  }

  lemma OwnersFramed(owner: map<nat, nat>, m: Pool, m': Pool)
    requires OwnersOk(owner, m.role) && Framed(m, m')
    ensures OwnersOk(owner, m'.role)
  {
  }

  /** What page_remove at (d, v) leaves alone: every other page's count and use, and the directories. */
  ghost predicate RemovedOnly(m: Pool, m': Pool, d: nat, v: nat) {
    && Framed(m, m') && |m'.refs| == |m.refs| == |m.role| == |m'.role| == |m'.pages| == |m.pages|
    && (forall p {:trigger m'.role[p]} :: 0 <= p < |m.role| && !((d, v) in FlatOf(m) && FlatOf(m)[(d, v)].ppn == p) ==>
          m'.role[p] == m.role[p] && m'.refs[p] == m.refs[p])
    && (forall p {:trigger m'.role[p]} :: 0 <= p < |m.role| && m.role[p] == User ==> m'.role[p] in {User, Free})
    && (forall e {:trigger m'.pages[e]} :: 0 <= e < |m.role| && m.role[e] == Dir ==> m'.pages[e] == m.pages[e])
  }

  lemma RemovedKept(m: Pool, m': Pool, d: nat, v: nat)
    requires RemovedOnly(m, m', d, v)
    ensures ReservedKept(m, m')
  {
  }

  lemma RemoveKeeps(m: Pool, d: nat, v: nat)
    requires Good(m) && IsDir(m.role, d) && v < VPN_UTOP
    ensures RemovedOnly(m, AfterRemove(m, d, v), d, v)
  {
    RemoveCases(m, d, v);
    RemoveFramed(m, d, v);
    if CanUnmap(m, d, v) {
      assert m.role[TableOf(m.pages, d, v / 1024)] == Table(d, v / 1024);
    }
  }

  /** page_remove with its TLB flush keeps counts, layout and coherence, and takes one slot off the flat map. */
  lemma RemoveSound(m: Pool, tlb: Tlb, owner: map<nat, nat>, d: nat, a: nat, v: nat)
    requires Sound(m, tlb, owner) && a in owner && owner[a] == d && v < VPN_UTOP
    ensures (d, v) in FlatOf(m) <==> CanUnmap(m, d, v)
    ensures FlatOf(AfterRemove(m, d, v)) == FlatOf(m) - {(d, v)}
    ensures Sound(AfterRemove(m, d, v), if CanUnmap(m, d, v) then tlb - {(v, a)} else tlb, owner)
    ensures RemovedOnly(m, AfterRemove(m, d, v), d, v)
  {
    RemoveCases(m, d, v);
    RemoveKeeps(m, d, v);
    if CanUnmap(m, d, v) {
      UnmapStep(m, d, v);
      RemoveFramed(m, d, v);
      OwnersFramed(owner, m, AfterRemove(m, d, v));
      FlushCovers(tlb, owner, m.role, FlatOf(m), d, v, a, ZERO_WORD);
    }
  }

  /** page_remove leaves the directory entry of v alone, and finds something only where there is a table. */
  lemma DirEntryKept(m: Pool, m': Pool, d: nat, v: nat)
    requires Good(m) && IsDir(m.role, d) && v < VPN_UTOP
    requires m' == m || ((d, v) in FlatOf(m) && RemovedOnly(m, m', d, v))
    ensures d < |m'.pages| && |m'.pages[d]| == |m.pages[d]| == WORDS_PER_PAGE
    ensures Mmu.Valid(m'.pages[d][v / 1024]) == Mmu.Valid(m.pages[d][v / 1024])
    ensures (d, v) in FlatOf(m) ==> Mmu.Valid(m.pages[d][v / 1024])
  {
    FlatAt(m.pages, m.role, (d, v));
  }

  lemma InsertOver(flat: FlatMap, k: (nat, nat), w: Word)
    ensures (flat - {k})[k := w] == flat[k := w]
  {
  }

  lemma WalkKeeps(m: Pool, m': Pool, d: nat, v: nat, p: nat)
    requires Good(m) && IsDir(m.role, d) && v < VPN_UTOP && p < |m.role| && m.role[p] in {User, Held}
    requires m' == m || (CanGrow(m, d, v / 1024) && m' == AfterGrow(m, d, v / 1024))
    ensures Framed(m, m') && |m'.role| == |m'.refs| == |m.role| && m'.role[p] == m.role[p] && m'.refs[p] == m.refs[p]
  {
    if m' != m {
      GrowFramed(m, d, v / 1024);
    }
  }

  lemma FlushSound(m: Pool, tlb: Tlb, owner: map<nat, nat>, k: (nat, nat))
    requires Sound(m, tlb, owner)
    ensures Sound(m, tlb - {k}, owner)
  {
  }

  lemma FramedRefl(m: Pool)
    requires Good(m)
    ensures Framed(m, m)
  {
  }

  lemma FramedTrans(m0: Pool, m1: Pool, m2: Pool)
    requires Framed(m0, m1) && Framed(m1, m2)
    ensures Framed(m0, m2)
  {
  }

  lemma SoundAfter(m: Pool, m': Pool, tlb: Tlb, owner: map<nat, nat>, d: nat, v: nat, a: nat, w: Word)
    requires OwnersOk(owner, m.role) && Coherent(tlb, owner, FlatOf(m)) && a in owner && owner[a] == d
    requires NoGlobals(FlatOf(m)) && !Global(w)
    requires (v, a) !in tlb && Good(m') && Framed(m, m') && FlatOf(m') == FlatOf(m)[(d, v) := w]
    ensures Sound(m', tlb, owner)
  {
    hide Good, Global;
    OwnersFramed(owner, m, m');
    assert tlb - {(v, a)} == tlb;
    FlushCovers(tlb, owner, m.role, FlatOf(m), d, v, a, w);
  }

  lemma RemapFramed(m: Pool, d: nat, v: nat, w: Word)
    requires Layout(m.pages, m.role) && IsDir(m.role, d) && v < VPN_UTOP && Mmu.Valid(m.pages[d][v / 1024])
    requires TableOf(m.pages, d, v / 1024) < |m.pages|
    ensures Framed(m, AfterRemap(m, d, v, w))
  {
    assert m.role[TableOf(m.pages, d, v / 1024)] == Table(d, v / 1024);
  }

  lemma MapFramed(m: Pool, d: nat, v: nat, w: Word)
    requires Layout(m.pages, m.role) && IsDir(m.role, d) && v < VPN_UTOP && Mmu.Valid(m.pages[d][v / 1024])
    requires TableOf(m.pages, d, v / 1024) < |m.pages| && w.ppn < |m.role| == |m.refs| && m.role[w.ppn] in {User, Held}
    ensures Framed(m, AfterMap(m, d, v, w.ppn, w))
  {
    assert m.role[TableOf(m.pages, d, v / 1024)] == Table(d, v / 1024);
  }

  /** page_insert where the same page is already mapped. */
  lemma InsertSame(m: Pool, tlb: Tlb, owner: map<nat, nat>, d: nat, a: nat, v: nat, w: Word)
    requires Sound(m, tlb, owner) && a in owner && owner[a] == d && v < VPN_UTOP && (v, a) !in tlb
    requires (d, v) in FlatOf(m) && FlatOf(m)[(d, v)].ppn == w.ppn && Mmu.Valid(w) && !Global(w)
    ensures IsDir(m.role, d) && Shaped(m.pages, m.role) && TableOf(m.pages, d, v / 1024) < |m.pages|
    ensures var m' := AfterRemap(m, d, v, w);
            Sound(m', tlb, owner) && FlatOf(m') == FlatOf(m)[(d, v) := w] && Framed(m, m')
  {
    FlatAt(m.pages, m.role, (d, v));
    RemapStep(m, d, v, w);
    RemapFramed(m, d, v, w);
    SoundAfter(m, AfterRemap(m, d, v, w), tlb, owner, d, v, a, w);
  }

  lemma InsertFresh(m: Pool, tlb: Tlb, owner: map<nat, nat>, d: nat, a: nat, v: nat, w: Word)
    requires Sound(m, tlb, owner) && a in owner && owner[a] == d && v < VPN_UTOP
    requires Mmu.Valid(m.pages[d][v / 1024]) && (d, v) !in FlatOf(m)
    requires Mmu.Valid(w) && !Global(w) && w.ppn < |m.role| && m.role[w.ppn] in {User, Held} && m.refs[w.ppn] < 0xffff
    ensures TableOf(m.pages, d, v / 1024) < |m.pages| && Shaped(m.pages, m.role)
    ensures var m' := AfterMap(m, d, v, w.ppn, w);
            Sound(m', tlb, owner) && FlatOf(m') == FlatOf(m)[(d, v) := w] && Framed(m, m')
  {
    FlatAt(m.pages, m.role, (d, v));
    MapStep(m, d, v, w);
    MapFramed(m, d, v, w);
    assert (v, a) !in tlb;
    SoundAfter(m, AfterMap(m, d, v, w.ppn, w), tlb, owner, d, v, a, w);
  }

  /** One more mapping of a page keeps tables, counts and free list sound if and only if its 16-bit counter is not full
      and the high 20 bits of the permission lie within the page number. */
  lemma MapExact(m: Pool, d: nat, v: nat, p: Ppn, perm: Word)
    requires Good(m) && IsDir(m.role, d) && v < VPN_UTOP && Mmu.Valid(m.pages[d][v / 1024]) && !Mapped(m.pages, d, v)
    requires p < |m.role| && m.role[p] in {Held, User} && TableOf(m.pages, d, v / 1024) < |m.pages|
    ensures Good(AfterMap(m, d, v, p, EntryWord(p, perm))) <==> m.refs[p] < 0xffff && Fits(perm, p)
  {
    var w := EntryWord(p, perm);
    EntryNames(p, perm);
    hide EntryWord, Fits;
    assert RefOk(m, FlatOf(m), p);
    if m.refs[p] < 0xffff && w.ppn == p {
      MapStep(m, d, v, w);
    } else {
      MapUncounted(m, d, v, p, w);
    }
  }

  /** The count and the names of p come apart when the counter wraps or the entry names another page. */
  lemma MapUncounted(m: Pool, d: nat, v: nat, p: Ppn, w: Word)
    requires Good(m) && IsDir(m.role, d) && v < VPN_UTOP && Mmu.Valid(m.pages[d][v / 1024]) && !Mapped(m.pages, d, v)
    requires p < |m.role| && m.role[p] in {Held, User} && TableOf(m.pages, d, v / 1024) < |m.pages|
    requires Mmu.Valid(w) && (m.refs[p] == 0xffff || w.ppn != p)
    ensures !Good(AfterMap(m, d, v, p, w))
  {
    UseLayout(m.pages, m.role, p);
    WritePte(m.pages, m.role[p := User], d, v, w);
    FlatAt(m.pages, m.role, (d, v));
    UserOrHeld(m, p);
    hide Good, Layout, Mapped, SetWord, Flat;
    CountsApart(m, AfterMap(m, d, v, p, w), (d, v), w, p);
  }

  lemma CountsApart(m: Pool, m': Pool, k: (nat, nat), w: Word, p: nat)
    requires k !in FlatOf(m) && p < |m.role| == |m.refs| && (m.refs[p] == 0xffff || w.ppn != p)
    requires m.refs[p] == |Naming(FlatOf(m), p)|
    requires m'.refs == m.refs[p := Inc16(m.refs[p])] && m'.role == m.role[p := User] && FlatOf(m') == FlatOf(m)[k := w]
    ensures !Good(m')
  {
    if w.ppn != p {
      SameNames(FlatOf(m), k, w, p);
    }
    hide FlatOf, Naming;
    assert !RefOk(m', FlatOf(m'), p);
  }

  lemma SameNames(flat: FlatMap, k: (nat, nat), w: Word, p: nat)
    requires k !in flat && w.ppn != p
    ensures Naming(flat[k := w], p) == Naming(flat, p)
  {
  }

  lemma UserOrHeld(m: Pool, p: nat)
    requires Good(m) && p < |m.role| && m.role[p] in {User, Held, Free}
    ensures m.refs[p] == |Naming(FlatOf(m), p)|
  {
    assert RefOk(m, FlatOf(m), p);
    if m.role[p] != User {
      NothingNames(m, p);
    }
  }

  /** Inserting the page that is already mapped there is sound if and only if the permission adds nothing to its number. */
  lemma RemapExact(m: Pool, d: nat, v: nat, p: Ppn, perm: Word)
    requires Good(m) && IsDir(m.role, d) && v < VPN_UTOP && Mapped(m.pages, d, v) && PteOf(m.pages, d, v).ppn == p
    ensures TableOf(m.pages, d, v / 1024) < |m.pages|
    ensures Good(AfterRemap(m, d, v, EntryWord(p, perm))) <==> Fits(perm, p)
  {
    var w := EntryWord(p, perm);
    EntryNames(p, perm);
    hide EntryWord, Fits;
    WritePte(m.pages, m.role, d, v, w);
    if w.ppn == p {
      RemapStep(m, d, v, w);
    } else {
      FlatAt(m.pages, m.role, (d, v));
      UserNamed(m, (d, v));
      UserOrHeld(m, p);
      RemapUncounted(m, AfterRemap(m, d, v, w), (d, v), w, p);
    }
  }

  lemma RemapUncounted(m: Pool, m': Pool, k: (nat, nat), w: Word, p: nat)
    requires k in FlatOf(m) && FlatOf(m)[k].ppn == p != w.ppn && p < |m.role| == |m.refs| && m.role[p] == User
    requires m.refs[p] == |Naming(FlatOf(m), p)| && m'.refs == m.refs && m'.role == m.role
    requires FlatOf(m') == FlatOf(m)[k := w]
    ensures !Good(m')
  {
    NamingInsert(FlatOf(m), k, w);
    assert k in Naming(FlatOf(m), p);
    hide FlatOf, Naming;
    assert !RefOk(m', FlatOf(m'), p);
  }

  // ---- tearing an address space down

  /** The flat map once the slots of d below v have been dropped. */
  ghost function Cleared(flat: FlatMap, d: nat, v: nat): FlatMap {
    map k | k in flat && !(k.0 == d && k.1 < v) :: flat[k]
  }

  lemma ClearedNext(flat: FlatMap, d: nat, v: nat)
    ensures Cleared(flat, d, 0) == flat
    ensures Cleared(flat, d, v) - {(d, v)} == Cleared(flat, d, v + 1)
    ensures (d, v) in Cleared(flat, d, v) <==> (d, v) in flat
  {
  }

  /** Everything env_free of address space d must leave alone. */
  ghost predicate FreedOnly(m: Pool, m': Pool, d: nat) {
    && |m.role| == |m'.role| == |m.pages| == |m'.pages| == |m.refs| == |m'.refs|
    && forall x {:trigger m'.role[x]} :: 0 <= x < |m.role| ==>
         && (m.role[x] == User ==> m'.role[x] in {User, Free})
         && (m.role[x] == Free ==> m'.role[x] == Free)
         && (m.role[x].Table? && m.role[x].dir == d ==> m'.role[x] in {m.role[x], Free})
         && (m.role[x] == Dir && x == d ==> m'.role[x] in {Dir, Free})
         && (m.role[x] in {Held, Reserved} || (m.role[x] == Dir && x != d) ==>
               m'.role[x] == m.role[x] && m'.refs[x] == m.refs[x] && m'.pages[x] == m.pages[x])
         && (m.role[x].Table? && m.role[x].dir != d ==> m'.role[x] == m.role[x] && m'.refs[x] == m.refs[x])
         && (m.role[x] == User && m'.role[x] == User ==> m'.pages[x] == m.pages[x])
  }

  lemma FreedTrans(m0: Pool, m1: Pool, m2: Pool, d: nat)
    requires FreedOnly(m0, m1, d) && FreedOnly(m1, m2, d)
    ensures FreedOnly(m0, m2, d)
  {
  }

  lemma RemovedIsFreed(m: Pool, m': Pool, d: nat, v: nat)
    requires Good(m) && RemovedOnly(m, m', d, v)
    ensures FreedOnly(m, m', d)
  {
    forall x | 0 <= x < |m.role| && m.role[x] != User ensures m'.role[x] == m.role[x] && m'.refs[x] == m.refs[x] {
      if (d, v) in FlatOf(m) {
        UserNamed(m, (d, v));
      }
    }
  }

  /** Once the slots of directory entry i are dropped, its table holds no valid word. */
  lemma TableEmpty(m: Pool, flat: FlatMap, d: nat, i: nat)
    requires Good(m) && IsDir(m.role, d) && i < PDX_UTOP && Mmu.Valid(m.pages[d][i])
    requires FlatOf(m) == Cleared(flat, d, (i + 1) * 1024)
    ensures TableOf(m.pages, d, i) < |m.pages| && m.role[TableOf(m.pages, d, i)] == Table(d, i)
    ensures forall j :: 0 <= j < WORDS_PER_PAGE ==> !Mmu.Valid(m.pages[TableOf(m.pages, d, i)][j])
  {
    var t := TableOf(m.pages, d, i);
    assert m.role[t] == Table(d, i);
    forall j | 0 <= j < WORDS_PER_PAGE ensures !Mmu.Valid(m.pages[t][j]) {
      if Mmu.Valid(m.pages[t][j]) {
        EntryInFlat(m.pages, m.role, t, j);
        assert false;
      }
    }
  }

  ghost predicate CanRelease(m: Pool, d: nat, i: nat) {
    && d < |m.pages| && i < |m.pages[d]|
    && TableOf(m.pages, d, i) < |m.refs| && TableOf(m.pages, d, i) < |m.role| && m.refs[TableOf(m.pages, d, i)] > 0
  }

  lemma ReleaseSound(m: Pool, tlb: Tlb, owner: map<nat, nat>, flat: FlatMap, d: nat, i: nat)
    requires Sound(m, tlb, owner) && IsDir(m.role, d) && i < PDX_UTOP && Mmu.Valid(m.pages[d][i])
    requires FlatOf(m) == Cleared(flat, d, (i + 1) * 1024)
    ensures CanRelease(m, d, i)
    ensures Sound(AfterReleaseTable(m, d, i), tlb, owner) && FlatOf(AfterReleaseTable(m, d, i)) == FlatOf(m)
    ensures FreedOnly(m, AfterReleaseTable(m, d, i), d)
    ensures AfterReleaseTable(m, d, i).role[d] == Dir && AfterReleaseTable(m, d, i).pages[d] == m.pages[d][i := ZERO_WORD]
  {
    TableEmpty(m, flat, d, i);
    ReleaseTableStep(m, d, i);
  }

  /** A directory whose user slots are all clear can go, together with its ASID. */
  lemma ReleaseDirSound(m: Pool, tlb: Tlb, owner: map<nat, nat>, flat: FlatMap, d: nat, a: nat)
    requires Sound(m, tlb, owner) && a in owner && owner[a] == d
    requires FlatOf(m) == Cleared(flat, d, VPN_UTOP) && forall i :: 0 <= i < PDX_UTOP ==> !Mmu.Valid(m.pages[d][i])
    ensures m.refs[d] == 1
    ensures Sound(AfterDecref(m, d), tlb, owner - {a}) && FlatOf(AfterDecref(m, d)) == FlatOf(m)
    ensures FreedOnly(m, AfterDecref(m, d), d) && AfterDecref(m, d).role[d] == Free
  {
    ReleaseDirStep(m, d);
  }

  /** The entries of address space d that name page p. */
  ghost function EntriesOn(flat: FlatMap, d: nat, p: nat): set<(nat, nat)> {
    set k | k in flat && k.0 == d && flat[k].ppn == p
  }

  lemma ClearedNaming(m: Pool, d: nat, p: nat)
    ensures var flat := FlatOf(m);
            |Naming(Cleared(flat, d, VPN_UTOP), p)| == |Naming(flat, p)| - |EntriesOn(flat, d, p)|
  {
    var flat := FlatOf(m);
    forall k | k in flat ensures k.1 < VPN_UTOP {
      FlatAt(m.pages, m.role, k);
    }
    assert Naming(Cleared(flat, d, VPN_UTOP), p) == Naming(flat, p) - EntriesOn(flat, d, p);
    assert EntriesOn(flat, d, p) <= Naming(flat, p);
  }

  /** The tables of a directory disappear with it. */
  lemma TablesGone(m: Pool, m': Pool, d: nat, p: nat)
    requires Layout(m'.pages, m'.role) && FreedOnly(m, m', d) && d < |m.role| && m'.role[d] == Free
    requires p < |m.role| && m.role[p].Table? && m.role[p].dir == d
    ensures m'.role[p] == Free
  {
    if m'.role[p] != Free {
      TableHasDir(m'.pages, m'.role, p);
    }
  }

  /** The counts after env_free of d: each page lost exactly the entries that d held on it, each table of d and
      d itself lost its one reference, and the pages now on the free list are the old ones and those that reached zero. */
  ghost predicate Conserved(m: Pool, m': Pool, d: nat) {
    && |m.role| == |m'.refs| == |m.refs|
    && forall p {:trigger m'.refs[p]} :: 0 <= p < |m.role| ==>
         && (m.role[p] == User ==> m'.refs[p] == m.refs[p] - |EntriesOn(FlatOf(m), d, p)|)
         && (p == d || (m.role[p].Table? && m.role[p].dir == d) ==> m.refs[p] == 1 && m'.refs[p] == 0)
         && (p in m'.free <==> p in m.free || (m.role[p] !in {Free, Held, Reserved} && m'.refs[p] == 0))
  }

  lemma FreeConserves(m: Pool, m': Pool, d: nat)
    requires Good(m) && Good(m') && IsDir(m.role, d) && FreedOnly(m, m', d) && m'.role[d] == Free
    requires FlatOf(m') == Cleared(FlatOf(m), d, VPN_UTOP)
    ensures Conserved(m, m', d)
  {
    hide Layout;
    forall p: nat | p < |m.role|
      ensures m.role[p] == User ==> m'.refs[p] == m.refs[p] - |EntriesOn(FlatOf(m), d, p)|
      ensures p == d || (m.role[p].Table? && m.role[p].dir == d) ==> m.refs[p] == 1 && m'.refs[p] == 0
      ensures p in m'.free <==> p in m.free || (m.role[p] !in {Free, Held, Reserved} && m'.refs[p] == 0)
    {
      assert RefOk(m, FlatOf(m), p) && RefOk(m', FlatOf(m'), p);
      if m.role[p] == User {
        UserOrHeld(m, p);
        UserOrHeld(m', p);
        ClearedNaming(m, d, p);
      } else if m.role[p].Table? && m.role[p].dir == d {
        TablesGone(m, m', d, p);
      }
    }
  }

  lemma FreedRefl(m: Pool, d: nat)
    requires Good(m)
    ensures FreedOnly(m, m, d)
  {
  }

  /** The word the kernel reads through the table is the flat map's entry. */
  lemma WordInFlat(m: Pool, d: nat, i: nat, j: nat)
    requires Good(m) && IsDir(m.role, d) && i < PDX_UTOP && Mmu.Valid(m.pages[d][i]) && j < 1024
    ensures TableOf(m.pages, d, i) < |m.pages| && |m.pages[TableOf(m.pages, d, i)]| == 1024
    ensures Mmu.Valid(m.pages[TableOf(m.pages, d, i)][j]) <==> (d, i * 1024 + j) in FlatOf(m)
  {
    FlatAt(m.pages, m.role, (d, i * 1024 + j));
    assert m.role[TableOf(m.pages, d, i)] == Table(d, i);
    assert (i * 1024 + j) / 1024 == i && (i * 1024 + j) % 1024 == j;
  }

  lemma NoTableNoEntries(m: Pool, flat: FlatMap, d: nat, i: nat)
    requires Good(m) && IsDir(m.role, d) && i < PDX_UTOP && !Mmu.Valid(m.pages[d][i])
    requires FlatOf(m) == Cleared(flat, d, i * 1024)
    ensures FlatOf(m) == Cleared(flat, d, (i + 1) * 1024)
  {
    forall k | k in FlatOf(m) && k.0 == d ensures !(i * 1024 <= k.1 < (i + 1) * 1024) {
      FlatAt(m.pages, m.role, k);
    }
    assert Cleared(flat, d, (i + 1) * 1024) == Cleared(Cleared(flat, d, i * 1024), d, (i + 1) * 1024);
  }

  // ---- creating an address space

  /** asid_bitmap marks exactly the ASIDs of live address spaces. */
  ghost predicate AsidsOk(asids: seq<Word32>, owner: map<nat, nat>) {
    |asids| == 2 && forall a {:trigger MapBit(asids, a)} :: 0 <= a < NASID ==> (MapBit(asids, a) <==> a in owner)
  }

  lemma AsidTaken(asids: seq<Word32>, owner: map<nat, nat>, a: nat, d: nat)
    requires AsidsOk(asids, owner) && a < NASID
    ensures AsidsOk(PutBit(asids, a, true), owner[a := d]) && AsidsOk(PutBit(asids, a, false), owner - {a})
  {
    forall b: nat | b < NASID
      ensures MapBit(PutBit(asids, a, true), b) == (b == a || b in owner)
      ensures MapBit(PutBit(asids, a, false), b) == (b != a && b in owner)
    {
      PutBitAt(asids, a, true, b);
      PutBitAt(asids, a, false, b);
    }
  }

  lemma SetupSound(m: Pool, tlb: Tlb, owner: map<nat, nat>, shared: seq<Word>)
    requires Sound(m, tlb, owner) && m.free != [] && |shared| == PDX_UVPT - PDX_UTOP
    ensures m.free[0] < |m.role| && m.role[m.free[0]] == Free
    ensures var m' := AfterInstallDir(AfterAlloc(m), m.free[0], shared);
            Sound(m', tlb, owner) && FlatOf(m') == FlatOf(m) && ReservedKept(m, m')
  {
    AllocSound(m, tlb, owner);
    InstallDirStep(AfterAlloc(m), m.free[0], shared);
  }

  /** Handing an unused ASID to a directory that no ASID serves and that maps nothing yet. */
  lemma AdoptSound(m: Pool, tlb: Tlb, owner: map<nat, nat>, d: nat, a: nat)
    requires Sound(m, tlb, owner) && IsDir(m.role, d) && a < NASID && a !in owner
    requires forall b :: b in owner ==> owner[b] != d
    ensures Sound(m, tlb, owner[a := d])
  {
  }

  /** page_init's pool: boot pages reserved, the others on the free list, no address space. */
  lemma InitGood(m: Pool)
    requires Shaped(m.pages, m.role) && |m.refs| == |m.role| && FreeListOk(m)
    requires forall p :: 0 <= p < |m.role| ==> m.role[p] in {Free, Reserved} && m.refs[p] <= 1
    requires forall p :: 0 <= p < |m.role| && m.role[p] == Free ==> m.refs[p] == 0
    ensures Good(m) && FlatOf(m) == map[]
  {
    forall k ensures k !in FlatOf(m) {
      FlatAt(m.pages, m.role, k);
    }
    forall p: nat | p < |m.role| ensures m.refs[p] < 0x1_0000 && RefOk(m, FlatOf(m), p) {
      assert m.role[p] in {Free, Reserved};
    }
  }

  lemma FreshDirUnmapped(m: Pool, tlb: Tlb, owner: map<nat, nat>, d: nat)
    requires Sound(m, tlb, owner) && d < |m.role| && m.role[d] == Free
    ensures d !in owner.Values && forall v: nat :: (d, v) !in FlatOf(m)
  {
    forall v: nat ensures (d, v) !in FlatOf(m) {
      FlatAt(m.pages, m.role, (d, v));
    }
  }

  // ---- whole system calls

  /** A zeroed page that nothing mapped is now mapped at (d, v), and nothing else changed in the flat map. */
  ghost predicate Allocated(m: Pool, m': Pool, d: nat, v: nat, perm: Word) {
    && m.free != [] && m.free[0] < |m'.pages| && m.free[0] < 0x10_0000
    && Naming(FlatOf(m), m.free[0]) == {} && m'.pages[m.free[0]] == ZeroPage()
    && FlatOf(m') == FlatOf(m)[(d, v) := MakePte(m.free[0], perm.low)]
    && |m.role| == |m'.role| == |m.pages| == |m'.pages|
    && forall x :: 0 <= x < |m.role| && m.role[x] == User && m'.role[x] == User ==> m'.pages[x] == m.pages[x]
  }

  /** No page is left for a table that the walk to v would need. */
  ghost predicate NoTableLeft(m: Pool, d: nat, v: nat) {
    m.free == [] && d < |m.pages| && v / 1024 < |m.pages[d]| && !Mmu.Valid(m.pages[d][v / 1024])
  }

  /** No page is left to map at v, or only one and a table is wanted too. */
  ghost predicate NoPageLeft(m: Pool, d: nat, v: nat) {
    m.free == [] ||
    (|m.free| == 1 && d < |m.pages| && v / 1024 < |m.pages[d]| && !Mmu.Valid(m.pages[d][v / 1024]))
  }

  /** The page mapped at `from` is now mapped at `to` as well, unless the table for that could not be had. */
  ghost predicate PageSent(m: Pool, m': Pool, from: (nat, nat), to: (nat, nat), perm: Word) {
    from in FlatOf(m) &&
    if NoTableLeft(m, to.0, to.1) then m' == m
    else FlatOf(m') == FlatOf(m)[to := MakePte(FlatOf(m)[from].ppn, perm.low)]
  }

  lemma SentStep(m: Pool, m': Pool, from: (nat, nat), to: (nat, nat), perm: Word, ok: bool)
    requires from in FlatOf(m) && to.0 < |m.pages| && to.1 / 1024 < |m.pages[to.0]|
    requires ok <==> Mmu.Valid(m.pages[to.0][to.1 / 1024]) || m.free != []
    requires if ok then FlatOf(m') == FlatOf(m)[to := MakePte(FlatOf(m)[from].ppn, perm.low)] else m' == m
    ensures PageSent(m, m', from, to, perm)
    ensures !NoTableLeft(m, to.0, to.1) ==>
      to in FlatOf(m') && from in FlatOf(m') && FlatOf(m')[to].ppn == FlatOf(m')[from].ppn
  {
    hide FlatOf;
  }

  lemma DirShape(m: Pool, tlb: Tlb, owner: map<nat, nat>, a: nat, v: nat)
    requires Sound(m, tlb, owner) && a in owner && v < VPN_UTOP
    ensures owner[a] < |m.pages| && v / 1024 < |m.pages[owner[a]]|
  {
  }

  lemma HeldFresh(m: Pool, m1: Pool, tlb: Tlb, owner: map<nat, nat>, p: nat)
    requires Sound(m, tlb, owner) && m.free != [] && p == m.free[0] < |m.role| && m1 == AfterAlloc(m)
    ensures p < 0x10_0000 && p < |m1.role| == |m1.refs| && m1.role[p] == Held && m1.refs[p] == 0 && m1.pages[p] == ZeroPage()
    ensures Naming(FlatOf(m), p) == {}
  {
    AllocSound(m, tlb, owner);
    assert RefOk(m, FlatOf(m), p);
    NothingNames(m, p);
  }

  lemma AllocatedStep(m: Pool, m1: Pool, m2: Pool, p: Ppn, d: nat, v: nat, perm: Word)
    requires m.free != [] && p == m.free[0] < |m.role| == |m.pages| && m1 == AfterAlloc(m) && Framed(m1, m2)
    requires m1.role[p] == Held && m2.role[p] == User && m1.pages[p] == ZeroPage() && Naming(FlatOf(m), p) == {}
    requires FlatOf(m1) == FlatOf(m) && FlatOf(m2) == FlatOf(m1)[(d, v) := MakePte(p, perm.low)]
    requires m.role[p] == Free
    ensures Allocated(m, m2, d, v, perm)
  {
  }

  lemma DemandPermission(p: nat)
    ensures Fits(Word(0, PTE_D), p) && !Global(Word(0, PTE_D))
  {
    WithinZero(p, 20);
  }

  lemma AllocatedMaps(m: Pool, m': Pool, d: nat, v: nat, perm: Word)
    requires Allocated(m, m', d, v, perm)
    ensures (d, v) in FlatOf(m')
  {
  }

  /** Loading the entry that the walk finds keeps the TLB coherent. */
  lemma RefillSound(m: Pool, tlb: Tlb, owner: map<nat, nat>, d: nat, a: nat, v: nat, victim: (nat, nat))
    requires Sound(m, tlb, owner) && a in owner && owner[a] == d && v < VPN_UTOP && (d, v) in FlatOf(m)
    ensures Mapped(m.pages, d, v) && PteOf(m.pages, d, v) == FlatOf(m)[(d, v)]
    ensures Sound(m, (tlb - {victim})[(v, a) := PteOf(m.pages, d, v)], owner)
  {
    FlatAt(m.pages, m.role, (d, v));
  }
}
