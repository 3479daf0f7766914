/** Every step of the copy-on-write machine keeps its invariant. */
module CowInvariant {
  import opened Mmu
  import opened CowPerms
  import opened CowMachine

  ghost predicate SameSlots(s: System, s': System, x: nat) {
    forall v {:trigger (x, v) in s'.flat} {:trigger (x, v) in s.flat} ::
      ((x, v) in s.flat <==> (x, v) in s'.flat) && ((x, v) in s.flat ==> s'.flat[(x, v)] == s.flat[(x, v)])
  }

  /** The pages an active copy reads and writes hold what they held. */
  predicate SamePages(s: System, s': System, x: nat) {
    Runs(s, x) && s.threads[x].fault.Copying? ==>
      forall v :: v in {s.threads[x].fault.v, VPN_UCOW} && (x, v) in s.flat && s.flat[(x, v)].ppn in s.mem ==>
        s.flat[(x, v)].ppn in s'.mem && s'.mem[s.flat[(x, v)].ppn] == s.mem[s.flat[(x, v)].ppn]
  }

  predicate SameThread(s: System, s': System, x: nat) {
    x in s.threads && x in s'.threads && s'.threads[x] == s.threads[x]
  }

  /** An env whose slots, copy and fork partner a step leaves alone stays in order. */
  lemma ThreadFrame(s: System, s': System, x: nat)
    requires SameThread(s, s', x) && ThreadOk(s, x) && SameSlots(s, s', x) && SamePages(s, s', x)
    requires s.threads[x].Embryo? ==> SameThread(s, s', s.threads[x].parent)
    requires Forks(s, x) ==> SameThread(s, s', s.threads[x].fork.child) && SameSlots(s, s', s.threads[x].fork.child)
    ensures ThreadOk(s', x)
  {
    hide Writable, Cow, Library, EntryOk, Valid, ShareAsIs, CowPerm, PrivatePerm;
  }

  /** A slot (re)mapped to w keeps exclusiveness if w agrees with the other slots of its page. */
  lemma ExclusiveInsert(s: System, s': System, k: (nat, nat), w: Word)
    requires Exclusive(s) && s'.flat == s.flat[k := w]
    requires forall i, j :: i in s.flat && j in s.flat && i != k && j != k && Twins(s, i, j) ==> Twins(s', i, j)
    requires forall j :: j in s.flat && j != k && s.flat[j].ppn == w.ppn ==>
      && (Library(s.flat[j]) <==> Library(w))
      && (Writable(s.flat[j]) && !Library(s.flat[j]) ==> Twins(s', j, k))
      && (Writable(w) && !Library(w) ==> Twins(s', k, j))
    ensures Exclusive(s')
  {
    hide Writable, Library, Twins;
  }

  lemma ExclusiveSame(s: System, s': System)
    requires Exclusive(s) && s'.flat == s.flat
    requires forall i, j :: i in s.flat && j in s.flat && Twins(s, i, j) ==> Twins(s', i, j)
    ensures Exclusive(s')
  {
    hide Writable, Library, Twins;
  }

  lemma EntriesSame(s: System, s': System)
    requires EntriesOk(s) && s'.flat == s.flat && s.mem.Keys <= s'.mem.Keys && s.threads.Keys <= s'.threads.Keys
    ensures EntriesOk(s')
  {
    hide EntryOk, Valid;
  }

  lemma SlotRemoved(s: System, s': System, k: (nat, nat))
    requires EntriesOk(s) && Exclusive(s) && s'.flat == s.flat - {k} && s'.mem == s.mem && s'.threads.Keys == s.threads.Keys
    requires forall i, j :: i in s.flat && j in s.flat && i != k && j != k && Twins(s, i, j) ==> Twins(s', i, j)
    ensures EntriesOk(s') && Exclusive(s')
  {
    hide Writable, Library, Twins, EntryOk, Valid;
  }

  lemma EntryAt(s: System, k: (nat, nat))
    requires EntriesOk(s) && k in s.flat
    ensures EntryOk(s.flat[k]) && Valid(s.flat[k]) && s.flat[k].ppn in s.mem && k.1 >= VPN_UTEMP
  {
  }

  lemma EntriesInsert(s: System, s': System, k: (nat, nat), w: Word)
    requires EntriesOk(s) && s'.flat == s.flat[k := w] && s.mem.Keys <= s'.mem.Keys && s.threads.Keys <= s'.threads.Keys
    requires EntryOk(w) && Valid(w) && w.ppn in s'.mem && k.0 in s'.threads && k.1 >= VPN_UTEMP
    ensures EntriesOk(s')
  {
    hide EntryOk, Valid;
  }

  /** While it is being filled, the page at UCOW is a writable private page. */
  lemma CopyIsPrivate(s: System, e: nat)
    requires Runs(s, e) && ThreadOk(s, e) && s.threads[e].fault.Copying?
    ensures (e, VPN_UCOW) in s.flat && Writable(s.flat[(e, VPN_UCOW)]) && !Library(s.flat[(e, VPN_UCOW)])
  {
    var f := s.threads[e].fault;
    PrivatePermBits(s.flat[(e, f.v)], s.flat[(e, VPN_UCOW)].ppn);
  }

  /** A writable slot shares no page with a copy under way in another slot. */
  lemma StoreMisses(s: System, k: (nat, nat), x: nat)
    requires Exclusive(s) && k in s.flat && Writable(s.flat[k]) && EntryOk(s.flat[k]) && k.1 != VPN_UCOW
    requires Runs(s, x) && ThreadOk(s, x) && s.threads[x].fault.Copying? && (Runs(s, k.0) ==> ThreadOk(s, k.0))
    ensures (x, s.threads[x].fault.v) in s.flat && s.flat[(x, s.threads[x].fault.v)].ppn != s.flat[k].ppn
    ensures (x, VPN_UCOW) in s.flat && s.flat[(x, VPN_UCOW)].ppn != s.flat[k].ppn
  {
    hide Writable, Cow, Library, Valid;
    CopyIsPrivate(s, x);
    assert !Twins(s, k, (x, s.threads[x].fault.v));
    assert !Twins(s, (x, VPN_UCOW), k);
  }

  /** Nobody but e and its child is a partner of either. */
  lemma Partners(s: System, e: nat, c: nat, x: nat)
    requires ThreadsOk(s) && Runs(s, e) && x in s.threads && x !in {e, c}
    requires if Forks(s, e) then c == s.threads[e].fork.child else c == e || c !in s.threads
    ensures s.threads[x].Embryo? ==> s.threads[x].parent in s.threads && s.threads[x].parent !in {e, c}
    ensures Forks(s, x) ==> s.threads[x].fork.child in s.threads && s.threads[x].fork.child !in {e, c}
  {
    assert ThreadOk(s, x) && ThreadOk(s, e);
    if c in s.threads {
      assert ThreadOk(s, c);
    }
  }

  /** A step of e may move e and the child it forks; every other env keeps its slots, its copy and its partner. */
  lemma ThreadsStep(s: System, s': System, e: nat, c: nat)
    requires ThreadsOk(s) && Runs(s, e)
    requires if Forks(s, e) then c == s.threads[e].fork.child else c == e || c !in s.threads
    requires s'.threads.Keys <= s.threads.Keys + {c}
    requires forall y :: y in s.threads && y !in {e, c} ==>
      SameThread(s, s', y) && SameSlots(s, s', y) && SamePages(s, s', y)
    requires e in s'.threads && ThreadOk(s', e) && (c in s'.threads ==> ThreadOk(s', c))
    ensures ThreadsOk(s')
  {
    hide FaultOk, DupOk;
    forall x | x in s'.threads ensures ThreadOk(s', x) {
      if x !in {e, c} {
        Partners(s, e, c, x);
        assert ThreadOk(s, x);
        ThreadFrame(s, s', x);
      }
    }
  }

  predicate SameSlot(s: System, s': System, k: (nat, nat)) {
    (k in s.flat <==> k in s'.flat) && (k in s.flat ==> s'.flat[k] == s.flat[k])
  }

  /** The child that e forks, or e itself. */
  ghost function Partner(s: System, e: nat): nat
    requires Runs(s, e)
  {
    if s.threads[e].fork.Forking? then s.threads[e].fork.child else e
  }

  /** A step of e that stays out of its fork's way: only the fault handler of e is left to check. */
  lemma FaultStep(s: System, s': System, e: nat)
    requires ThreadsOk(s) && Runs(s, e) && Runs(s', e) && s'.threads[e].fork == s.threads[e].fork && FaultOk(s', e)
    requires s'.threads == s.threads[e := s'.threads[e]] && Apart(s'.threads[e])
    requires s.threads[e].fork.Forking? && !s.threads[e].fork.dup.Between? ==> SameSlot(s, s', (e, s.threads[e].fork.next))
    requires forall y :: y in s.threads && y != e ==> SameSlots(s, s', y) && SamePages(s, s', y)
    ensures ThreadsOk(s')
  {
    hide FaultOk, CowPerm, ShareAsIs;
    var c := Partner(s, e);
    assert ThreadOk(s, e) && ThreadOk(s, c);
    ThreadsStep(s, s', e, c);
  }

  lemma StoreInv(s: System, e: nat, v: nat, off: nat, w: Word)
    requires Inv(s) && Enabled(s, Store(e, v, off, w))
    ensures Inv(Next(s, Store(e, v, off, w)))
  {
    hide Writable, Cow, Library, Valid, EntryOk, FaultOk, DupOk;
    var s' := Next(s, Store(e, v, off, w));
    assert forall i, j :: Twins(s, i, j) ==> Twins(s', i, j);
    ExclusiveSame(s, s');
    forall x | x in s'.threads ensures ThreadOk(s', x) {
      assert ThreadOk(s, x) && ThreadOk(s, e);
      if Runs(s, x) && s.threads[x].fault.Copying? {
        StoreMisses(s, (e, v), x);
      }
      ThreadFrame(s, s', x);
    }
  }

  lemma EnterInv(s: System, e: nat, v: nat)
    requires Inv(s) && Enabled(s, Enter(e, v))
    ensures Inv(Next(s, Enter(e, v)))
  {
    hide Writable, Valid, PrivatePerm, Library, Cow, EntriesOk, Exclusive;
    EntryAt(s, (e, v));
    var s' := Next(s, Enter(e, v));
    EntriesSame(s, s');
    ExclusiveSame(s, s') by {
      assert forall i, j :: Twins(s, i, j) ==> Twins(s', i, j);
    }
    assert ThreadOk(s, e);
    FaultStep(s, s', e);
  }

  lemma DemandInv(s: System, e: nat, v: nat, p: Ppn)
    requires Inv(s) && Enabled(s, Demand(e, v, p))
    ensures Inv(Next(s, Demand(e, v, p)))
  {
    hide Writable, Cow, Library, Valid, EntriesOk, Exclusive, CowPerm, PrivatePerm, ShareAsIs;
    var s' := Next(s, Demand(e, v, p));
    DemandBits(p);
    EntriesInsert(s, s', (e, v), MakePte(p, PTE_D));
    ExclusiveInsert(s, s', (e, v), MakePte(p, PTE_D)) by {
      assert forall i, j :: Twins(s, i, j) ==> Twins(s', i, j);
    }
    assert ThreadOk(s, e);
    FaultStep(s, s', e);
  }

  lemma AllocCopyInv(s: System, e: nat, p: Ppn)
    requires Inv(s) && Enabled(s, AllocCopy(e, p))
    ensures Inv(Next(s, AllocCopy(e, p)))
  {
    hide Writable, Cow, Library, Valid, CowPerm, PrivatePerm, ShareAsIs, EntriesOk, Exclusive;
    var s' := Next(s, AllocCopy(e, p));
    assert ThreadOk(s, e);
    EntryAt(s, (e, s.threads[e].fault.v));
    var f := s.threads[e].fault;
    PrivatePermBits(s.flat[(e, f.v)], p);
    EntriesInsert(s, s', (e, VPN_UCOW), MakePte(p, f.perm));
    ExclusiveInsert(s, s', (e, VPN_UCOW), MakePte(p, f.perm)) by {
      assert forall i, j :: Twins(s, i, j) ==> Twins(s', i, j);
    }
    FaultStep(s, s', e);
  }

  /** The page being filled belongs to the copying env alone. */
  lemma CopyAlone(s: System, e: nat, k: (nat, nat))
    requires Exclusive(s) && Runs(s, e) && ThreadOk(s, e) && s.threads[e].fault.Copying?
    requires k in s.flat && k != (e, VPN_UCOW)
    ensures (e, VPN_UCOW) in s.flat && s.flat[k].ppn != s.flat[(e, VPN_UCOW)].ppn
  {
    hide Writable, Library;
    CopyIsPrivate(s, e);
    assert !Twins(s, (e, VPN_UCOW), k);
  }

  lemma CopyWordInv(s: System, e: nat)
    requires Inv(s) && Enabled(s, CopyWord(e))
    ensures Inv(Next(s, CopyWord(e)))
  {
    hide Writable, Cow, Library, Valid, EntryOk, CowPerm, PrivatePerm, ShareAsIs;
    var s' := Next(s, CopyWord(e));
    EntriesSame(s, s');
    ExclusiveSame(s, s') by {
      assert forall i, j :: Twins(s, i, j) ==> Twins(s', i, j);
    }
    assert ThreadOk(s, e);
    forall y | y in s.threads && y != e ensures SamePages(s, s', y) {
      if Runs(s, y) && s.threads[y].fault.Copying? {
        assert ThreadOk(s, y);
        CopyAlone(s, e, (y, s.threads[y].fault.v));
        CopyAlone(s, e, (y, VPN_UCOW));
      }
    }
    CopyAlone(s, e, (e, s.threads[e].fault.v));
    hide EntriesOk, Exclusive;
    FaultStep(s, s', e);
  }

  /** duppage is never on the page that the fault handler replaces. */
  lemma MapCopyClear(s: System, e: nat)
    requires Runs(s, e) && ThreadOk(s, e) && s.threads[e].fault.Copying?
    ensures s.threads[e].fork.Forking? && !s.threads[e].fork.dup.Between? ==> s.threads[e].fork.next != s.threads[e].fault.v
  {
    ShareBits(s.flat[(e, s.threads[e].fault.v)]);
  }

  /** The finished copy, mapped at v as well, is written by this env only. */
  lemma MapCopyExclusive(s: System, s': System, e: nat)
    requires Exclusive(s) && Runs(s, e) && ThreadOk(s, e) && s.threads[e].fault.Copying?
    requires (e, VPN_UCOW) in s.flat && s'.flat == s.flat[(e, s.threads[e].fault.v) := s.flat[(e, VPN_UCOW)]]
    requires s'.threads == s.threads[e := s.threads[e].(fault := Mapped(s.threads[e].fault.v))]
    ensures Exclusive(s')
  {
    hide Writable, Cow, Library, Valid, CowPerm, PrivatePerm;
    var f, w := s.threads[e].fault, s.flat[(e, VPN_UCOW)];
    forall j | j in s.flat && j != (e, f.v) && s.flat[j].ppn == w.ppn ensures j == (e, VPN_UCOW) {
      if j != (e, VPN_UCOW) {
        CopyAlone(s, e, j);
      }
    }
    ExclusiveInsert(s, s', (e, f.v), w) by {
      assert forall i, j :: Twins(s, i, j) ==> Twins(s', i, j);
    }
  }

  lemma MapCopyInv(s: System, e: nat)
    requires Inv(s) && Enabled(s, MapCopy(e))
    ensures Inv(Next(s, MapCopy(e)))
  {
    hide Writable, Cow, Library, Valid, CowPerm, PrivatePerm, ShareAsIs, EntryOk, EntriesOk, Exclusive;
    var s' := Next(s, MapCopy(e));
    assert ThreadOk(s, e);
    var f := s.threads[e].fault;
    EntryAt(s, (e, f.v));
    PrivatePermBits(s.flat[(e, f.v)], s.flat[(e, VPN_UCOW)].ppn);
    assert s'.flat[(e, f.v)] == s.flat[(e, VPN_UCOW)];
    EntryAt(s, (e, VPN_UCOW));
    EntriesInsert(s, s', (e, f.v), s.flat[(e, VPN_UCOW)]);
    MapCopyExclusive(s, s', e);
    MapCopyClear(s, e);
    FaultStep(s, s', e);
  }

  lemma UnmapCopyInv(s: System, e: nat)
    requires Inv(s) && Enabled(s, UnmapCopy(e))
    ensures Inv(Next(s, UnmapCopy(e)))
  {
    hide Writable, Cow, Library, Valid, EntryOk, CowPerm, PrivatePerm, ShareAsIs, EntriesOk, Exclusive;
    var s' := Next(s, UnmapCopy(e));
    assert ThreadOk(s, e);
    SlotRemoved(s, s', (e, VPN_UCOW));
    FaultStep(s, s', e);
  }

  lemma BeginTwins(s: System, e: nat, c: nat, j: (nat, nat), k: (nat, nat))
    requires Enabled(s, Begin(e, c)) && Twins(s, j, k)
    ensures Twins(Next(s, Begin(e, c)), j, k)
  {
  }

  lemma BeginInv(s: System, e: nat, c: nat)
    requires Inv(s) && Enabled(s, Begin(e, c))
    ensures Inv(Next(s, Begin(e, c)))
  {
    hide Writable, Cow, Library, Valid, EntryOk, Exclusive, Twins;
    var s' := Next(s, Begin(e, c));
    assert forall v :: (c, v) !in s.flat;
    EntriesSame(s, s');
    ExclusiveSame(s, s') by {
      forall i, j | Twins(s, i, j) ensures Twins(s', i, j) {
        BeginTwins(s, e, c, i, j);
      }
    }
    hide EntriesOk;
    assert ThreadOk(s, e);
    ThreadsStep(s, s', e, c);
  }

  lemma SkipInv(s: System, e: nat)
    requires Inv(s) && Enabled(s, Skip(e))
    ensures Inv(Next(s, Skip(e)))
  {
    hide Writable, Cow, Library, Valid, EntryOk, EntriesOk, Exclusive;
    var s' := Next(s, Skip(e));
    EntriesSame(s, s');
    ExclusiveSame(s, s') by {
      assert forall i, j :: Twins(s, i, j) ==> Twins(s', i, j);
    }
    assert ThreadOk(s, e) && ThreadOk(s, s.threads[e].fork.child);
    ThreadsStep(s, s', e, s.threads[e].fork.child);
  }

  lemma LookInv(s: System, e: nat)
    requires Inv(s) && Enabled(s, Look(e))
    ensures Inv(Next(s, Look(e)))
  {
    hide Writable, Cow, Library, Valid, EntryOk, EntriesOk, Exclusive;
    var s' := Next(s, Look(e));
    EntriesSame(s, s');
    ExclusiveSame(s, s') by {
      assert forall i, j :: Twins(s, i, j) ==> Twins(s', i, j);
    }
    assert ThreadOk(s, e) && ThreadOk(s, s.threads[e].fork.child);
    ThreadsStep(s, s', e, s.threads[e].fork.child);
  }

  lemma FinishInv(s: System, e: nat)
    requires Inv(s) && Enabled(s, Finish(e))
    ensures Inv(Next(s, Finish(e)))
  {
    hide Writable, Cow, Library, Valid, EntryOk, EntriesOk, Exclusive;
    var s' := Next(s, Finish(e));
    EntriesSame(s, s');
    assert ThreadOk(s, e) && ThreadOk(s, s.threads[e].fork.child);
    ExclusiveSame(s, s') by {
      assert forall i, j :: Twins(s, i, j) ==> Twins(s', i, j);
    }
    ThreadsStep(s, s', e, s.threads[e].fork.child);
  }

  /** The pages of a running env outside any half-done step: a writable private one has no other slot. */
  lemma AloneWhenCalm(s: System, k: (nat, nat), j: (nat, nat))
    requires Exclusive(s) && Runs(s, k.0) && ThreadOk(s, k.0) && k in s.flat && j in s.flat && j != k
    requires s.flat[j].ppn == s.flat[k].ppn && s.threads[k.0].fault == Calm
    requires Runs(s, j.0) ==> ThreadOk(s, j.0)
    ensures Library(s.flat[j]) <==> Library(s.flat[k])
    ensures Writable(s.flat[j]) ==> Library(s.flat[j])
    ensures Writable(s.flat[k]) && !Library(s.flat[k]) ==>
      s.threads[k.0].fork.Forking? && s.threads[k.0].fork.dup.Linked? && k.1 == s.threads[k.0].fork.next
      && j == (s.threads[k.0].fork.child, k.1)
  {
    hide Writable, Library, FaultOk, DupOk;
    assert !Twins(s, j, k);
  }

  /** Mapping the parent's page into the child unchanged is harmless exactly because it is read-only or library. */
  lemma ShareExclusive(s: System, s': System, e: nat)
    requires Inv(s) && InFork(s, e) && s.threads[e].fork.dup.Looked? && ShareAsIs(s.threads[e].fork.dup.perm)
    requires var f := s.threads[e].fork;
      && (e, f.next) in s.flat && s'.flat == s.flat[(f.child, f.next) := s.flat[(e, f.next)]]
      && s'.threads == s.threads[e := s.threads[e].(fork := Forking(f.child, f.next + 1, Between))]
    ensures Exclusive(s')
  {
    hide Writable, Cow, Library, Valid, ShareAsIs, CowPerm, PrivatePerm;
    var f := s.threads[e].fork;
    var w := s.flat[(e, f.next)];
    assert ThreadOk(s, e);
    ShareBits(w);
    EntryAt(s, (e, f.next));
    forall j | j in s.flat && j != (f.child, f.next) && s.flat[j].ppn == w.ppn
      ensures (Library(s.flat[j]) <==> Library(w)) && (Writable(s.flat[j]) ==> Library(s.flat[j]))
    {
      if j != (e, f.next) {
        if Runs(s, j.0) {
          assert ThreadOk(s, j.0);
        }
        AloneWhenCalm(s, (e, f.next), j);
      }
    }
    hide EntriesOk, Exclusive, ThreadsOk;
    ExclusiveInsert(s, s', (f.child, f.next), w);
  }

  lemma LinkShareInv(s: System, e: nat)
    requires Inv(s) && Enabled(s, LinkChild(e)) && ShareAsIs(s.threads[e].fork.dup.perm)
    ensures Inv(Next(s, LinkChild(e)))
  {
    hide Writable, Cow, Library, Valid, ShareAsIs, CowPerm, PrivatePerm, EntryOk, EntriesOk, Exclusive;
    var f := s.threads[e].fork;
    EntryAt(s, (e, f.next));
    var s' := Next(s, LinkChild(e));
    assert ThreadOk(s, e) && ThreadOk(s, f.child);
    SamePerm(s.flat[(e, f.next)]);
    EntriesInsert(s, s', (f.child, f.next), s.flat[(e, f.next)]);
    ShareExclusive(s, s', e);
    ThreadsStep(s, s', e, f.child);
  }

  lemma CowLinkExclusive(s: System, s': System, e: nat)
    requires Inv(s) && InFork(s, e) && s.threads[e].fork.dup.Looked? && !ShareAsIs(s.threads[e].fork.dup.perm)
    requires var f := s.threads[e].fork;
      && (e, f.next) in s.flat
      && s'.flat == s.flat[(f.child, f.next) := MakePte(s.flat[(e, f.next)].ppn, CowPerm(f.dup.perm))]
      && s'.threads == s.threads[e := s.threads[e].(fork := f.(dup := Linked(CowPerm(f.dup.perm))))]
    ensures Exclusive(s')
  {
    hide Writable, Cow, Library, Valid, ShareAsIs, CowPerm, PrivatePerm;
    var f := s.threads[e].fork;
    var w := s.flat[(e, f.next)];
    assert ThreadOk(s, e);
    ShareBits(w);
    CowPermBits(w, w.ppn);
    forall j | j in s.flat && j != (f.child, f.next) && s.flat[j].ppn == w.ppn ensures j == (e, f.next) {
      if j != (e, f.next) {
        if Runs(s, j.0) {
          assert ThreadOk(s, j.0);
        }
        AloneWhenCalm(s, (e, f.next), j);
      }
    }
    hide EntriesOk, Exclusive, ThreadsOk;
    ExclusiveInsert(s, s', (f.child, f.next), MakePte(w.ppn, CowPerm(f.dup.perm)));
  }

  lemma LinkCowInv(s: System, e: nat)
    requires Inv(s) && Enabled(s, LinkChild(e)) && !ShareAsIs(s.threads[e].fork.dup.perm)
    ensures Inv(Next(s, LinkChild(e)))
  {
    hide Writable, Cow, Library, Valid, ShareAsIs, CowPerm, PrivatePerm, EntriesOk, Exclusive;
    var f := s.threads[e].fork;
    EntryAt(s, (e, f.next));
    var s' := Next(s, LinkChild(e));
    assert ThreadOk(s, e) && ThreadOk(s, f.child);
    var w := s.flat[(e, f.next)];
    ShareBits(w);
    CowPermBits(w, w.ppn);
    EntriesInsert(s, s', (f.child, f.next), MakePte(w.ppn, CowPerm(f.dup.perm)));
    CowLinkExclusive(s, s', e);
    ThreadsStep(s, s', e, f.child);
  }

  lemma LinkParentExclusive(s: System, s': System, e: nat)
    requires Inv(s) && InFork(s, e) && s.threads[e].fork.dup.Linked?
    requires var f := s.threads[e].fork;
      && (e, f.next) in s.flat && (f.child, f.next) in s.flat
      && s'.flat == s.flat[(e, f.next) := s.flat[(f.child, f.next)]]
      && s'.threads == s.threads[e := s.threads[e].(fork := Forking(f.child, f.next + 1, Between))]
    ensures Exclusive(s')
  {
    hide Writable, Cow, Library, Valid, ShareAsIs, CowPerm, PrivatePerm;
    var f := s.threads[e].fork;
    var w := s.flat[(e, f.next)];
    assert ThreadOk(s, e);
    ShareBits(w);
    CowPermBits(w, w.ppn);
    forall j | j in s.flat && j != (e, f.next) && s.flat[j].ppn == w.ppn ensures j == (f.child, f.next) {
      if Runs(s, j.0) {
        assert ThreadOk(s, j.0);
      }
      AloneWhenCalm(s, (e, f.next), j);
    }
    hide EntriesOk, Exclusive, ThreadsOk;
    ExclusiveInsert(s, s', (e, f.next), s.flat[(f.child, f.next)]);
  }

  lemma LinkParentInv(s: System, e: nat)
    requires Inv(s) && Enabled(s, LinkParent(e))
    ensures Inv(Next(s, LinkParent(e)))
  {
    hide Writable, Cow, Library, Valid, ShareAsIs, CowPerm, PrivatePerm, EntryOk, EntriesOk, Exclusive;
    var s' := Next(s, LinkParent(e));
    var f := s.threads[e].fork;
    assert ThreadOk(s, e) && ThreadOk(s, f.child);
    EntryAt(s, (f.child, f.next));
    EntriesInsert(s, s', (e, f.next), s.flat[(f.child, f.next)]);
    LinkParentExclusive(s, s', e);
    ThreadsStep(s, s', e, f.child);
  }

  /** No step breaks the invariant. */
  lemma StepInv(s: System, l: Step)
    requires Inv(s) && Enabled(s, l)
    ensures Inv(Next(s, l))
  {
    hide Inv, Next;
    match l
    case Store(e, v, off, w) => StoreInv(s, e, v, off, w);
    case Demand(e, v, p) => DemandInv(s, e, v, p);
    case Enter(e, v) => EnterInv(s, e, v);
    case AllocCopy(e, p) => AllocCopyInv(s, e, p);
    case CopyWord(e) => CopyWordInv(s, e);
    case MapCopy(e) => MapCopyInv(s, e);
    case UnmapCopy(e) => UnmapCopyInv(s, e);
    case Begin(e, c) => BeginInv(s, e, c);
    case Skip(e) => SkipInv(s, e);
    case Look(e) => LookInv(s, e);
    case LinkChild(e) =>
      if ShareAsIs(s.threads[e].fork.dup.perm) { LinkShareInv(s, e); } else { LinkCowInv(s, e); }
    case LinkParent(e) => LinkParentInv(s, e);
    case Finish(e) => FinishInv(s, e);
  }
}
