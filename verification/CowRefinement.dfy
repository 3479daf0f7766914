/** Copy-on-write fork is indistinguishable from a fork that copies. */
module CowRefinement {
  import opened Mmu
  import opened CowPerms
  import opened CowMachine
  import opened CowInvariant

  ghost predicate SameCell(s: System, s': System, k: (nat, nat)) {
    Visible(s, k) == Visible(s', k) && (Visible(s, k) ==> CellOf(s, k) == CellOf(s', k))
  }

  lemma CellsSame(s: System, s': System)
    requires forall k :: SameCell(s, s', k)
    ensures Cells(s') == Cells(s)
  {
    hide Pending, CellOf;
    forall k ensures k in Cells(s) <==> k in Cells(s') {
      assert SameCell(s, s', k);
    }
    forall k | k in Cells(s) ensures Cells(s)[k] == Cells(s')[k] {
      assert SameCell(s, s', k);
    }
  }

  lemma CellsPut(s: System, s': System, k: (nat, nat), c: Cell)
    requires forall j :: j != k ==> SameCell(s, s', j)
    requires Visible(s', k) && CellOf(s', k) == c
    ensures Cells(s') == Cells(s)[k := c]
  {
    hide Pending, CellOf;
    forall j | j != k ensures j in Cells(s) <==> j in Cells(s') {
      assert SameCell(s, s', j);
    }
    forall j | j in Cells(s) && j != k ensures Cells(s)[j] == Cells(s')[j] {
      assert SameCell(s, s', j);
    }
  }

  lemma LibraryAt(s: System, k: (nat, nat))
    requires k in s.flat && Library(s.flat[k])
    ensures s.flat[k].ppn in LibraryPages(s)
  {
  }

  /** The library pages stay the same as long as library slots stay and new ones name known library pages. */
  lemma ObjsSame(s: System, s': System)
    requires forall k :: k in s.flat && Library(s.flat[k]) ==> k in s'.flat && s'.flat[k] == s.flat[k]
    requires forall k :: k in s'.flat && Library(s'.flat[k]) ==> s'.flat[k].ppn in LibraryPages(s)
    ensures LibraryPages(s') == LibraryPages(s)
  {
    hide Library;
    forall p | p in LibraryPages(s) ensures p in LibraryPages(s') {
      var k :| k in s.flat && Library(s.flat[k]) && s.flat[k].ppn == p;
      LibraryAt(s', k);
    }
  }

  predicate SamePlace(f: Fork, f': Fork) {
    f.Forking? == f'.Forking? && (f.Forking? ==> f.child == f'.child && f.next == f'.next)
  }

  lemma ThreadsSame(s: System, s': System)
    requires s'.threads.Keys == s.threads.Keys
    requires forall e :: e in s.threads ==>
      && s'.threads[e].Live? == s.threads[e].Live?
      && (s.threads[e].Live? ==> SamePlace(s.threads[e].fork, s'.threads[e].fork))
    ensures ForksOf(s') == ForksOf(s) && LiveOf(s') == LiveOf(s)
  {
  }

  /** A slot holding a library page never holds a private one. */
  lemma StoreObjs(s: System, e: nat, v: nat, p: nat)
    requires Inv(s) && Runs(s, e) && (e, v) in s.flat && Writable(s.flat[(e, v)]) && v != VPN_UCOW
    requires !Library(s.flat[(e, v)]) && p in LibraryPages(s)
    ensures p != s.flat[(e, v)].ppn
  {
    hide Writable, Library, EntryOk, Valid, Inv;
    var k :| k in s.flat && Library(s.flat[k]) && s.flat[k].ppn == p;
    StoreElsewhere(s, e, v, k);
  }

  lemma StoreAbs(s: System, e: nat, v: nat, off: nat, w: Word)
    requires Inv(s) && Enabled(s, Store(e, v, off, w))
    ensures EagerEnabled(Abs(s), EStore(e, v, off, w))
    ensures Abs(Next(s, Store(e, v, off, w))) == EagerNext(Abs(s), EStore(e, v, off, w))
  {
    hide Writable, Cow, Valid, Library, Inv, LibraryPages;
    var s' := Next(s, Store(e, v, off, w));
    ThreadsSame(s, s');
    ObjsSame(s, s') by {
      forall k | k in s.flat && Library(s.flat[k]) ensures s.flat[k].ppn in LibraryPages(s) {
        LibraryAt(s, k);
      }
    }
    var p := s.flat[(e, v)].ppn;
    assert Visible(s, (e, v));
    forall k | k != (e, v) || Library(s.flat[(e, v)]) ensures SameCell(s, s', k) {
      StoreElsewhere(s, e, v, k);
    }
    if Library(s.flat[(e, v)]) {
      LibraryAt(s, (e, v));
      CellsSame(s, s');
    } else {
      CellsPut(s, s', (e, v), Private(s.mem[p][off := w]));
      forall q | q in LibraryPages(s) ensures q != p {
        StoreObjs(s, e, v, q);
      }
    }
  }

  /** Another visible private slot never shows a store through (e, v). */
  lemma StoreElsewhere(s: System, e: nat, v: nat, k: (nat, nat))
    requires Inv(s) && Runs(s, e) && (e, v) in s.flat && Writable(s.flat[(e, v)]) && v != VPN_UCOW
    ensures k in s.flat && s.flat[k].ppn == s.flat[(e, v)].ppn ==> (Library(s.flat[k]) <==> Library(s.flat[(e, v)]))
    ensures k != (e, v) && Visible(s, k) && s.flat[k].ppn == s.flat[(e, v)].ppn ==> Library(s.flat[k])
  {
    hide Writable, Library, EntryOk;
    assert ThreadOk(s, e);
    if k != (e, v) && Visible(s, k) && s.flat[k].ppn == s.flat[(e, v)].ppn {
      assert ThreadOk(s, k.0);
      assert !Twins(s, (e, v), k);
    }
  }

  lemma EnterAbs(s: System, e: nat, v: nat)
    requires Inv(s) && Enabled(s, Enter(e, v))
    ensures Abs(Next(s, Enter(e, v))) == Abs(s)
  {
    hide Writable, Cow, Library, Valid, PrivatePerm, Inv;
    var s' := Next(s, Enter(e, v));
    ThreadsSame(s, s');
    CellsSame(s, s');
  }

  lemma LookAbs(s: System, e: nat)
    requires Inv(s) && Enabled(s, Look(e))
    ensures Abs(Next(s, Look(e))) == Abs(s)
  {
    hide Writable, Cow, Library, Valid, Inv;
    var s' := Next(s, Look(e));
    ThreadsSame(s, s');
    CellsSame(s, s');
  }

  lemma AllocCopyAbs(s: System, e: nat, p: Ppn)
    requires Inv(s) && Enabled(s, AllocCopy(e, p))
    ensures Abs(Next(s, AllocCopy(e, p))) == Abs(s)
  {
    hide Writable, Cow, Library, Valid, PrivatePerm, LibraryPages, Exclusive, EntriesOk;
    var s' := Next(s, AllocCopy(e, p));
    assert ThreadOk(s, e);
    PrivatePermBits(s.flat[(e, s.threads[e].fault.v)], p);
    hide Inv;
    ThreadsSame(s, s');
    CellsSame(s, s');
    forall k | k in s.flat && Library(s.flat[k]) ensures s.flat[k].ppn in LibraryPages(s) {
      LibraryAt(s, k);
    }
    ObjsSame(s, s');
    FreshNotLibrary(s, p);
  }

  lemma FreshNotLibrary(s: System, p: nat)
    requires Unused(s, p)
    ensures p !in LibraryPages(s)
  {
  }

  /** A copied word lands on a page that no visible slot and no library page shows. */
  lemma CopyWordAbs(s: System, e: nat)
    requires Inv(s) && Enabled(s, CopyWord(e))
    ensures Abs(Next(s, CopyWord(e))) == Abs(s)
  {
    hide Writable, Cow, Library, Valid, PrivatePerm, LibraryPages, EntriesOk;
    var s' := Next(s, CopyWord(e));
    assert ThreadOk(s, e);
    ThreadsSame(s, s');
    forall k | k in s.flat && k != (e, VPN_UCOW) ensures s.flat[k].ppn != s.flat[(e, VPN_UCOW)].ppn {
      CopyAlone(s, e, k);
    }
    CopyIsPrivate(s, e);
    hide Inv;
    CellsSame(s, s');
    forall k | k in s.flat && Library(s.flat[k]) ensures s.flat[k].ppn in LibraryPages(s) {
      LibraryAt(s, k);
    }
    ObjsSame(s, s');
    assert s.flat[(e, VPN_UCOW)].ppn !in LibraryPages(s) by {
      NotLibrary(s, (e, VPN_UCOW));
    }
  }

  lemma NotLibrary(s: System, k: (nat, nat))
    requires k in s.flat && !Library(s.flat[k])
    requires forall j :: j in s.flat && j != k ==> s.flat[j].ppn != s.flat[k].ppn
    ensures s.flat[k].ppn !in LibraryPages(s)
  {
  }

  lemma CopyDone(s: System, e: nat)
    requires Inv(s) && Enabled(s, MapCopy(e))
    ensures var f := s.threads[e].fault;
            && (e, f.v) in s.flat && f.v != VPN_UCOW && !Library(s.flat[(e, f.v)]) && !Library(s.flat[(e, VPN_UCOW)])
            && s.flat[(e, f.v)].ppn in s.mem && s.flat[(e, VPN_UCOW)].ppn in s.mem
            && s.flat[(e, VPN_UCOW)] == MakePte(s.flat[(e, VPN_UCOW)].ppn, f.perm)
            && s.mem[s.flat[(e, VPN_UCOW)].ppn] == s.mem[s.flat[(e, f.v)].ppn]
  {
    hide Writable, Cow, Valid, PrivatePerm, Exclusive, EntriesOk;
    assert ThreadOk(s, e);
    CopyIsPrivate(s, e);
  }

  /** Replacing the shared page by the finished copy shows the same contents. */
  lemma MapCopyAbs(s: System, e: nat)
    requires Inv(s) && Enabled(s, MapCopy(e))
    ensures Abs(Next(s, MapCopy(e))) == Abs(s)
  {
    hide Writable, Cow, Library, Valid, PrivatePerm, LibraryPages, Inv;
    var s' := Next(s, MapCopy(e));
    CopyDone(s, e);
    ThreadsSame(s, s');
    CellsSame(s, s');
    ObjsSame(s, s') by {
      forall k | k in s.flat && Library(s.flat[k]) ensures s.flat[k].ppn in LibraryPages(s) {
        LibraryAt(s, k);
      }
    }
  }

  lemma UnmapCopyAbs(s: System, e: nat)
    requires Inv(s) && Enabled(s, UnmapCopy(e))
    ensures Abs(Next(s, UnmapCopy(e))) == Abs(s)
  {
    hide Writable, Cow, Library, Valid, PrivatePerm, LibraryPages, Exclusive, EntriesOk;
    var s' := Next(s, UnmapCopy(e));
    assert ThreadOk(s, e);
    hide Inv;
    ThreadsSame(s, s');
    CellsSame(s, s');
    forall k | k in s.flat && Library(s.flat[k]) ensures s.flat[k].ppn in LibraryPages(s) {
      LibraryAt(s, k);
    }
    ObjsSame(s, s');
  }

  lemma DemandAbs(s: System, e: nat, v: nat, p: Ppn)
    requires Inv(s) && Enabled(s, Demand(e, v, p))
    ensures EagerEnabled(Abs(s), EDemand(e, v))
    ensures Abs(Next(s, Demand(e, v, p))) == EagerNext(Abs(s), EDemand(e, v))
  {
    hide Writable, Cow, Library, Valid, LibraryPages, Inv;
    var s' := Next(s, Demand(e, v, p));
    DemandBits(p);
    ThreadsSame(s, s');
    CellsPut(s, s', (e, v), Private(ZeroedPage()));
    forall k | k in s.flat && Library(s.flat[k]) ensures s.flat[k].ppn in LibraryPages(s) {
      LibraryAt(s, k);
    }
    ObjsSame(s, s');
    FreshNotLibrary(s, p);
  }

  lemma BeginPending(s: System, e: nat, c: nat, k: (nat, nat))
    requires Inv(s) && Enabled(s, Begin(e, c)) && k in s.flat
    ensures k.0 != c && Pending(s, k) == Pending(Next(s, Begin(e, c)), k)
  {
    hide Writable, Cow, Library, Valid, Exclusive, FaultOk, DupOk;
    assert k.0 in s.threads;
    assert ThreadOk(s, k.0);
  }

  /** Nobody is filling an env that does not exist yet. */
  lemma NobodysChild(s: System, c: nat)
    requires Inv(s) && c !in s.threads
    ensures forall x :: x in ForksOf(s) ==> ForksOf(s)[x].0 != c
  {
    hide Writable, Cow, Library, Valid, Exclusive, FaultOk, DupOk;
    forall x | x in ForksOf(s) ensures ForksOf(s)[x].0 != c {
      assert ThreadOk(s, x);
    }
  }

  lemma BeginAbs(s: System, e: nat, c: nat)
    requires Inv(s) && Enabled(s, Begin(e, c))
    ensures EagerEnabled(Abs(s), EBegin(e, c))
    ensures Abs(Next(s, Begin(e, c))) == EagerNext(Abs(s), EBegin(e, c))
  {
    hide Writable, Cow, Library, Valid, LibraryPages, Inv;
    NobodysChild(s, c);
    var s' := Next(s, Begin(e, c));
    forall k ensures SameCell(s, s', k) {
      if k in s.flat {
        BeginPending(s, e, c, k);
      }
    }
    CellsSame(s, s');
    ObjsUnchanged(s, s');
    assert ForksOf(s') == ForksOf(s)[e := (c, 0)];
    assert LiveOf(s') == LiveOf(s);
  }

  lemma ObjsUnchanged(s: System, s': System)
    requires s'.flat == s.flat
    ensures LibraryPages(s') == LibraryPages(s)
  {
  }

  lemma ForksMoved(s: System, s': System, e: nat)
    requires Runs(s, e) && Forks(s', e)
    requires s'.threads == s.threads[e := s'.threads[e]]
    ensures ForksOf(s') == ForksOf(s)[e := (s'.threads[e].fork.child, s'.threads[e].fork.next)]
    ensures LiveOf(s') == LiveOf(s)
  {
  }

  lemma SkipAbs(s: System, e: nat)
    requires Inv(s) && Enabled(s, Skip(e))
    ensures EagerEnabled(Abs(s), ESkip(e))
    ensures Abs(Next(s, Skip(e))) == EagerNext(Abs(s), ESkip(e))
  {
    hide Writable, Cow, Library, Valid, LibraryPages, Inv;
    var s' := Next(s, Skip(e));
    CellsSame(s, s');
    ObjsUnchanged(s, s');
    ForksMoved(s, s', e);
  }

  lemma FinishPending(s: System, e: nat, k: (nat, nat))
    requires Inv(s) && Enabled(s, Finish(e))
    ensures Pending(s, k) == Pending(Next(s, Finish(e)), k)
    ensures s.threads[e].fork.child in s.threads && s.threads[s.threads[e].fork.child].Embryo?
  {
    hide Writable, Cow, Library, Valid, Exclusive, FaultOk, DupOk, EntriesOk;
    assert ThreadOk(s, e);
    if k.0 in s.threads {
      assert ThreadOk(s, k.0);
    }
  }

  lemma FinishAbs(s: System, e: nat)
    requires Inv(s) && Enabled(s, Finish(e))
    ensures EagerEnabled(Abs(s), EFinish(e))
    ensures Abs(Next(s, Finish(e))) == EagerNext(Abs(s), EFinish(e))
  {
    hide Writable, Cow, Library, Valid, LibraryPages, Inv;
    var s' := Next(s, Finish(e));
    var c := s.threads[e].fork.child;
    forall k ensures SameCell(s, s', k) {
      FinishPending(s, e, k);
    }
    CellsSame(s, s');
    ObjsUnchanged(s, s');
    FinishPending(s, e, (e, 0));
    assert ForksOf(s') == ForksOf(s) - {e};
    assert LiveOf(s') == LiveOf(s) + {c};
  }

  lemma LinkCowAbs(s: System, e: nat)
    requires Inv(s) && Enabled(s, LinkChild(e)) && !ShareAsIs(s.threads[e].fork.dup.perm)
    ensures Abs(Next(s, LinkChild(e))) == Abs(s)
  {
    hide Writable, Cow, Library, Valid, LibraryPages, Exclusive, EntriesOk, ShareAsIs, CowPerm;
    var f := s.threads[e].fork;
    EntryAt(s, (e, f.next));
    var s' := Next(s, LinkChild(e));
    assert ThreadOk(s, e) && ThreadOk(s, f.child);
    var w := s.flat[(e, f.next)];
    ShareBits(w);
    CowPermBits(w, w.ppn);
    assert (f.child, f.next) !in s.flat;
    hide Inv;
    ThreadsSame(s, s');
    CellsSame(s, s');
    ObjsSame(s, s') by {
      forall k | k in s.flat && Library(s.flat[k]) ensures s.flat[k].ppn in LibraryPages(s) {
        LibraryAt(s, k);
      }
    }
  }

  /** The child gets the parent's entry in an empty slot. */
  lemma LinkShareCells(s: System, e: nat)
    requires Inv(s) && Enabled(s, LinkChild(e)) && ShareAsIs(s.threads[e].fork.dup.perm)
    ensures var f := s.threads[e].fork; var s' := Next(s, LinkChild(e));
            && (f.child, f.next) !in s.flat && s'.flat == s.flat[(f.child, f.next) := s.flat[(e, f.next)]]
            && s'.threads == s.threads[e := s.threads[e].(fork := f.(next := f.next + 1, dup := Between))]
            && s'.mem == s.mem && e in s.threads && f.child in s.threads
  {
    hide Writable, Cow, Library, Valid, Exclusive, EntriesOk, ShareAsIs, CowPerm, FaultOk;
    var f := s.threads[e].fork;
    assert ThreadOk(s, e) && ThreadOk(s, f.child);
    EntryAt(s, (e, f.next));
    SamePerm(s.flat[(e, f.next)]);
  }

  /** A read-only, copy-on-write or library page shared with the child shows the child what a copy would. */
  lemma LinkShareAbs(s: System, e: nat)
    requires Inv(s) && Enabled(s, LinkChild(e)) && ShareAsIs(s.threads[e].fork.dup.perm)
    ensures EagerEnabled(Abs(s), ECopy(e))
    ensures Abs(Next(s, LinkChild(e))) == EagerNext(Abs(s), ECopy(e))
  {
    hide Writable, Cow, Library, Valid, LibraryPages, Exclusive, EntriesOk, ShareAsIs, CowPerm, FaultOk;
    var f := s.threads[e].fork;
    var s' := Next(s, LinkChild(e));
    LinkShareCells(s, e);
    EntryAt(s, (e, f.next));
    hide Inv, Next;
    CellsPut(s, s', (f.child, f.next), CellOf(s, (e, f.next)));
    ForksMoved(s, s', e);
    ObjsSame(s, s') by {
      forall k | k in s.flat && Library(s.flat[k]) ensures s.flat[k].ppn in LibraryPages(s) {
        LibraryAt(s, k);
      }
    }
  }

  lemma LinkParentCells(s: System, e: nat)
    requires Inv(s) && Enabled(s, LinkParent(e))
    ensures var f := s.threads[e].fork; var s' := Next(s, LinkParent(e));
            && Visible(s, (e, f.next)) && Visible(s', (f.child, f.next))
            && CellOf(s', (f.child, f.next)) == CellOf(s, (e, f.next))
            && !Library(s.flat[(e, f.next)]) && !Library(s'.flat[(e, f.next)])
            && CellOf(s', (e, f.next)) == CellOf(s, (e, f.next))
  {
    hide Writable, Cow, Valid, Exclusive, EntriesOk, ShareAsIs, CowPerm;
    var f := s.threads[e].fork;
    assert ThreadOk(s, e) && ThreadOk(s, f.child);
    var w := s.flat[(e, f.next)];
    EntryAt(s, (e, f.next));
    ShareBits(w);
    CowPermBits(w, w.ppn);
  }

  /** Taking write permission from the parent is the moment at which the child gets its copy. */
  lemma LinkParentAbs(s: System, e: nat)
    requires Inv(s) && Enabled(s, LinkParent(e))
    ensures EagerEnabled(Abs(s), ECopy(e))
    ensures Abs(Next(s, LinkParent(e))) == EagerNext(Abs(s), ECopy(e))
  {
    hide Writable, Cow, Library, Valid, LibraryPages, Exclusive, EntriesOk, ShareAsIs, CowPerm, FaultOk, DupOk;
    var s' := Next(s, LinkParent(e));
    var f := s.threads[e].fork;
    LinkParentCells(s, e);
    assert ThreadOk(s, e);
    forall j | j != (f.child, f.next) ensures SameCell(s, s', j) {
    }
    hide Inv;
    CellsPut(s, s', (f.child, f.next), CellOf(s, (e, f.next)));
    ForksMoved(s, s', e);
    ObjsSame(s, s') by {
      forall k | k in s.flat && Library(s.flat[k]) ensures s.flat[k].ppn in LibraryPages(s) {
        LibraryAt(s, k);
      }
    }
  }

  /** Each step is a step of the eager machine, or one it does not notice. */
  lemma StepAbs(s: System, l: Step)
    requires Inv(s) && Enabled(s, l)
    ensures EagerEnabled(Abs(s), EagerOf(s, l))
    ensures Abs(Next(s, l)) == EagerNext(Abs(s), EagerOf(s, l))
  {
    hide Inv, Next, Abs;
    match l
    case Store(e, v, off, w) => StoreAbs(s, e, v, off, w);
    case Demand(e, v, p) => DemandAbs(s, e, v, p);
    case Enter(e, v) => EnterAbs(s, e, v);
    case AllocCopy(e, p) => AllocCopyAbs(s, e, p);
    case CopyWord(e) => CopyWordAbs(s, e);
    case MapCopy(e) => MapCopyAbs(s, e);
    case UnmapCopy(e) => UnmapCopyAbs(s, e);
    case Begin(e, c) => BeginAbs(s, e, c);
    case Skip(e) => SkipAbs(s, e);
    case Look(e) => LookAbs(s, e);
    case LinkChild(e) =>
      if ShareAsIs(s.threads[e].fork.dup.perm) { LinkShareAbs(s, e); } else { LinkCowAbs(s, e); }
    case LinkParent(e) => LinkParentAbs(s, e);
    case Finish(e) => FinishAbs(s, e);
  }

  // ---- whole runs

  ghost predicate CanRun(s: System, ls: seq<Step>)
    decreases |ls|
  {
    ls == [] || (Enabled(s, ls[0]) && CanRun(Next(s, ls[0]), ls[1..]))
  }

  ghost function RunOf(s: System, ls: seq<Step>): System
    requires CanRun(s, ls)
    decreases |ls|
  {
    if ls == [] then s else RunOf(Next(s, ls[0]), ls[1..])
  }

  ghost function EagerRunOf(s: System, ls: seq<Step>): seq<EagerStep>
    requires CanRun(s, ls)
    decreases |ls|
  {
    if ls == [] then [] else [EagerOf(s, ls[0])] + EagerRunOf(Next(s, ls[0]), ls[1..])
  }

  predicate EagerCanRun(a: Eager, ls: seq<EagerStep>)
    decreases |ls|
  {
    ls == [] || (EagerEnabled(a, ls[0]) && EagerCanRun(EagerNext(a, ls[0]), ls[1..]))
  }

  function EagerAfter(a: Eager, ls: seq<EagerStep>): Eager
    requires EagerCanRun(a, ls)
    decreases |ls|
  {
    if ls == [] then a else EagerAfter(EagerNext(a, ls[0]), ls[1..])
  }

  /** Over every interleaving of forks, stores and faults, the copy-on-write machine stands for the eager one. */
  lemma {:induction false} CowRefinesEager(s: System, ls: seq<Step>)
    requires Inv(s) && CanRun(s, ls)
    ensures Inv(RunOf(s, ls))
    ensures EagerCanRun(Abs(s), EagerRunOf(s, ls))
    ensures Abs(RunOf(s, ls)) == EagerAfter(Abs(s), EagerRunOf(s, ls))
    decreases |ls|
  {
    hide Inv, Abs, Next, CodeEnabled, StaleFault, EagerOf, EagerNext, EagerEnabled;
    if ls != [] {
      StepInv(s, ls[0]);
      StepAbs(s, ls[0]);
      CowRefinesEager(Next(s, ls[0]), ls[1..]);
      assert EagerRunOf(s, ls)[1..] == EagerRunOf(Next(s, ls[0]), ls[1..]);
    }
  }

  function EagerRead(a: Eager, e: nat, v: nat, off: nat): Word
    requires (e, v) in a.cells && off < WORDS_PER_PAGE && (a.cells[(e, v)].Shared? ==> a.cells[(e, v)].obj in a.objs)
  {
    match a.cells[(e, v)]
    case Private(page) => page[off]
    case Shared(o) => a.objs[o][off]
  }

  /** A running env reads in its own memory what the eager machine holds for it. */
  lemma ReadsAgree(s: System, e: nat, v: nat, off: nat)
    requires Inv(s) && Runs(s, e) && (e, v) in s.flat && v != VPN_UCOW && off < WORDS_PER_PAGE
    ensures s.flat[(e, v)].ppn in s.mem && (e, v) in Abs(s).cells
    ensures Abs(s).cells[(e, v)].Shared? ==> Abs(s).cells[(e, v)].obj in Abs(s).objs
    ensures EagerRead(Abs(s), e, v, off) == s.mem[s.flat[(e, v)].ppn][off]
  {
    hide Writable, Cow, Library, Valid, Exclusive, ThreadsOk, LibraryPages;
    EntryAt(s, (e, v));
    assert Visible(s, (e, v));
    if Library(s.flat[(e, v)]) {
      LibraryAt(s, (e, v));
    }
  }

  /** Between the steps of every fork and fault, a page mapped twice is writable only if it is library. */
  lemma SharedPagesReadOnly(s: System, j: (nat, nat), k: (nat, nat))
    requires Inv(s) && forall e :: Runs(s, e) ==> s.threads[e] == Live(Idle, Calm)
    requires j in s.flat && k in s.flat && j != k && s.flat[j].ppn == s.flat[k].ppn
    ensures Writable(s.flat[j]) ==> Library(s.flat[j]) && Library(s.flat[k])
  {
    hide Writable, Cow, Library, Valid;
    assert !Twins(s, j, k);
  }

  /** Where runs start: each writable page that is not library has one slot, pages are library in all slots or none,
      no private entry is both writable and copy-on-write, UCOW is free, and nothing is mapped below UTEMP. */
  lemma StartInv(s: System)
    requires forall e :: e in s.threads ==> s.threads[e] == Live(Idle, Calm)
    requires forall k: (nat, nat) :: k in s.flat ==>
      EntryOk(s.flat[k]) && Valid(s.flat[k]) && s.flat[k].ppn in s.mem && k.0 in s.threads && k.1 != VPN_UCOW &&
      k.1 >= VPN_UTEMP
    requires forall j, k :: j in s.flat && k in s.flat && s.flat[j].ppn == s.flat[k].ppn ==>
      (Library(s.flat[j]) <==> Library(s.flat[k])) && (Writable(s.flat[j]) && !Library(s.flat[j]) ==> j == k)
    ensures Inv(s)
  {
    hide Writable, Cow, Library, Valid, EntryOk;
    forall e | e in s.threads ensures ThreadOk(s, e) {
      assert s.threads[e] == Live(Idle, Calm);
    }
  }
}
