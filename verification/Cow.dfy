/** Permission bits as copy-on-write fork reads and writes them (user/lib/fork.c). */
module CowPerms {
  import opened Mmu

  predicate Writable(w: Word) {
    w.low & PTE_D != 0
  }

  predicate Cow(w: Word) {
    w.low & PTE_COW != 0
  }

  predicate Library(w: Word) {
    w.low & PTE_LIBRARY != 0
  }

  /** duppage's test for mapping a page into the child with the parent's own permission. */
  predicate ShareAsIs(perm: bv12) {
    perm & PTE_D == 0 || perm & PTE_LIBRARY == PTE_LIBRARY || perm & PTE_COW == PTE_COW
  }

  /** duppage: `perm |= PTE_COW; perm &= ~PTE_D`. */
  function CowPerm(perm: bv12): bv12 {
    (perm | PTE_COW) & !PTE_D
  }

  /** cow_entry: `(perm & ~PTE_COW) | PTE_D`. */
  function PrivatePerm(perm: bv12): bv12 {
    (perm & !PTE_COW) | PTE_D
  }

  /** A private entry is not writable and copy-on-write at once. */
  predicate EntryOk(w: Word) {
    Cow(w) && Writable(w) ==> Library(w)
  }

  lemma SamePerm(w: Word)
    requires Valid(w)
    ensures MakePte(w.ppn, w.low) == w
  {
  }

  lemma CowPermBits(w: Word, p: Ppn)
    requires !Library(w)
    ensures !Writable(MakePte(p, CowPerm(w.low))) && Cow(MakePte(p, CowPerm(w.low)))
    ensures !Library(MakePte(p, CowPerm(w.low)))
  {
  }

  lemma PrivatePermBits(w: Word, p: Ppn)
    requires !Library(w)
    ensures Writable(MakePte(p, PrivatePerm(w.low))) && !Cow(MakePte(p, PrivatePerm(w.low)))
    ensures !Library(MakePte(p, PrivatePerm(w.low)))
  {
  }

  lemma ShareBits(w: Word)
    ensures ShareAsIs(w.low) <==> !Writable(w) || Library(w) || Cow(w)
  {
  }

  /** duppage and cow_entry touch no bits but these two. */
  lemma OtherBits(perm: bv12)
    ensures CowPerm(perm) & !(PTE_COW | PTE_D) == perm & !(PTE_COW | PTE_D)
    ensures PrivatePerm(perm) & !(PTE_COW | PTE_D) == perm & !(PTE_COW | PTE_D)
    ensures CowPerm(perm) & (PTE_COW | PTE_D) == PTE_COW && PrivatePerm(perm) & (PTE_COW | PTE_D) == PTE_D
  {
  }

  lemma DemandBits(p: Ppn)
    ensures var w := MakePte(p, PTE_D); Writable(w) && !Cow(w) && !Library(w)
  {
  }
}

/** Forking envs, their stores and their copy-on-write faults, one system call, store or copied word at a time. */
module CowMachine {
  import opened Mmu
  import opened CowPerms

  type Page = p: seq<Word> | |p| == WORDS_PER_PAGE witness seq(WORDS_PER_PAGE, _ => ZERO_WORD)

  /** Where duppage stands on page `next`: not begun, permission read, or mapped into the child but not yet remapped. */
  datatype Dup = Between | Looked(perm: bv12) | Linked(perm: bv12)

  datatype Fork = Idle | Forking(child: nat, next: nat, dup: Dup)

  /** Where cow_entry stands on faulting page v. */
  datatype Fault = Calm | Entered(v: nat, perm: bv12) | Copying(v: nat, perm: bv12, done: nat) | Mapped(v: nat)

  /** An env still being built by the fork of `parent`, or one that runs. */
  datatype Thread = Embryo(parent: nat) | Live(fork: Fork, fault: Fault)

  /** Mappings by (env, virtual page), page contents, and where each env's code stands. */
  datatype System = System(flat: FlatMap, mem: map<nat, Page>, threads: map<nat, Thread>)

  datatype Step =
    | Store(e: nat, v: nat, off: nat, w: Word)
    | Demand(e: nat, v: nat, p: Ppn)
    | Enter(e: nat, v: nat)
    | AllocCopy(e: nat, p: Ppn)
    | CopyWord(e: nat)
    | MapCopy(e: nat)
    | UnmapCopy(e: nat)
    | Begin(e: nat, c: nat)
    | Skip(e: nat)
    | Look(e: nat)
    | LinkChild(e: nat)
    | LinkParent(e: nat)
    | Finish(e: nat)

  predicate Runs(s: System, e: nat) {
    e in s.threads && s.threads[e].Live?
  }

  predicate Forks(s: System, e: nat) {
    Runs(s, e) && s.threads[e].fork.Forking?
  }

  /** e runs fork code: no fault handler is active and page `next` is still to be visited. */
  predicate InFork(s: System, e: nat) {
    Forks(s, e) && s.threads[e].fault == Calm && s.threads[e].fork.next < VPN_USTACKTOP
  }

  predicate Unused(s: System, p: nat) {
    forall k :: k in s.flat ==> s.flat[k].ppn != p
  }

  /** Which steps env code can take. Pages below UTEMP and the guard page over the stack are never filled on demand. */
  ghost predicate CodeEnabled(s: System, l: Step) {
    match l
    case Store(e, v, off, w) =>
      && Runs(s, e) && (e, v) in s.flat && v != VPN_UCOW && off < WORDS_PER_PAGE && Writable(s.flat[(e, v)])
      && s.flat[(e, v)].ppn in s.mem
      && (s.threads[e].fault == Calm || (v >= VPN_USTACKTOP && s.threads[e].fault.v != v))
    case Demand(e, v, p) =>
      && Runs(s, e) && s.threads[e].fault == Calm && (e, v) !in s.flat && v != VPN_UCOW && Unused(s, p)
      && VPN_UTEMP <= v < VPN_UTOP && v != VPN_USTACKTOP
    case Enter(e, v) =>
      && Runs(s, e) && s.threads[e].fault == Calm && (e, v) in s.flat && v != VPN_UCOW
      && Cow(s.flat[(e, v)]) && !Writable(s.flat[(e, v)])
    case AllocCopy(e, p) =>
      Runs(s, e) && s.threads[e].fault.Entered? && Unused(s, p)
    case CopyWord(e) =>
      && Runs(s, e) && s.threads[e].fault.Copying? && s.threads[e].fault.done < WORDS_PER_PAGE
      && (e, s.threads[e].fault.v) in s.flat && s.flat[(e, s.threads[e].fault.v)].ppn in s.mem
      && (e, VPN_UCOW) in s.flat && s.flat[(e, VPN_UCOW)].ppn in s.mem
    case MapCopy(e) =>
      && Runs(s, e) && s.threads[e].fault.Copying? && s.threads[e].fault.done == WORDS_PER_PAGE
      && (e, VPN_UCOW) in s.flat
    case UnmapCopy(e) =>
      Runs(s, e) && s.threads[e].fault.Mapped?
    case Begin(e, c) =>
      Runs(s, e) && s.threads[e] == Live(Idle, Calm) && c !in s.threads
    case Skip(e) =>
      InFork(s, e) && s.threads[e].fork.dup == Between && (e, s.threads[e].fork.next) !in s.flat
    case Look(e) =>
      InFork(s, e) && s.threads[e].fork.dup == Between && (e, s.threads[e].fork.next) in s.flat
    case LinkChild(e) =>
      InFork(s, e) && s.threads[e].fork.dup.Looked? && (e, s.threads[e].fork.next) in s.flat
    case LinkParent(e) =>
      InFork(s, e) && s.threads[e].fork.dup.Linked? && (e, s.threads[e].fork.next) in s.flat
    case Finish(e) =>
      && Forks(s, e) && s.threads[e].fault == Calm && s.threads[e].fork.next == VPN_USTACKTOP
      && s.threads[e].fork.dup == Between
  }

  /** A fault on the very page whose permission duppage has just read. */
  predicate StaleFault(s: System, l: Step) {
    l.Enter? && Forks(s, l.e) && s.threads[l.e].fork.next == l.v && s.threads[l.e].fork.dup.Looked?
  }

  /** A fault on a page that is library and copy-on-write at once: cow_entry does not look at PTE_LIBRARY. */
  predicate LibraryFault(s: System, l: Step) {
    l.Enter? && (l.e, l.v) in s.flat && Library(s.flat[(l.e, l.v)])
  }

  /** The steps under which copy-on-write works. */
  ghost predicate Enabled(s: System, l: Step) {
    CodeEnabled(s, l) && !StaleFault(s, l) && !LibraryFault(s, l)
  }

  function WithFault(s: System, e: nat, f: Fault): System
    requires Runs(s, e)
  {
    s.(threads := s.threads[e := s.threads[e].(fault := f)])
  }

  function WithFork(s: System, e: nat, f: Fork): System
    requires Runs(s, e)
  {
    s.(threads := s.threads[e := s.threads[e].(fork := f)])
  }

  function ZeroedPage(): Page {
    seq(WORDS_PER_PAGE, _ => ZERO_WORD)
  }

  ghost function Next(s: System, l: Step): System
    requires CodeEnabled(s, l)
  {
    match l
    case Store(e, v, off, w) =>
      var p := s.flat[(e, v)].ppn;
      s.(mem := s.mem[p := s.mem[p][off := w]])
    case Demand(e, v, p) =>
      s.(flat := s.flat[(e, v) := MakePte(p, PTE_D)], mem := s.mem[p := ZeroedPage()])
    case Enter(e, v) =>
      WithFault(s, e, Entered(v, PrivatePerm(s.flat[(e, v)].low)))
    case AllocCopy(e, p) =>
      var f := s.threads[e].fault;
      WithFault(s.(flat := s.flat[(e, VPN_UCOW) := MakePte(p, f.perm)], mem := s.mem[p := ZeroedPage()]),
                e, Copying(f.v, f.perm, 0))
    case CopyWord(e) =>
      var f := s.threads[e].fault;
      var from, to := s.flat[(e, f.v)].ppn, s.flat[(e, VPN_UCOW)].ppn;
      WithFault(s.(mem := s.mem[to := s.mem[to][f.done := s.mem[from][f.done]]]), e, f.(done := f.done + 1))
    case MapCopy(e) =>
      var f := s.threads[e].fault;
      WithFault(s.(flat := s.flat[(e, f.v) := MakePte(s.flat[(e, VPN_UCOW)].ppn, f.perm)]), e, Mapped(f.v))
    case UnmapCopy(e) =>
      WithFault(s.(flat := s.flat - {(e, VPN_UCOW)}), e, Calm)
    case Begin(e, c) =>
      var s1 := WithFork(s, e, Forking(c, 0, Between));
      s1.(threads := s1.threads[c := Embryo(e)])
    case Skip(e) =>
      var f := s.threads[e].fork;
      WithFork(s, e, f.(next := f.next + 1))
    case Look(e) =>
      var f := s.threads[e].fork;
      WithFork(s, e, f.(dup := Looked(s.flat[(e, f.next)].low)))
    case LinkChild(e) =>
      var f := s.threads[e].fork;
      var p, perm := s.flat[(e, f.next)].ppn, f.dup.perm;
      if f.next < VPN_UTEMP then  // sys_mem_map refuses such addresses, and duppage does not look at its result
        WithFork(s, e, Forking(f.child, f.next + 1, Between))
      else if ShareAsIs(perm) then
        WithFork(s.(flat := s.flat[(f.child, f.next) := MakePte(p, perm)]), e, Forking(f.child, f.next + 1, Between))
      else
        WithFork(s.(flat := s.flat[(f.child, f.next) := MakePte(p, CowPerm(perm))]),
                 e, f.(dup := Linked(CowPerm(perm))))
    case LinkParent(e) =>
      var f := s.threads[e].fork;
      WithFork(s.(flat := s.flat[(e, f.next) := MakePte(s.flat[(e, f.next)].ppn, f.dup.perm)]),
               e, Forking(f.child, f.next + 1, Between))
    case Finish(e) =>
      var c := s.threads[e].fork.child;
      var s1 := WithFork(s, e, Idle);
      s1.(threads := s1.threads[c := Live(Idle, Calm)])
  }

  // ---- what every step keeps

  ghost predicate EntriesOk(s: System) {
    forall k: (nat, nat) :: k in s.flat ==>
      EntryOk(s.flat[k]) && Valid(s.flat[k]) && s.flat[k].ppn in s.mem && k.0 in s.threads && k.1 >= VPN_UTEMP
  }

  /** The two slots of one writable private page that a half-done step may leave: cow_entry's new page at v and UCOW,
      or duppage's page already mapped into the child and still writable in the parent. */
  predicate Twins(s: System, j: (nat, nat), k: (nat, nat)) {
    Runs(s, j.0) && (CopyTwins(s, j, k) || ForkTwins(s, j, k))
  }

  predicate CopyTwins(s: System, j: (nat, nat), k: (nat, nat))
    requires Runs(s, j.0)
  {
    && j.0 == k.0 && s.threads[j.0].fault.Mapped?
    && ((j.1 == VPN_UCOW && k.1 == s.threads[j.0].fault.v) || (k.1 == VPN_UCOW && j.1 == s.threads[j.0].fault.v))
  }

  predicate ForkTwins(s: System, j: (nat, nat), k: (nat, nat))
    requires Runs(s, j.0)
  {
    && s.threads[j.0].fork.Forking? && s.threads[j.0].fork.dup.Linked?
    && j.1 == s.threads[j.0].fork.next && k == (s.threads[j.0].fork.child, j.1)
  }

  /** A page is library in all its slots or in none, and a page mapped twice is not writable unless it is library. */
  ghost predicate Exclusive(s: System) {
    forall j, k :: j in s.flat && k in s.flat && j != k && s.flat[j].ppn == s.flat[k].ppn ==>
      && (Library(s.flat[j]) <==> Library(s.flat[k]))
      && (Writable(s.flat[j]) && !Library(s.flat[j]) ==> Twins(s, j, k))
  }

  /** The page a fault handler is working on: still the shared, read-only one. */
  predicate Source(s: System, e: nat, v: nat, perm: bv12) {
    && v != VPN_UCOW && (e, v) in s.flat && Cow(s.flat[(e, v)]) && !Writable(s.flat[(e, v)])
    && !Library(s.flat[(e, v)]) && perm == PrivatePerm(s.flat[(e, v)].low)
  }

  ghost predicate FaultOk(s: System, e: nat)
    requires Runs(s, e)
  {
    match s.threads[e].fault
    case Calm => (e, VPN_UCOW) !in s.flat
    case Entered(v, perm) => Source(s, e, v, perm) && (e, VPN_UCOW) !in s.flat
    case Copying(v, perm, done) =>
      && Source(s, e, v, perm) && (e, VPN_UCOW) in s.flat && done <= WORDS_PER_PAGE
      && s.flat[(e, VPN_UCOW)].low == perm | PTE_V
      && s.flat[(e, v)].ppn in s.mem && s.flat[(e, VPN_UCOW)].ppn in s.mem
      && forall i :: 0 <= i < done ==> s.mem[s.flat[(e, VPN_UCOW)].ppn][i] == s.mem[s.flat[(e, v)].ppn][i]
    case Mapped(v) =>
      && v != VPN_UCOW && (e, v) in s.flat && (e, VPN_UCOW) in s.flat
      && s.flat[(e, v)] == s.flat[(e, VPN_UCOW)] && !Library(s.flat[(e, v)])
  }

  predicate DupOk(s: System, e: nat, c: nat, n: nat, dup: Dup) {
    match dup
    case Between => true
    case Looked(perm) => n < VPN_USTACKTOP && n != VPN_UCOW && (e, n) in s.flat && s.flat[(e, n)].low == perm
    case Linked(perm) =>
      && n < VPN_USTACKTOP && n != VPN_UCOW && (e, n) in s.flat && (c, n) in s.flat
      && !ShareAsIs(s.flat[(e, n)].low) && perm == CowPerm(s.flat[(e, n)].low)
      && s.flat[(c, n)] == MakePte(s.flat[(e, n)].ppn, perm)
  }

  /** No fault handler is replacing the page whose permission duppage has just read. */
  predicate Apart(t: Thread)
    requires t.Live?
  {
    t.fault.Calm? || !(t.fork.Forking? && t.fork.dup.Looked? && t.fork.next == t.fault.v)
  }

  ghost predicate ForkOk(s: System, e: nat)
    requires Runs(s, e)
  {
    match s.threads[e].fork
    case Idle => true
    case Forking(c, n, dup) =>
      && c in s.threads && s.threads[c] == Embryo(e) && n <= VPN_USTACKTOP
      && DupOk(s, e, c, n, dup) && Apart(s.threads[e])
  }

  /** A child under construction belongs to one running fork and holds only pages already visited. */
  ghost predicate EmbryoOk(s: System, c: nat)
    requires c in s.threads && s.threads[c].Embryo?
  {
    var e := s.threads[c].parent;
    && Forks(s, e) && s.threads[e].fork.child == c
    && forall v :: (c, v) in s.flat ==>
         v != VPN_UCOW && (v < s.threads[e].fork.next || (v == s.threads[e].fork.next && s.threads[e].fork.dup.Linked?))
  }

  ghost predicate ThreadsOk(s: System) {
    forall e :: e in s.threads ==> ThreadOk(s, e)
  }

  ghost predicate ThreadOk(s: System, e: nat)
    requires e in s.threads
  {
    if s.threads[e].Embryo? then EmbryoOk(s, e) else FaultOk(s, e) && ForkOk(s, e)
  }

  ghost predicate Inv(s: System) {
    EntriesOk(s) && Exclusive(s) && ThreadsOk(s)
  }

  // ---- the eager fork

  /** What a slot holds: a page of its own, or a library page shared by name. */
  datatype Cell = Private(page: Page) | Shared(obj: nat)

  /** A machine in which fork copies: (child, next page to visit) for each env inside fork, and the envs that run. */
  datatype Eager = Eager(cells: map<(nat, nat), Cell>, objs: map<nat, Page>, forks: map<nat, (nat, nat)>, live: set<nat>)

  datatype EagerStep =
    | Stutter
    | EStore(e: nat, v: nat, off: nat, w: Word)
    | EDemand(e: nat, v: nat)
    | EBegin(e: nat, c: nat)
    | ESkip(e: nat)
    | ECopy(e: nat)
    | EFinish(e: nat)

  predicate EagerEnabled(a: Eager, l: EagerStep) {
    match l
    case Stutter => true
    case EStore(e, v, off, w) =>
      && e in a.live && (e, v) in a.cells && off < WORDS_PER_PAGE
      && (a.cells[(e, v)].Shared? ==> a.cells[(e, v)].obj in a.objs)
    case EDemand(e, v) => e in a.live && (e, v) !in a.cells
    case EBegin(e, c) => e in a.live && e !in a.forks && c !in a.live && forall x :: x in a.forks ==> a.forks[x].0 != c
    case ESkip(e) => e in a.forks && a.forks[e].1 < VPN_USTACKTOP && (e, a.forks[e].1) !in a.cells
    case ECopy(e) => e in a.forks && a.forks[e].1 < VPN_USTACKTOP && (e, a.forks[e].1) in a.cells
    case EFinish(e) => e in a.forks && a.forks[e].1 == VPN_USTACKTOP
  }

  /** Fork visits every page below USTACKTOP and gives the child its own copy of it, or the same library page. */
  function EagerNext(a: Eager, l: EagerStep): Eager
    requires EagerEnabled(a, l)
  {
    match l
    case Stutter => a
    case EStore(e, v, off, w) =>
      (match a.cells[(e, v)]
       case Private(page) => a.(cells := a.cells[(e, v) := Private(page[off := w])])
       case Shared(o) => a.(objs := a.objs[o := a.objs[o][off := w]]))
    case EDemand(e, v) => a.(cells := a.cells[(e, v) := Private(ZeroedPage())])
    case EBegin(e, c) => a.(forks := a.forks[e := (c, 0)])
    case ESkip(e) => a.(forks := a.forks[e := (a.forks[e].0, a.forks[e].1 + 1)])
    case ECopy(e) =>
      var (c, n) := a.forks[e];
      a.(cells := a.cells[(c, n) := a.cells[(e, n)]], forks := a.forks[e := (c, n + 1)])
    case EFinish(e) => a.(forks := a.forks - {e}, live := a.live + {a.forks[e].0})
  }

  /** The child's slot that duppage has mapped but not yet made independent of the parent's writes. */
  predicate Pending(s: System, k: (nat, nat)) {
    && k.0 in s.threads && s.threads[k.0].Embryo? && Forks(s, s.threads[k.0].parent)
    && s.threads[s.threads[k.0].parent].fork.dup.Linked? && s.threads[s.threads[k.0].parent].fork.next == k.1
  }

  predicate Visible(s: System, k: (nat, nat)) {
    k in s.flat && k.1 != VPN_UCOW && s.flat[k].ppn in s.mem && !Pending(s, k)
  }

  function CellOf(s: System, k: (nat, nat)): Cell
    requires k in s.flat && s.flat[k].ppn in s.mem
  {
    if Library(s.flat[k]) then Shared(s.flat[k].ppn) else Private(s.mem[s.flat[k].ppn])
  }

  ghost function LibraryPages(s: System): set<nat> {
    set k | k in s.flat && Library(s.flat[k]) :: s.flat[k].ppn
  }

  ghost function Cells(s: System): map<(nat, nat), Cell> {
    map k | k in s.flat && Visible(s, k) :: CellOf(s, k)
  }

  ghost function Objs(s: System): map<nat, Page> {
    map p | p in LibraryPages(s) && p in s.mem :: s.mem[p]
  }

  ghost function ForksOf(s: System): map<nat, (nat, nat)> {
    map e | e in s.threads && Forks(s, e) :: (s.threads[e].fork.child, s.threads[e].fork.next)
  }

  ghost function LiveOf(s: System): set<nat> {
    set e | e in s.threads && s.threads[e].Live?
  }

  /** What the copy-on-write state stands for. */
  ghost function Abs(s: System): Eager {
    Eager(Cells(s), Objs(s), ForksOf(s), LiveOf(s))
  }

  /** The step of the eager machine that a step of the copy-on-write machine performs. */
  ghost function EagerOf(s: System, l: Step): EagerStep
    requires Enabled(s, l)
  {
    match l
    case Store(e, v, off, w) => EStore(e, v, off, w)
    case Demand(e, v, _) => EDemand(e, v)
    case Begin(e, c) => EBegin(e, c)
    case Skip(e) => ESkip(e)
    case LinkChild(e) => if ShareAsIs(s.threads[e].fork.dup.perm) then ECopy(e) else Stutter
    case LinkParent(e) => ECopy(e)
    case Finish(e) => EFinish(e)
    case Enter(_, _) => Stutter
    case AllocCopy(_, _) => Stutter
    case CopyWord(_) => Stutter
    case MapCopy(_) => Stutter
    case UnmapCopy(_) => Stutter
    case Look(_) => Stutter
  }
}
