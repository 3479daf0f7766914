/** Where copy-on-write fork stops being a copy: pages below UTEMP, a fault on the page that duppage is looking at, and a
    fault on a library page. */
module CowLimits {
  import opened Mmu
  import opened CowPerms
  import opened CowMachine
  import opened CowInvariant
  import R = CowRefinement

  // ---- addresses that sys_mem_map refuses

  /** duppage maps its page into the child exactly when the page lies at or above UTEMP. */
  lemma LinkExact(s: System, e: nat)
    requires CodeEnabled(s, LinkChild(e))
    requires var f := s.threads[e].fork; f.child != e && (f.child, f.next) !in s.flat
    ensures var f := s.threads[e].fork; (f.child, f.next) in Next(s, LinkChild(e)).flat <==> f.next >= VPN_UTEMP
    ensures s.threads[e].fork.next < VPN_UTEMP ==>
      var f, t := s.threads[e].fork, Next(s, LinkChild(e));
      t == s.(threads := t.threads) && t.threads == s.threads[e := Live(Forking(f.child, f.next + 1, Between), Calm)]
  {
  }

  // ---- a permission that is out of date

  /** The state as it would be had duppage not read the permission yet. */
  ghost function Unlooked(s: System, e: nat): System
    requires Forks(s, e)
  {
    WithFork(s, e, s.threads[e].fork.(dup := Between))
  }

  /** duppage of e holds a permission it has read at some time, and everything else is in order. */
  ghost predicate Looking(s: System, e: nat) {
    Forks(s, e) && s.threads[e].fork.dup.Looked? && Inv(Unlooked(s, e))
  }

  /** Linking the page behind entry w with permission `perm` leaves no private page mapped twice and writable. */
  predicate Harmless(w: Word, perm: bv12) {
    var r := Word(w.ppn, perm);
    if ShareAsIs(perm) then
      (Library(w) <==> Library(r)) && (Writable(w) ==> Library(w)) && (Writable(r) ==> Library(r))
    else !Library(w)
  }

  lemma PermBits(p: Ppn, perm: bv12)
    ensures Library(MakePte(p, perm)) <==> Library(Word(p, perm))
    ensures Writable(MakePte(p, perm)) <==> Writable(Word(p, perm))
    ensures !ShareAsIs(perm) ==> !Writable(MakePte(p, CowPerm(perm))) && !Library(MakePte(p, CowPerm(perm)))
  {
  }

  /** The entry that LinkChild gives the child. */
  function ChildEntry(w: Word, perm: bv12): Word {
    MakePte(w.ppn, if ShareAsIs(perm) then perm else CowPerm(perm))
  }

  lemma HarmlessKeeps(s: System, e: nat)
    requires Looking(s, e) && CodeEnabled(s, LinkChild(e)) && s.threads[e].fork.next >= VPN_UTEMP
    requires Harmless(s.flat[(e, s.threads[e].fork.next)], s.threads[e].fork.dup.perm)
    ensures Exclusive(Next(s, LinkChild(e)))
  {
    hide Writable, Cow, Library, Valid, ShareAsIs, CowPerm, PrivatePerm;
    var u, f := Unlooked(s, e), s.threads[e].fork;
    var k, s' := (e, f.next), Next(s, LinkChild(e));
    var w := s.flat[k];
    var r := ChildEntry(w, f.dup.perm);
    PermBits(w.ppn, f.dup.perm);
    assert ThreadOk(u, e);
    forall j | j in u.flat && j != (f.child, f.next) && j != k && u.flat[j].ppn == w.ppn
      ensures (Library(u.flat[j]) <==> Library(w)) && (Writable(u.flat[j]) ==> Library(u.flat[j]))
    {
      if Runs(u, j.0) {
        assert ThreadOk(u, j.0);
      }
      AloneWhenCalm(u, k, j);
    }
    hide EntriesOk, ThreadsOk;
    ExclusiveInsert(u, s', (f.child, f.next), r) by {
      assert forall i, j :: Twins(u, i, j) ==> Twins(s', i, j);
    }
  }

  lemma HarmBreaks(s: System, e: nat)
    requires Looking(s, e) && CodeEnabled(s, LinkChild(e)) && s.threads[e].fork.next >= VPN_UTEMP
    requires !Harmless(s.flat[(e, s.threads[e].fork.next)], s.threads[e].fork.dup.perm)
    ensures !Exclusive(Next(s, LinkChild(e)))
  {
    hide Writable, Cow, Library, Valid, ShareAsIs, CowPerm, PrivatePerm;
    var u, f := Unlooked(s, e), s.threads[e].fork;
    var j, k, s' := (e, f.next), (f.child, f.next), Next(s, LinkChild(e));
    assert ThreadOk(u, e);
    PermBits(s.flat[j].ppn, f.dup.perm);
    assert s'.flat[j] == s.flat[j] && s'.flat[k] == ChildEntry(s.flat[j], f.dup.perm);
    assert !Twins(s', k, j);
    assert ShareAsIs(f.dup.perm) ==> !Twins(s', j, k);
  }

  /** With a permission read at any time before, linking is safe exactly when the entry of now and the permission of
      then go together. */
  lemma StaleLinkExact(s: System, e: nat)
    requires Looking(s, e) && CodeEnabled(s, LinkChild(e)) && s.threads[e].fork.next >= VPN_UTEMP
    ensures Exclusive(Next(s, LinkChild(e))) <==> Harmless(s.flat[(e, s.threads[e].fork.next)], s.threads[e].fork.dup.perm)
  {
    if Harmless(s.flat[(e, s.threads[e].fork.next)], s.threads[e].fork.dup.perm) {
      HarmlessKeeps(s, e);
    } else {
      HarmBreaks(s, e);
    }
  }

  /** A page that is writable and private when duppage links it by a permission to share ends up writable in the parent
      and mapped in the child as well. */
  lemma StalePermissionShares(s: System, e: nat)
    requires CodeEnabled(s, LinkChild(e)) && ShareAsIs(s.threads[e].fork.dup.perm)
    requires var k := (e, s.threads[e].fork.next); Writable(s.flat[k]) && !Library(s.flat[k])
    requires s.threads[e].fork.child != e && s.threads[e].fork.next >= VPN_UTEMP
    ensures !Exclusive(Next(s, LinkChild(e)))
  {
    var f := s.threads[e].fork;
    var s' := Next(s, LinkChild(e));
    var j, k := (e, f.next), (f.child, f.next);
    assert s'.flat[j] == s.flat[j] && s'.flat[k].ppn == s.flat[j].ppn;
    assert !Twins(s', j, k);
  }

  /** Why entries must not be writable and copy-on-write at once: fork shares such a page as it is. */
  lemma WritableCowShares(s: System, e: nat)
    requires CodeEnabled(s, LinkChild(e)) && s.threads[e].fork.child != e && s.threads[e].fork.next >= VPN_UTEMP
    requires var w := s.flat[(e, s.threads[e].fork.next)];
             s.threads[e].fork.dup.perm == w.low && Writable(w) && Cow(w) && !Library(w)
    ensures !Exclusive(Next(s, LinkChild(e)))
  {
    ShareBits(s.flat[(e, s.threads[e].fork.next)]);
    StalePermissionShares(s, e);
  }

  // ---- how the permission gets out of date: a whole fault between duppage's look and its link

  ghost predicate CanRun(s: System, ls: seq<Step>)
    decreases |ls|
  {
    ls == [] || (CodeEnabled(s, ls[0]) && CanRun(Next(s, ls[0]), ls[1..]))
  }

  ghost function RunOf(s: System, ls: seq<Step>): System
    requires CanRun(s, ls)
    decreases |ls|
  {
    if ls == [] then s else RunOf(Next(s, ls[0]), ls[1..])
  }

  lemma {:induction false} RunJoin(s: System, a: seq<Step>, b: seq<Step>)
    requires CanRun(s, a) && CanRun(RunOf(s, a), b)
    ensures CanRun(s, a + b) && RunOf(s, a + b) == RunOf(RunOf(s, a), b)
    decreases |a|
  {
    hide CodeEnabled, Next;
    if a == [] {
      assert a + b == b;
    } else {
      RunJoin(Next(s, a[0]), a[1..], b);
      assert (a + b)[1..] == a[1..] + b;
    }
  }

  lemma RunOne(s: System, l: Step)
    requires CodeEnabled(s, l)
    ensures CanRun(s, [l]) && RunOf(s, [l]) == Next(s, l)
  {
    hide CodeEnabled, Next;
    assert [l][1..] == [];
    assert CanRun(Next(s, l), []);
  }

  predicate FaultWork(l: Step, e: nat) {
    (l.Enter? || l.AllocCopy? || l.CopyWord? || l.MapCopy? || l.UnmapCopy?) && l.e == e
  }

  /** The fault handler works whether or not duppage has looked. */
  lemma WorkOn(s: System, e: nat, l: Step)
    requires Looking(s, e) && FaultWork(l, e) && CodeEnabled(s, l) && !LibraryFault(s, l)
    ensures Looking(Next(s, l), e) && Next(s, l).threads[e].fork == s.threads[e].fork
  {
    var u := Unlooked(s, e);
    assert CodeEnabled(u, l) && Enabled(u, l) by {
      hide Inv;
    }
    assert Unlooked(Next(s, l), e) == Next(u, l) by {
      hide Inv;
      Commutes(s, e, l);
    }
    hide Next, Enabled, Inv;
    StepInv(u, l);
    ForkKept(s, e, l);
  }

  lemma Commutes(s: System, e: nat, l: Step)
    requires Forks(s, e) && FaultWork(l, e) && CodeEnabled(s, l)
    ensures CodeEnabled(Unlooked(s, e), l) && Forks(Next(s, l), e)
    ensures Unlooked(Next(s, l), e) == Next(Unlooked(s, e), l)
  {
    var a, b := Unlooked(Next(s, l), e), Next(Unlooked(s, e), l);
    assert a.threads == b.threads;
  }

  lemma ForkKept(s: System, e: nat, l: Step)
    requires Forks(s, e) && FaultWork(l, e) && CodeEnabled(s, l)
    ensures Forks(Next(s, l), e) && Next(s, l).threads[e].fork == s.threads[e].fork
  {
  }

  function Copies(e: nat, n: nat): seq<Step> {
    seq(n, _ => CopyWord(e))
  }

  lemma CopyOne(s: System, e: nat, v: nat, perm: bv12, done: nat)
    requires Looking(s, e) && s.threads[e].fault == Copying(v, perm, done) && done < WORDS_PER_PAGE
    ensures CodeEnabled(s, CopyWord(e)) && Looking(Next(s, CopyWord(e)), e) && Next(s, CopyWord(e)).flat == s.flat
    ensures Next(s, CopyWord(e)).threads == s.threads[e := s.threads[e].(fault := Copying(v, perm, done + 1))]
  {
    assert ThreadOk(Unlooked(s, e), e);
    hide Writable, Cow, Library, Valid, PrivatePerm, EntriesOk, Exclusive, ThreadsOk;
    assert CodeEnabled(s, CopyWord(e));
    hide Looking;
    WorkOn(s, e, CopyWord(e));
  }

  /** The copying loop, from any word on. */
  lemma {:induction false} CopyRest(s: System, e: nat, v: nat, perm: bv12, done: nat)
    requires Looking(s, e) && s.threads[e].fault == Copying(v, perm, done) && done <= WORDS_PER_PAGE
    ensures var ls := Copies(e, WORDS_PER_PAGE - done);
            && CanRun(s, ls) && Looking(RunOf(s, ls), e) && RunOf(s, ls).flat == s.flat
            && RunOf(s, ls).threads == s.threads[e := s.threads[e].(fault := Copying(v, perm, WORDS_PER_PAGE))]
    decreases WORDS_PER_PAGE - done
  {
    assert Runs(s, e);
    if done == WORDS_PER_PAGE {
      assert s.threads[e := s.threads[e].(fault := Copying(v, perm, WORDS_PER_PAGE))] == s.threads;
    } else {
      CopyOne(s, e, v, perm, done);
      hide Looking, CodeEnabled, Next;
      CopyRest(Next(s, CopyWord(e)), e, v, perm, done + 1);
      assert Copies(e, WORDS_PER_PAGE - done)[1..] == Copies(e, WORDS_PER_PAGE - (done + 1));
    }
  }

  /** Look at page n, fault on it, copy it into page p, and link it with what was read before. */
  function StaleSteps(e: nat, n: nat, p: Ppn): seq<Step> {
    [Look(e), Enter(e, n), AllocCopy(e, p)] + Copies(e, WORDS_PER_PAGE) + [MapCopy(e), UnmapCopy(e), LinkChild(e)]
  }

  lemma LookStep(s: System, e: nat)
    requires Inv(s) && CodeEnabled(s, Look(e))
    ensures var f := s.threads[e].fork; var t := Next(s, Look(e));
      && Looking(t, e) && t.flat == s.flat
      && t.threads == s.threads[e := s.threads[e].(fork := f.(dup := Looked(s.flat[(e, f.next)].low)))]
  {
    hide Inv;
    assert Unlooked(Next(s, Look(e)), e).threads == s.threads;
  }

  lemma EnterStep(s: System, e: nat, v: nat)
    requires Looking(s, e) && CodeEnabled(s, Enter(e, v)) && !Library(s.flat[(e, v)])
    ensures var t := Next(s, Enter(e, v));
      && Looking(t, e) && t.flat == s.flat
      && t.threads == s.threads[e := s.threads[e].(fault := Entered(v, PrivatePerm(s.flat[(e, v)].low)))]
  {
    WorkOn(s, e, Enter(e, v));
  }

  lemma AllocStep(s: System, e: nat, p: Ppn)
    requires Looking(s, e) && CodeEnabled(s, AllocCopy(e, p))
    ensures var t, f := Next(s, AllocCopy(e, p)), s.threads[e].fault;
      && Looking(t, e) && t.flat == s.flat[(e, VPN_UCOW) := MakePte(p, f.perm)]
      && t.threads == s.threads[e := s.threads[e].(fault := Copying(f.v, f.perm, 0))]
  {
    WorkOn(s, e, AllocCopy(e, p));
  }

  /** After the first three steps the copy at UCOW is page p, still empty, and duppage holds w's permission. */
  lemma StaleBegins(s: System, e: nat, p: Ppn)
    requires Inv(s) && InFork(s, e) && s.threads[e].fork.dup == Between && Unused(s, p)
    requires var k := (e, s.threads[e].fork.next);
             k in s.flat && Cow(s.flat[k]) && !Writable(s.flat[k]) && !Library(s.flat[k]) && k.1 != VPN_UCOW
    ensures var (f, w) := (s.threads[e].fork, s.flat[(e, s.threads[e].fork.next)]);
      var ls := [Look(e), Enter(e, f.next), AllocCopy(e, p)];
      && CanRun(s, ls) && Looking(RunOf(s, ls), e)
      && RunOf(s, ls).flat == s.flat[(e, VPN_UCOW) := MakePte(p, PrivatePerm(w.low))]
      && RunOf(s, ls).threads == s.threads[e := Live(f.(dup := Looked(w.low)), Copying(f.next, PrivatePerm(w.low), 0))]
  {
    hide Inv, Cow, Writable, PrivatePerm;
    var f, w := s.threads[e].fork, s.flat[(e, s.threads[e].fork.next)];
    LookStep(s, e);
    var s1 := Next(s, Look(e));
    hide Looking, Next;
    assert CodeEnabled(s1, Enter(e, f.next));
    EnterStep(s1, e, f.next);
    var s2 := Next(s1, Enter(e, f.next));
    assert CodeEnabled(s2, AllocCopy(e, p));
    AllocStep(s2, e, p);
    hide CodeEnabled;
    RunThree(s, Look(e), Enter(e, f.next), AllocCopy(e, p));
  }

  lemma RunThree(s: System, a: Step, b: Step, c: Step)
    requires CodeEnabled(s, a) && CodeEnabled(Next(s, a), b) && CodeEnabled(Next(Next(s, a), b), c)
    ensures CanRun(s, [a, b, c]) && RunOf(s, [a, b, c]) == Next(Next(Next(s, a), b), c)
  {
    hide CodeEnabled, Next;
    RunOne(Next(Next(s, a), b), c);
    assert [a, b, c][1..] == [b, c] && [b, c][1..] == [c];
    assert CanRun(Next(s, a), [b, c]);
  }

  /** Private page p is writable in slot j and mapped in slot k as well, although no step is half done on it. */
  ghost predicate SharedWritable(s: System, j: (nat, nat), k: (nat, nat), p: Ppn) {
    && j in s.flat && k in s.flat && s.flat[j].ppn == p == s.flat[k].ppn
    && Writable(s.flat[j]) && !Library(s.flat[j]) && !Exclusive(s)
  }

  /** The copy takes the page's place, UCOW is unmapped, and the link uses the permission read at the start. */
  lemma StaleEnds(s: System, e: nat, n: nat, perm: bv12, p: Ppn, now: bv12)
    requires Looking(s, e) && s.threads[e].fault == Copying(n, now, WORDS_PER_PAGE) && n >= VPN_UTEMP
    requires s.threads[e].fork.next == n && s.threads[e].fork.dup == Looked(perm) && s.threads[e].fork.child != e
    requires n < VPN_USTACKTOP && n != VPN_UCOW && (e, n) in s.flat
    requires (e, VPN_UCOW) in s.flat && s.flat[(e, VPN_UCOW)].ppn == p
    requires ShareAsIs(perm) && Writable(MakePte(p, now)) && !Library(MakePte(p, now))
    ensures var ls := [MapCopy(e), UnmapCopy(e), LinkChild(e)];
            CanRun(s, ls) && SharedWritable(RunOf(s, ls), (e, n), (s.threads[e].fork.child, n), p)
  {
    hide Writable, Library, ShareAsIs, Exclusive, CodeEnabled, Next, CanRun, RunOf, MakePte, SharedWritable;
    StaleReady(s, e, n, p, now);
    var s2 := Next(Next(s, MapCopy(e)), UnmapCopy(e));
    StaleLinks(s2, e, p);
    hide Looking;
    RunThree(s, MapCopy(e), UnmapCopy(e), LinkChild(e));
  }

  /** The fault is over and duppage goes on with its link. */
  lemma StaleReady(s: System, e: nat, n: nat, p: Ppn, now: bv12)
    requires Looking(s, e) && s.threads[e].fault == Copying(n, now, WORDS_PER_PAGE) && s.threads[e].fork.next == n
    requires n < VPN_USTACKTOP && n != VPN_UCOW && (e, VPN_UCOW) in s.flat && s.flat[(e, VPN_UCOW)].ppn == p
    ensures CodeEnabled(s, MapCopy(e)) && CodeEnabled(Next(s, MapCopy(e)), UnmapCopy(e))
    ensures var s2 := Next(Next(s, MapCopy(e)), UnmapCopy(e));
            && CodeEnabled(s2, LinkChild(e)) && s2.threads[e].fork == s.threads[e].fork
            && (e, n) in s2.flat && s2.flat[(e, n)] == MakePte(p, now)
  {
    FinishSteps(s, e);
    var s2 := Next(Next(s, MapCopy(e)), UnmapCopy(e));
    hide Next, CodeEnabled, MakePte;
    LinkNext(s2, e);
  }

  lemma LinkedEntries(s: System, e: nat)
    requires CodeEnabled(s, LinkChild(e)) && s.threads[e].fork.child != e && s.threads[e].fork.next >= VPN_UTEMP
    ensures var f, t := s.threads[e].fork, Next(s, LinkChild(e));
            && (e, f.next) in t.flat && t.flat[(e, f.next)] == s.flat[(e, f.next)]
            && (f.child, f.next) in t.flat && t.flat[(f.child, f.next)].ppn == s.flat[(e, f.next)].ppn
  {
  }

  lemma StaleLinks(s: System, e: nat, p: Ppn)
    requires CodeEnabled(s, LinkChild(e)) && ShareAsIs(s.threads[e].fork.dup.perm)
    requires var k := (e, s.threads[e].fork.next); s.flat[k].ppn == p && Writable(s.flat[k]) && !Library(s.flat[k])
    requires s.threads[e].fork.child != e && s.threads[e].fork.next >= VPN_UTEMP
    ensures var f := s.threads[e].fork; SharedWritable(Next(s, LinkChild(e)), (e, f.next), (f.child, f.next), p)
  {
    StalePermissionShares(s, e);
    LinkedEntries(s, e);
    hide Exclusive, Next, CodeEnabled;
  }

  lemma LinkNext(s: System, e: nat)
    requires Looking(s, e) && s.threads[e].fault == Calm && s.threads[e].fork.next < VPN_USTACKTOP
    requires (e, s.threads[e].fork.next) in s.flat
    ensures CodeEnabled(s, LinkChild(e))
  {
    assert Forks(s, e);
  }

  /** The last two steps of the fault put the copy in the page's place and empty UCOW. */
  lemma FinishSteps(s: System, e: nat)
    requires Looking(s, e) && s.threads[e].fault.Copying? && s.threads[e].fault.done == WORDS_PER_PAGE
    requires (e, VPN_UCOW) in s.flat
    ensures CodeEnabled(s, MapCopy(e)) && CodeEnabled(Next(s, MapCopy(e)), UnmapCopy(e))
    ensures var t, f := Next(Next(s, MapCopy(e)), UnmapCopy(e)), s.threads[e].fault;
      && Looking(t, e)
      && t.flat == s.flat[(e, f.v) := MakePte(s.flat[(e, VPN_UCOW)].ppn, f.perm)] - {(e, VPN_UCOW)}
      && t.threads == s.threads[e := s.threads[e].(fault := Calm)]
  {
    assert Forks(s, e);
    hide Looking;
    assert CodeEnabled(s, MapCopy(e));
    WorkOn(s, e, MapCopy(e));
    WorkOn(Next(s, MapCopy(e)), e, UnmapCopy(e));
  }

  /** From every state in which fork is about to visit a copy-on-write page, a fault between duppage's look and its link
      leaves the page writable in the parent and mapped in the child. */
  lemma StaleRun(s: System, e: nat, p: Ppn)
    requires Inv(s) && InFork(s, e) && s.threads[e].fork.dup == Between && Unused(s, p)
    requires var k := (e, s.threads[e].fork.next);
             k in s.flat && Cow(s.flat[k]) && !Writable(s.flat[k]) && !Library(s.flat[k]) && k.1 != VPN_UCOW
    ensures var ls, f := StaleSteps(e, s.threads[e].fork.next, p), s.threads[e].fork;
            CanRun(s, ls) && f.child != e && SharedWritable(RunOf(s, ls), (e, f.next), (f.child, f.next), p)
  {
    var f, w := s.threads[e].fork, s.flat[(e, s.threads[e].fork.next)];
    EntryAt(s, (e, f.next));
    assert f.child != e by { assert ThreadOk(s, e); }
    ShareBits(w);
    PrivatePermBits(w, p);
    var a, b := [Look(e), Enter(e, f.next), AllocCopy(e, p)], Copies(e, WORDS_PER_PAGE);
    var c := [MapCopy(e), UnmapCopy(e), LinkChild(e)];
    StaleBegins(s, e, p);
    hide Inv, Looking, CanRun, RunOf, Copies, Writable, Library, Cow, PrivatePerm, ShareAsIs, Exclusive;
    var s1 := RunOf(s, a);
    CopyRest(s1, e, f.next, PrivatePerm(w.low), 0);
    var s2 := RunOf(s1, b);
    RunJoin(s, a, b);
    StaleEnds(s2, e, f.next, w.low, p, PrivatePerm(w.low));
    RunJoin(s, a + b, c);
  }

  // ---- a fault on a page that is library and copy-on-write

  /** Giving slot k a page of its own with the contents that it had shows nothing if and only if the page is not shared
      by name. */
  lemma CopyShows(s: System, t: System, k: (nat, nat), w: Word)
    requires k in s.flat && k.1 != VPN_UCOW && Runs(s, k.0) && t.flat == s.flat[k := w]
    requires s.flat[k].ppn in s.mem && w.ppn in t.mem && t.mem[w.ppn] == s.mem[s.flat[k].ppn] && w.ppn != s.flat[k].ppn
    requires forall j :: j in s.flat && j != k ==>
               (s.flat[j].ppn in s.mem <==> s.flat[j].ppn in t.mem) &&
               (s.flat[j].ppn in s.mem ==> t.mem[s.flat[j].ppn] == s.mem[s.flat[j].ppn])
    requires Library(w) <==> Library(s.flat[k])
    requires k.0 in t.threads && t.threads[k.0].Live? && t.threads[k.0].fork == s.threads[k.0].fork
    requires t.threads == s.threads[k.0 := t.threads[k.0]]
    ensures Abs(t) == Abs(s) <==> !Library(s.flat[k])
  {
    hide Library, LibraryPages;
    if Library(s.flat[k]) {
      assert Visible(s, k) && Visible(t, k);
      assert Cells(s)[k] == Shared(s.flat[k].ppn) && Cells(t)[k] == Shared(w.ppn);
    } else {
      R.ThreadsSame(s, t);
      forall j ensures R.SameCell(s, t, j) {
        assert Pending(s, j) == Pending(t, j);
      }
      R.CellsSame(s, t);
      forall j | j in s.flat && Library(s.flat[j]) ensures s.flat[j].ppn in LibraryPages(s) {
        R.LibraryAt(s, j);
      }
      R.ObjsSame(s, t);
      ObjsEqual(s, t, k);
    }
  }

  lemma ObjsEqual(s: System, t: System, k: (nat, nat))
    requires LibraryPages(t) == LibraryPages(s) && k in s.flat && !Library(s.flat[k])
    requires forall j :: j in s.flat && j != k ==>
               (s.flat[j].ppn in s.mem <==> s.flat[j].ppn in t.mem) &&
               (s.flat[j].ppn in s.mem ==> t.mem[s.flat[j].ppn] == s.mem[s.flat[j].ppn])
    ensures Objs(t) == Objs(s)
  {
    hide Library;
    forall p | p in LibraryPages(s) ensures (p in s.mem <==> p in t.mem) && (p in s.mem ==> t.mem[p] == s.mem[p]) {
      var j :| j in s.flat && Library(s.flat[j]) && s.flat[j].ppn == p;
    }
  }

  /** In any state, whatever other envs are doing: putting the finished copy in the page's place is invisible if and
      only if the page is not a library page. */
  lemma MapCopyExact(s: System, e: nat)
    requires CodeEnabled(s, MapCopy(e))
    requires var f := s.threads[e].fault;
             && f.v != VPN_UCOW && (e, f.v) in s.flat && f.perm == PrivatePerm(s.flat[(e, f.v)].low)
             && s.flat[(e, VPN_UCOW)].ppn != s.flat[(e, f.v)].ppn
             && s.flat[(e, f.v)].ppn in s.mem && s.flat[(e, VPN_UCOW)].ppn in s.mem
             && s.mem[s.flat[(e, VPN_UCOW)].ppn] == s.mem[s.flat[(e, f.v)].ppn]
    ensures Abs(Next(s, MapCopy(e))) == Abs(s) <==> !Library(s.flat[(e, s.threads[e].fault.v)])
  {
    var f := s.threads[e].fault;
    var k, p := (e, f.v), s.flat[(e, VPN_UCOW)].ppn;
    PrivateLibrary(s.flat[k], p);
    CopyShows(s, Next(s, MapCopy(e)), k, MakePte(p, f.perm));
  }

  lemma PrivateLibrary(w: Word, p: Ppn)
    ensures Library(MakePte(p, PrivatePerm(w.low))) <==> Library(w)
  {
  }

  /** cow_entry without anyone in between: it copies the page behind v into the unused page p. */
  function FaultSteps(e: nat, v: nat, p: Ppn): seq<Step> {
    [Enter(e, v), AllocCopy(e, p)] + Copies(e, WORDS_PER_PAGE) + [MapCopy(e), UnmapCopy(e)]
  }

  /** e faults on v: nothing is at UCOW and the page is there. */
  ghost predicate CanFault(s: System, e: nat, v: nat, p: Ppn) {
    CodeEnabled(s, Enter(e, v)) && (e, VPN_UCOW) !in s.flat && Unused(s, p) && s.flat[(e, v)].ppn in s.mem
  }

  predicate CopyingInto(s: System, e: nat, v: nat, perm: bv12, done: nat, p: Ppn) {
    && Runs(s, e) && s.threads[e].fault == Copying(v, perm, done) && done <= WORDS_PER_PAGE && v != VPN_UCOW
    && (e, v) in s.flat && s.flat[(e, v)].ppn in s.mem && (e, VPN_UCOW) in s.flat && s.flat[(e, VPN_UCOW)].ppn == p
    && p in s.mem && p != s.flat[(e, v)].ppn && s.mem[p][..done] == s.mem[s.flat[(e, v)].ppn][..done]
  }

  lemma {:induction false} CopyLoop(s: System, e: nat, v: nat, perm: bv12, done: nat, p: Ppn)
    requires CopyingInto(s, e, v, perm, done, p)
    ensures var ls := Copies(e, WORDS_PER_PAGE - done);
            && CanRun(s, ls) && RunOf(s, ls).flat == s.flat
            && RunOf(s, ls).mem == s.mem[p := s.mem[s.flat[(e, v)].ppn]]
            && RunOf(s, ls).threads == s.threads[e := s.threads[e].(fault := Copying(v, perm, WORDS_PER_PAGE))]
    decreases WORDS_PER_PAGE - done
  {
    var q := s.flat[(e, v)].ppn;
    if done == WORDS_PER_PAGE {
      assert s.mem[p] == s.mem[p][..done] && s.mem[q] == s.mem[q][..done];
      assert s.threads[e := s.threads[e].(fault := Copying(v, perm, WORDS_PER_PAGE))] == s.threads;
    } else {
      var t := Next(s, CopyWord(e));
      assert t.mem[p][..done + 1] == s.mem[q][..done + 1];
      CopyLoop(t, e, v, perm, done + 1, p);
      hide CodeEnabled, Next;
      assert Copies(e, WORDS_PER_PAGE - done)[1..] == Copies(e, WORDS_PER_PAGE - (done + 1));
    }
  }

  /** What a whole fault does: v maps p with the private permission, p holds what the page held, and all else is as
      before. */
  lemma FaultRun(s: System, e: nat, v: nat, p: Ppn)
    requires CanFault(s, e, v, p)
    ensures CanRun(s, FaultSteps(e, v, p))
    ensures var t, w := RunOf(s, FaultSteps(e, v, p)), s.flat[(e, v)];
            t == s.(flat := s.flat[(e, v) := MakePte(p, PrivatePerm(w.low))], mem := s.mem[p := s.mem[w.ppn]])
  {
    var w := s.flat[(e, v)];
    var perm := PrivatePerm(w.low);
    var a, b, c := [Enter(e, v), AllocCopy(e, p)], Copies(e, WORDS_PER_PAGE), [MapCopy(e), UnmapCopy(e)];
    FaultBegins(s, e, v, p);
    hide CodeEnabled, Next, CanRun, RunOf, PrivatePerm, Copies;
    var s2 := RunOf(s, a);
    CopyLoop(s2, e, v, perm, 0, p);
    RunJoin(s, a, b);
    var s3 := RunOf(s2, b);
    FaultEnds(s3, e, v, perm, p);
    RunJoin(s, a + b, c);
    var t := RunOf(s3, c);
    assert t.flat == s.flat[(e, v) := MakePte(p, perm)];
    assert t.threads == s.threads;
    assert t.mem == s.mem[p := s.mem[w.ppn]];
  }

  lemma FaultBegins(s: System, e: nat, v: nat, p: Ppn)
    requires CanFault(s, e, v, p)
    ensures var ls, perm := [Enter(e, v), AllocCopy(e, p)], PrivatePerm(s.flat[(e, v)].low);
            && Runs(s, e) && s.threads[e].fault == Calm && CanRun(s, ls) && CopyingInto(RunOf(s, ls), e, v, perm, 0, p)
            && RunOf(s, ls) == System(s.flat[(e, VPN_UCOW) := MakePte(p, perm)], s.mem[p := ZeroedPage()],
                                      s.threads[e := s.threads[e].(fault := Copying(v, perm, 0))])
  {
    var s1 := Next(s, Enter(e, v));
    var s2 := Next(s1, AllocCopy(e, p));
    RunTwo(s, Enter(e, v), AllocCopy(e, p));
    assert s2.threads == s.threads[e := s.threads[e].(fault := Copying(v, PrivatePerm(s.flat[(e, v)].low), 0))];
  }

  lemma MapCopyNext(s: System, e: nat)
    requires CodeEnabled(s, MapCopy(e))
    ensures var f := s.threads[e].fault;
            Next(s, MapCopy(e)) == s.(flat := s.flat[(e, f.v) := MakePte(s.flat[(e, VPN_UCOW)].ppn, f.perm)],
                                      threads := s.threads[e := Live(s.threads[e].fork, Mapped(f.v))])
    ensures CodeEnabled(Next(s, MapCopy(e)), UnmapCopy(e))
  {
  }

  lemma SetTwice<T>(m: map<nat, T>, e: nat, x: T, y: T)
    ensures m[e := x][e := y] == m[e := y]
  {
  }

  lemma FaultNext(s: System, e: nat, p: Ppn)
    requires CodeEnabled(s, MapCopy(e)) && s.flat[(e, VPN_UCOW)].ppn == p
    ensures CodeEnabled(Next(s, MapCopy(e)), UnmapCopy(e))
    ensures var f := s.threads[e].fault;
            Next(Next(s, MapCopy(e)), UnmapCopy(e))
            == System(s.flat[(e, f.v) := MakePte(p, f.perm)] - {(e, VPN_UCOW)}, s.mem,
                      s.threads[e := Live(s.threads[e].fork, Calm)])
  {
    MapCopyNext(s, e);
    UnmapCopyNext(Next(s, MapCopy(e)), e);
    var t := s.threads[e];
    SetTwice(s.threads, e, Live(t.fork, Mapped(t.fault.v)), Live(t.fork, Calm));
    hide Next, MakePte;
  }

  lemma FaultEnds(s: System, e: nat, v: nat, perm: bv12, p: Ppn)
    requires Runs(s, e) && s.threads[e].fault == Copying(v, perm, WORDS_PER_PAGE) && v != VPN_UCOW
    requires (e, VPN_UCOW) in s.flat && s.flat[(e, VPN_UCOW)].ppn == p
    ensures var c := [MapCopy(e), UnmapCopy(e)];
            && CanRun(s, c)
            && RunOf(s, c) == System(s.flat[(e, v) := MakePte(p, perm)] - {(e, VPN_UCOW)}, s.mem,
                                     s.threads[e := Live(s.threads[e].fork, Calm)])
  {
    MapCopyReady(s, e);
    hide CodeEnabled, Next, CanRun, RunOf, MakePte;
    FaultNext(s, e, p);
    RunTwo(s, MapCopy(e), UnmapCopy(e));
  }

  lemma MapCopyReady(s: System, e: nat)
    requires Runs(s, e) && s.threads[e].fault.Copying? && s.threads[e].fault.done == WORDS_PER_PAGE
    requires (e, VPN_UCOW) in s.flat
    ensures CodeEnabled(s, MapCopy(e))
  {
  }

  lemma UnmapCopyNext(s: System, e: nat)
    requires CodeEnabled(s, UnmapCopy(e))
    ensures Next(s, UnmapCopy(e)) == s.(flat := s.flat - {(e, VPN_UCOW)},
                                        threads := s.threads[e := Live(s.threads[e].fork, Calm)])
  {
  }

  lemma RunTwo(s: System, a: Step, b: Step)
    requires CodeEnabled(s, a) && CodeEnabled(Next(s, a), b)
    ensures CanRun(s, [a, b]) && RunOf(s, [a, b]) == Next(Next(s, a), b)
  {
    hide CodeEnabled, Next;
    RunOne(Next(s, a), b);
    assert [a, b][1..] == [b];
  }

  /** A fault handled to its end is invisible if and only if the page is not a library page: of a library page the
      faulting env gets a copy of its own. */
  lemma FaultExact(s: System, e: nat, v: nat, p: Ppn)
    requires CanFault(s, e, v, p)
    ensures CanRun(s, FaultSteps(e, v, p))
    ensures Abs(RunOf(s, FaultSteps(e, v, p))) == Abs(s) <==> !Library(s.flat[(e, v)])
  {
    FaultRun(s, e, v, p);
    var t, w := RunOf(s, FaultSteps(e, v, p)), s.flat[(e, v)];
    PrivateLibrary(w, p);
    hide CanRun, RunOf;
    assert t.threads == s.threads[e := t.threads[e]];
    CopyShows(s, t, (e, v), MakePte(p, PrivatePerm(w.low)));
  }
}
