/** What a whole fork does, whatever else runs meanwhile: the child gets each page that its parent had, with the contents
    that the page had when fork visited it (user/lib/fork.c). */
module CowFork {
  import opened Mmu
  import opened CowPerms
  import opened CowMachine
  import opened CowInvariant
  import opened CowRefinement

  // ---- the eager machine is a fork

  /** Envs inside fork run, and no two of them fill the same child, nor one that runs already. */
  ghost predicate EagerOk(a: Eager) {
    && (forall x :: x in a.forks ==> x in a.live && a.forks[x].0 !in a.live)
    && (forall x, y :: x in a.forks && y in a.forks && x != y ==> a.forks[x].0 != a.forks[y].0)
  }

  lemma EagerOkNext(a: Eager, l: EagerStep)
    requires EagerOk(a) && EagerEnabled(a, l)
    ensures EagerOk(EagerNext(a, l))
  {
  }

  datatype Seen = Never | At(cell: Cell)

  /** The cell that e's fork finds in page v when it visits it in the run. */
  function Visit(a: Eager, ls: seq<EagerStep>, e: nat, v: nat): Seen
    requires EagerCanRun(a, ls)
    decreases |ls|
  {
    if ls == [] then Never
    else if ls[0] == ECopy(e) && a.forks[e].1 == v then At(a.cells[(e, v)])
    else Visit(EagerNext(a, ls[0]), ls[1..], e, v)
  }

  /** One step of anyone, seen from e's fork: it goes on to the next page, having copied it if it is there, or it stays
      where it is; the pages it has passed stay in the child as they are. */
  lemma ForkStep(a: Eager, l: EagerStep, e: nat)
    requires EagerOk(a) && EagerEnabled(a, l) && e in a.forks && l != EFinish(e)
    ensures var b, c, n := EagerNext(a, l), a.forks[e].0, a.forks[e].1;
      && e in b.forks && b.forks[e].0 == c && a.cells.Keys <= b.cells.Keys
      && (forall v :: (c, v) in b.cells && (v != n || l != ECopy(e)) ==> (c, v) in a.cells && b.cells[(c, v)] == a.cells[(c, v)])
      && (l == ECopy(e) ==> b.forks[e].1 == n + 1 && (e, n) in a.cells && (c, n) in b.cells && b.cells[(c, n)] == a.cells[(e, n)])
      && (l == ESkip(e) ==> b.forks[e].1 == n + 1 && (e, n) !in a.cells)
      && (l != ECopy(e) && l != ESkip(e) ==> b.forks[e].1 == n)
  {
  }

  /** Over any run of the eager machine: a page of e that the fork has passed is in the child, with the cell it had when it
      was visited. */
  lemma {:induction false} ForkCopies(a: Eager, ls: seq<EagerStep>, e: nat, v: nat)
    requires EagerOk(a) && EagerCanRun(a, ls) && e in a.forks && EFinish(e) !in ls
    ensures var b, c, n := EagerAfter(a, ls), a.forks[e].0, a.forks[e].1;
      && EagerOk(b) && e in b.forks && b.forks[e].0 == c && n <= b.forks[e].1
      && (v < n && (c, v) in a.cells ==> (c, v) in b.cells && b.cells[(c, v)] == a.cells[(c, v)])
      && (n <= v < b.forks[e].1 && (e, v) in a.cells ==>
            && (c, v) in b.cells && Visit(a, ls, e, v) == At(b.cells[(c, v)]))
      && ((c, v) in b.cells && (c, v) !in a.cells ==> Visit(a, ls, e, v) == At(b.cells[(c, v)]))
    decreases |ls|
  {
    if ls != [] {
      var m := EagerNext(a, ls[0]);
      EagerOkNext(a, ls[0]);
      ForkStep(a, ls[0], e);
      assert ls[0] in ls && forall l :: l in ls[1..] ==> l in ls;
      hide EagerNext, EagerEnabled, EagerOk;
      ForkCopies(m, ls[1..], e, v);
    }
  }

  /** e neither stores nor touches a page for the first time. */
  predicate StandsStill(ls: seq<EagerStep>, e: nat) {
    forall l :: l in ls ==> !(l.EStore? && l.e == e) && !(l.EDemand? && l.e == e)
  }

  lemma StillStep(a: Eager, l: EagerStep, e: nat, v: nat)
    requires EagerOk(a) && EagerEnabled(a, l) && e in a.live && (e, v) in a.cells
    requires !(l.EStore? && l.e == e) && !(l.EDemand? && l.e == e)
    ensures var b := EagerNext(a, l); e in b.live && (e, v) in b.cells && b.cells[(e, v)] == a.cells[(e, v)]
  {
  }

  lemma {:induction false} StillCells(a: Eager, ls: seq<EagerStep>, e: nat, v: nat)
    requires EagerOk(a) && EagerCanRun(a, ls) && StandsStill(ls, e) && e in a.live && (e, v) in a.cells
    ensures var b := EagerAfter(a, ls); (e, v) in b.cells && b.cells[(e, v)] == a.cells[(e, v)]
    ensures Visit(a, ls, e, v).At? ==> Visit(a, ls, e, v).cell == a.cells[(e, v)]
    decreases |ls|
  {
    if ls != [] {
      EagerOkNext(a, ls[0]);
      assert ls[0] in ls && forall l :: l in ls[1..] ==> l in ls;
      StillStep(a, ls[0], e, v);
      hide EagerNext, EagerEnabled, EagerOk;
      StillCells(EagerNext(a, ls[0]), ls[1..], e, v);
    }
  }

  /** From the call of fork to its end: the child has every page below USTACKTOP that its parent had at the call. */
  lemma EagerFork(a: Eager, e: nat, c: nat, ls: seq<EagerStep>, v: nat)
    requires EagerOk(a) && EagerEnabled(a, EBegin(e, c)) && EFinish(e) !in ls
    requires EagerCanRun(EagerNext(a, EBegin(e, c)), ls)
    requires EagerEnabled(EagerAfter(EagerNext(a, EBegin(e, c)), ls), EFinish(e))
    requires (e, v) in a.cells && v < VPN_USTACKTOP
    ensures var m := EagerNext(a, EBegin(e, c));
            var b := EagerAfter(m, ls);
            && (c, v) in b.cells && Visit(m, ls, e, v) == At(b.cells[(c, v)])
            && (StandsStill(ls, e) ==> b.cells[(c, v)] == a.cells[(e, v)] && (e, v) in b.cells && b.cells[(e, v)] == a.cells[(e, v)])
            && e in b.forks && b.forks[e].0 == c && c in EagerNext(b, EFinish(e)).live && e !in EagerNext(b, EFinish(e)).forks
            && EagerNext(b, EFinish(e)).cells == b.cells && EagerNext(b, EFinish(e)).objs == b.objs
  {
    var m := EagerNext(a, EBegin(e, c));
    EagerOkNext(a, EBegin(e, c));
    ForkCopies(m, ls, e, v);
    if StandsStill(ls, e) {
      StillCells(m, ls, e, v);
    }
  }

  // ---- and so is copy-on-write

  lemma AbsOk(s: System)
    requires Inv(s)
    ensures EagerOk(Abs(s))
  {
    hide Writable, Cow, Library, Valid, Cells, Objs;
    forall x | x in ForksOf(s) ensures x in LiveOf(s) && ForksOf(s)[x].0 !in LiveOf(s) {
      assert ThreadOk(s, x);
    }
    forall x, y | x in ForksOf(s) && y in ForksOf(s) && x != y ensures ForksOf(s)[x].0 != ForksOf(s)[y].0 {
      assert ThreadOk(s, x) && ThreadOk(s, y);
    }
  }

  lemma {:induction false} FinishOnly(s: System, ls: seq<Step>, e: nat)
    requires CanRun(s, ls) && Finish(e) !in ls
    ensures EFinish(e) !in EagerRunOf(s, ls)
    decreases |ls|
  {
    if ls != [] {
      assert ls[0] in ls && forall l :: l in ls[1..] ==> l in ls;
      hide Next, Enabled;
      FinishOnly(Next(s, ls[0]), ls[1..], e);
    }
  }

  /** e's own program does nothing but fork. */
  predicate OnlyForks(ls: seq<Step>, e: nat) {
    forall l :: l in ls ==> !(l.Store? && l.e == e) && !(l.Demand? && l.e == e)
  }

  lemma {:induction false} StillOnly(s: System, ls: seq<Step>, e: nat)
    requires CanRun(s, ls) && OnlyForks(ls, e)
    ensures StandsStill(EagerRunOf(s, ls), e)
    decreases |ls|
  {
    if ls != [] {
      assert ls[0] in ls && forall l :: l in ls[1..] ==> l in ls;
      hide Next, Enabled;
      StillOnly(Next(s, ls[0]), ls[1..], e);
    }
  }

  lemma CellShown(s: System, e: nat, v: nat)
    requires Inv(s) && Runs(s, e) && (e, v) in s.flat && v != VPN_UCOW
    ensures s.flat[(e, v)].ppn in s.mem && (e, v) in Abs(s).cells && Abs(s).cells[(e, v)] == CellOf(s, (e, v))
  {
    hide CellOf, Writable, Cow, Library, Valid, Exclusive, ThreadsOk;
    EntryAt(s, (e, v));
    assert Visible(s, (e, v));
  }

  lemma CellHidden(s: System, k: (nat, nat))
    requires k in Abs(s).cells
    ensures k in s.flat && s.flat[k].ppn in s.mem && Abs(s).cells[k] == CellOf(s, k)
  {
    hide CellOf;
  }

  lemma FinishThreads(s: System, e: nat)
    requires Enabled(s, Finish(e))
    ensures e in Abs(s).forks
    ensures var c, t := Abs(s).forks[e].0, Next(s, Finish(e)); Runs(t, c) && t.threads[c] == Live(Idle, Calm)
  {
  }

  /** Whatever all envs do between e's call of fork and its end, the child then runs with every page that its parent had
      at the call below USTACKTOP, and finds there what the parent's page held when duppage visited it; if the parent's
      program stood still meanwhile, what it held at the call. */
  lemma ForkIsCopy(s: System, e: nat, c: nat, ls: seq<Step>, v: nat)
    requires Inv(s) && Enabled(s, Begin(e, c)) && CanRun(Next(s, Begin(e, c)), ls) && Finish(e) !in ls
    requires Enabled(RunOf(Next(s, Begin(e, c)), ls), Finish(e))
    requires (e, v) in s.flat && v != VPN_UCOW && v < VPN_USTACKTOP
    ensures var m := Next(s, Begin(e, c));
            var t := RunOf(m, ls);
            var u := Next(t, Finish(e));
            && Runs(u, c) && u.threads[c] == Live(Idle, Calm) && (c, v) in u.flat
            && s.flat[(e, v)].ppn in s.mem && u.flat[(c, v)].ppn in u.mem
            && EagerCanRun(Abs(m), EagerRunOf(m, ls)) && Visit(Abs(m), EagerRunOf(m, ls), e, v) == At(CellOf(u, (c, v)))
            && (OnlyForks(ls, e) ==> CellOf(u, (c, v)) == CellOf(s, (e, v)))
  {
    var m := Next(s, Begin(e, c));
    var t := RunOf(m, ls);
    var u := Next(t, Finish(e));
    AbsOk(s);
    StepInv(s, Begin(e, c));
    BeginAbs(s, e, c);
    CowRefinesEager(m, ls);
    StepInv(t, Finish(e));
    FinishAbs(t, e);
    FinishOnly(m, ls, e);
    if OnlyForks(ls, e) {
      StillOnly(m, ls, e);
    }
    CellShown(s, e, v);
    FinishThreads(t, e);
    hide Next, Enabled, Inv, Abs, CanRun, RunOf, EagerNext, CellOf;
    EagerFork(Abs(s), e, c, EagerRunOf(m, ls), v);
    CellHidden(u, (c, v));
  }

  lemma NewcomerEmpty(s: System, e: nat, c: nat, v: nat)
    requires Inv(s) && Enabled(s, Begin(e, c))
    ensures (c, v) !in Abs(Next(s, Begin(e, c))).cells
  {
    hide Writable, Cow, Library, Valid, Exclusive, ThreadsOk, CellOf;
    assert (c, v) !in s.flat;
  }

  /** Nothing else gets into the child: each of its pages was visited in its parent. */
  lemma ForkAddsNothing(s: System, e: nat, c: nat, ls: seq<Step>, v: nat)
    requires Inv(s) && Enabled(s, Begin(e, c)) && CanRun(Next(s, Begin(e, c)), ls) && Finish(e) !in ls
    requires Enabled(RunOf(Next(s, Begin(e, c)), ls), Finish(e))
    requires var t := RunOf(Next(s, Begin(e, c)), ls); (c, v) in Next(t, Finish(e)).flat && v != VPN_UCOW
    ensures var m := Next(s, Begin(e, c));
            && EagerCanRun(Abs(m), EagerRunOf(m, ls))
            && Visit(Abs(m), EagerRunOf(m, ls), e, v).At?
  {
    var m := Next(s, Begin(e, c));
    var t := RunOf(m, ls);
    var u := Next(t, Finish(e));
    AbsOk(s);
    StepInv(s, Begin(e, c));
    BeginAbs(s, e, c);
    NewcomerEmpty(s, e, c, v);
    CowRefinesEager(m, ls);
    StepInv(t, Finish(e));
    FinishAbs(t, e);
    FinishOnly(m, ls, e);
    FinishThreads(t, e);
    AbsOk(m);
    hide Next, Enabled, Inv, Abs, CanRun, RunOf, CellOf;
    ForkCopies(Abs(m), EagerRunOf(m, ls), e, v);
    ChildShown(u, c, v);
  }

  lemma ChildShown(s: System, c: nat, v: nat)
    requires Inv(s) && Runs(s, c) && (c, v) in s.flat && v != VPN_UCOW
    ensures (c, v) in Abs(s).cells
  {
    CellShown(s, c, v);
  }
}
