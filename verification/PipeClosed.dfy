/** Whether a pipe's other end is closed, decided from two page counts read one after the other while envs dup, close,
    fork and die in between (user/lib/pipe.c, user/lib/fd.c, kern/env.c). */
module PipeClosed {

  const TWO32: nat := 0x1_0000_0000

  datatype End = ReadEnd | WriteEnd

  /** A descriptor slot of an env. */
  type Slot = (nat, nat)

  /** Where an env is: pipe_close has unmapped the fd page of slot i; dup has mapped the pipe page at the new slot;
      _pipe_is_closed on slot i has read env_runs, then pageref(fd), then pageref(p). `start` is the number of runs
      read, of which the program sees the low 32 bits. An env inside fork or spawn is filling a child that does not run
      yet; if it is destroyed there, the child stays as it is. */
  datatype Pc =
    | Idle
    | Closing(i: nat)
    | Duping(from: nat, to: nat)
    | SawRuns(i: nat, start: nat)
    | SawFd(i: nat, start: nat, fdRef: nat)
    | SawBoth(i: nat, start: nat, fdRef: nat, pipeRef: nat)
    | Decided(closed: bool)
    | Forking(child: nat)
    | Embryo(parent: nat)

  /** Slots that map the read end's fd page, the write end's fd page, and the pipe page. */
  datatype State = State(readers: set<Slot>, writers: set<Slot>, data: set<Slot>,
                         pcs: map<nat, Pc>, runs: map<nat, nat>, cur: nat)

  datatype Step =
    | Switch(e: nat)           // env_run(e)
    | CloseFd(i: nat)          // pipe_close: unmap the fd page
    | CloseData                // pipe_close: unmap the pipe page
    | DupData(from: nat, to: nat)
    | DupFd
    | DupFails                 // dup's error path
    | ForkBegin(child: nat)
    | ShareFd(i: nat)          // duppage of an fd page; these pages lie below the pipe pages and come first
    | ShareData(i: nat)        // duppage of a pipe page
    | ForkEnd
    | Die(e: nat)              // env_free
    | ReadRuns(i: nat)
    | ReadFdRef
    | ReadPipeRef
    | Compare

  function Fds(s: State): set<Slot> {
    s.readers + s.writers
  }

  /** The fd page of the end that slot k has open. */
  function EndOf(s: State, k: Slot): End {
    if k in s.readers then ReadEnd else WriteEnd
  }

  function OpenSlots(s: State, end: End): set<Slot> {
    if end == ReadEnd then s.readers else s.writers
  }

  function Opposite(end: End): End {
    if end == ReadEnd then WriteEnd else ReadEnd
  }

  predicate Ready(pc: Pc) {
    pc == Idle || pc.Decided?
  }

  predicate Alive(s: State, e: nat) {
    e in s.pcs && e in s.runs
  }

  /** The child has every fd page of e. */
  predicate FdsShared(s: State, e: nat, c: nat) {
    forall k :: k in Fds(s) && k.0 == e ==> (c, k.1) in Fds(s)
  }

  predicate DataShared(s: State, e: nat, c: nat) {
    forall k :: k in s.data && k.0 == e ==> (c, k.1) in s.data
  }

  predicate Enabled(s: State, l: Step) {
    if l.Switch? then Alive(s, l.e) && !s.pcs[l.e].Embryo?
    else
      && Alive(s, s.cur)
      && var e, pc := s.cur, s.pcs[s.cur];
         match l
         case CloseFd(i) => Ready(pc) && (e, i) in Fds(s)
         case CloseData => pc.Closing?
         case DupData(from, to) => Ready(pc) && (e, from) in Fds(s) && (e, to) !in Fds(s) && (e, from) in s.data
         case DupFd => pc.Duping?
         case DupFails => pc.Duping?
         case ForkBegin(child) => Ready(pc) && child !in s.pcs && child !in s.runs
         case ShareFd(i) => pc.Forking? && (e, i) in Fds(s) && (pc.child, i) !in Fds(s)
         case ShareData(i) => pc.Forking? && FdsShared(s, e, pc.child) && (e, i) in s.data && (pc.child, i) !in s.data
         case ForkEnd => pc.Forking? && FdsShared(s, e, pc.child) && DataShared(s, e, pc.child)
         case Die(x) => Ready(pc) && Alive(s, x) && !s.pcs[x].Embryo?
         case ReadRuns(i) => Ready(pc) && (e, i) in Fds(s)
         case ReadFdRef => pc.SawRuns?
         case ReadPipeRef => pc.SawFd?
         case Compare => pc.SawBoth? && s.runs[e] - pc.start < TWO32
         case Switch(_) => true
  }

  function SlotsOf(slots: set<Slot>, e: nat): set<Slot> {
    set k | k in slots && k.0 == e
  }

  function At(s: State, pc: Pc): State
    requires Alive(s, s.cur)
  {
    s.(pcs := s.pcs[s.cur := pc])
  }

  function Next(s: State, l: Step): State
    requires Enabled(s, l)
  {
    var e := s.cur;
    match l
    case Switch(x) => s.(cur := x, runs := s.runs[x := s.runs[x] + 1])
    case CloseFd(i) =>
      At(s, Closing(i)).(readers := s.readers - {(e, i)}, writers := s.writers - {(e, i)})
    case CloseData =>
      At(s, Idle).(data := s.data - {(e, s.pcs[e].i)})
    case DupData(from, to) =>
      At(s, Duping(from, to)).(data := s.data + {(e, to)})
    case DupFd =>
      var k := (e, s.pcs[e].to);
      if EndOf(s, (e, s.pcs[e].from)) == ReadEnd then At(s, Idle).(readers := s.readers + {k})
      else At(s, Idle).(writers := s.writers + {k})
    case DupFails =>
      At(s, Idle).(data := s.data - {(e, s.pcs[e].to)})
    case ForkBegin(child) =>
      s.(pcs := s.pcs[e := Forking(child)][child := Embryo(e)], runs := s.runs[child := 0])
    case ShareFd(i) =>
      var k := (s.pcs[e].child, i);
      if EndOf(s, (e, i)) == ReadEnd then s.(readers := s.readers + {k}) else s.(writers := s.writers + {k})
    case ShareData(i) => s.(data := s.data + {(s.pcs[e].child, i)})
    case ForkEnd => s.(pcs := s.pcs[e := Idle][s.pcs[e].child := Idle])
    case Die(x) =>
      s.(readers := s.readers - SlotsOf(s.readers, x), writers := s.writers - SlotsOf(s.writers, x),
         data := s.data - SlotsOf(s.data, x), pcs := s.pcs - {x}, runs := s.runs - {x})
    case ReadRuns(i) => At(s, SawRuns(i, s.runs[e]))
    case ReadFdRef =>
      At(s, SawFd(s.pcs[e].i, s.pcs[e].start, |OpenSlots(s, EndOf(s, (e, s.pcs[e].i)))|))
    case ReadPipeRef => At(s, SawBoth(s.pcs[e].i, s.pcs[e].start, s.pcs[e].fdRef, |s.data|))
    case Compare =>
      if s.pcs[e].start % TWO32 == s.runs[e] % TWO32 then At(s, Decided(s.pcs[e].fdRef == s.pcs[e].pipeRef))
      else At(s, SawRuns(s.pcs[e].i, s.runs[e]))
  }

  /** Each env's place accounts for its slots. */
  ghost predicate PcOk(s: State, e: nat)
    requires Alive(s, e)
  {
    match s.pcs[e]
    case Idle => true
    case Closing(i) => (e, i) in s.data && (e, i) !in Fds(s)
    case Duping(from, to) =>
      (e, from) in Fds(s) && (e, to) in s.data && (e, to) !in Fds(s)
    case SawRuns(i, start) => (e, i) in Fds(s) && start <= s.runs[e]
    case SawFd(i, start, fdRef) =>
      && (e, i) in Fds(s) && start <= s.runs[e]
      && (e == s.cur && start == s.runs[e] ==> fdRef == |OpenSlots(s, EndOf(s, (e, i)))|)
    case SawBoth(i, start, fdRef, pipeRef) =>
      && (e, i) in Fds(s) && start <= s.runs[e]
      && (e == s.cur && start == s.runs[e] ==> fdRef == |OpenSlots(s, EndOf(s, (e, i)))| && pipeRef == |s.data|)
    case Decided(_) => true
    case Forking(c) =>
      && Alive(s, c) && s.pcs[c] == Embryo(e)
      && (forall k :: k in s.readers && k.0 == c ==> (e, k.1) in s.readers)
      && (forall k :: k in s.writers && k.0 == c ==> (e, k.1) in s.writers)
      && (forall k :: k in s.data && k.0 == c ==> (e, k.1) in s.data)
    case Embryo(_) => true
  }

  /** A slot whose pipe page outlives its fd page belongs to an env half-way through a close or a dup. */
  predicate MidStep(s: State, k: Slot) {
    Alive(s, k.0) && (s.pcs[k.0] == Closing(k.1) || (s.pcs[k.0].Duping? && s.pcs[k.0].to == k.1))
  }

  /** Descriptors of which a child has the fd page but not yet the pipe page. */
  function HalfShared(s: State): set<Slot> {
    Fds(s) - s.data
  }

  ghost predicate SetsOk(s: State) {
    && s.readers !! s.writers && s.pcs.Keys == s.runs.Keys
    && (forall k :: k in s.data || k in Fds(s) ==> k.0 in s.pcs)
    && (forall k :: k in s.data && k !in Fds(s) ==> MidStep(s, k))
    && (forall k :: k in HalfShared(s) ==> s.pcs[k.0].Embryo?)
    && (s.cur in s.pcs ==> !s.pcs[s.cur].Embryo?)
  }

  ghost predicate Inv(s: State) {
    SetsOk(s) && forall e :: e in s.pcs ==> PcOk(s, e)
  }

  /** Envs that do not step keep their place, and what they had read stays out of date or untouched. */
  lemma OtherPcs(s: State, s': State, e: nat)
    requires Inv(s) && e in s.pcs && e in s'.pcs && e in s'.runs && s'.pcs[e] == s.pcs[e] && s'.runs[e] == s.runs[e]
    requires e != s'.cur && SameSlots(s, s', e)
    requires s.pcs[e].Forking? ==>
               var c := s.pcs[e].child; c in s'.pcs && c in s'.runs && s'.pcs[c] == Embryo(e) && SameSlots(s, s', c)
    ensures PcOk(s', e)
  {
    assert PcOk(s, e);
  }

  ghost predicate SameSlots(s: State, s': State, e: nat) {
    && (forall i :: ((e, i) in s.readers <==> (e, i) in s'.readers) && ((e, i) in s.writers <==> (e, i) in s'.writers))
    && (forall i :: (e, i) in s.data <==> (e, i) in s'.data)
  }

  lemma SwitchInv(s: State, x: nat)
    requires Inv(s) && Enabled(s, Switch(x))
    ensures Inv(Next(s, Switch(x)))
  {
    var s' := Next(s, Switch(x));
    forall e | e in s'.pcs ensures PcOk(s', e) {
      assert PcOk(s, e);
    }
  }

  /** A step that touches only the current env's slots and place leaves all others in order. */
  lemma OnlyMine(s: State, s': State)
    requires Inv(s) && Alive(s, s.cur) && s'.cur == s.cur && s'.runs == s.runs
    requires s.cur in s'.pcs && s'.pcs == s.pcs[s.cur := s'.pcs[s.cur]]
    requires forall k: Slot :: k.0 != s.cur ==>
      (k in s'.readers <==> k in s.readers) && (k in s'.writers <==> k in s.writers) && (k in s'.data <==> k in s.data)
    ensures forall e :: e in s'.pcs && e != s.cur ==> PcOk(s', e)
  {
    forall e | e in s'.pcs && e != s.cur ensures PcOk(s', e) {
      assert PcOk(s, e);
      OtherPcs(s, s', e);
    }
  }

  lemma CloseInv(s: State, l: Step)
    requires Inv(s) && Enabled(s, l) && (l.CloseFd? || l.CloseData?)
    ensures Inv(Next(s, l))
  {
    var s' := Next(s, l);
    assert PcOk(s, s.cur);
    OnlyMine(s, s');
    assert PcOk(s', s.cur) by { hide SetsOk; }
    assert SetsOk(s') by { CloseSets(s, l); }
  }

  lemma CloseSets(s: State, l: Step)
    requires SetsOk(s) && Enabled(s, l) && (l.CloseFd? || l.CloseData?) && PcOk(s, s.cur)
    ensures SetsOk(Next(s, l))
  {
  }

  lemma DupInv(s: State, l: Step)
    requires Inv(s) && Enabled(s, l) && (l.DupData? || l.DupFd? || l.DupFails?)
    ensures Inv(Next(s, l))
  {
    var s' := Next(s, l);
    assert PcOk(s, s.cur);
    DupSets(s, l);
    hide SetsOk;
    OnlyMine(s, s');
    assert PcOk(s', s.cur);
  }

  lemma DupSets(s: State, l: Step)
    requires SetsOk(s) && Enabled(s, l) && (l.DupData? || l.DupFd? || l.DupFails?) && PcOk(s, s.cur)
    ensures SetsOk(Next(s, l))
  {
  }

  lemma ForkBeginSets(s: State, child: nat)
    requires Inv(s) && Enabled(s, ForkBegin(child))
    ensures SetsOk(Next(s, ForkBegin(child))) && PcOk(Next(s, ForkBegin(child)), s.cur)
  {
  }

  lemma ForkBeginInv(s: State, child: nat)
    requires Inv(s) && Enabled(s, ForkBegin(child))
    ensures Inv(Next(s, ForkBegin(child)))
  {
    var s', e := Next(s, ForkBegin(child)), s.cur;
    forall x | x in s'.pcs && x != e ensures PcOk(s', x) {
      if x != child {
        assert PcOk(s, x);
        OtherPcs(s, s', x);
      }
    }
    ForkBeginSets(s, child);
    hide PcOk, SetsOk;
  }

  lemma ForkEndInv(s: State)
    requires Inv(s) && Enabled(s, ForkEnd)
    ensures Inv(Next(s, ForkEnd))
  {
    var s', e := Next(s, ForkEnd), s.cur;
    assert PcOk(s, e);
    forall x | x in s'.pcs && x != e ensures PcOk(s', x) {
      if x != s.pcs[e].child {
        assert PcOk(s, x);
        OtherPcs(s, s', x);
      }
    }
    hide PcOk;
    assert SetsOk(s');
  }

  lemma ShareSets(s: State, l: Step)
    requires SetsOk(s) && Enabled(s, l) && (l.ShareFd? || l.ShareData?) && PcOk(s, s.cur)
    ensures SetsOk(Next(s, l))
  {
  }

  lemma SharePlace(s: State, l: Step)
    requires Inv(s) && Enabled(s, l) && (l.ShareFd? || l.ShareData?)
    ensures PcOk(Next(s, l), s.cur)
  {
    assert PcOk(s, s.cur);
  }

  lemma ShareInv(s: State, l: Step)
    requires Inv(s) && Enabled(s, l) && (l.ShareFd? || l.ShareData?)
    ensures Inv(Next(s, l))
  {
    var s', e := Next(s, l), s.cur;
    assert PcOk(s, e);
    ShareSets(s, l);
    forall x | x in s'.pcs && x != e ensures PcOk(s', x) {
      assert PcOk(s, x);
      if x != s.pcs[e].child {
        OtherPcs(s, s', x);
      }
    }
    SharePlace(s, l);
    hide PcOk, SetsOk;
  }

  lemma DieInv(s: State, x: nat)
    requires Inv(s) && Enabled(s, Die(x))
    ensures Inv(Next(s, Die(x)))
  {
    var s' := Next(s, Die(x));
    forall e | e in s'.pcs ensures PcOk(s', e) {
      if e != s.cur {
        OtherPcs(s, s', e);
      }
    }
  }

  /** A step that only moves the current env's place. */
  lemma PlaceInv(s: State, pc: Pc)
    requires Inv(s) && Alive(s, s.cur) && PcOk(At(s, pc), s.cur) && !pc.Embryo?
    requires !s.pcs[s.cur].Closing? && !s.pcs[s.cur].Duping?
    ensures Inv(At(s, pc))
  {
    PlaceSets(s, pc);
    hide SetsOk;
    assert PcOk(s, s.cur);
    OnlyMine(s, At(s, pc));
  }

  lemma PlaceSets(s: State, pc: Pc)
    requires SetsOk(s) && Alive(s, s.cur) && !pc.Embryo? && !s.pcs[s.cur].Closing? && !s.pcs[s.cur].Duping?
    ensures SetsOk(At(s, pc))
  {
  }

  lemma ReadPlace(s: State, l: Step)
    requires Enabled(s, l) && (l.ReadRuns? || l.ReadFdRef? || l.ReadPipeRef? || l.Compare?) && PcOk(s, s.cur)
    ensures var s' := Next(s, l); s'.cur == s.cur && s.cur in s'.pcs && s' == At(s, s'.pcs[s.cur]) && PcOk(s', s.cur)
    ensures !Next(s, l).pcs[s.cur].Embryo?
  {
  }

  lemma ReadInv(s: State, l: Step)
    requires Inv(s) && Enabled(s, l) && (l.ReadRuns? || l.ReadFdRef? || l.ReadPipeRef? || l.Compare?)
    ensures Inv(Next(s, l))
  {
    assert PcOk(s, s.cur);
    hide Inv, PcOk;
    ReadPlace(s, l);
    PlaceInv(s, Next(s, l).pcs[s.cur]);
  }

  lemma StepInv(s: State, l: Step)
    requires Inv(s) && Enabled(s, l)
    ensures Inv(Next(s, l))
  {
    hide Inv, Next;
    match l
    case Switch(x) => SwitchInv(s, x);
    case CloseFd(_) => CloseInv(s, l);
    case CloseData => CloseInv(s, l);
    case DupData(_, _) => DupInv(s, l);
    case DupFd => DupInv(s, l);
    case DupFails => DupInv(s, l);
    case ForkBegin(child) => ForkBeginInv(s, child);
    case ForkEnd => ForkEndInv(s);
    case ShareFd(_) => ShareInv(s, l);
    case ShareData(_) => ShareInv(s, l);
    case Die(x) => DieInv(s, x);
    case ReadRuns(_) => ReadInv(s, l);
    case ReadFdRef => ReadInv(s, l);
    case ReadPipeRef => ReadInv(s, l);
    case Compare => ReadInv(s, l);
  }

  // ---- what the answer means

  /** _pipe_is_closed leaves its loop: env_runs reads the same as before the two counts. */
  predicate Accepts(s: State) {
    Enabled(s, Compare) && s.pcs[s.cur].start % TWO32 == s.runs[s.cur] % TWO32
  }

  /** The value returned is 1. */
  predicate Answer(s: State)
    requires Accepts(s)
  {
    Next(s, Compare).pcs[s.cur] == Decided(true)
  }

  /** The end asked about: the one whose fd page the caller holds. */
  function AskedEnd(s: State): End
    requires Accepts(s)
  {
    EndOf(s, (s.cur, s.pcs[s.cur].i))
  }

  lemma SameRuns(a: nat, b: nat)
    requires a <= b < a + TWO32 && a % TWO32 == b % TWO32
    ensures a == b
  {
    assert a == a / TWO32 * TWO32 + a % TWO32 && b == b / TWO32 * TWO32 + b % TWO32;
  }

  /** The two counts that the retry accepts are those of one moment. */
  lemma CountsAreSnapshot(s: State)
    requires Inv(s) && Accepts(s)
    ensures s.pcs[s.cur].fdRef == |OpenSlots(s, AskedEnd(s))|
    ensures s.pcs[s.cur].pipeRef == |s.data|
  {
    assert PcOk(s, s.cur);
    SameRuns(s.pcs[s.cur].start, s.runs[s.cur]);
  }

  lemma {:induction false} SubsetSize<T>(a: set<T>, b: set<T>)
    requires a <= b
    ensures |a| <= |b| && (|a| == |b| ==> a == b)
  {
    if a != {} {
      var x :| x in a;
      SubsetSize(a - {x}, b - {x});
    }
  }

  lemma {:induction false} DisjointSize<T>(a: set<T>, b: set<T>)
    requires a !! b
    ensures |a + b| == |a| + |b|
  {
    if a != {} {
      var x :| x in a;
      DisjointSize(a - {x}, b);
      assert a + b == (a - {x}) + b + {x};
    }
  }

  lemma EqualSizes<T>(mine: set<T>, theirs: set<T>, data: set<T>)
    requires mine !! theirs
    ensures |mine| == |data| <==> |theirs| + |data - (mine + theirs)| == |mine + theirs - data|
  {
    var both := (mine + theirs) * data;
    DisjointSize(mine, theirs);
    DisjointSize(both, mine + theirs - data);
    DisjointSize(both, data - (mine + theirs));
    assert mine + theirs == both + (mine + theirs - data) && data == both + (data - (mine + theirs));
  }

  /** What the two counts say, forks under way included: the answer is 1 exactly when the mappings of the other end,
      with the pipe pages left over from closes and dups, are as many as the descriptors half shared. */
  lemma AnswerExact(s: State)
    requires Inv(s) && Accepts(s)
    ensures Answer(s) <==> |OpenSlots(s, Opposite(AskedEnd(s)))| + |s.data - Fds(s)| == |HalfShared(s)|
  {
    CountsAreSnapshot(s);
    var mine, theirs := OpenSlots(s, AskedEnd(s)), OpenSlots(s, Opposite(AskedEnd(s)));
    assert Fds(s) == mine + theirs && mine !! theirs;
    hide Inv, Accepts, Answer, OpenSlots;
    EqualSizes(mine, theirs, s.data);
  }

  /** How the loop's test ends: with a value that says whether the sizes agree when env_runs is unchanged, and with
      another turn from the new env_runs when it is not. Nothing but the asker's place moves. */
  lemma CompareExact(s: State)
    requires Inv(s) && Enabled(s, Compare)
    ensures var t, e, i := Next(s, Compare), s.cur, s.pcs[s.cur].i;
            && e in t.pcs && t == s.(pcs := s.pcs[e := t.pcs[e]])
            && if s.pcs[e].start == s.runs[e] then
                 t.pcs[e] == Decided(|OpenSlots(s, Opposite(EndOf(s, (e, i))))| + |s.data - Fds(s)| == |HalfShared(s)|)
               else t.pcs[e] == SawRuns(i, s.runs[e])
  {
    if Accepts(s) {
      AnswerExact(s);
    }
    assert PcOk(s, s.cur);
    if s.pcs[s.cur].start != s.runs[s.cur] && s.pcs[s.cur].start % TWO32 == s.runs[s.cur] % TWO32 {
      SameRuns(s.pcs[s.cur].start, s.runs[s.cur]);
    }
  }

  /** When no descriptor is half shared the answer is 1 exactly when no slot maps the other end and nobody is half-way
      through a close or a dup. */
  lemma ClosedExact(s: State)
    requires Inv(s) && Accepts(s) && HalfShared(s) == {}
    ensures Answer(s) <==> OpenSlots(s, Opposite(AskedEnd(s))) == {} && forall k :: k in s.data ==> !MidStep(s, k)
  {
    AnswerExact(s);
    var theirs, left := OpenSlots(s, Opposite(AskedEnd(s))), s.data - Fds(s);
    assert (theirs == {} <==> |theirs| == 0) && (left == {} <==> |left| == 0);
    assert left == {} <==> forall k :: k in s.data ==> !MidStep(s, k) by {
      MidSteps(s);
    }
  }

  lemma MidSteps(s: State)
    requires Inv(s)
    ensures s.data - Fds(s) == {} <==> forall k :: k in s.data ==> !MidStep(s, k)
  {
    forall k | k in s.data && MidStep(s, k) ensures k !in Fds(s) {
      assert PcOk(s, k.0);
    }
    assert s.data - Fds(s) == {} ==> forall k :: k in s.data ==> k in Fds(s) by {
      assert forall k :: k in s.data && k !in Fds(s) ==> k in s.data - Fds(s);
    }
  }

  /** No step opens an end that nobody has open. */
  lemma ClosedStays(s: State, l: Step, end: End)
    requires Inv(s) && Enabled(s, l) && OpenSlots(s, end) == {}
    ensures OpenSlots(Next(s, l), end) == {}
  {
    assert Alive(s, s.cur) ==> PcOk(s, s.cur);
  }

  predicate CanRun(s: State, ls: seq<Step>)
    decreases |ls|
  {
    ls == [] || (Enabled(s, ls[0]) && CanRun(Next(s, ls[0]), ls[1..]))
  }

  function RunOf(s: State, ls: seq<Step>): State
    requires CanRun(s, ls)
    decreases |ls|
  {
    if ls == [] then s else RunOf(Next(s, ls[0]), ls[1..])
  }

  lemma {:induction false} RunInv(s: State, ls: seq<Step>)
    requires Inv(s) && CanRun(s, ls)
    ensures Inv(RunOf(s, ls))
    decreases |ls|
  {
    hide Inv, Next, Enabled;
    if ls != [] {
      StepInv(s, ls[0]);
      RunInv(Next(s, ls[0]), ls[1..]);
    }
  }

  lemma {:induction false} RunClosed(s: State, ls: seq<Step>, end: End)
    requires Inv(s) && CanRun(s, ls) && OpenSlots(s, end) == {}
    ensures OpenSlots(RunOf(s, ls), end) == {}
    decreases |ls|
  {
    hide Inv, Next, Enabled, OpenSlots;
    if ls != [] {
      StepInv(s, ls[0]);
      ClosedStays(s, ls[0], end);
      RunClosed(Next(s, ls[0]), ls[1..], end);
    }
  }

  /** pipe() has just returned in env e: both ends open, each with the pipe page, nobody checking. */
  predicate Created(s: State, e: nat, r: nat, w: nat) {
    && r != w && s.readers == {(e, r)} && s.writers == {(e, w)} && s.data == {(e, r), (e, w)}
    && s.pcs.Keys == s.runs.Keys && e in s.pcs && forall x :: x in s.pcs ==> s.pcs[x] == Idle
  }

  lemma CreatedInv(s: State, e: nat, r: nat, w: nat)
    requires Created(s, e, r, w)
    ensures Inv(s)
  {
    forall x | x in s.pcs ensures PcOk(s, x) {
      assert s.pcs[x] == Idle;
    }
  }

  /** Under every interleaving: when _pipe_is_closed returns 1 while no descriptor is half shared, no env has the other
      end open, then or ever after. */
  lemma ClosedIsSound(s: State, e: nat, r: nat, w: nat, before: seq<Step>, after: seq<Step>)
    requires Created(s, e, r, w) && CanRun(s, before) && Enabled(RunOf(s, before), Compare)
    requires var t := RunOf(s, before); var u := Next(t, Compare);
             u.cur in u.pcs && u.pcs[u.cur] == Decided(true) && HalfShared(u) == {} && CanRun(u, after)
    ensures var t := RunOf(s, before);
            OpenSlots(RunOf(Next(t, Compare), after), Opposite(EndOf(t, (t.cur, t.pcs[t.cur].i)))) == {}
  {
    CreatedInv(s, e, r, w);
    RunInv(s, before);
    var t := RunOf(s, before);
    CompareExact(t);
    StepInv(t, Compare);
    ClosedExact(t);
    RunClosed(Next(t, Compare), after, Opposite(AskedEnd(t)));
  }

  /** Nothing is half shared while no child is being filled. */
  lemma NoEmbryos(s: State)
    requires Inv(s) && forall e :: e in s.pcs ==> !s.pcs[e].Embryo?
    ensures HalfShared(s) == {}
  {
    assert forall k :: k in HalfShared(s) ==> k.0 in s.pcs;
  }

  /** While no child is being filled, a return of 1 is right for good. */
  lemma ClosedOutsideForks(s: State, e: nat, r: nat, w: nat, before: seq<Step>, after: seq<Step>)
    requires Created(s, e, r, w) && CanRun(s, before) && Enabled(RunOf(s, before), Compare)
    requires var t := RunOf(s, before); var u := Next(t, Compare);
             && u.cur in u.pcs && u.pcs[u.cur] == Decided(true) && (forall x :: x in u.pcs ==> !u.pcs[x].Embryo?)
             && CanRun(u, after)
    ensures var t := RunOf(s, before);
            OpenSlots(RunOf(Next(t, Compare), after), Opposite(EndOf(t, (t.cur, t.pcs[t.cur].i)))) == {}
  {
    CreatedInv(s, e, r, w);
    RunInv(s, before);
    StepInv(RunOf(s, before), Compare);
    NoEmbryos(Next(RunOf(s, before), Compare));
    ClosedIsSound(s, e, r, w, before, after);
  }

  // ---- whole operations, run without anyone in between

  lemma OneStep(s: State, l: Step, t: State, ls: seq<Step>)
    requires Enabled(s, l) && Next(s, l) == t && CanRun(t, ls)
    ensures CanRun(s, [l] + ls) && RunOf(s, [l] + ls) == RunOf(t, ls)
  {
    hide Enabled, Next;
    assert ([l] + ls)[1..] == ls;
  }

  lemma FourSteps(s0: State, a: Step, s1: State, b: Step, s2: State, c: Step, s3: State, d: Step, s4: State)
    requires Enabled(s0, a) && Next(s0, a) == s1 && Enabled(s1, b) && Next(s1, b) == s2
    requires Enabled(s2, c) && Next(s2, c) == s3 && Enabled(s3, d) && Next(s3, d) == s4
    ensures CanRun(s0, [a, b, c, d]) && RunOf(s0, [a, b, c, d]) == s4
  {
    hide Enabled, Next;
    OneStep(s3, d, s4, []);
    OneStep(s2, c, s3, [d]);
    OneStep(s1, b, s2, [c, d]);
    OneStep(s0, a, s1, [b, c, d]);
    assert [d] + [] == [d] && [c] + [d] == [c, d] && [b] + [c, d] == [b, c, d] && [a] + [b, c, d] == [a, b, c, d];
  }

  lemma TwoSteps(s0: State, a: Step, s1: State, b: Step, s2: State)
    requires Enabled(s0, a) && Next(s0, a) == s1 && Enabled(s1, b) && Next(s1, b) == s2
    ensures CanRun(s0, [a, b]) && RunOf(s0, [a, b]) == s2
  {
    hide Enabled, Next;
    OneStep(s1, b, s2, []);
    OneStep(s0, a, s1, [b]);
    assert [b] + [] == [b] && [a] + [b] == [a, b];
  }

  /** pipe_close takes both pages of its slot and nothing else. */
  lemma CloseWhole(s: State, i: nat)
    requires Inv(s) && Enabled(s, CloseFd(i))
    ensures CanRun(s, [CloseFd(i), CloseData])
    ensures var t, k := RunOf(s, [CloseFd(i), CloseData]), (s.cur, i);
            && t.readers == s.readers - {k} && t.writers == s.writers - {k} && t.data == s.data - {k}
            && t.cur == s.cur && t.runs == s.runs && t.pcs == s.pcs[s.cur := Idle]
  {
    var s1 := Next(s, CloseFd(i));
    TwoSteps(s, CloseFd(i), s1, CloseData, Next(s1, CloseData));
  }

  /** dup gives the new slot the pipe page and the old slot's end, and nothing else changes. */
  lemma DupWhole(s: State, from: nat, to: nat)
    requires Inv(s) && Enabled(s, DupData(from, to))
    ensures CanRun(s, [DupData(from, to), DupFd])
    ensures var t, k := RunOf(s, [DupData(from, to), DupFd]), (s.cur, to);
            && k in OpenSlots(t, EndOf(s, (s.cur, from))) && k in t.data
            && t.readers + t.writers == Fds(s) + {k} && t.data == s.data + {k} && s.readers <= t.readers && s.writers <= t.writers
            && t.cur == s.cur && t.runs == s.runs && t.pcs == s.pcs[s.cur := Idle]
  {
    var s1 := Next(s, DupData(from, to));
    TwoSteps(s, DupData(from, to), s1, DupFd, Next(s1, DupFd));
  }

  /** A dup that fails half-way leaves every slot as it was. */
  lemma DupUndone(s: State, from: nat, to: nat)
    requires Inv(s) && Enabled(s, DupData(from, to)) && (s.cur, to) !in s.data
    ensures CanRun(s, [DupData(from, to), DupFails])
    ensures var t := RunOf(s, [DupData(from, to), DupFails]); t == s.(pcs := s.pcs[s.cur := Idle])
  {
    var s1 := Next(s, DupData(from, to));
    TwoSteps(s, DupData(from, to), s1, DupFails, Next(s1, DupFails));
  }

  /** When fork is done the child has exactly its parent's slots, each at the same end, whoever ran in between. */
  lemma ForkWhole(s: State, i: nat)
    requires Inv(s) && Enabled(s, ForkEnd)
    ensures var e, t := s.cur, Next(s, ForkEnd); var c := s.pcs[e].child;
            && ((c, i) in t.readers <==> (e, i) in t.readers) && ((c, i) in t.writers <==> (e, i) in t.writers)
            && ((c, i) in t.data <==> (e, i) in t.data)
            && Alive(t, c) && t.pcs[c] == Idle && t.pcs[e] == Idle
  {
    assert PcOk(s, s.cur);
  }

  /** The env that dies leaves its slots, and the others keep theirs. */
  lemma DieWhole(s: State, x: nat, k: Slot)
    requires Inv(s) && Enabled(s, Die(x))
    ensures var t := Next(s, Die(x));
            && (k in t.readers <==> k in s.readers && k.0 != x) && (k in t.writers <==> k in s.writers && k.0 != x)
            && (k in t.data <==> k in s.data && k.0 != x) && x !in t.pcs
            && forall y :: y in s.pcs && y != x ==> y in t.pcs && t.pcs[y] == s.pcs[y]
  {
  }

  /** A read moves the asker on and nothing else. */
  lemma ReadMoves(s: State, l: Step)
    requires Inv(s) && Enabled(s, l) && (l.ReadRuns? || l.ReadFdRef? || l.ReadPipeRef?)
    ensures var t, e := Next(s, l), s.cur;
            && Inv(t) && e in t.pcs && Moved(s, t, t.pcs[e])
            && (l.ReadRuns? ==> t.pcs[e] == SawRuns(l.i, s.runs[e]) && Enabled(t, ReadFdRef))
            && (l.ReadFdRef? ==>
                  t.pcs[e].SawFd? && t.pcs[e].i == s.pcs[e].i && t.pcs[e].start == s.pcs[e].start && Enabled(t, ReadPipeRef))
            && (l.ReadPipeRef? ==>
                  && t.pcs[e].SawBoth? && t.pcs[e].i == s.pcs[e].i && t.pcs[e].start == s.pcs[e].start
                  && (s.pcs[e].start == s.runs[e] ==> Enabled(t, Compare)))
  {
    StepInv(s, l);
  }

  predicate Moved(s: State, t: State, pc: Pc) {
    t == s.(pcs := s.pcs[s.cur := pc])
  }

  lemma MovedTwice(s: State, t: State, u: State, x: Pc, y: Pc)
    requires Moved(s, t, x) && Moved(t, u, y)
    ensures Moved(s, u, y)
  {
    assert s.pcs[s.cur := x][s.cur := y] == s.pcs[s.cur := y];
  }

  /** Asked without an interruption, the test returns at its first turn. */
  lemma AskAlone(s: State, i: nat)
    requires Inv(s) && Enabled(s, ReadRuns(i))
    ensures CanRun(s, [ReadRuns(i), ReadFdRef, ReadPipeRef, Compare])
    ensures Moved(s, RunOf(s, [ReadRuns(i), ReadFdRef, ReadPipeRef, Compare]),
                  Decided(|OpenSlots(s, Opposite(EndOf(s, (s.cur, i))))| + |s.data - Fds(s)| == |HalfShared(s)|))
  {
    hide Inv, Next, Enabled, CanRun, RunOf;
    var s1 := Next(s, ReadRuns(i));
    ReadMoves(s, ReadRuns(i));
    var s2 := Next(s1, ReadFdRef);
    ReadMoves(s1, ReadFdRef);
    var s3 := Next(s2, ReadPipeRef);
    ReadMoves(s2, ReadPipeRef);
    var s4 := Next(s3, Compare);
    CompareExact(s3);
    FourSteps(s, ReadRuns(i), s1, ReadFdRef, s2, ReadPipeRef, s3, Compare, s4);
    MovedTwice(s, s1, s2, s1.pcs[s.cur], s2.pcs[s.cur]);
    MovedTwice(s, s2, s3, s2.pcs[s.cur], s3.pcs[s.cur]);
    MovedTwice(s, s3, s4, s3.pcs[s.cur], s4.pcs[s.cur]);
  }

  // ---- the wrong answer that fork's order of mapping allows

  lemma {:induction false} RunJoin(s: State, a: seq<Step>, b: seq<Step>)
    requires CanRun(s, a) && CanRun(RunOf(s, a), b)
    ensures CanRun(s, a + b) && RunOf(s, a + b) == RunOf(RunOf(s, a), b)
    decreases |a|
  {
    hide Enabled, Next;
    if a == [] {
      assert a + b == b;
    } else {
      RunJoin(Next(s, a[0]), a[1..], b);
      assert (a + b)[1..] == a[1..] + b;
    }
  }

  /** A writer forks and closes its reading end, so that its child holds both ends. */
  function ForkSteps(): seq<Step> {
    [ForkBegin(1), ShareFd(0), ShareFd(1), ShareData(0), ShareData(1), ForkEnd, CloseFd(0), CloseData]
  }

  /** The child forks and is interrupted after its two fd pages; then the writer asks whether the reading end is closed. */
  function AskSteps(): seq<Step> {
    [Switch(1), ForkBegin(2), ShareFd(0), ShareFd(1), Switch(0), ReadRuns(1), ReadFdRef, ReadPipeRef]
  }

  /** A new pipe in env 0, and the states after four, eight, twelve and sixteen steps. */
  function Fresh(): State {
    State({(0, 0)}, {(0, 1)}, {(0, 0), (0, 1)}, map[0 := Idle], map[0 := 1], 0)
  }

  function Filling(): State {
    State({(0, 0), (1, 0)}, {(0, 1), (1, 1)}, {(0, 0), (0, 1), (1, 0)},
          map[0 := Forking(1), 1 := Embryo(0)], map[0 := 1, 1 := 0], 0)
  }

  function Forked(): State {
    State({(1, 0)}, {(0, 1), (1, 1)}, {(0, 1), (1, 0), (1, 1)}, map[0 := Idle, 1 := Idle], map[0 := 1, 1 := 0], 0)
  }

  function Interrupted(): State {
    State({(1, 0), (2, 0)}, {(0, 1), (1, 1), (2, 1)}, {(0, 1), (1, 0), (1, 1)},
          map[0 := Idle, 1 := Forking(2), 2 := Embryo(1)], map[0 := 1, 1 := 1, 2 := 0], 1)
  }

  function Asked(): State {
    Interrupted().(pcs := map[0 := SawBoth(1, 2, 3, 3), 1 := Forking(2), 2 := Embryo(1)],
                   runs := map[0 := 2, 1 := 1, 2 := 0], cur := 0)
  }

  lemma FillRun()
    ensures CanRun(Fresh(), ForkSteps()[..4]) && RunOf(Fresh(), ForkSteps()[..4]) == Filling()
  {
    var s1 := Fresh().(pcs := map[0 := Forking(1), 1 := Embryo(0)], runs := map[0 := 1, 1 := 0]);
    var s2 := s1.(readers := {(0, 0), (1, 0)});
    var s3 := s2.(writers := {(0, 1), (1, 1)});
    FourSteps(Fresh(), ForkBegin(1), s1, ShareFd(0), s2, ShareFd(1), s3, ShareData(0), Filling());
    assert ForkSteps()[..4] == [ForkBegin(1), ShareFd(0), ShareFd(1), ShareData(0)];
  }

  lemma ForkRun()
    ensures CanRun(Filling(), ForkSteps()[4..]) && RunOf(Filling(), ForkSteps()[4..]) == Forked()
  {
    var s1 := Filling().(data := {(0, 0), (0, 1), (1, 0), (1, 1)});
    var s2 := s1.(pcs := map[0 := Idle, 1 := Idle]);
    var s3 := s2.(pcs := map[0 := Closing(0), 1 := Idle], readers := {(1, 0)});
    FourSteps(Filling(), ShareData(1), s1, ForkEnd, s2, CloseFd(0), s3, CloseData, Forked());
    assert ForkSteps()[4..] == [ShareData(1), ForkEnd, CloseFd(0), CloseData];
  }

  lemma InterruptRun()
    ensures CanRun(Forked(), AskSteps()[..4]) && RunOf(Forked(), AskSteps()[..4]) == Interrupted()
  {
    var s1 := Forked().(runs := map[0 := 1, 1 := 1], cur := 1);
    var s2 := s1.(pcs := map[0 := Idle, 1 := Forking(2), 2 := Embryo(1)], runs := map[0 := 1, 1 := 1, 2 := 0]);
    var s3 := s2.(readers := {(1, 0), (2, 0)});
    FourSteps(Forked(), Switch(1), s1, ForkBegin(2), s2, ShareFd(0), s3, ShareFd(1), Interrupted());
    assert AskSteps()[..4] == [Switch(1), ForkBegin(2), ShareFd(0), ShareFd(1)];
  }

  lemma AskRun()
    ensures CanRun(Interrupted(), AskSteps()[4..]) && RunOf(Interrupted(), AskSteps()[4..]) == Asked()
  {
    var s1 := Interrupted().(runs := map[0 := 2, 1 := 1, 2 := 0], cur := 0);
    var s2 := s1.(pcs := s1.pcs[0 := SawRuns(1, 2)]);
    var s3 := s1.(pcs := s1.pcs[0 := SawFd(1, 2, 3)]);
    assert |{(0, 1), (1, 1), (2, 1)}| == 3 && |{(0, 1), (1, 0), (1, 1)}| == 3;
    assert Next(s2, ReadFdRef) == s3;
    FourSteps(Interrupted(), Switch(0), s1, ReadRuns(1), s2, ReadFdRef, s3, ReadPipeRef, Asked());
    assert AskSteps()[4..] == [Switch(0), ReadRuns(1), ReadFdRef, ReadPipeRef];
  }

  lemma WholeRun()
    ensures CanRun(Fresh(), ForkSteps() + AskSteps()) && RunOf(Fresh(), ForkSteps() + AskSteps()) == Asked()
  {
    assert ForkSteps()[..4] + ForkSteps()[4..] == ForkSteps();
    assert AskSteps()[..4] + AskSteps()[4..] == AskSteps();
    hide Fresh, Filling, Forked, Interrupted, Asked, CanRun, RunOf, ForkSteps, AskSteps;
    FillRun();
    ForkRun();
    RunJoin(Fresh(), ForkSteps()[..4], ForkSteps()[4..]);
    InterruptRun();
    AskRun();
    RunJoin(Forked(), AskSteps()[..4], AskSteps()[4..]);
    RunJoin(Fresh(), ForkSteps(), AskSteps());
  }

  /** fork maps fd pages before pipe pages: from a new pipe, with nobody destroyed, a writer is told that the reading
      end is closed while its child and grandchild hold it. */
  lemma FdBeforeDataMisleads() returns (s: State, ls: seq<Step>)
    ensures Created(s, 0, 0, 1) && CanRun(s, ls) && (forall l :: l in ls ==> !l.Die?)
    ensures var t := RunOf(s, ls);
      && Enabled(t, Compare) && t.cur == 0 && (0, t.pcs[0].i) in t.writers && OpenSlots(t, ReadEnd) == {(1, 0), (2, 0)}
      && var u := Next(t, Compare); 0 in u.pcs && u.pcs[0] == Decided(true) && OpenSlots(u, ReadEnd) == {(1, 0), (2, 0)}
  {
    s, ls := Fresh(), ForkSteps() + AskSteps();
    WholeRun();
    hide CanRun, RunOf;
    assert OpenSlots(Asked(), ReadEnd) == {(1, 0), (2, 0)};
  }
}
