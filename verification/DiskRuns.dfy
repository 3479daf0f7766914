/** Runs of the file server's disk operations: the ownership partition holds all along (fs/fs.c). */
module DiskRuns {
  import opened Bits
  import opened DiskBlocks
  import opened DiskTruncate
  import opened DiskMap

  /** Cut is file_truncate called directly, as file_remove does. */
  datatype Op =
    | Map(f: nat, i: nat, alloc: bool)
    | SetSize(f: nat, size: nat)
    | Cut(f: nat, size: nat)
    | Read(b: nat)
    | Write(b: nat, data: Block)

  /** What the code needs of its callers: blocks are mapped within the file's size, a block that becomes an indirect
      block is out of the cache or reads as zeros, free blocks are not read, only blocks in the cache are written, and
      file data never goes into an indirect block. */
  ghost predicate Allowed(s: Disk, op: Op)
    requires Shaped(s)
  {
    match op
    case Map(f, i, alloc) => f < |s.files| && FreshReadsZero(s, f, i, alloc) && (alloc ==> i * 4096 <= s.files[f].size)
    case SetSize(f, _) => f < |s.files|
    case Cut(f, _) => f < |s.files|
    case Read(b) => b < s.nblocks && !IsFree(s, b)
    case Write(b, _) => s.reserved <= b < s.nblocks && s.cached[b] && forall f :: 0 <= f < |s.files| ==> s.files[f].indirect != b
  }

  /** Every indirect block lies on the disk. */
  ghost predicate OnDisk(s: Disk) {
    Shaped(s) && forall f {:trigger s.files[f]} :: 0 <= f < |s.files| ==> s.files[f].indirect < s.nblocks
  }

  ghost function Apply(s: Disk, memory: nat, op: Op): Outcome
    requires OnDisk(s) && Allowed(s, op)
  {
    match op
    case Map(f, i, alloc) => MapFile(s, memory, f, i, alloc)
    case SetSize(f, size) =>
      var t := DiskTruncate.SetSize(s, f, size);
      Outcome(t, PagesLeft(s, t, memory), 0)
    case Cut(f, size) => Outcome(Truncate(s, f, size), PagesLeft(s, Truncate(s, f, size), memory), 0)
    case Read(b) => Outcome(Touch(s, b), PagesLeft(s, Touch(s, b), memory), 0)
    case Write(b, data) => Outcome(s.(contents := s.contents[b := data]), memory, 0)
  }

  ghost predicate Sound(s: Disk) {
    AllWithin(s) && exists owner :: Inv(s, owner)
  }

  lemma SoundOnDisk(s: Disk)
    requires Sound(s)
    ensures OnDisk(s)
  {
    var owner :| Inv(s, owner);
    forall f | 0 <= f < |s.files| ensures s.files[f].indirect < s.nblocks {
      assert BlockAt(s, Slot(f, INDIRECT)) == s.files[f].indirect;
    }
  }

  lemma MapSound(s: Disk, memory: nat, owner: map<nat, Slot>, f: nat, i: nat, alloc: bool)
    requires OnDisk(s) && Inv(s, owner) && AllWithin(s) && Allowed(s, Map(f, i, alloc))
    ensures Sound(MapFile(s, memory, f, i, alloc).disk)
  {
    MapFileExact(s, memory, owner, f, i, alloc);
    var a := MapFile(s, memory, f, i, alloc);
    var t := a.disk;
    hide MapFile, Inv, FreshReadsZero;
    forall g: nat | g < |t.files| ensures WithinSize(t, g) {
      assert WithinSize(s, g);
      MappedWithin(s, f, i, alloc, a, g);
    }
  }

  lemma MappedWithin(s: Disk, f: nat, i: nat, alloc: bool, a: Outcome, g: nat)
    requires f < |s.files| && Maps(s, f, i, alloc, a) && g < |s.files| && WithinSize(s, g)
    requires alloc ==> i < BlocksFor(s.files[f].size)
    ensures WithinSize(a.disk, g)
  {
    var t := a.disk;
    assert !alloc && i < NINDIRECT ==> BlockAt(t, Slot(f, i)) == BlockAt(s, Slot(f, i));
    hide BlockAt, IsFree;
    assert t.files[g].size == s.files[g].size;
    forall j | BlocksFor(t.files[g].size) <= j < NINDIRECT ensures BlockAt(t, Slot(g, j)) == 0 {
      assert alloc || i >= NINDIRECT ==> Slot(g, j) != Slot(f, i);
      assert BlockAt(s, Slot(g, j)) == 0;
    }
  }

  lemma CutSound(s: Disk, owner: map<nat, Slot>, f: nat, size: nat)
    requires Inv(s, owner) && AllWithin(s) && f < |s.files|
    ensures Sound(Truncate(s, f, size))
  {
    var t := Truncate(s, f, size);
    assert WithinSize(s, f);
    TruncateExact(s, owner, f, size);
    TruncateFrame(s, owner, f, size);
    hide Truncate, Inv;
    forall g: nat | g < |t.files| ensures WithinSize(t, g) {
      assert WithinSize(s, g);
      assert forall i :: BlocksFor(size) <= i < NINDIRECT ==> Past(Slot(f, i), f, size);
    }
  }

  lemma SetSizeSound(s: Disk, owner: map<nat, Slot>, f: nat, size: nat)
    requires Inv(s, owner) && AllWithin(s) && f < |s.files|
    ensures Sound(DiskTruncate.SetSize(s, f, size))
  {
    var t := DiskTruncate.SetSize(s, f, size);
    if s.files[f].size > size {
      CutSound(s, owner, f, size);
    } else {
      Resized(s, owner, f, size);
      assert forall j :: IsSlot(s, j) ==> BlockAt(t, j) == BlockAt(s, j);
      hide Inv, BlockAt;
      forall g: nat | g < |t.files| ensures WithinSize(t, g) {
        assert WithinSize(s, g);
        assert BlocksFor(s.files[g].size) <= BlocksFor(t.files[g].size);
      }
    }
  }

  lemma WriteSound(s: Disk, owner: map<nat, Slot>, b: nat, data: Block)
    requires Inv(s, owner) && AllWithin(s) && Allowed(s, Write(b, data))
    ensures Sound(s.(contents := s.contents[b := data]))
  {
    assert b in owner ==> owner[b].i != INDIRECT;
    DataWrite(s, owner, b, data);
    WriteWithin(s, b, data);
  }

  lemma WriteWithin(s: Disk, b: nat, data: Block)
    requires Shaped(s) && AllWithin(s) && b < s.nblocks && forall f :: 0 <= f < |s.files| ==> s.files[f].indirect != b
    ensures AllWithin(s.(contents := s.contents[b := data]))
  {
    var t := s.(contents := s.contents[b := data]);
    assert forall j :: IsSlot(s, j) ==> BlockAt(t, j) == BlockAt(s, j);
    hide BlockAt;
    forall g: nat | g < |t.files| ensures WithinSize(t, g) {
      assert WithinSize(s, g);
    }
  }

  lemma ReadSound(s: Disk, owner: map<nat, Slot>, b: nat)
    requires Inv(s, owner) && AllWithin(s) && b < s.nblocks
    ensures Sound(Touch(s, b))
  {
    var t := Touch(s, b);
    CacheOnly(s, t, owner);
    hide Inv, BlockAt;
    forall g: nat | g < |t.files| ensures WithinSize(t, g) {
      assert WithinSize(s, g);
    }
  }

  lemma ApplySound(s: Disk, memory: nat, op: Op)
    requires Sound(s) && OnDisk(s) && Allowed(s, op)
    ensures Sound(Apply(s, memory, op).disk)
  {
    hide Owned, AllWithin;
    var owner :| Inv(s, owner);
    match op
    case Map(f, i, alloc) => MapSound(s, memory, owner, f, i, alloc);
    case SetSize(f, size) => SetSizeSound(s, owner, f, size);
    case Cut(f, size) => CutSound(s, owner, f, size);
    case Read(b) => ReadSound(s, owner, b);
    case Write(b, data) => WriteSound(s, owner, b, data);
  }

  /** What each call of a run does: a mapping call what file_map_block promises; a size is set, and a shorter file, or one
      that is cut, loses what starts past it; a read block is in the cache, and a written one holds the data. */
  lemma ApplyDoes(s: Disk, memory: nat, op: Op)
    requires Sound(s) && OnDisk(s) && Allowed(s, op)
    ensures var a := Apply(s, memory, op);
      && (op.Map? ==> Maps(s, op.f, op.i, op.alloc, a))
      && (op.SetSize? || op.Cut? ==>
            && |a.disk.files| == |s.files| && a.disk.files[op.f].size == op.size
            && forall j :: IsSlot(s, j) ==>
                 BlockAt(a.disk, j) == if (op.Cut? || op.size < s.files[op.f].size) && PastBytes(j, op.f, op.size) then 0 else BlockAt(s, j))
      && (op.Read? ==> |a.disk.cached| == |s.cached| && a.disk.cached[op.b] && a.disk == s.(cached := a.disk.cached))
      && (op.Write? ==> a.disk == s.(contents := a.disk.contents) && |a.disk.contents| == |s.contents| && a.disk.contents[op.b] == op.data)
      && (op.Write? ==> forall b :: 0 <= b < |s.contents| && b != op.b ==> a.disk.contents[b] == s.contents[b])
  {
    var owner :| Inv(s, owner);
    if op.Map? {
      MapFileExact(s, memory, owner, op.f, op.i, op.alloc);
    } else if op.SetSize? || op.Cut? {
      assert WithinSize(s, op.f);
      WithinBytes(s, op.f);
      TruncateBytes(s, owner, op.f, op.size);
      SetSizeBytes(s, owner, op.f, op.size);
      hide Truncate, DiskTruncate.SetSize, Inv, WithinSize, BlockAt, IsFree;
    }
  }

  /** `trace[n + 1]` is what `ops[n]` makes of `trace[n]`. */
  ghost predicate IsRun(trace: seq<Outcome>, ops: seq<Op>) {
    && |trace| == |ops| + 1
    && forall n {:trigger ops[n]} :: 0 <= n < |ops| ==>
         var s := trace[n];
         OnDisk(s.disk) ==> Allowed(s.disk, ops[n]) && trace[n + 1] == Apply(s.disk, s.memory, ops[n])
  }

  /** Over every run of mapping, resizing, reading and writing calls, each block stays exactly one of free, reserved or in
      one slot, and no slot past a file's size is filled. */
  lemma {:induction false} RunPartition(trace: seq<Outcome>, ops: seq<Op>, n: nat)
    requires IsRun(trace, ops) && Sound(trace[0].disk) && n <= |ops|
    ensures Sound(trace[n].disk)
  {
    hide Sound, Apply;
    if n > 0 {
      RunPartition(trace, ops, n - 1);
      var op := ops[n - 1];
      SoundOnDisk(trace[n - 1].disk);
      assert Allowed(trace[n - 1].disk, op);
      assert trace[n] == Apply(trace[n - 1].disk, trace[n - 1].memory, op);
      ApplySound(trace[n - 1].disk, trace[n - 1].memory, op);
    }
  }

  /** The file f keeps one block, in slot 0, ahead of every free block. */
  ghost predicate HoldsFirst(s: Disk, f: nat, d: nat) {
    && f < |s.files| && 0 < s.files[f].size < BY2BLK && s.files[f].indirect == 0
    && 3 <= d < s.nblocks && BlockAt(s, Slot(f, 0)) == d && forall c :: IsFree(s, c) ==> d < c
  }

  /** Freeing leaves a block in the cache with its words, so the run that reads f's block, writes data with a non-zero
      word past the tenth, cuts f to nothing and gives another file its eleventh block breaks the partition. */
  lemma ReuseBreaks(s: Disk, memory: nat, f: nat, g: nat, d: nat, data: Block, i: nat) returns (trace: seq<Outcome>)
    requires Sound(s) && HoldsFirst(s, f, d) && f != g && g < |s.files| && s.files[g].indirect == 0
    requires NDIRECT <= i < NINDIRECT && !NoIndirectSlots(data)
    ensures |trace| == 4 && trace[0] == Outcome(s, memory, 0)
    ensures IsRun(trace, [Read(d), Write(d, data), Op.SetSize(f, 0)])
    ensures OnDisk(trace[3].disk) && |trace[3].disk.files| == |s.files| && trace[3].disk.files[g] == s.files[g]
    ensures forall owner :: !Inv(MapFile(trace[3].disk, trace[3].memory, g, i, true).disk, owner)
  {
    hide Owned, AllWithin, BlockAt, IsFree, MapFile, NoIndirectSlots;
    var owner :| Inv(s, owner);
    SoundOnDisk(s);
    FilledData(s, owner, f, d, data);
    var s2 := Touch(s, d).(contents := s.contents[d := data]);
    trace := ReuseRun(s, memory, f, d, data);
    ReuseEnds(s2, trace[3].memory, owner, f, g, d, i);
    SetSizeSound(s2, owner, f, 0);
    SoundOnDisk(trace[3].disk);
  }

  lemma ReuseRun(s: Disk, memory: nat, f: nat, d: nat, data: Block) returns (trace: seq<Outcome>)
    requires OnDisk(s) && Allowed(s, Read(d)) && Allowed(Touch(s, d), Write(d, data)) && f < |s.files|
    ensures |trace| == 4 && trace[0] == Outcome(s, memory, 0)
    ensures IsRun(trace, [Read(d), Write(d, data), Op.SetSize(f, 0)])
    ensures trace[3].disk == DiskTruncate.SetSize(Touch(s, d).(contents := s.contents[d := data]), f, 0)
  {
    hide DiskTruncate.SetSize, IsFree, PagesLeft;
    var s1 := Touch(s, d);
    var s2 := s1.(contents := s1.contents[d := data]);
    var t, n := DiskTruncate.SetSize(s2, f, 0), PagesLeft(s, s1, memory);
    trace := [Outcome(s, memory, 0), Outcome(s1, n, 0), Outcome(s2, n, 0), Outcome(t, PagesLeft(s2, t, n), 0)];
  }

  /** Reading and writing f's block in slot 0. */
  lemma FilledData(s: Disk, owner: map<nat, Slot>, f: nat, d: nat, data: Block)
    requires Inv(s, owner) && AllWithin(s) && HoldsFirst(s, f, d)
    ensures Allowed(s, Read(d)) && Allowed(Touch(s, d), Write(d, data))
    ensures var t := Touch(s, d).(contents := s.contents[d := data]);
            Inv(t, owner) && AllWithin(t) && WithinSize(t, f) && HoldsFirst(t, f, d)
  {
    var s1 := Touch(s, d);
    var t := s1.(contents := s.contents[d := data]);
    assert owner[d] == Slot(f, 0) && d in owner;
    forall h | 0 <= h < |s.files| ensures s.files[h].indirect != d {
      assert BlockAt(s, Slot(h, INDIRECT)) == s.files[h].indirect;
    }
    CacheOnly(s, s1, owner);
    ReadSound(s, owner, d);
    DataWrite(s1, owner, d, data);
    WriteWithin(s1, d, data);
    assert forall c: nat :: IsFree(t, c) == IsFree(s, c);
    assert WithinSize(t, f);
  }

  /** Cutting f to nothing makes d the first free block and leaves it in the cache as it was. */
  lemma CutFrees(s: Disk, owner: map<nat, Slot>, f: nat, d: nat)
    requires Inv(s, owner) && HoldsFirst(s, f, d) && WithinSize(s, f)
    ensures var t := Truncate(s, f, 0);
            && Inv(t, OwnersAfter(s, owner, f, 0)) && |t.files| == |s.files| && t.nblocks == s.nblocks
            && (forall g :: 0 <= g < |s.files| && g != f ==> t.files[g] == s.files[g])
            && IsFree(t, d) && (forall c: nat :: IsFree(t, c) ==> d <= c)
            && t.contents[d] == s.contents[d] && t.cached[d] == s.cached[d]
  {
    TruncateExact(s, owner, f, 0);
    TruncateFrame(s, owner, f, 0);
    hide Truncate, Owned, OwnersAfter;
    HeldFirst(s, f, d);
    hide IsFree, HeldPast, BlockAt, WithinSize;
  }

  lemma HeldFirst(s: Disk, f: nat, d: nat)
    requires HoldsFirst(s, f, d) && WithinSize(s, f)
    ensures HeldPast(s, f, 0, d) && forall c :: HeldPast(s, f, 0, c) ==> c == d
  {
    assert IsSlot(s, Slot(f, 0)) && Past(Slot(f, 0), f, 0);
    forall c | HeldPast(s, f, 0, c) ensures c == d {
      var j :| IsSlot(s, j) && Past(j, f, 0) && BlockAt(s, j) == c;
      assert j == Slot(f, j.i);
    }
  }

  lemma ReuseEnds(s: Disk, memory: nat, owner: map<nat, Slot>, f: nat, g: nat, d: nat, i: nat)
    requires Inv(s, owner) && HoldsFirst(s, f, d) && WithinSize(s, f) && s.cached[d] && !NoIndirectSlots(s.contents[d])
    requires f != g && g < |s.files| && s.files[g].indirect == 0 && NDIRECT <= i < NINDIRECT
    ensures var t := DiskTruncate.SetSize(s, f, 0);
            && Shaped(t) && |t.files| == |s.files| && t.files[g] == s.files[g]
            && forall owner' :: !Inv(MapFile(t, memory, g, i, true).disk, owner')
  {
    var t := Truncate(s, f, 0);
    CutFrees(s, owner, f, d);
    hide Truncate, Owned, OwnersAfter, IsFree, BlockAt, MapFile;
    assert FirstFree(t, 3) == d;
    assert !FreshReadsZero(t, g, i, true);
    MapKeepsPartition(t, memory, OwnersAfter(s, owner, f, 0), g, i, true);
  }
}
