/** Finding and filling the block of a file as functions on the disk (fs/fs.c). */
module DiskMap {
  import opened Bits
  import opened DiskBlocks

  const E_INVAL: int := 3
  const E_NO_MEM: int := 4
  const E_NO_DISK: int := 8
  const E_NOT_FOUND: int := 10

  /** The disk afterwards, the pages the kernel can still give the cache, and a block number, 0 or a negative error. */
  datatype Outcome = Outcome(disk: Disk, memory: nat, r: int)

  /** The first free block at or after b, or the end of the disk. */
  function FirstFree(s: Disk, b: nat): (c: nat)
    ensures c >= b && (c < s.nblocks ==> IsFree(s, c)) && (forall i :: b <= i < c && i < s.nblocks ==> !IsFree(s, i))
    decreases s.nblocks - b
  {
    if b >= s.nblocks || IsFree(s, b) then b else FirstFree(s, b + 1)
  }

  /** alloc_block: the first free block from 3 on; without memory for its page the block goes back. */
  function Allocate(s: Disk, memory: nat): Outcome
    requires Shaped(s)
  {
    var b := FirstFree(s, 3);
    if b >= s.nblocks then Outcome(s, memory, -E_NO_DISK)
    else if s.cached[b] then Outcome(Claim(s, b), memory, b)
    else if memory == 0 then Outcome(s, memory, -E_NO_MEM)
    else Outcome(Claim(s, b), memory - 1, b)
  }

  /** Fill an empty slot with a new block. */
  function Fill(s: Disk, memory: nat, k: Slot): Outcome
    requires Shaped(s) && CanPut(s, k)
  {
    var a := Allocate(s, memory);
    if a.r < 0 then a else Outcome(Put(a.disk, k, a.r), a.memory, a.r)
  }

  predicate NeedsIndirect(s: Disk, f: nat, i: nat)
    requires f < |s.files|
  {
    NDIRECT <= i < NINDIRECT && s.files[f].indirect == 0
  }

  /** file_block_walk's search; reaching a slot of an indirect block that is there needs nothing new. */
  function WalkSlot(s: Disk, memory: nat, f: nat, i: nat, alloc: bool): Outcome
    requires Shaped(s) && f < |s.files|
  {
    if i >= NINDIRECT then Outcome(s, memory, -E_INVAL)
    else if !NeedsIndirect(s, f, i) then Outcome(s, memory, 0)
    else if !alloc then Outcome(s, memory, -E_NOT_FOUND)
    else
      var a := Fill(s, memory, Slot(f, INDIRECT));
      if a.r < 0 then a else a.(r := 0)
  }

  /** file_block_walk: 0 when slot i of f can be reached; an indirect block that is there is read in. */
  function Walk(s: Disk, memory: nat, f: nat, i: nat, alloc: bool): Outcome
    requires Shaped(s) && f < |s.files|
  {
    var m := Reach(s, f, i);
    WalkSlot(m, PagesLeft(s, m, memory), f, i, alloc)
  }

  function MapSlot(s: Disk, memory: nat, f: nat, i: nat, alloc: bool): Outcome
    requires Shaped(s) && f < |s.files| && s.files[f].indirect < s.nblocks
  {
    var w := WalkSlot(s, memory, f, i, alloc);
    if w.r < 0 then w
    else if BlockAt(w.disk, Slot(f, i)) != 0 then w.(r := BlockAt(w.disk, Slot(f, i)))
    else if !alloc then w.(r := -E_NOT_FOUND)
    else Fill(w.disk, w.memory, Slot(f, i))
  }

  /** file_map_block: the number of the block at slot i of f. */
  function MapFile(s: Disk, memory: nat, f: nat, i: nat, alloc: bool): Outcome
    requires Shaped(s) && f < |s.files| && s.files[f].indirect < s.nblocks
  {
    var m := Reach(s, f, i);
    MapSlot(m, PagesLeft(s, m, memory), f, i, alloc)
  }

  /** The block that the call would make an indirect block is out of the cache, or reads as zeros. */
  predicate FreshReadsZero(s: Disk, f: nat, i: nat, alloc: bool)
    requires Shaped(s) && f < |s.files|
  {
    var b := FirstFree(s, 3);
    alloc && NeedsIndirect(s, f, i) && b < s.nblocks && s.cached[b] ==> NoIndirectSlots(s.contents[b])
  }

  ghost predicate SameSizes(s: Disk, t: Disk) {
    |t.files| == |s.files| && forall g {:trigger t.files[g]} :: 0 <= g < |s.files| ==> t.files[g].size == s.files[g].size
  }

  /** Nothing leaves the cache. */
  ghost predicate StaysCached(s: Disk, t: Disk) {
    |s.cached| == s.nblocks == t.nblocks == |t.cached| &&
    forall b {:trigger t.cached[b]} :: 0 <= b < s.nblocks && s.cached[b] ==> t.cached[b]
  }

  /** A disk that differs from s in slot k alone, filled with a block that was free. */
  ghost predicate Filled(s: Disk, k: Slot, b: nat, t: Disk) {
    && |t.files| == |s.files| && t.nblocks == s.nblocks && t.reserved == s.reserved
    && b < s.nblocks && IsFree(s, b) && SameSizes(s, t) && StaysCached(s, t) && t.cached == s.cached[b := true]
    && (forall j {:trigger BlockAt(t, j)} :: IsSlot(s, j) ==> BlockAt(t, j) == if j == k then b else BlockAt(s, j))
    && (forall c: nat {:trigger IsFree(t, c)} :: IsFree(t, c) == (c != b && IsFree(s, c)))
  }

  lemma FillExact(s: Disk, memory: nat, owner: map<nat, Slot>, k: Slot)
    requires Inv(s, owner) && CanPut(s, k) && BlockAt(s, k) == 0
    requires k.i == INDIRECT ==>
               var b := FirstFree(s, 3); b < s.nblocks && s.cached[b] ==> NoIndirectSlots(s.contents[b])
    ensures var a, b := Fill(s, memory, k), FirstFree(s, 3);
            && (a.r == -E_NO_DISK <==> forall c :: !IsFree(s, c))
            && (a.r == -E_NO_MEM <==> b < s.nblocks && !s.cached[b] && memory == 0)
            && (a.r < 0 ==> a.r in {-E_NO_DISK, -E_NO_MEM} && a.disk == s && a.memory == memory)
            && (a.r >= 0 ==> Inv(a.disk, owner[a.r as nat := k]) && Filled(s, k, a.r, a.disk))
  {
    var a, b := Fill(s, memory, k), FirstFree(s, 3);
    assert forall c: nat :: c < 3 ==> Reserved(s, c);
    if a.r >= 0 {
      GrowStep(s, owner, k, b);
      forall j | IsSlot(s, j) ensures BlockAt(a.disk, j) == if j == k then b else BlockAt(s, j) {
        GrowSlots(s, owner, k, b, j);
      }
      forall c: nat ensures IsFree(a.disk, c) == (c != b && IsFree(s, c)) {
        GrowBits(s, k, b, c);
      }
    }
  }

  /** What file_map_block promises: which result in which case, and that it fills slot i, with the indirect block if
      that was missing, from the free blocks and leaves every other slot alone. */
  ghost predicate Maps(s: Disk, f: nat, i: nat, alloc: bool, a: Outcome)
    requires f < |s.files|
  {
    var t, k, ind := a.disk, Slot(f, i), Slot(f, INDIRECT);
    && |t.files| == |s.files| && t.nblocks == s.nblocks && t.reserved == s.reserved && SameSizes(s, t)
    && StaysCached(s, t) && (a.r >= 0 && i >= NDIRECT ==> BlockAt(t, ind) < t.nblocks && t.cached[BlockAt(t, ind)])
    && (forall b {:trigger t.cached[b]} :: 0 <= b < s.nblocks && t.cached[b] && !s.cached[b] ==>
          (NDIRECT <= i < NINDIRECT && b == BlockAt(t, ind)) || (a.r >= 0 && alloc && b == a.r))
    && (a.r == -E_INVAL <==> i >= NINDIRECT)
    && (a.r == -E_NOT_FOUND <==> i < NINDIRECT && !alloc && BlockAt(s, k) == 0)
    && (a.r == -E_NO_DISK ==> forall c :: !IsFree(t, c))
    && (a.r == -E_NO_MEM ==> a.memory == 0)
    && (a.r < 0 ==> a.r in {-E_INVAL, -E_NOT_FOUND, -E_NO_DISK, -E_NO_MEM})
    && (a.r >= 0 ==> a.r == BlockAt(t, k) != 0 && (BlockAt(s, k) == 0 ==> IsFree(s, a.r)))
    && (!alloc || (i < NINDIRECT && BlockAt(s, k) != 0) ==> t == s.(cached := t.cached))
    && (forall j {:trigger BlockAt(t, j)} :: IsSlot(s, j) && j != k && j != ind ==> BlockAt(t, j) == BlockAt(s, j))
    && (BlockAt(t, ind) == BlockAt(s, ind) || (NeedsIndirect(s, f, i) && IsFree(s, BlockAt(t, ind))))
    && (forall c: nat {:trigger IsFree(t, c)} ::
          IsFree(t, c) == (IsFree(s, c) && !(i < NINDIRECT && c == BlockAt(t, k)) && c != BlockAt(t, ind)))
  }

  ghost predicate IndirectRead(s: Disk, f: nat, i: nat) {
    f < |s.files| && |s.cached| == s.nblocks &&
    (NDIRECT <= i < NINDIRECT && s.files[f].indirect != 0 ==> s.files[f].indirect < s.nblocks && s.cached[s.files[f].indirect])
  }

  lemma Unmapped(s: Disk, memory: nat, owner: map<nat, Slot>, f: nat, i: nat, alloc: bool, r: int)
    requires Inv(s, owner) && f < |s.files| && IndirectRead(s, f, i)
    requires r == if i >= NINDIRECT then -E_INVAL else if BlockAt(s, Slot(f, i)) != 0 then BlockAt(s, Slot(f, i)) else -E_NOT_FOUND
    requires alloc ==> r != -E_NOT_FOUND
    ensures Maps(s, f, i, alloc, Outcome(s, memory, r))
  {
    var ind := Slot(f, INDIRECT);
    assert BlockAt(s, ind) != 0 ==> !IsFree(s, BlockAt(s, ind));
    assert !IsFree(s, 0);
    if i < NINDIRECT {
      assert BlockAt(s, Slot(f, i)) != 0 ==> !IsFree(s, BlockAt(s, Slot(f, i)));
    }
  }

  lemma MapSlotExact(s: Disk, memory: nat, owner: map<nat, Slot>, f: nat, i: nat, alloc: bool)
    requires Inv(s, owner) && f < |s.files| && FreshReadsZero(s, f, i, alloc)
    requires s.files[f].indirect < s.nblocks && IndirectRead(s, f, i)
    ensures var a := MapSlot(s, memory, f, i, alloc);
            Maps(s, f, i, alloc, a) && exists owner' :: Inv(a.disk, owner')
  {
    var k := Slot(f, i);
    hide Maps, Owned, IsFree;
    var a := MapSlot(s, memory, f, i, alloc);
    if i >= NINDIRECT || BlockAt(s, k) != 0 || !alloc {
      hide Fill;
      Unmapped(s, memory, owner, f, i, alloc, a.r);
    } else if !NeedsIndirect(s, f, i) {
      hide BlockAt;
      assert CanPut(s, k);
      FillExact(s, memory, owner, k);
      hide Fill;
      FillMaps(s, owner, f, i, a);
    } else {
      MapBoth(s, memory, owner, f, i);
    }
  }

  lemma MapBoth(s: Disk, memory: nat, owner: map<nat, Slot>, f: nat, i: nat)
    requires Inv(s, owner) && f < |s.files| && FreshReadsZero(s, f, i, true)
    requires s.files[f].indirect < s.nblocks && NeedsIndirect(s, f, i) && BlockAt(s, Slot(f, i)) == 0
    ensures var a := MapSlot(s, memory, f, i, true);
            Maps(s, f, i, true, a) && exists owner' :: Inv(a.disk, owner')
  {
    hide Maps, Owned, IsFree;
    var k, ind := Slot(f, i), Slot(f, INDIRECT);
    assert BlockAt(s, ind) == s.files[f].indirect;
    var w, a := WalkSlot(s, memory, f, i, true), MapSlot(s, memory, f, i, true);
    FillExact(s, memory, owner, ind);
    if w.r < 0 {
      hide Fill;
      FillMaps(s, owner, f, i, a);
    } else {
      var b := Fill(s, memory, ind).r;
      assert w.disk.files[f].indirect == b == BlockAt(w.disk, ind);
      assert BlockAt(w.disk, k) == 0;
      hide BlockAt;
      assert a == Fill(w.disk, w.memory, k);
      FillExact(w.disk, w.memory, owner[b as nat := ind], k);
      hide Fill;
      FillMapsTwice(s, owner, f, i, w.disk, a);
    }
  }

  lemma FillMaps(s: Disk, owner: map<nat, Slot>, f: nat, i: nat, a: Outcome)
    requires Inv(s, owner) && f < |s.files| && i < NINDIRECT && BlockAt(s, Slot(f, i)) == 0
    requires a.r < 0 ==> a.disk == s && a.r in {-E_NO_DISK, -E_NO_MEM} && (a.r == -E_NO_MEM ==> a.memory == 0)
    requires a.r == -E_NO_DISK ==> forall c :: !IsFree(s, c)
    requires a.r >= 0 ==> Filled(s, Slot(f, i), a.r, a.disk) && IndirectRead(s, f, i) && !NeedsIndirect(s, f, i)
    requires BlockAt(s, Slot(f, INDIRECT)) == s.files[f].indirect
    ensures Maps(s, f, i, true, a)
  {
    hide IsFree, BlockAt;
    assert Reserved(s, 0);
    assert !IsFree(s, 0);
    var ind := Slot(f, INDIRECT);
    assert IsSlot(s, ind);
    assert BlockAt(s, ind) != 0 ==> !IsFree(s, BlockAt(s, ind));
  }

  lemma FillMapsTwice(s: Disk, owner: map<nat, Slot>, f: nat, i: nat, m: Disk, a: Outcome)
    requires Inv(s, owner) && f < |s.files| && NeedsIndirect(s, f, i) && BlockAt(s, Slot(f, i)) == 0
    requires |m.files| == |s.files| && Filled(s, Slot(f, INDIRECT), BlockAt(m, Slot(f, INDIRECT)), m)
    requires a.r < 0 ==> a.disk == m && a.r in {-E_NO_DISK, -E_NO_MEM} && (a.r == -E_NO_MEM ==> a.memory == 0)
    requires a.r == -E_NO_DISK ==> forall c :: !IsFree(m, c)
    requires a.r >= 0 ==> Filled(m, Slot(f, i), a.r, a.disk)
    ensures Maps(s, f, i, true, a)
  {
    hide IsFree, BlockAt;
    var k, ind := Slot(f, i), Slot(f, INDIRECT);
    assert Reserved(s, 0);
    assert !IsFree(s, 0);
    assert IsSlot(s, ind) && IsSlot(s, k) && IsSlot(m, k) && IsSlot(m, ind);
    assert BlockAt(m, k) == 0;
    assert a.r >= 0 ==> a.r != 0;
    assert a.r >= 0 ==> BlockAt(a.disk, ind) == BlockAt(m, ind);
    assert StaysCached(s, a.disk);
    forall j | IsSlot(s, j) && j != k && j != ind ensures BlockAt(a.disk, j) == BlockAt(s, j) {
      assert BlockAt(m, j) == BlockAt(s, j);
      assert a.r >= 0 ==> BlockAt(a.disk, j) == BlockAt(m, j);
    }
  }

  lemma ReachMaps(s: Disk, f: nat, i: nat, alloc: bool, a: Outcome)
    requires Shaped(s) && f < |s.files| && s.files[f].indirect < s.nblocks && Maps(Reach(s, f, i), f, i, alloc, a)
    ensures Maps(s, f, i, alloc, a)
  {
    var m := Reach(s, f, i);
    CacheOnly(s, m, map[]);
    assert forall j :: IsSlot(s, j) <==> IsSlot(m, j);
    hide BlockAt, IsFree, Reach;
  }

  /** Every outcome of file_map_block. */
  lemma MapFileExact(s: Disk, memory: nat, owner: map<nat, Slot>, f: nat, i: nat, alloc: bool)
    requires Inv(s, owner) && f < |s.files| && FreshReadsZero(s, f, i, alloc)
    ensures s.files[f].indirect < s.nblocks
    ensures var a := MapFile(s, memory, f, i, alloc);
            Maps(s, f, i, alloc, a) && exists owner' :: Inv(a.disk, owner')
  {
    assert BlockAt(s, Slot(f, INDIRECT)) == s.files[f].indirect;
    var m := Reach(s, f, i);
    CacheOnly(s, m, owner);
    assert IndirectRead(m, f, i);
    MapSlotExact(m, PagesLeft(s, m, memory), owner, f, i, alloc);
    hide Maps, MapSlot, Inv;
    ReachMaps(s, f, i, alloc, MapFile(s, memory, f, i, alloc));
  }

  /** Slot j names a block it cannot own: past the end, free, reserved, or named by another slot as well. */
  ghost predicate Astray(s: Disk, j: Slot) {
    && Shaped(s) && IsSlot(s, j) && BlockAt(s, j) != 0
    && var v := BlockAt(s, j);
       v >= s.nblocks || IsFree(s, v) || Reserved(s, v) || exists h :: IsSlot(s, h) && h != j && BlockAt(s, h) == v
  }

  lemma AstrayBreaks(s: Disk, j: Slot)
    requires Astray(s, j)
    ensures forall owner :: !Inv(s, owner)
  {
    hide BlockAt, IsFree;
  }

  /** A new indirect block that does not read as zeros gives its file a slot that is astray. */
  lemma GrowAstray(s: Disk, owner: map<nat, Slot>, f: nat, b: nat, i: nat)
    requires Inv(s, owner) && f < |s.files| && s.files[f].indirect == 0 && IsFree(s, b) && NDIRECT <= i < NINDIRECT
    requires Claim(s, b).contents[b][i] != 0
    ensures Astray(Grow(s, Slot(f, INDIRECT), b), Slot(f, i))
  {
    var ind, j := Slot(f, INDIRECT), Slot(f, i);
    var t, v := Grow(s, ind, b), Claim(s, b).contents[b][i];
    assert BlockAt(s, ind) == 0;
    GrowSlots(s, owner, ind, b, j);
    GrowSlots(s, owner, ind, b, ind);
    GrowBits(s, ind, b, v);
    if v == b {
      assert BlockAt(t, ind) == v;
    } else if v in owner {
      var h := owner[v];
      GrowSlots(s, owner, ind, b, h);
      assert BlockAt(s, h) == v && h != j && h != ind && !Brings(ind, h) && BlockAt(t, h) == v;
    } else {
      assert v < s.nblocks ==> IsFree(s, v) || Reserved(s, v);
    }
  }

  /** No file's indirect block is free. */
  ghost predicate IndirectsTaken(s: Disk) {
    forall g {:trigger s.files[g]} :: 0 <= g < |s.files| ==> !IsFree(s, s.files[g].indirect)
  }

  lemma GrowTaken(s: Disk, owner: map<nat, Slot>, f: nat, b: nat)
    requires Inv(s, owner) && f < |s.files| && s.files[f].indirect == 0 && IsFree(s, b)
    ensures IndirectsTaken(Grow(s, Slot(f, INDIRECT), b)) && OwnIndirect(Grow(s, Slot(f, INDIRECT), b), f)
  {
    var t := Grow(s, Slot(f, INDIRECT), b);
    forall g | 0 <= g < |s.files|
      ensures !IsFree(t, t.files[g].indirect) && (g != f && t.files[g].indirect != 0 ==> t.files[g].indirect != b)
    {
      assert BlockAt(s, Slot(g, INDIRECT)) == s.files[g].indirect;
      assert !IsFree(s, 0) by { assert Reserved(s, 0); }
      GrowBits(s, Slot(f, INDIRECT), b, t.files[g].indirect);
    }
  }

  /** Filling another slot mends nothing. */
  lemma FillAstray(s: Disk, memory: nat, j: Slot, k: Slot)
    requires Astray(s, j) && IndirectsTaken(s) && CanPut(s, k) && OwnIndirect(s, k.f)
    requires k.i < NINDIRECT && BlockAt(s, k) == 0
    ensures Astray(Fill(s, memory, k).disk, j)
  {
    var a, b := Fill(s, memory, k), FirstFree(s, 3);
    if a.r >= 0 {
      var s1, t := Claim(s, b), a.disk;
      forall h | IsSlot(s, h) ensures BlockAt(t, h) == if h == k then b else BlockAt(s, h) {
        assert !IsFree(s, s.files[h.f].indirect);
        PutSlots(s1, k, b, h);
      }
      ClaimBits(s, b, BlockAt(s, j));
      hide BlockAt, Claim, Fill;
      if BlockAt(s, j) == b {
        assert BlockAt(t, k) == b;
      }
    }
  }

  /** A mapping call keeps the ownership partition exactly when the block it would make an indirect block is out of the
      cache or reads as zeros. */
  lemma MapKeepsPartition(s: Disk, memory: nat, owner: map<nat, Slot>, f: nat, i: nat, alloc: bool)
    requires Inv(s, owner) && f < |s.files|
    ensures s.files[f].indirect < s.nblocks
    ensures (exists owner' :: Inv(MapFile(s, memory, f, i, alloc).disk, owner')) <==> FreshReadsZero(s, f, i, alloc)
  {
    assert BlockAt(s, Slot(f, INDIRECT)) == s.files[f].indirect;
    var b := FirstFree(s, 3);
    if FreshReadsZero(s, f, i, alloc) {
      MapFileExact(s, memory, owner, f, i, alloc);
    } else {
      var n :| NDIRECT <= n < NINDIRECT && s.contents[b][n] != 0;
      var ind, k, j := Slot(f, INDIRECT), Slot(f, i), Slot(f, n);
      var w := Grow(s, ind, b);
      GrowAstray(s, owner, f, b, n);
      GrowTaken(s, owner, f, b);
      assert WalkSlot(s, memory, f, i, true).disk == w;
      assert w.files[f].indirect == b;
      if BlockAt(w, k) == 0 {
        FillAstray(w, memory, j, k);
      }
      AstrayBreaks(MapFile(s, memory, f, i, alloc).disk, j);
    }
  }

  // ---- pages of the cache

  lemma AllocatePaid(s: Disk, memory: nat)
    requires Shaped(s)
    ensures var a := Allocate(s, memory); Paid(s, memory, a.disk, a.memory) && Shaped(a.disk)
  {
    var b := FirstFree(s, 3);
    if b < s.nblocks {
      TouchSet(s, b);
      assert Claim(s, b).cached == Touch(s, b).cached;
      assert CachedSet(Claim(s, b)) == CachedSet(Touch(s, b));
      assert s.cached[b] ==> s.cached[b := true] == s.cached;
    }
  }

  lemma FillPaid(s: Disk, memory: nat, k: Slot)
    requires Shaped(s) && CanPut(s, k)
    ensures var a := Fill(s, memory, k); Paid(s, memory, a.disk, a.memory)
  {
    AllocatePaid(s, memory);
    var a, b := Allocate(s, memory), Fill(s, memory, k);
    assert b.disk.cached == a.disk.cached;
    assert CachedSet(b.disk) == CachedSet(a.disk);
  }

  /** A mapping call takes a page for each block that it brings into the cache; without any, reading the indirect block
      in would be the end of the kernel. */
  lemma MapPaid(s: Disk, memory: nat, f: nat, i: nat, alloc: bool)
    requires Shaped(s) && f < |s.files| && s.files[f].indirect < s.nblocks
    requires memory > 0 || !(NDIRECT <= i < NINDIRECT) || s.files[f].indirect == 0 || s.cached[s.files[f].indirect]
    ensures var a := MapFile(s, memory, f, i, alloc); Paid(s, memory, a.disk, a.memory)
  {
    var m := Reach(s, f, i);
    var left := PagesLeft(s, m, memory);
    if m.cached != s.cached {
      TouchPaid(s, s.files[f].indirect, memory);
    } else {
      assert m == s;
    }
    hide Allocate, Put, Claim, PagesLeft;
    MapSlotPaid(m, left, f, i, alloc);
  }

  lemma MapSlotPaid(s: Disk, memory: nat, f: nat, i: nat, alloc: bool)
    requires Shaped(s) && f < |s.files| && s.files[f].indirect < s.nblocks
    ensures var a := MapSlot(s, memory, f, i, alloc); Paid(s, memory, a.disk, a.memory)
  {
    var w := WalkSlot(s, memory, f, i, alloc);
    if NeedsIndirect(s, f, i) && alloc {
      FillPaid(s, memory, Slot(f, INDIRECT));
    }
    if w.r >= 0 && BlockAt(w.disk, Slot(f, i)) == 0 && alloc {
      FillPaid(w.disk, w.memory, Slot(f, i));
    }
  }
}
