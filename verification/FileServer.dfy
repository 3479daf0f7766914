/** The file server's disk state updated in place (fs/fs.c). */
module FileServer {
  import opened Bits
  import opened DiskBlocks
  import opened DiskTruncate
  import opened DiskMap

  /** The block that has become an indirect block is mapped and in use. */
  lemma FilledIndirect(s: Disk, memory: nat, f: nat)
    requires Shaped(s) && f < |s.files|
    ensures var a := Fill(s, memory, Slot(f, INDIRECT));
            a.r >= 0 ==> Shaped(a.disk) && f < |a.disk.files| && a.disk.files[f].indirect == a.r < s.nblocks &&
                         a.disk.cached[a.r] && !IsFree(a.disk, a.r)
  {
    var b := FirstFree(s, 3);
    if b < s.nblocks {
      ClaimBits(s, b, b);
    }
  }

  /** What read_block asks of an indirect block. */
  lemma IndirectUsed(s: Disk, owner: map<nat, Slot>, f: nat)
    requires Inv(s, owner) && f < |s.files|
    ensures s.files[f].indirect < s.nblocks && !IsFree(s, s.files[f].indirect)
  {
    assert BlockAt(s, Slot(f, INDIRECT)) == s.files[f].indirect;
    assert Reserved(s, 0);
  }

  lemma ShapedInv(s: Disk, owner: map<nat, Slot>)
    requires Inv(s, owner)
    ensures Shaped(s)
  {
  }

  lemma SlotUsed(s: Disk, owner: map<nat, Slot>, k: Slot)
    requires Inv(s, owner) && IsSlot(s, k) && BlockAt(s, k) != 0
    ensures BlockAt(s, k) < s.nblocks && !IsFree(s, BlockAt(s, k))
  {
  }

  /** The file's indirect block is read in once. */
  ghost predicate PagesTaken(s: Disk, f: nat, t: Disk, memory: nat, left: nat) {
    && CachedBut(s, f, t) && left == PagesLeft(s, t, memory)
    && f < |t.files| && t.files[f].indirect == s.files[f].indirect
  }

  lemma PagesOnce(s: Disk, f: nat, m: Disk, t: Disk, memory: nat, some: nat, left: nat)
    requires PagesTaken(s, f, m, memory, some) && PagesTaken(m, f, t, some, left)
    ensures PagesTaken(s, f, t, memory, left)
  {
    var b := s.files[f].indirect;
    assert b < |s.cached| ==> s.cached[b := true][b := true] == s.cached[b := true];
  }

  class Server {
    const nblocks: nat   // super->s_nblocks
    const reserved: nat
    var bitmap: seq<Word32>
    var contents: seq<Block>
    var cached: seq<bool>
    var files: seq<File>
    var memory: nat      // pages the kernel can still give the cache
    ghost var owner: map<nat, Slot>

    ghost function State(): Disk
      reads this
    {
      Disk(nblocks, reserved, bitmap, contents, cached, files)
    }

    ghost predicate Ready()
      reads this
    {
      Shaped(State())
    }

    ghost predicate Valid()
      reads this
    {
      Inv(State(), owner)
    }

    method BlockIsFree(b: nat) returns (free: bool)
      requires Ready()
      ensures free <==> IsFree(State(), b)
    {
      if b >= nblocks {
        return false;
      }
      return bitmap[b / 32][b % 32];
    }

    method FreeBlock(b: nat)
      requires Ready()
      modifies this`bitmap
      ensures State() == DiskBlocks.FreeBlock(old(State()), b)
      ensures bitmap == if 0 < b < nblocks then PutBit(old(bitmap), b, true) else old(bitmap)
    {
      if b == 0 || b >= nblocks {
        return;
      }
      bitmap := PutBit(bitmap, b, true);
    }

    method AllocBlockNum() returns (r: int)
      requires Ready()
      modifies this`bitmap
      ensures var b := FirstFree(old(State()), 3);
              if b >= nblocks then r == -E_NO_DISK && State() == old(State())
              else r == b && State() == old(State()).(bitmap := PutBit(old(bitmap), b, false))
    {
      for b := 3 to nblocks
        invariant bitmap == old(bitmap)
        invariant FirstFree(State(), 3) == FirstFree(State(), b)
      {
        if bitmap[b / 32][b % 32] {
          bitmap := PutBit(bitmap, b, false);
          return b;
        }
      }
      return -E_NO_DISK;
    }

    /** 0, or -E_NO_MEM; a page from the kernel is zeroed, a page already there is not. */
    method MapBlock(b: nat) returns (r: int)
      requires Ready() && b < nblocks
      modifies this`contents, this`cached, this`memory
      ensures r == if old(cached)[b] || old(memory) > 0 then 0 else -E_NO_MEM
      ensures contents == if r == 0 && !old(cached)[b] then old(contents)[b := ZeroBlock()] else old(contents)
      ensures cached == if r == 0 then old(cached)[b := true] else old(cached)
      ensures memory == if r == 0 && !old(cached)[b] then old(memory) - 1 else old(memory)
    {
      if cached[b] {
        return 0;
      }
      if memory == 0 {
        return -E_NO_MEM;
      }
      memory := memory - 1;
      contents := contents[b := ZeroBlock()];
      cached := cached[b := true];
      return 0;
    }

    method AllocBlock() returns (r: int)
      requires Ready()
      modifies this`bitmap, this`contents, this`cached, this`memory
      ensures Ready()
      ensures Outcome(State(), memory, r) == Allocate(old(State()), old(memory))
    {
      r := AllocBlockNum();
      if r < 0 {
        return;
      }
      var b := r;
      r := MapBlock(b);
      if r < 0 {
        FreeBlock(b);
        PutBitUndo(old(bitmap), b, false);
        assert bitmap == old(bitmap);
        return;
      }
      r := b;
    }

    method FillSlot(k: Slot) returns (r: int)
      requires Ready() && CanPut(State(), k)
      modifies this`bitmap, this`contents, this`cached, this`memory, this`files
      ensures Ready() && |files| == old(|files|)
      ensures Outcome(State(), memory, r) == Fill(old(State()), old(memory), k)
    {
      r := AllocBlock();
      if r >= 0 {
        SetSlot(k, r);
      }
    }

    /** read_block, which panics on a block that is free or past the end of the disk. */
    method ReadBlock(b: nat)
      requires Ready() && b < nblocks && !IsFree(State(), b)
      modifies this`cached, this`memory
      ensures State() == Touch(old(State()), b) && memory == PagesLeft(old(State()), State(), old(memory))
    {
      if !cached[b] {
        memory := if memory == 0 then 0 else memory - 1;
      }
      cached := cached[b := true];
    }

    /** The slot stands for the pointer that file_block_walk returns. */
    method FileBlockWalk(f: nat, i: nat, alloc: bool) returns (r: int)
      requires Ready() && f < |files| && files[f].indirect < nblocks && !IsFree(State(), files[f].indirect)
      modifies this`bitmap, this`contents, this`cached, this`memory, this`files
      ensures Ready() && |files| == old(|files|)
      ensures Outcome(State(), memory, r) == Walk(old(State()), old(memory), f, i, alloc)
      ensures r == 0 ==> CanPut(State(), Slot(f, i))
      ensures r in {0, -E_INVAL, -E_NOT_FOUND, -E_NO_DISK, -E_NO_MEM} && (r == -E_INVAL <==> i >= NINDIRECT)
      ensures r == -E_NOT_FOUND <==> NDIRECT <= i < NINDIRECT && old(files)[f].indirect == 0 && !alloc
    {
      if i < NDIRECT {
        return 0;
      } else if i < NINDIRECT {
        if files[f].indirect == 0 {
          if !alloc {
            return -E_NOT_FOUND;
          }
          ghost var s := State();
          r := FillSlot(Slot(f, INDIRECT));
          if r < 0 {
            return;
          }
          FilledIndirect(s, old(memory), f);
        }
        ghost var m := State();
        ReadBlock(files[f].indirect);
        assert m.cached[files[f].indirect] ==> State() == m;
        return 0;
      } else {
        return -E_INVAL;
      }
    }

    /** *ptr = v. */
    method SetSlot(k: Slot, v: nat)
      requires Ready() && CanPut(State(), k)
      modifies this`contents, this`files
      ensures Ready() && State() == Put(old(State()), k, v)
    {
      var file := files[k.f];
      if k.i == INDIRECT {
        files := files[k.f := file.(indirect := v)];
      } else if k.i < NDIRECT {
        files := files[k.f := file.(direct := file.direct[k.i := v])];
      } else {
        contents := contents[file.indirect := contents[file.indirect][k.i := v]];
      }
    }

    /** *ptr. */
    method GetSlot(k: Slot) returns (v: nat)
      requires Ready() && CanPut(State(), k)
      ensures v == BlockAt(State(), k)
    {
      var file := files[k.f];
      if k.i == INDIRECT {
        return file.indirect;
      } else if k.i < NDIRECT {
        return file.direct[k.i];
      } else {
        return contents[file.indirect][k.i];
      }
    }

    /** The block number of slot i, or a negative error. */
    method FileMapBlock(f: nat, i: nat, alloc: bool) returns (r: int)
      requires Valid() && f < |files| && FreshReadsZero(State(), f, i, alloc)
      modifies this
      ensures Valid()
      ensures Maps(old(State()), f, i, alloc, Outcome(State(), memory, r))
      ensures old(files)[f].indirect < nblocks && Outcome(State(), memory, r) == MapFile(old(State()), old(memory), f, i, alloc)
    {
      ghost var s := State();
      MapFileExact(s, memory, owner, f, i, alloc);
      IndirectUsed(s, owner, f);
      hide Maps, Owned, FirstFree, NoIndirectSlots, Fill;
      r := FileBlockWalk(f, i, alloc);
      if r >= 0 {
        r := GetSlot(Slot(f, i));
        if r == 0 {
          if !alloc {
            r := -E_NOT_FOUND;
          } else {
            r := FillSlot(Slot(f, i));
          }
        }
      }
      ghost var a := MapFile(s, old(memory), f, i, alloc);
      assert Outcome(State(), memory, r) == a;
      ghost var mine :| Inv(a.disk, mine);
      owner := mine;
    }

    /** file_get_block: the block of slot i, mapped and read in, which is what a write through it needs. */
    method FileGetBlock(f: nat, i: nat) returns (r: int)
      requires Valid() && f < |files| && FreshReadsZero(State(), f, i, true)
      modifies this
      ensures Valid() && old(files)[f].indirect < nblocks
      ensures var a := MapFile(old(State()), old(memory), f, i, true);
              && Maps(old(State()), f, i, true, a) && r == a.r
              && State() == (if 0 <= r < |a.disk.cached| then Touch(a.disk, r) else a.disk)
              && memory == PagesLeft(a.disk, State(), a.memory)
      ensures r >= 0 ==> r < nblocks && cached[r] && !IsFree(State(), r) && BlockAt(State(), Slot(f, i)) == r
    {
      r := FileMapBlock(f, i, true);
      if r >= 0 {
        ghost var t := State();
        SlotUsed(t, owner, Slot(f, i));
        ReadBlock(r);
        CacheOnly(t, State(), owner);
      }
    }

    method FileClearBlock(f: nat, i: nat)
      requires Valid() && f < |files|
      modifies this`bitmap, this`contents, this`files, this`cached, this`memory, this`owner
      ensures State() == ClearBlock(old(State()), f, i) && |files| == old(|files|)
      ensures owner == KeepOwners(old(owner), f, i, i + 1) && Valid()
      ensures PagesTaken(old(State()), f, State(), old(memory), memory)
    {
      ghost var s := State();
      ClearBlockExact(s, owner, f, i);
      IndirectUsed(s, owner, f);
      hide Owned, KeepOwners, IsFree, FirstFree;
      var r := FileBlockWalk(f, i, false);
      if r >= 0 {
        var b := GetSlot(Slot(f, i));
        if b != 0 {
          FreeBlock(b);
          SetSlot(Slot(f, i), 0);
        }
      }
      owner := KeepOwners(owner, f, i, i + 1);
    }

    /** The partition survives a truncation that takes no stray block number with the indirect block. */
    method FileTruncate(f: nat, newsize: nat)
      requires Valid() && f < |files|
      modifies this`bitmap, this`contents, this`files, this`cached, this`memory, this`owner
      ensures State() == Truncate(old(State()), f, newsize)
      ensures old(forall j :: !Stray(State(), f, newsize, j)) ==> Valid()
      ensures memory == PagesLeft(old(State()), State(), old(memory))
    {
      ghost var s, was := State(), owner;
      hide Inv, Shaped, Stray, ClearRange, OwnersAfter, DropIndirect;
      CutBlocks(f, if newsize == 0 then 0 else BlocksFor(newsize));
      files := files[f := files[f].(size := newsize)];
      if forall j :: !Stray(s, f, newsize, j) {
        TruncateInv(s, was, f, newsize);
        owner := OwnersAfter(s, was, f, newsize);
      }
    }

    method CutBlocks(f: nat, newBlocks: nat)
      requires Valid() && f < |files|
      modifies this`bitmap, this`contents, this`files, this`cached, this`memory, this`owner
      ensures Ready() && |files| == old(|files|)
      ensures var t := ClearRange(old(State()), f, newBlocks, BlocksFor(old(files)[f].size));
              State() == if newBlocks <= NDIRECT then DropIndirect(t, f) else t
      ensures memory == PagesLeft(old(State()), State(), old(memory))
    {
      hide Inv, ClearRange, KeepOwners;
      var oldBlocks := BlocksFor(files[f].size);
      if newBlocks <= NDIRECT {
        ClearFrom(f, newBlocks, oldBlocks);
        ShapedInv(State(), owner);
        DropIndirectBlock(f);
      } else {
        ClearFrom(f, newBlocks, oldBlocks);
        ShapedInv(State(), owner);
      }
    }

    method DropIndirectBlock(f: nat)
      requires Ready() && f < |files|
      modifies this`bitmap, this`contents, this`files
      ensures Ready() && |files| == old(|files|) && cached == old(cached)
      ensures State() == DropIndirect(old(State()), f)
    {
      if files[f].indirect != 0 {
        assert BlockAt(State(), Slot(f, INDIRECT)) == files[f].indirect;
        FreeBlock(files[f].indirect);
        SetSlot(Slot(f, INDIRECT), 0);
      }
    }

    method ClearFrom(f: nat, lo: nat, hi: nat)
      requires Valid() && f < |files|
      modifies this`bitmap, this`contents, this`files, this`cached, this`memory, this`owner
      ensures State() == ClearRange(old(State()), f, lo, hi) && |files| == old(|files|)
      ensures owner == KeepOwners(old(owner), f, lo, hi) && Valid()
      ensures PagesTaken(old(State()), f, State(), old(memory), memory)
    {
      KeepOwnersJoin(owner, f, lo, lo);
      if hi <= lo {
        assert KeepOwners(owner, f, lo, hi) == owner;
        return;
      }
      assert Shaped(State()) && PagesTaken(State(), f, State(), memory, memory);
      hide Inv, Shaped, ClearBlock, KeepOwners, PagesTaken;
      for i := lo to hi
        invariant State() == ClearRange(old(State()), f, lo, i) && |files| == old(|files|)
        invariant owner == KeepOwners(old(owner), f, lo, i) && Valid()
        invariant PagesTaken(old(State()), f, State(), old(memory), memory)
      {
        ghost var m, some := State(), memory;
        FileClearBlock(f, i);
        KeepOwnersJoin(old(owner), f, lo, i);
        PagesOnce(old(State()), f, m, State(), old(memory), some, memory);
      }
    }

    /** file_set_size on a file mapped within its size keeps the partition. */
    method FileSetSize(f: nat, newsize: nat)
      requires Valid() && f < |files| && WithinSize(State(), f)
      modifies this`bitmap, this`contents, this`files, this`cached, this`memory, this`owner
      ensures State() == SetSize(old(State()), f, newsize)
      ensures Valid() && f < |files| && files[f].size == newsize && WithinSize(State(), f)
      ensures memory == PagesLeft(old(State()), State(), old(memory))
    {
      ghost var s, was := State(), owner;
      if files[f].size > newsize {
        TruncateExact(s, was, f, newsize);
        FileTruncate(f, newsize);
      } else {
        Resized(s, was, f, newsize);
      }
      files := files[f := files[f].(size := newsize)];
      assert State() == SetSize(s, f, newsize);
    }
  }
}
