/** file_truncate as a function on the disk: what it empties, what it frees, and when the partition survives (fs/fs.c). */
module DiskTruncate {
  import opened Bits
  import opened DiskBlocks

  function ClearSlot(s: Disk, f: nat, i: nat): (t: Disk)
    requires Shaped(s) && f < |s.files|
    ensures Shaped(t) && |t.files| == |s.files|
  {
    if i < NINDIRECT && BlockAt(s, Slot(f, i)) != 0 then Shrink(s, Slot(f, i)) else s
  }

  /** file_clear_block: a block number of 1024 or more, a missing indirect block and an empty slot free nothing; an
      indirect block on the way is read in. */
  function ClearBlock(s: Disk, f: nat, i: nat): (t: Disk)
    requires Shaped(s) && f < |s.files|
    ensures Shaped(t) && |t.files| == |s.files|
  {
    ClearSlot(Reach(s, f, i), f, i)
  }

  function ClearRange(s: Disk, f: nat, lo: nat, hi: nat): (t: Disk)
    requires Shaped(s) && f < |s.files|
    ensures Shaped(t) && |t.files| == |s.files|
    decreases hi
  {
    if hi <= lo then s else ClearBlock(ClearRange(s, f, lo, hi - 1), f, hi - 1)
  }

  function BlocksFor(size: nat): nat {
    size / BY2BLK + 1
  }

  function BlocksKept(newsize: nat): nat {
    if newsize == 0 then 0 else BlocksFor(newsize)
  }

  /** The indirect block goes too. */
  predicate Drops(s: Disk, f: nat, newsize: nat)
    requires f < |s.files|
  {
    BlocksKept(newsize) <= NDIRECT && s.files[f].indirect != 0
  }

  function DropIndirect(s: Disk, f: nat): Disk
    requires Shaped(s) && f < |s.files|
  {
    if s.files[f].indirect != 0 then Shrink(s, Slot(f, INDIRECT)) else s
  }

  function Truncate(s: Disk, f: nat, newsize: nat): Disk
    requires Shaped(s) && f < |s.files|
  {
    var t := ClearRange(s, f, BlocksKept(newsize), BlocksFor(s.files[f].size));
    var u := if BlocksKept(newsize) <= NDIRECT then DropIndirect(t, f) else t;
    u.(files := u.files[f := u.files[f].(size := newsize)])
  }

  /** file_set_size truncates only when the file shrinks. */
  function SetSize(s: Disk, f: nat, newsize: nat): Disk
    requires Shaped(s) && f < |s.files|
  {
    if s.files[f].size > newsize then Truncate(s, f, newsize)
    else s.(files := s.files[f := s.files[f].(size := newsize)])
  }

  ghost function KeepOwners(owner: map<nat, Slot>, f: nat, lo: nat, hi: nat): map<nat, Slot> {
    map c | c in owner && !InRange(owner[c], f, lo, hi) :: owner[c]
  }

  predicate InRange(j: Slot, f: nat, lo: nat, hi: nat) {
    j.f == f && lo <= j.i < hi && j.i < NINDIRECT
  }

  /** Everything the clearing loop does: it empties the slots of its range, frees their blocks, and keeps the partition. */
  ghost predicate Cleared(s: Disk, owner: map<nat, Slot>, f: nat, lo: nat, hi: nat, t: Disk) {
    && Inv(t, KeepOwners(owner, f, lo, hi)) && |t.files| == |s.files| && t.nblocks == s.nblocks && t.reserved == s.reserved
    && CachedBut(s, f, t)
    && (forall j {:trigger BlockAt(t, j)} :: IsSlot(s, j) ==>
          BlockAt(t, j) == if InRange(j, f, lo, hi) then 0 else BlockAt(s, j))
    && (forall c: nat {:trigger IsFree(t, c)} ::
          IsFree(t, c) == (IsFree(s, c) || (c in owner && InRange(owner[c], f, lo, hi))))
    && SameOutside(s, f, t)
  }

  /** Clearing reads in no block but the file's indirect one. */
  ghost predicate CachedBut(s: Disk, f: nat, t: Disk) {
    f < |s.files| &&
    var b := s.files[f].indirect;
    t.cached == s.cached || (b < |s.cached| && t.cached == s.cached[b := true])
  }

  /** Other files keep their inode, file f keeps its size and indirect block, and only that block's words change. */
  ghost predicate SameOutside(s: Disk, f: nat, t: Disk) {
    && f < |s.files| == |t.files| && |s.contents| == |t.contents|
    && (forall g {:trigger t.files[g]} :: 0 <= g < |s.files| && g != f ==> t.files[g] == s.files[g])
    && t.files[f].indirect == s.files[f].indirect && t.files[f].size == s.files[f].size
    && (forall b {:trigger t.contents[b]} :: 0 <= b < |s.contents| && b != s.files[f].indirect ==>
          t.contents[b] == s.contents[b])
  }

  lemma ShrinkOutside(s: Disk, owner: map<nat, Slot>, f: nat, i: nat)
    requires Inv(s, owner) && IsSlot(s, Slot(f, i)) && BlockAt(s, Slot(f, i)) != 0 && i < NINDIRECT
    ensures SameOutside(s, f, Shrink(s, Slot(f, i)))
    ensures var t := Shrink(s, Slot(f, i));
            t.cached == s.cached && t.nblocks == s.nblocks && t.reserved == s.reserved && |t.files| == |s.files|
  {
  }

  lemma ClearedNothing(s: Disk, owner: map<nat, Slot>, f: nat, i: nat)
    requires Inv(s, owner) && f < |s.files|
    requires i < NINDIRECT ==> BlockAt(s, Slot(f, i)) == 0
    ensures Cleared(s, owner, f, i, i + 1, s)
  {
    hide IsFree, BlockAt;
    var left := KeepOwners(owner, f, i, i + 1);
    forall c | c in owner ensures !InRange(owner[c], f, i, i + 1) {
      assert BlockAt(s, owner[c]) == c;
    }
    assert left == owner;
  }

  lemma Owns(s: Disk, owner: map<nat, Slot>, k: Slot)
    requires Inv(s, owner) && IsSlot(s, k) && BlockAt(s, k) != 0
    ensures BlockAt(s, k) in owner && owner[BlockAt(s, k)] == k
  {
  }

  lemma OwnersLess(s: Disk, owner: map<nat, Slot>, f: nat, i: nat)
    requires Inv(s, owner) && f < |s.files| && i < NINDIRECT && BlockAt(s, Slot(f, i)) != 0
    ensures var b := BlockAt(s, Slot(f, i));
            && KeepOwners(owner, f, i, i + 1) == owner - {b}
            && forall c :: c in owner ==> (InRange(owner[c], f, i, i + 1) <==> c == b)
  {
    hide IsFree, BlockAt;
    var k := Slot(f, i);
    var b := BlockAt(s, k);
    assert IsSlot(s, k) && owner[b] == k;
    forall c | c in owner ensures InRange(owner[c], f, i, i + 1) <==> c == b {
      assert BlockAt(s, owner[c]) == c;
    }
  }

  lemma ClearBlockExact(s: Disk, owner: map<nat, Slot>, f: nat, i: nat)
    requires Inv(s, owner) && f < |s.files|
    ensures Cleared(s, owner, f, i, i + 1, ClearBlock(s, f, i))
  {
    var m := Reach(s, f, i);
    CacheOnly(s, m, owner);
    ClearSlotExact(m, owner, f, i);
    assert forall j :: IsSlot(s, j) <==> IsSlot(m, j);
    hide IsFree, BlockAt, Owned, KeepOwners, ClearSlot;
  }

  lemma ClearSlotExact(s: Disk, owner: map<nat, Slot>, f: nat, i: nat)
    requires Inv(s, owner) && f < |s.files|
    ensures Cleared(s, owner, f, i, i + 1, ClearSlot(s, f, i))
  {
    hide IsFree, BlockAt, Shrink, Owned, KeepOwners;
    var t, k := ClearSlot(s, f, i), Slot(f, i);
    if i < NINDIRECT && BlockAt(s, k) != 0 {
      ShrinkStep(s, owner, k);
      ShrinkOutside(s, owner, f, i);
      OwnersLess(s, owner, f, i);
      assert BlockAt(s, k) in owner by { Owns(s, owner, k); }
      forall j | IsSlot(s, j) ensures BlockAt(t, j) == if InRange(j, f, i, i + 1) then 0 else BlockAt(s, j) {
        ShrinkSlots(s, owner, k, j);
      }
      forall c: nat ensures IsFree(t, c) == (IsFree(s, c) || (c in owner && InRange(owner[c], f, i, i + 1))) {
        ShrinkBits(s, owner, k, c);
      }
      assert t.nblocks == s.nblocks && t.reserved == s.reserved;
    } else {
      ClearedNothing(s, owner, f, i);
    }
  }

  lemma KeepOwnersJoin(owner: map<nat, Slot>, f: nat, lo: nat, i: nat)
    requires lo <= i
    ensures KeepOwners(owner, f, lo, lo) == owner
    ensures KeepOwners(KeepOwners(owner, f, lo, i), f, i, i + 1) == KeepOwners(owner, f, lo, i + 1)
  {
  }

  lemma ClearedJoin(s: Disk, owner: map<nat, Slot>, f: nat, lo: nat, i: nat, m: Disk, t: Disk)
    requires lo <= i && Cleared(s, owner, f, lo, i, m) && Cleared(m, KeepOwners(owner, f, lo, i), f, i, i + 1, t)
    ensures Cleared(s, owner, f, lo, i + 1, t)
  {
    hide IsFree, BlockAt;
    var mine := KeepOwners(owner, f, lo, i);
    KeepOwnersJoin(owner, f, lo, i);
    assert forall j :: IsSlot(s, j) <==> IsSlot(m, j);
    forall c: nat ensures IsFree(t, c) == (IsFree(s, c) || (c in owner && InRange(owner[c], f, lo, i + 1))) {
      assert IsFree(m, c) == (IsFree(s, c) || (c in owner && InRange(owner[c], f, lo, i)));
      assert c in mine <==> c in owner && !InRange(owner[c], f, lo, i);
    }
  }

  lemma ClearedNone(s: Disk, owner: map<nat, Slot>, f: nat, lo: nat, hi: nat)
    requires Inv(s, owner) && f < |s.files| && hi <= lo
    ensures Cleared(s, owner, f, lo, hi, s)
  {
    hide IsFree, BlockAt, Owned;
    assert KeepOwners(owner, f, lo, hi) == owner;
  }

  lemma {:induction false} ClearRangeExact(s: Disk, owner: map<nat, Slot>, f: nat, lo: nat, hi: nat)
    requires Inv(s, owner) && f < |s.files|
    ensures Cleared(s, owner, f, lo, hi, ClearRange(s, f, lo, hi))
    decreases hi
  {
    hide IsFree, BlockAt, Owned, Shaped, ClearBlock, KeepOwners;
    if hi <= lo {
      ClearedNone(s, owner, f, lo, hi);
    } else {
      ClearRangeExact(s, owner, f, lo, hi - 1);
      var m := ClearRange(s, f, lo, hi - 1);
      assert Inv(m, KeepOwners(owner, f, lo, hi - 1)) && f < |m.files|;
      hide Cleared, Inv;
      ClearBlockExact(m, KeepOwners(owner, f, lo, hi - 1), f, hi - 1);
      ClearedJoin(s, owner, f, lo, hi - 1, m, ClearRange(s, f, lo, hi));
    }
  }

  /** Slot j of the disk is emptied by truncating f to newsize: it lies between the new and the old block count, or
      it goes with the indirect block. */
  predicate Emptied(s: Disk, f: nat, newsize: nat, j: Slot)
    requires f < |s.files|
  {
    InRange(j, f, BlocksKept(newsize), BlocksFor(s.files[f].size)) || (j.f == f && Drops(s, f, newsize) && j.i >= NDIRECT)
  }

  /** The slots whose blocks the truncation frees. */
  predicate Freed(s: Disk, f: nat, newsize: nat, j: Slot)
    requires f < |s.files|
  {
    InRange(j, f, BlocksKept(newsize), BlocksFor(s.files[f].size)) || (Drops(s, f, newsize) && j == Slot(f, INDIRECT))
  }

  /** A block number past the old size, in the indirect block that is about to go. */
  ghost predicate Stray(s: Disk, f: nat, newsize: nat, j: Slot)
    requires f < |s.files|
  {
    IsSlot(s, j) && Emptied(s, f, newsize, j) && !Freed(s, f, newsize, j) && BlockAt(s, j) != 0
  }

  /** What file_truncate does to every slot and every block's free bit. */
  lemma TruncateEffect(s: Disk, owner: map<nat, Slot>, f: nat, newsize: nat)
    requires Inv(s, owner) && f < |s.files|
    ensures var t := Truncate(s, f, newsize);
            && (forall j :: IsSlot(s, j) ==> BlockAt(t, j) == if Emptied(s, f, newsize, j) then 0 else BlockAt(s, j))
            && (forall c :: IsFree(t, c) == (IsFree(s, c) || (c in owner && Freed(s, f, newsize, owner[c]))))
  {
    var lo, hi := BlocksKept(newsize), BlocksFor(s.files[f].size);
    ClearRangeExact(s, owner, f, lo, hi);
    var m, mine, k := ClearRange(s, f, lo, hi), KeepOwners(owner, f, lo, hi), Slot(f, INDIRECT);
    var t := Truncate(s, f, newsize);
    assert BlockAt(s, k) == s.files[f].indirect == BlockAt(m, k);
    if Drops(s, f, newsize) {
      hide Owned, ClearRange, Emptied, Freed, IsFree, BlockAt;
      DropEffect(s, owner, f, newsize, m, mine, t);
    } else {
      hide Owned, ClearRange;
      assert forall j :: IsSlot(s, j) ==> BlockAt(t, j) == BlockAt(m, j);
      assert forall c: nat :: IsFree(t, c) == IsFree(m, c);
    }
  }

  /** What file_truncate leaves alone: other files, and every block but the file's indirect one. */
  lemma TruncateFrame(s: Disk, owner: map<nat, Slot>, f: nat, newsize: nat)
    requires Inv(s, owner) && f < |s.files|
    ensures var t := Truncate(s, f, newsize);
            && |t.files| == |s.files| && t.files[f].size == newsize && CachedBut(s, f, t)
            && t.nblocks == s.nblocks && t.reserved == s.reserved
            && (forall g :: 0 <= g < |s.files| && g != f ==> t.files[g] == s.files[g])
            && (forall b :: 0 <= b < |s.contents| && b != s.files[f].indirect ==> t.contents[b] == s.contents[b])
  {
    ClearRangeExact(s, owner, f, BlocksKept(newsize), BlocksFor(s.files[f].size));
    hide Owned, ClearRange, IsFree;
  }

  lemma DropEffect(s: Disk, owner: map<nat, Slot>, f: nat, newsize: nat, m: Disk, mine: map<nat, Slot>, t: Disk)
    requires Inv(s, owner) && f < |s.files| && Drops(s, f, newsize) && Shaped(m) && |m.files| == |s.files| && Inv(m, mine)
    requires mine == KeepOwners(owner, f, BlocksKept(newsize), BlocksFor(s.files[f].size))
    requires Cleared(s, owner, f, BlocksKept(newsize), BlocksFor(s.files[f].size), m)
    requires BlockAt(m, Slot(f, INDIRECT)) == BlockAt(s, Slot(f, INDIRECT)) != 0
    requires var u := Shrink(m, Slot(f, INDIRECT)); t == u.(files := u.files[f := u.files[f].(size := newsize)])
    ensures forall j {:trigger BlockAt(t, j)} ::
              IsSlot(s, j) ==> BlockAt(t, j) == if Emptied(s, f, newsize, j) then 0 else BlockAt(s, j)
    ensures forall c: nat {:trigger IsFree(t, c)} ::
              IsFree(t, c) == (IsFree(s, c) || (c in owner && Freed(s, f, newsize, owner[c])))
  {
    var k := Slot(f, INDIRECT);
    var u := Shrink(m, k);
    forall j | IsSlot(s, j) ensures BlockAt(t, j) == if Emptied(s, f, newsize, j) then 0 else BlockAt(s, j) {
      ShrinkSlots(m, mine, k, j);
      assert BlockAt(t, j) == BlockAt(u, j);
    }
    Owns(s, owner, k);
    hide Owned, BlockAt, Shrink;
    forall c: nat ensures IsFree(t, c) == (IsFree(s, c) || (c in owner && Freed(s, f, newsize, owner[c]))) {
      ShrinkBits(m, mine, k, c);
      assert IsFree(t, c) == IsFree(u, c);
      OwnsBack(s, owner, c);
    }
  }

  lemma OwnsBack(s: Disk, owner: map<nat, Slot>, c: nat)
    requires Inv(s, owner)
    ensures c in owner ==> BlockAt(s, owner[c]) == c
  {
  }

  /** The partition survives a truncation exactly when no stray block number goes with the indirect block: a stray's
      block is afterwards neither free, nor reserved, nor in any slot. */
  lemma TruncateKeepsPartition(s: Disk, owner: map<nat, Slot>, f: nat, newsize: nat)
    requires Inv(s, owner) && f < |s.files|
    ensures (exists owner' :: Inv(Truncate(s, f, newsize), owner')) <==> (forall j :: !Stray(s, f, newsize, j))
  {
    var t := Truncate(s, f, newsize);
    if forall j :: !Stray(s, f, newsize, j) {
      TruncateInv(s, owner, f, newsize);
    } else {
      var j :| Stray(s, f, newsize, j);
      TruncateEffect(s, owner, f, newsize);
      TruncateFrame(s, owner, f, newsize);
      LostBlock(s, owner, f, newsize, j, Truncate(s, f, newsize));
    }
  }

  lemma LostBlock(s: Disk, owner: map<nat, Slot>, f: nat, newsize: nat, j: Slot, t: Disk)
    requires Inv(s, owner) && f < |s.files| == |t.files| && Stray(s, f, newsize, j)
    requires t.nblocks == s.nblocks && t.reserved == s.reserved
    requires forall i {:trigger BlockAt(t, i)} ::
               IsSlot(s, i) ==> BlockAt(t, i) == if Emptied(s, f, newsize, i) then 0 else BlockAt(s, i)
    requires forall c: nat {:trigger IsFree(t, c)} ::
               IsFree(t, c) == (IsFree(s, c) || (c in owner && Freed(s, f, newsize, owner[c])))
    ensures forall owner' :: !Inv(t, owner')
  {
    hide Emptied, Freed, BlockAt, IsFree;
    var v := BlockAt(s, j);
    assert v in owner && owner[v] == j && v < s.nblocks && !IsFree(s, v) && !IsFree(t, v);
    forall owner' ensures !Inv(t, owner') {
    }
  }

  ghost function OwnersAfter(s: Disk, owner: map<nat, Slot>, f: nat, newsize: nat): map<nat, Slot>
    requires f < |s.files|
  {
    var mine := KeepOwners(owner, f, BlocksKept(newsize), BlocksFor(s.files[f].size));
    if Drops(s, f, newsize) then mine - {s.files[f].indirect} else mine
  }

  lemma TruncateInv(s: Disk, owner: map<nat, Slot>, f: nat, newsize: nat)
    requires Inv(s, owner) && f < |s.files|
    requires forall j :: !Stray(s, f, newsize, j)
    ensures Inv(Truncate(s, f, newsize), OwnersAfter(s, owner, f, newsize))
  {
    var lo, hi := BlocksKept(newsize), BlocksFor(s.files[f].size);
    ClearRangeExact(s, owner, f, lo, hi);
    var m, mine, k := ClearRange(s, f, lo, hi), KeepOwners(owner, f, lo, hi), Slot(f, INDIRECT);
    assert BlockAt(m, k) == s.files[f].indirect;
    if Drops(s, f, newsize) {
      forall i | NDIRECT <= i < NINDIRECT ensures m.contents[BlockAt(m, k)][i] == 0 {
        assert BlockAt(m, Slot(f, i)) == m.contents[BlockAt(m, k)][i];
        assert !Stray(s, f, newsize, Slot(f, i));
      }
      ShrinkStep(m, mine, k);
      Resized(Shrink(m, k), mine - {BlockAt(m, k)}, f, newsize);
    } else {
      Resized(m, mine, f, newsize);
    }
  }

  /** The recorded size plays no part in who owns which block. */
  lemma Resized(s: Disk, owner: map<nat, Slot>, f: nat, newsize: nat)
    requires Inv(s, owner) && f < |s.files|
    ensures Inv(s.(files := s.files[f := s.files[f].(size := newsize)]), owner)
  {
    var t := s.(files := s.files[f := s.files[f].(size := newsize)]);
    assert forall j :: IsSlot(t, j) ==> BlockAt(t, j) == BlockAt(s, j);
    hide BlockAt;
    assert forall b :: IsFree(t, b) == IsFree(s, b);
    hide IsFree;
  }

  /** No block was mapped past the recorded size. */
  ghost predicate WithinSize(s: Disk, f: nat)
    requires f < |s.files|
  {
    forall i :: BlocksFor(s.files[f].size) <= i < NINDIRECT ==> BlockAt(s, Slot(f, i)) == 0
  }

  ghost predicate AllWithin(s: Disk) {
    forall f: nat {:trigger WithinSize(s, f)} :: f < |s.files| ==> WithinSize(s, f)
  }

  predicate Past(j: Slot, f: nat, newsize: nat) {
    j.f == f && if j.i == INDIRECT then BlocksKept(newsize) <= NDIRECT else BlocksKept(newsize) <= j.i
  }

  /** Block c sits in a slot at or past the new block count. */
  ghost predicate HeldPast(s: Disk, f: nat, newsize: nat, c: nat) {
    c != 0 && exists j :: IsSlot(s, j) && Past(j, f, newsize) && BlockAt(s, j) == c
  }

  /** Truncating a file whose blocks lie within its size empties every slot at or past the new block count and frees
      exactly their blocks, with the indirect block when the count is at most 10; the partition stays. */
  lemma TruncateExact(s: Disk, owner: map<nat, Slot>, f: nat, newsize: nat)
    requires Inv(s, owner) && f < |s.files| && WithinSize(s, f)
    ensures var t := Truncate(s, f, newsize);
            && Inv(t, OwnersAfter(s, owner, f, newsize))
            && (forall j :: IsSlot(s, j) ==> BlockAt(t, j) == if Past(j, f, newsize) then 0 else BlockAt(s, j))
            && (forall c :: IsFree(t, c) <==> (IsFree(s, c) || HeldPast(s, f, newsize, c)))
            && (t.files[f].size <= s.files[f].size ==> WithinSize(t, f))
  {
    forall j ensures !Stray(s, f, newsize, j) {
      if IsSlot(s, j) && j.f == f && j.i != INDIRECT { assert j == Slot(f, j.i); }
    }
    TruncateInv(s, owner, f, newsize);
    TruncateEffect(s, owner, f, newsize);
    TruncateFrame(s, owner, f, newsize);
    var t := Truncate(s, f, newsize);
    hide Truncate;
    forall j | IsSlot(s, j) ensures BlockAt(t, j) == if Past(j, f, newsize) then 0 else BlockAt(s, j) {
      PastEmptied(s, owner, f, newsize, j);
    }
    hide BlockAt;
    forall c ensures IsFree(t, c) <==> (IsFree(s, c) || HeldPast(s, f, newsize, c)) {
      if c in owner && BlockAt(s, owner[c]) == c { PastEmptied(s, owner, f, newsize, owner[c]); }
    }
  }

  lemma PastEmptied(s: Disk, owner: map<nat, Slot>, f: nat, newsize: nat, j: Slot)
    requires Inv(s, owner) && f < |s.files| && WithinSize(s, f) && IsSlot(s, j)
    ensures BlockAt(s, j) != 0 ==> (Past(j, f, newsize) <==> Emptied(s, f, newsize, j))
    ensures BlockAt(s, j) != 0 ==> (Past(j, f, newsize) <==> Freed(s, f, newsize, j))
  {
    if j.f == f {
      assert j == Slot(f, j.i);
    }
  }

  // ---- the same in bytes

  lemma ByteBlock(i: nat, size: nat)
    ensures i * 4096 > size <==> BlocksFor(size) <= i
    ensures i * 4096 <= size <==> i < BlocksFor(size)
  {
  }

  /** No block of the file starts past its last byte. */
  lemma WithinBytes(s: Disk, f: nat)
    requires f < |s.files|
    ensures WithinSize(s, f) <==> forall i: nat :: i < NINDIRECT && i * 4096 > s.files[f].size ==> BlockAt(s, Slot(f, i)) == 0
  {
    forall i: nat | i < NINDIRECT ensures BlocksFor(s.files[f].size) <= i <==> i * 4096 > s.files[f].size {
      ByteBlock(i, s.files[f].size);
    }
    hide BlocksFor, BlockAt;
    if forall i: nat :: i < NINDIRECT && i * 4096 > s.files[f].size ==> BlockAt(s, Slot(f, i)) == 0 {
      forall i: nat | BlocksFor(s.files[f].size) <= i < NINDIRECT ensures BlockAt(s, Slot(f, i)) == 0 {
      }
    }
    if WithinSize(s, f) {
      forall i: nat | i < NINDIRECT && i * 4096 > s.files[f].size ensures BlockAt(s, Slot(f, i)) == 0 {
      }
    }
  }

  /** Slot j starts past newsize bytes, or is the indirect block of a file that needs none. */
  predicate PastBytes(j: Slot, f: nat, newsize: nat) {
    j.f == f && (newsize == 0 || if j.i == INDIRECT then newsize < 40960 else j.i * 4096 > newsize)
  }

  lemma PastInBytes(j: Slot, f: nat, newsize: nat)
    ensures Past(j, f, newsize) <==> PastBytes(j, f, newsize)
  {
    ByteBlock(j.i, newsize);
  }

  /** What file_truncate empties and frees, for any file: each block that starts within the old size and past the new one,
      and below 40960 bytes the indirect block with all that it names. */
  lemma EmptiedBytes(s: Disk, f: nat, newsize: nat, j: Slot)
    requires f < |s.files|
    ensures Freed(s, f, newsize, j) <==>
              || (j.f == f && j.i < NINDIRECT && j.i * 4096 <= s.files[f].size && PastBytes(j, f, newsize))
              || (j == Slot(f, INDIRECT) && newsize < 40960 && s.files[f].indirect != 0)
    ensures Emptied(s, f, newsize, j) <==>
              Freed(s, f, newsize, j) || (j.f == f && j.i >= NDIRECT && newsize < 40960 && s.files[f].indirect != 0)
  {
    ByteBlock(j.i, newsize);
    ByteBlock(j.i, s.files[f].size);
  }

  /** Truncating to newsize bytes a file that has no block past its size: exactly the blocks that start past newsize go, with
      the indirect block below 40960 bytes, and exactly they become free. */
  lemma TruncateBytes(s: Disk, owner: map<nat, Slot>, f: nat, newsize: nat)
    requires Inv(s, owner) && f < |s.files|
    requires forall i: nat :: i < NINDIRECT && i * 4096 > s.files[f].size ==> BlockAt(s, Slot(f, i)) == 0
    ensures var t := Truncate(s, f, newsize);
            && |t.files| == |s.files| && t.files[f].size == newsize
            && (forall j :: IsSlot(s, j) ==> BlockAt(t, j) == if PastBytes(j, f, newsize) then 0 else BlockAt(s, j))
            && (forall c: nat {:trigger IsFree(t, c)} ::
                  IsFree(t, c) <==>
                  IsFree(s, c) || (c != 0 && exists j :: IsSlot(s, j) && PastBytes(j, f, newsize) && BlockAt(s, j) == c))
  {
    WithinBytes(s, f);
    TruncateExact(s, owner, f, newsize);
    TruncateFrame(s, owner, f, newsize);
    var t := Truncate(s, f, newsize);
    hide Truncate, Inv, BlockAt, IsFree, WithinSize;
    forall j ensures Past(j, f, newsize) <==> PastBytes(j, f, newsize) {
      PastInBytes(j, f, newsize);
    }
    hide Past, PastBytes;
    forall c: nat
      ensures HeldPast(s, f, newsize, c) <==>
                c != 0 && exists j :: IsSlot(s, j) && PastBytes(j, f, newsize) && BlockAt(s, j) == c
    {
      if HeldPast(s, f, newsize, c) {
        var j :| IsSlot(s, j) && Past(j, f, newsize) && BlockAt(s, j) == c;
        assert PastBytes(j, f, newsize);
      }
      if j :| IsSlot(s, j) && PastBytes(j, f, newsize) && BlockAt(s, j) == c {
        assert Past(j, f, newsize);
      }
    }
  }

  /** file_set_size cuts a file that gets shorter and leaves the blocks of any other alone. */
  lemma SetSizeBytes(s: Disk, owner: map<nat, Slot>, f: nat, newsize: nat)
    requires Inv(s, owner) && f < |s.files|
    requires forall i: nat :: i < NINDIRECT && i * 4096 > s.files[f].size ==> BlockAt(s, Slot(f, i)) == 0
    ensures var t, cut := SetSize(s, f, newsize), newsize < s.files[f].size;
            && |t.files| == |s.files| && t.files[f].size == newsize
            && (forall j :: IsSlot(s, j) ==> BlockAt(t, j) == if cut && PastBytes(j, f, newsize) then 0 else BlockAt(s, j))
            && (forall c: nat {:trigger IsFree(t, c)} ::
                  IsFree(t, c) <==>
                  IsFree(s, c) || (cut && c != 0 && exists j :: IsSlot(s, j) && PastBytes(j, f, newsize) && BlockAt(s, j) == c))
  {
    var t := SetSize(s, f, newsize);
    if newsize < s.files[f].size {
      TruncateBytes(s, owner, f, newsize);
    } else {
      assert forall j :: IsSlot(s, j) ==> BlockAt(t, j) == BlockAt(s, j);
      assert forall c: nat :: IsFree(t, c) == IsFree(s, c);
    }
  }
}
