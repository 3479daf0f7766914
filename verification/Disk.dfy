/** Who owns each disk block: the bitmap, the files' slots and their indirect blocks (fs/fs.c). */
module DiskBlocks {
  import opened Bits

  const NDIRECT: nat := 10
  const NINDIRECT: nat := 1024
  const BY2BLK: nat := 4096

  type Block = b: seq<nat> | |b| == NINDIRECT witness seq(NINDIRECT, _ => 0)

  datatype File = File(size: nat, direct: seq<nat>, indirect: nat)

  /** `contents[b]` is what reading block b through the cache gives; `reserved` counts boot, super and bitmap blocks. */
  datatype Disk = Disk(nblocks: nat, reserved: nat, bitmap: seq<Word32>, contents: seq<Block>, cached: seq<bool>,
                       files: seq<File>)

  /** Slot i of file f: a data block for i < 1024, and the indirect block itself for i == 1024. */
  datatype Slot = Slot(f: nat, i: nat)

  const INDIRECT: nat := 1024

  ghost predicate Shaped(s: Disk) {
    && |s.contents| == |s.cached| == s.nblocks && s.nblocks <= 32 * |s.bitmap|
    && 3 <= s.reserved <= s.nblocks
    && forall f :: 0 <= f < |s.files| ==> |s.files[f].direct| == NDIRECT
  }

  predicate IsSlot(s: Disk, k: Slot) {
    k.f < |s.files| && k.i <= INDIRECT
  }

  /** The block number in a slot, 0 for none. Slots 10 to 1023 are words 10 to 1023 of the indirect block. */
  function BlockAt(s: Disk, k: Slot): nat
    requires IsSlot(s, k)
  {
    var file := s.files[k.f];
    if k.i == INDIRECT then file.indirect
    else if k.i < NDIRECT then (if k.i < |file.direct| then file.direct[k.i] else 0)
    else if file.indirect == 0 || file.indirect >= |s.contents| then 0
    else s.contents[file.indirect][k.i]
  }

  predicate IsFree(s: Disk, b: nat) {
    b < s.nblocks && HasBit(s.bitmap, b) && MapBit(s.bitmap, b)
  }

  predicate Reserved(s: Disk, b: nat) {
    b < s.reserved
  }

  /** Every block is free, reserved, or held by the slot that `owner` gives, and every slot's block is its own. */
  ghost predicate Owned(s: Disk, owner: map<nat, Slot>) {
    && (forall k {:trigger BlockAt(s, k)} :: IsSlot(s, k) && BlockAt(s, k) != 0 ==>
          BlockAt(s, k) in owner && owner[BlockAt(s, k)] == k)
    && (forall b {:trigger owner[b]} {:trigger b in owner} :: b in owner ==>
          b < s.nblocks && IsSlot(s, owner[b]) && BlockAt(s, owner[b]) == b && !IsFree(s, b) && !Reserved(s, b))
    && (forall b: nat {:trigger IsFree(s, b)} :: b < s.nblocks ==>
          !(IsFree(s, b) && Reserved(s, b)) && (IsFree(s, b) || Reserved(s, b) || b in owner))
  }

  ghost predicate Inv(s: Disk, owner: map<nat, Slot>) {
    Shaped(s) && Owned(s, owner)
  }

  /** The partition in plain words: each block is exactly one of free, reserved, or in some slot, and no block is in two. */
  lemma Partition(s: Disk, owner: map<nat, Slot>, b: nat)
    requires Inv(s, owner) && b < s.nblocks
    ensures IsFree(s, b) ==> !Reserved(s, b) && (forall k :: IsSlot(s, k) && b != 0 ==> BlockAt(s, k) != b)
    ensures Reserved(s, b) ==> !IsFree(s, b) && (forall k :: IsSlot(s, k) && b != 0 ==> BlockAt(s, k) != b)
    ensures !IsFree(s, b) && !Reserved(s, b) ==> exists k :: IsSlot(s, k) && BlockAt(s, k) == b
    ensures forall k, k' :: IsSlot(s, k) && IsSlot(s, k') && b != 0 && BlockAt(s, k) == b && BlockAt(s, k') == b ==> k == k'
  {
    if !IsFree(s, b) && !Reserved(s, b) {
      assert IsSlot(s, owner[b]) && BlockAt(s, owner[b]) == b;
    }
  }

  function ZeroBlock(): Block {
    seq(NINDIRECT, _ => 0)
  }

  /** alloc_block on free block b: clear its bit, and map it; a block still in the cache keeps what it held. */
  function Claim(s: Disk, b: nat): Disk
    requires HasBit(s.bitmap, b) && b < |s.contents| && b < |s.cached|
  {
    s.(bitmap := PutBit(s.bitmap, b, false),
       contents := if s.cached[b] then s.contents else s.contents[b := ZeroBlock()],
       cached := s.cached[b := true])
  }

  function Release(s: Disk, b: nat): Disk
    requires HasBit(s.bitmap, b)
  {
    s.(bitmap := PutBit(s.bitmap, b, true))
  }

  predicate CanPut(s: Disk, k: Slot) {
    && IsSlot(s, k) && |s.files[k.f].direct| == NDIRECT
    && (NDIRECT <= k.i < NINDIRECT ==> s.files[k.f].indirect != 0 && s.files[k.f].indirect < |s.contents|)
  }

  function Put(s: Disk, k: Slot, v: nat): Disk
    requires CanPut(s, k)
  {
    var file := s.files[k.f];
    if k.i == INDIRECT then s.(files := s.files[k.f := file.(indirect := v)])
    else if k.i < NDIRECT then s.(files := s.files[k.f := file.(direct := file.direct[k.i := v])])
    else s.(contents := s.contents[file.indirect := s.contents[file.indirect][k.i := v]])
  }

  /** The slots of file f that its indirect block carries. */
  predicate NoIndirectSlots(block: Block) {
    forall i :: NDIRECT <= i < NINDIRECT ==> block[i] == 0
  }

  lemma ClaimSlots(s: Disk, owner: map<nat, Slot>, b: nat, k: Slot)
    requires Inv(s, owner) && IsFree(s, b) && IsSlot(s, k)
    ensures BlockAt(Claim(s, b), k) == BlockAt(s, k)
  {
    if NDIRECT <= k.i < NINDIRECT && s.files[k.f].indirect == b {
      assert BlockAt(s, Slot(k.f, INDIRECT)) == b;
    }
  }

  lemma ClaimBits(s: Disk, b: nat, c: nat)
    requires Shaped(s) && b < s.nblocks
    ensures IsFree(Claim(s, b), c) == (c != b && IsFree(s, c))
    ensures IsFree(Release(s, b), c) == (c < s.nblocks && (c == b || IsFree(s, c)))
  {
    if c < s.nblocks {
      PutBitAt(s.bitmap, b, false, c);
      PutBitAt(s.bitmap, b, true, c);
    }
  }

  /** Two files never share an indirect block. */
  ghost predicate OwnIndirect(s: Disk, f: nat) {
    f < |s.files| &&
    forall g {:trigger s.files[g]} :: 0 <= g < |s.files| && g != f && s.files[g].indirect != 0 ==>
      s.files[g].indirect != s.files[f].indirect
  }

  lemma OwnedIndirect(s: Disk, owner: map<nat, Slot>, f: nat)
    requires Inv(s, owner) && f < |s.files|
    ensures OwnIndirect(s, f)
  {
    assert BlockAt(s, Slot(f, INDIRECT)) == s.files[f].indirect;
    forall g | 0 <= g < |s.files| && g != f && s.files[g].indirect != 0
      ensures s.files[g].indirect != s.files[f].indirect
    {
      assert BlockAt(s, Slot(g, INDIRECT)) == s.files[g].indirect;
    }
  }

  /** Filling slot k with v shows at slot k, and at the slots of k's file that a new indirect block brings. */
  lemma PutSlots(s: Disk, k: Slot, v: nat, j: Slot)
    requires Shaped(s) && CanPut(s, k) && OwnIndirect(s, k.f) && IsSlot(s, j)
    ensures IsSlot(Put(s, k, v), j)
    ensures j == k ==> BlockAt(Put(s, k, v), j) == v
    ensures j != k && (k.i != INDIRECT || j.f != k.f || j.i < NDIRECT) ==> BlockAt(Put(s, k, v), j) == BlockAt(s, j)
    ensures k.i == INDIRECT && j.f == k.f && NDIRECT <= j.i < NINDIRECT && v < |s.contents| ==>
      BlockAt(Put(s, k, v), j) == if v == 0 then 0 else s.contents[v][j.i]
  {
    if NDIRECT <= k.i < NINDIRECT && NDIRECT <= j.i < NINDIRECT && j.f != k.f {
      assert s.files[j.f].indirect != 0 ==> s.files[j.f].indirect != s.files[k.f].indirect;
    }
  }

  /** What the whole of growing does to each slot. */
  function Grow(s: Disk, k: Slot, b: nat): Disk
    requires HasBit(s.bitmap, b) && b < |s.contents| && b < |s.cached| && CanPut(s, k)
  {
    Put(Claim(s, b), k, b)
  }

  /** k brings slots of its own when it is an indirect block. */
  predicate Brings(k: Slot, j: Slot) {
    k.i == INDIRECT && j.f == k.f && NDIRECT <= j.i < NINDIRECT
  }

  lemma GrowSlots(s: Disk, owner: map<nat, Slot>, k: Slot, b: nat, j: Slot)
    requires Inv(s, owner) && IsFree(s, b) && CanPut(s, k) && BlockAt(s, k) == 0 && IsSlot(s, j)
    ensures var t := Grow(s, k, b);
            IsSlot(t, j) && BlockAt(t, j) == if j == k then b
                                             else if Brings(k, j) then Claim(s, b).contents[b][j.i] else BlockAt(s, j)
  {
    var s1 := Claim(s, b);
    OwnedIndirect(s, owner, k.f);
    assert Shaped(s1) && OwnIndirect(s1, k.f);
    ClaimSlots(s, owner, b, j);
    PutSlots(s1, k, b, j);
  }

  /** Giving free block b to empty slot k keeps the partition; a new indirect block has to read as zeros. */
  lemma GrowStep(s: Disk, owner: map<nat, Slot>, k: Slot, b: nat)
    requires Inv(s, owner) && IsFree(s, b) && CanPut(s, k) && BlockAt(s, k) == 0
    requires k.i == INDIRECT ==> NoIndirectSlots(Claim(s, b).contents[b])
    ensures Inv(Grow(s, k, b), owner[b := k])
  {
    var t := Grow(s, k, b);
    forall j | IsSlot(t, j) ensures BlockAt(t, j) == if j == k then b else BlockAt(s, j) {
      GrowSlots(s, owner, k, b, j);
    }
    forall c: nat | c < s.nblocks ensures IsFree(t, c) == (c != b && IsFree(s, c)) {
      GrowBits(s, k, b, c);
    }
    OwnedMore(s, owner, k, b, t);
  }

  lemma OwnedMore(s: Disk, owner: map<nat, Slot>, k: Slot, b: nat, t: Disk)
    requires Inv(s, owner) && IsFree(s, b) && b < s.nblocks && IsSlot(s, k) && BlockAt(s, k) == 0
    requires Shaped(t) && t.nblocks == s.nblocks && t.reserved == s.reserved && |t.files| == |s.files|
    requires forall j {:trigger BlockAt(t, j)} :: IsSlot(t, j) ==> BlockAt(t, j) == if j == k then b else BlockAt(s, j)
    requires forall c: nat {:trigger IsFree(t, c)} :: c < s.nblocks ==> IsFree(t, c) == (c != b && IsFree(s, c))
    ensures Inv(t, owner[b := k])
  {
    hide BlockAt, IsFree;
    var owner' := owner[b := k];
    forall c | c in owner'
      ensures c < t.nblocks && IsSlot(t, owner'[c]) && BlockAt(t, owner'[c]) == c && !IsFree(t, c) && !Reserved(t, c)
    {
      if c != b { assert BlockAt(s, owner[c]) == c; }
    }
  }

  lemma GrowBits(s: Disk, k: Slot, b: nat, c: nat)
    requires Shaped(s) && b < s.nblocks && CanPut(s, k)
    ensures IsFree(Grow(s, k, b), c) == (c != b && IsFree(s, c))
  {
    ClaimBits(s, b, c);
  }

  /** A block that still holds numbers from an earlier life cannot become an indirect block: the partition
      survives exactly when the words it brings are all zero. */
  lemma GrowIndirectExact(s: Disk, owner: map<nat, Slot>, k: Slot, b: nat)
    requires Inv(s, owner) && IsFree(s, b) && IsSlot(s, k) && k.i == INDIRECT && BlockAt(s, k) == 0
    ensures (exists owner' :: Inv(Grow(s, k, b), owner')) <==> NoIndirectSlots(Claim(s, b).contents[b])
  {
    var t, words := Grow(s, k, b), Claim(s, b).contents[b];
    if NoIndirectSlots(words) {
      GrowStep(s, owner, k, b);
    } else {
      var i :| NDIRECT <= i < NINDIRECT && words[i] != 0;
      var v, j := words[i], Slot(k.f, i);
      GrowSlots(s, owner, k, b, j);
      GrowSlots(s, owner, k, b, k);
      forall owner' ensures !Inv(t, owner') {
        if v in owner {
          GrowSlots(s, owner, k, b, owner[v]);
        }
        ClaimBits(s, b, v);
        assert BlockAt(t, j) == v && BlockAt(t, k) == b;
        assert v < s.nblocks ==> IsFree(s, v) || Reserved(s, v) || v in owner;
      }
    }
  }

  /** free_block, which ignores block 0 and blocks past the end. */
  function FreeBlock(s: Disk, b: nat): Disk
    requires Shaped(s)
  {
    if b == 0 || b >= s.nblocks then s else Release(s, b)
  }

  /** It frees that block and nothing else. */
  lemma FreeBlockExact(s: Disk, b: nat, c: nat)
    requires Shaped(s)
    ensures var t := FreeBlock(s, b);
            && (IsFree(t, c) <==> IsFree(s, c) || (c == b && 0 < b < s.nblocks)) && t == s.(bitmap := t.bitmap)
            && (b == 0 || b >= s.nblocks ==> t == s)
  {
    if b < s.nblocks {
      ClaimBits(s, b, c);
    }
  }

  /** Free the block in slot k and empty the slot. */
  function Shrink(s: Disk, k: Slot): Disk
    requires Shaped(s) && IsSlot(s, k)
    requires BlockAt(s, k) != 0
  {
    Put(FreeBlock(s, BlockAt(s, k)), k, 0)
  }

  lemma ShrinkSlots(s: Disk, owner: map<nat, Slot>, k: Slot, j: Slot)
    requires Inv(s, owner) && IsSlot(s, k) && BlockAt(s, k) != 0 && IsSlot(s, j)
    ensures var t := Shrink(s, k);
            IsSlot(t, j) && BlockAt(t, j) == if j == k || Brings(k, j) then 0 else BlockAt(s, j)
  {
    var s1 := FreeBlock(s, BlockAt(s, k));
    OwnedIndirect(s, owner, k.f);
    assert Shaped(s1) && OwnIndirect(s1, k.f);
    assert BlockAt(s1, j) == BlockAt(s, j);
    PutSlots(s1, k, 0, j);
  }

  lemma ShrinkBits(s: Disk, owner: map<nat, Slot>, k: Slot, c: nat)
    requires Inv(s, owner) && IsSlot(s, k) && BlockAt(s, k) != 0
    ensures IsFree(Shrink(s, k), c) == (IsFree(s, c) || c == BlockAt(s, k))
  {
    ClaimBits(s, BlockAt(s, k), c);
  }

  lemma ShrinkStep(s: Disk, owner: map<nat, Slot>, k: Slot)
    requires Inv(s, owner) && IsSlot(s, k) && BlockAt(s, k) != 0
    requires k.i == INDIRECT ==> NoIndirectSlots(s.contents[BlockAt(s, k)])
    ensures Inv(Shrink(s, k), owner - {BlockAt(s, k)})
  {
    var t, b := Shrink(s, k), BlockAt(s, k);
    var owner' := owner - {b};
    forall j | IsSlot(t, j) ensures BlockAt(t, j) == if j == k then 0 else BlockAt(s, j) {
      ShrinkSlots(s, owner, k, j);
    }
    forall c: nat | c < s.nblocks ensures IsFree(t, c) == (IsFree(s, c) || c == b) {
      ShrinkBits(s, owner, k, c);
    }
    hide Put, BlockAt, FreeBlock;
    forall c | c in owner' ensures c < t.nblocks && IsSlot(t, owner'[c]) && BlockAt(t, owner'[c]) == c && !IsFree(t, c) && !Reserved(t, c) {
      assert BlockAt(s, owner[c]) == c;
    }
  }

  /** Freeing an indirect block that still names blocks loses them: the partition survives exactly when it names none. */
  lemma ShrinkIndirectExact(s: Disk, owner: map<nat, Slot>, k: Slot)
    requires Inv(s, owner) && IsSlot(s, k) && k.i == INDIRECT && BlockAt(s, k) != 0
    ensures (exists owner' :: Inv(Shrink(s, k), owner')) <==> NoIndirectSlots(s.contents[BlockAt(s, k)])
  {
    var t, words := Shrink(s, k), s.contents[BlockAt(s, k)];
    if NoIndirectSlots(words) {
      ShrinkStep(s, owner, k);
    } else {
      var i :| NDIRECT <= i < NINDIRECT && words[i] != 0;
      var v, j := words[i], Slot(k.f, i);
      assert BlockAt(s, j) == v && v in owner && owner[v] == j && BlockAt(s, k) != v;
      ShrinkBits(s, owner, k, v);
      forall owner' ensures !Inv(t, owner') {
        if Inv(t, owner') {
          ghost var h := owner'[v];
          ShrinkSlots(s, owner, k, h);
        }
      }
    }
  }

  /** Writing file data leaves the partition alone, as long as the block is not some file's indirect block. */
  lemma DataWrite(s: Disk, owner: map<nat, Slot>, b: nat, data: Block)
    requires Inv(s, owner) && b < s.nblocks && (b in owner ==> owner[b].i != INDIRECT)
    ensures Inv(s.(contents := s.contents[b := data]), owner)
  {
    var t := s.(contents := s.contents[b := data]);
    forall j | IsSlot(t, j) ensures BlockAt(t, j) == BlockAt(s, j) {
      assert BlockAt(s, Slot(j.f, INDIRECT)) == s.files[j.f].indirect;
    }
    hide BlockAt;
    assert forall c: nat :: IsFree(t, c) == IsFree(s, c);
  }

  // ---- the cache: read_block maps a block and nothing ever unmaps it

  function Touch(s: Disk, b: nat): Disk
    requires b < |s.cached|
  {
    s.(cached := s.cached[b := true])
  }

  /** Reaching slot i of f reads the indirect block in. */
  function Reach(s: Disk, f: nat, i: nat): (t: Disk)
    requires Shaped(s) && f < |s.files|
    ensures Shaped(t) && t == s.(cached := t.cached)
  {
    if NDIRECT <= i < NINDIRECT && s.files[f].indirect != 0 && s.files[f].indirect < s.nblocks then
      Touch(s, s.files[f].indirect)
    else s
  }

  /** Pages left for the cache once the disk has gone from s to t, which has at most one more block mapped. */
  function PagesLeft(s: Disk, t: Disk, memory: nat): nat {
    if t.cached == s.cached || memory == 0 then memory else memory - 1
  }

  /** The blocks in the cache, each of which takes a page. */
  function CachedSet(s: Disk): set<nat> {
    set b: nat | b < |s.cached| && s.cached[b]
  }

  /** Pages are neither made nor lost: what the cache gains, the memory loses. */
  ghost predicate Paid(s: Disk, memory: nat, t: Disk, left: nat) {
    |CachedSet(t)| + left == |CachedSet(s)| + memory
  }

  lemma TouchSet(s: Disk, b: nat)
    requires b < |s.cached|
    ensures |CachedSet(Touch(s, b))| == |CachedSet(s)| + if s.cached[b] then 0 else 1
  {
    assert CachedSet(Touch(s, b)) == CachedSet(s) + {b};
  }

  /** Reading a block in takes a page exactly when the block was not in the cache. */
  lemma TouchPaid(s: Disk, b: nat, memory: nat)
    requires b < |s.cached| && (memory > 0 || s.cached[b])
    ensures Paid(s, memory, Touch(s, b), PagesLeft(s, Touch(s, b), memory))
  {
    TouchSet(s, b);
    assert s.cached[b] ==> s.cached[b := true] == s.cached;
  }

  /** What is cached plays no part in who owns which block. */
  lemma CacheOnly(s: Disk, t: Disk, owner: map<nat, Slot>)
    requires t == s.(cached := t.cached) && |t.cached| == |s.cached|
    ensures Shaped(t) <==> Shaped(s)
    ensures Inv(s, owner) ==> Inv(t, owner)
    ensures forall j :: IsSlot(s, j) ==> IsSlot(t, j) && BlockAt(t, j) == BlockAt(s, j)
    ensures forall c: nat :: IsFree(t, c) == IsFree(s, c)
  {
    assert forall j :: IsSlot(s, j) <==> IsSlot(t, j);
    assert forall j :: IsSlot(s, j) ==> BlockAt(t, j) == BlockAt(s, j);
    hide BlockAt;
    assert forall c: nat :: IsFree(t, c) == IsFree(s, c);
    hide IsFree;
  }
}
