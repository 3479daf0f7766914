/** The disk image while it is being built: which blocks are handed out, and which of them a slot names (tools/fsformat.c). */
module DiskImage {
  import opened Bits
  import opened DiskBlocks
  import opened DiskMap
  import opened DiskTruncate
  import opened DiskRuns

  const NBLOCK: nat := 1024
  const FIRST: nat := 3  // boot, super and one bitmap block

  /** `pending` blocks have been handed out and wait for a slot; blocks from nextbno on have never been written. */
  ghost predicate Built(s: Disk, nextbno: nat, owner: map<nat, Slot>, pending: set<nat>) {
    && Shaped(s) && s.nblocks == NBLOCK && s.reserved == FIRST && FIRST <= nextbno <= NBLOCK
    && (forall k {:trigger BlockAt(s, k)} :: IsSlot(s, k) && BlockAt(s, k) != 0 ==>
          BlockAt(s, k) in owner && owner[BlockAt(s, k)] == k)
    && (forall b {:trigger b in owner} :: b in owner ==>
          FIRST <= b < nextbno && IsSlot(s, owner[b]) && BlockAt(s, owner[b]) == b && b !in pending)
    && (forall b {:trigger b in pending} :: b in pending ==> FIRST <= b < nextbno)
    && (forall b {:trigger b in owner} {:trigger b in pending} :: FIRST <= b < nextbno ==> b in owner || b in pending)
    && (forall b {:trigger s.contents[b]} :: nextbno <= b < NBLOCK ==> s.contents[b] == ZeroBlock())
  }

  /** next_block hands out a block. */
  lemma HandOut(s: Disk, nextbno: nat, owner: map<nat, Slot>, pending: set<nat>)
    requires Built(s, nextbno, owner, pending) && nextbno < NBLOCK
    ensures Built(s, nextbno + 1, owner, pending + {nextbno})
  {
    hide BlockAt;
  }

  lemma BuiltIndirect(s: Disk, nextbno: nat, owner: map<nat, Slot>, pending: set<nat>, f: nat)
    requires Built(s, nextbno, owner, pending) && f < |s.files|
    ensures OwnIndirect(s, f)
  {
    assert BlockAt(s, Slot(f, INDIRECT)) == s.files[f].indirect;
    forall g | 0 <= g < |s.files| && g != f && s.files[g].indirect != 0 ensures s.files[g].indirect != s.files[f].indirect {
      assert BlockAt(s, Slot(g, INDIRECT)) == s.files[g].indirect;
    }
  }

  /** Writing the handed-out block b into empty slot k. An indirect block has to be untouched. */
  lemma LinkBlock(s: Disk, nextbno: nat, owner: map<nat, Slot>, pending: set<nat>, k: Slot, b: nat)
    requires Built(s, nextbno, owner, pending) && b in pending && CanPut(s, k) && BlockAt(s, k) == 0
    requires k.i == INDIRECT ==> s.contents[b] == ZeroBlock()
    ensures var t := Put(s, k, b);
            Built(t, nextbno, owner[b := k], pending - {b}) && forall j :: IsSlot(s, j) ==> BlockAt(t, j) == if j == k then b else BlockAt(s, j)
  {
    var t, owner' := Put(s, k, b), owner[b := k];
    BuiltIndirect(s, nextbno, owner, pending, k.f);
    forall j | IsSlot(s, j) ensures BlockAt(t, j) == if j == k then b else BlockAt(s, j) {
      PutSlots(s, k, b, j);
    }
    assert forall c :: nextbno <= c < NBLOCK ==> t.contents[c] == ZeroBlock() by {
      assert BlockAt(s, Slot(k.f, INDIRECT)) == s.files[k.f].indirect;
    }
    hide BlockAt, Put;
  }

  /** Filling a handed-out block that no file uses as its indirect block. */
  lemma FillBlock(s: Disk, nextbno: nat, owner: map<nat, Slot>, pending: set<nat>, b: nat, data: Block)
    requires Built(s, nextbno, owner, pending) && b in pending
    ensures var t := s.(contents := s.contents[b := data]);
            Built(t, nextbno, owner, pending) && forall j :: IsSlot(s, j) ==> BlockAt(t, j) == BlockAt(s, j)
  {
    var t := s.(contents := s.contents[b := data]);
    forall j | IsSlot(t, j) ensures BlockAt(t, j) == BlockAt(s, j) {
      assert BlockAt(s, Slot(j.f, INDIRECT)) == s.files[j.f].indirect;
    }
    hide BlockAt;
  }

  function NewFile(size: nat): File {
    File(size, seq(NDIRECT, _ => 0), 0)
  }

  /** Appending an unused directory entry. */
  lemma AddFile(s: Disk, nextbno: nat, owner: map<nat, Slot>, pending: set<nat>, size: nat)
    requires Built(s, nextbno, owner, pending)
    ensures var t := s.(files := s.files + [NewFile(size)]);
            Built(t, nextbno, owner, pending) && forall i :: 0 <= i <= INDIRECT ==> BlockAt(t, Slot(|s.files|, i)) == 0
  {
    var t := s.(files := s.files + [NewFile(size)]);
    forall j | IsSlot(t, j) ensures BlockAt(t, j) == if j.f < |s.files| then BlockAt(s, j) else 0 {
    }
    hide BlockAt;
  }

  /** The bitmap says that exactly the blocks from nextbno on are free. */
  ghost predicate Flushed(s: Disk, nextbno: nat) {
    forall b: nat :: IsFree(s, b) <==> nextbno <= b < s.nblocks
  }

  /** A finished image satisfies the server's ownership partition, and none of its free blocks holds old numbers. */
  lemma ImagePartition(s: Disk, nextbno: nat, owner: map<nat, Slot>)
    requires Built(s, nextbno, owner, {}) && Flushed(s, nextbno)
    ensures Inv(s, owner)
    ensures forall f: nat, i, alloc :: f < |s.files| ==> FreshReadsZero(s, f, i, alloc)
  {
    hide BlockAt, IsFree;
    assert forall b: nat :: b < s.nblocks ==> (Reserved(s, b) <==> b < FIRST);
  }

  /** A finished image whose files keep their blocks within their sizes is a disk the server's runs start from. */
  lemma ImageSound(s: Disk, nextbno: nat, owner: map<nat, Slot>)
    requires Built(s, nextbno, owner, {}) && Flushed(s, nextbno) && AllWithin(s)
    ensures Sound(s) && OnDisk(s)
  {
    ImagePartition(s, nextbno, owner);
    SoundOnDisk(s);
  }

  /** Extending directory d by the block its size points to. */
  lemma WithinExtended(s: Disk, t: Disk, d: nat)
    requires AllWithin(s) && d < |s.files| == |t.files| && t.files[d].size == s.files[d].size + BY2BLK
    requires forall g :: 0 <= g < |s.files| && g != d ==> t.files[g].size == s.files[g].size
    requires forall j :: IsSlot(s, j) && j != Slot(d, s.files[d].size / BY2BLK) && j != Slot(d, INDIRECT) ==>
               BlockAt(t, j) == BlockAt(s, j)
    ensures AllWithin(t)
  {
    hide BlockAt;
    forall g: nat | g < |t.files| ensures WithinSize(t, g) {
      assert WithinSize(s, g);
      assert BlocksFor(s.files[g].size) <= BlocksFor(t.files[g].size);
    }
  }

  /** The i-th block of a file whose blocks were written one after the other from block `first` on: the indirect block
      comes right after the eleventh data block. */
  function NumberOf(first: nat, i: nat): nat {
    first + i + if i > NDIRECT then 1 else 0
  }

  /** Slots 0 to n-1 of file f hold the blocks from `first` on, and the others are empty. */
  ghost predicate Linked(s: Disk, f: nat, first: nat, n: nat) {
    && f < |s.files|
    && (forall i {:trigger BlockAt(s, Slot(f, i))} :: 0 <= i < NINDIRECT ==>
          BlockAt(s, Slot(f, i)) == if i < n then NumberOf(first, i) else 0)
    && BlockAt(s, Slot(f, INDIRECT)) == if n > NDIRECT then first + NDIRECT + 1 else 0
  }

  /** The reader finds the numbers the builder linked: block i for i < n, and -E_NOT_FOUND up to 1024. */
  lemma ReaderAgrees(s: Disk, memory: nat, nextbno: nat, owner: map<nat, Slot>, f: nat, first: nat, n: nat, i: nat)
    requires Built(s, nextbno, owner, {}) && Linked(s, f, first, n) && n <= NINDIRECT && first >= FIRST
    ensures s.files[f].indirect < s.nblocks
    ensures var a := MapFile(s, memory, f, i, false);
            && a.disk == s.(cached := a.disk.cached)
            && a.r == if i >= NINDIRECT then -E_INVAL else if i < n then NumberOf(first, i) else -E_NOT_FOUND
  {
    assert BlockAt(s, Slot(f, INDIRECT)) == s.files[f].indirect;
    var m := Reach(s, f, i);
    CacheOnly(s, m, owner);
    if i < NINDIRECT {
      assert BlockAt(s, Slot(f, i)) == if i < n then NumberOf(first, i) else 0;
      assert BlockAt(m, Slot(f, i)) == BlockAt(s, Slot(f, i));
    }
  }

  /** save_block_link: slot i of f gets block b, a missing indirect block gets number n, and nothing else changes. */
  ghost predicate AddsLink(s: Disk, t: Disk, f: nat, i: nat, b: nat, n: nat)
    requires f < |s.files|
  {
    && |t.files| == |s.files| && |t.contents| == |s.contents|
    && (forall j {:trigger BlockAt(t, j)} :: IsSlot(s, j) ==>
          BlockAt(t, j) == if j == Slot(f, i) then b
                           else if j == Slot(f, INDIRECT) && NeedsIndirect(s, f, i) then n else BlockAt(s, j))
    && t.files[f].size == s.files[f].size
    && (forall g {:trigger t.files[g]} :: 0 <= g < |s.files| && g != f ==> t.files[g] == s.files[g])
    && (forall c {:trigger t.contents[c]} :: 0 <= c < |s.contents| && c != t.files[f].indirect ==>
          t.contents[c] == s.contents[c])
  }

  /** Slot k has been filled with b. */
  ghost predicate PutsLink(s: Disk, t: Disk, k: Slot, b: nat) {
    && k.f < |s.files| == |t.files| && |t.contents| == |s.contents|
    && (forall j {:trigger BlockAt(t, j)} :: IsSlot(s, j) ==> BlockAt(t, j) == if j == k then b else BlockAt(s, j))
    && (forall g {:trigger t.files[g]} :: 0 <= g < |s.files| && g != k.f ==> t.files[g] == s.files[g])
    && t.files[k.f].size == s.files[k.f].size
    && t.files[k.f].indirect == (if k.i == INDIRECT then b else s.files[k.f].indirect)
    && (forall c {:trigger t.contents[c]} :: 0 <= c < |s.contents| && c != t.files[k.f].indirect ==>
          t.contents[c] == s.contents[c])
  }

  lemma IndirectSlot(s: Disk, nextbno: nat, owner: map<nat, Slot>, pending: set<nat>, f: nat, i: nat)
    requires Built(s, nextbno, owner, pending) && f < |s.files| && i < NINDIRECT
    ensures BlockAt(s, Slot(f, INDIRECT)) == s.files[f].indirect
    ensures !NeedsIndirect(s, f, i) ==> CanPut(s, Slot(f, i))
    ensures CanPut(s, Slot(f, INDIRECT)) && |s.contents| == NBLOCK
  {
  }

  lemma IndirectAdded(s: Disk, m: Disk, f: nat, i: nat, n: nat)
    requires PutsLink(s, m, Slot(f, INDIRECT), n) && i < NINDIRECT && n > 0
    ensures f < |m.files| && !NeedsIndirect(m, f, i) && BlockAt(m, Slot(f, i)) == BlockAt(s, Slot(f, i))
  {
    hide BlockAt;
    assert IsSlot(s, Slot(f, i)) && IsSlot(m, Slot(f, i));
  }

  lemma AddsOne(s: Disk, t: Disk, f: nat, i: nat, b: nat, n: nat)
    requires PutsLink(s, t, Slot(f, i), b) && i < NINDIRECT && !NeedsIndirect(s, f, i)
    ensures AddsLink(s, t, f, i, b, n)
  {
    hide BlockAt;
  }

  lemma AddsTwo(s: Disk, m: Disk, t: Disk, f: nat, i: nat, b: nat, n: nat)
    requires PutsLink(s, m, Slot(f, INDIRECT), n) && PutsLink(m, t, Slot(f, i), b) && i < NINDIRECT
    requires f < |s.files| && NeedsIndirect(s, f, i)
    ensures AddsLink(s, t, f, i, b, n)
  {
    hide BlockAt;
    assert forall j :: IsSlot(s, j) <==> IsSlot(m, j);
  }

  /** Block number i of the file has been linked to what was the next block. */
  lemma LinkedMore(s: Disk, t: Disk, f: nat, first: nat, i: nat, n: nat)
    requires Linked(s, f, first, i) && i < NINDIRECT && NumberOf(first, i) < |s.contents|
    requires AddsLink(s, t, f, i, NumberOf(first, i), n) && first >= FIRST && (i == NDIRECT ==> n == first + NDIRECT + 1)
    ensures Linked(t, f, first, i + 1) && SlotsKept(s, t, f) && t.files[f].size == s.files[f].size
    ensures forall k {:trigger NumberOf(first, k)} :: 0 <= k <= i ==>
              NumberOf(first, k) < |t.contents| && t.contents[NumberOf(first, k)] == s.contents[NumberOf(first, k)]
  {
    assert BlockAt(s, Slot(f, INDIRECT)) == s.files[f].indirect;
    assert BlockAt(t, Slot(f, INDIRECT)) == t.files[f].indirect;
    assert NeedsIndirect(s, f, i) <==> i == NDIRECT;
    hide BlockAt, NeedsIndirect;
    assert Linked(t, f, first, i + 1);
    forall k | 0 <= k <= i ensures t.contents[NumberOf(first, k)] == s.contents[NumberOf(first, k)] {
      assert NumberOf(first, k) != t.files[f].indirect;
    }
  }

  /** A new file with as many blocks as its size asks for. */
  lemma WithinWritten(s: Disk, t: Disk, f: nat, first: nat, n: nat)
    requires AllWithin(s) && f == |s.files| && |t.files| == f + 1 && t.files[..f] == s.files
    requires Linked(t, f, first, n) && SlotsKept(s, t, f) && n <= BlocksFor(t.files[f].size)
    ensures AllWithin(t)
  {
    forall g: nat | g < |t.files| ensures WithinSize(t, g) {
      if g < f {
        assert WithinSize(s, g) && t.files[..f][g] == s.files[g];
        forall i | BlocksFor(t.files[g].size) <= i < NINDIRECT ensures BlockAt(t, Slot(g, i)) == 0 {
          assert BlockAt(t, Slot(g, i)) == BlockAt(s, Slot(g, i));
        }
      }
    }
  }

  lemma BuiltSize(s: Disk, nextbno: nat, owner: map<nat, Slot>, pending: set<nat>)
    requires Built(s, nextbno, owner, pending)
    ensures |s.contents| == NBLOCK
  {
  }

  /** Between a block's data and its link the file is as far as before. */
  lemma DataAdded(s: Disk, m: Disk, f: nat, first: nat, i: nat)
    requires Linked(s, f, first, i) && m.files == s.files && i < NINDIRECT && first >= FIRST
    requires forall j :: IsSlot(m, j) ==> BlockAt(m, j) == BlockAt(s, j)
    ensures Linked(m, f, first, i) && SlotsKept(s, m, f) && BlockAt(m, Slot(f, i)) == 0
    ensures NeedsIndirect(m, f, i) <==> i == NDIRECT
  {
    assert BlockAt(s, Slot(f, INDIRECT)) == s.files[f].indirect;
    hide BlockAt;
    assert IsSlot(m, Slot(f, INDIRECT)) && IsSlot(m, Slot(f, i));
  }

  lemma FilesKept(s: Disk, t: Disk, f: nat, i: nat, b: nat, n: nat)
    requires f < |s.files| && AddsLink(s, t, f, i, b, n)
    ensures |t.files| == |s.files| && t.files[f].size == s.files[f].size
    ensures forall g :: 0 <= g < |s.files| && g != f ==> t.files[g] == s.files[g]
  {
  }

  /** The bitmap plays no part while the image is built. */
  lemma BuiltAnyBitmap(s: Disk, nextbno: nat, owner: map<nat, Slot>, pending: set<nat>, bitmap: seq<Word32>)
    requires Built(s, nextbno, owner, pending) && |bitmap| == |s.bitmap|
    ensures Built(s.(bitmap := bitmap), nextbno, owner, pending)
  {
    assert forall j :: IsSlot(s, j) ==> BlockAt(s.(bitmap := bitmap), j) == BlockAt(s, j);
    hide BlockAt;
  }

  lemma WithinAnyBitmap(s: Disk, bitmap: seq<Word32>)
    requires AllWithin(s)
    ensures AllWithin(s.(bitmap := bitmap))
  {
    var t := s.(bitmap := bitmap);
    assert forall j :: IsSlot(s, j) ==> BlockAt(t, j) == BlockAt(s, j);
    hide BlockAt;
    forall g: nat | g < |t.files| ensures WithinSize(t, g) {
      assert WithinSize(s, g);
    }
  }

  /** Slots of the first f files read the same. */
  ghost predicate SlotsKept(s: Disk, t: Disk, f: nat) {
    f <= |s.files| && f <= |t.files| &&
    forall j: Slot {:trigger BlockAt(t, j)} :: j.f < f && j.i <= INDIRECT ==> BlockAt(t, j) == BlockAt(s, j)
  }

  lemma SlotsKeptOn(s: Disk, m: Disk, t: Disk, f: nat)
    requires SlotsKept(s, m, f) && SlotsKept(m, t, f)
    ensures SlotsKept(s, t, f)
  {
    hide BlockAt;
    forall j: Slot | j.f < f && j.i <= INDIRECT ensures BlockAt(t, j) == BlockAt(s, j) {
      assert BlockAt(m, j) == BlockAt(s, j);
    }
  }

  /** The file's first n blocks hold the data. */
  ghost predicate Stores(s: Disk, first: nat, blocks: seq<Block>, n: nat) {
    n <= |blocks| &&
    forall i {:trigger blocks[i]} :: 0 <= i < n ==> NumberOf(first, i) < |s.contents| && s.contents[NumberOf(first, i)] == blocks[i]
  }

  lemma StoresMore(s: Disk, t: Disk, first: nat, blocks: seq<Block>, i: nat)
    requires Stores(s, first, blocks, i) && i < |blocks| && |t.contents| == |s.contents|
    requires NumberOf(first, i) < |t.contents| && t.contents[NumberOf(first, i)] == blocks[i]
    requires forall k {:trigger NumberOf(first, k)} :: 0 <= k < i ==>
               t.contents[NumberOf(first, k)] == s.contents[NumberOf(first, k)]
    ensures Stores(t, first, blocks, i + 1)
  {
    forall k | 0 <= k < i ensures t.contents[NumberOf(first, k)] == blocks[k] {
      assert s.contents[NumberOf(first, k)] == blocks[k];
    }
  }
}
