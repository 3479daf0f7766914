/** The image builder's disk updated in place (tools/fsformat.c). */
module ImageBuilder {
  import opened Bits
  import opened DiskBlocks
  import opened DiskMap
  import opened DiskTruncate
  import opened DiskRuns
  import opened DiskImage

  datatype BlockType = BLOCK_FREE | BLOCK_BOOT | BLOCK_BMAP | BLOCK_SUPER | BLOCK_DATA | BLOCK_FILE | BLOCK_INDEX

  class Builder {
    var contents: seq<Block>
    var types: seq<BlockType>
    var bitmap: seq<Word32>   // block 2
    var nextbno: nat
    var files: seq<File>      // the entries of all directories, the root first
    ghost var owner: map<nat, Slot>
    ghost var pending: set<nat>

    ghost function State(): Disk
      reads this
    {
      Disk(NBLOCK, FIRST, bitmap, contents, seq(NBLOCK, _ => false), files)
    }

    ghost predicate Valid()
      reads this
    {
      Built(State(), nextbno, owner, pending) && |types| == NBLOCK
    }

    /** Between two files: no block waits for a slot, and every file keeps its blocks within its size. */
    ghost predicate Settled()
      reads this
    {
      Valid() && pending == {} && AllWithin(State())
    }

    /** init_disk: NBLOCK bits of the bitmap block set, the rest clear, and an empty root directory. */
    constructor ()
      ensures Settled() && nextbno == FIRST && owner == map[]
      ensures files == [NewFile(0)] && |bitmap| == NINDIRECT
      ensures forall b: nat :: IsFree(State(), b) <==> b < NBLOCK
    {
      contents := seq(NBLOCK, _ => ZeroBlock());
      types := seq(NBLOCK, b => if b == 0 then BLOCK_BOOT else if b == 1 then BLOCK_SUPER else if b == 2 then BLOCK_BMAP else BLOCK_FREE);
      bitmap := seq(NINDIRECT, w => seq(32, _ => w < NBLOCK / 32));
      nextbno := FIRST;
      files := [NewFile(0)];
      owner, pending := map[], {};
    }

    method NextBlock(t: BlockType) returns (b: nat)
      requires Valid() && nextbno < NBLOCK
      modifies this`types, this`nextbno, this`pending
      ensures Valid() && b == old(nextbno) && nextbno == b + 1
      ensures types == old(types)[b := t] && pending == old(pending) + {b}
    {
      HandOut(State(), nextbno, owner, pending);
      types := types[nextbno := t];
      b := nextbno;
      nextbno := nextbno + 1;
      pending := pending + {b};
    }

    /** save_block_link asserts nblk < 1024; slot nblk gets block b and nothing else changes but a new indirect block. */
    method SaveBlockLink(f: nat, nblk: nat, b: nat)
      requires Valid() && f < |files| && nblk < NINDIRECT && b in pending
      requires BlockAt(State(), Slot(f, nblk)) == 0
      requires NeedsIndirect(State(), f, nblk) ==> nextbno < NBLOCK
      modifies this
      ensures Valid() && |files| == old(|files|) && bitmap == old(bitmap) && pending == old(pending) - {b}
      ensures AddsLink(old(State()), State(), f, nblk, b, old(nextbno))
      ensures nextbno == old(nextbno) + if old(NeedsIndirect(State(), f, nblk)) then 1 else 0
    {
      ghost var s, n := State(), nextbno;
      IndirectSlot(s, nextbno, owner, pending, f, nblk);
      hide BlockAt, Built, PutsLink, AddsLink;
      if nblk >= NDIRECT && files[f].indirect == 0 {
        AddIndexBlock(f, b);
        ghost var m := State();
        IndirectAdded(s, m, f, nblk, n);
        IndirectSlot(m, nextbno, owner, pending, f, nblk);
        Link(Slot(f, nblk), b);
        AddsTwo(s, m, State(), f, nblk, b, n);
      } else {
        Link(Slot(f, nblk), b);
        AddsOne(s, State(), f, nblk, b, n);
      }
    }

    method AddIndexBlock(f: nat, ghost b: nat)
      requires Valid() && f < |files| && files[f].indirect == 0 && nextbno < NBLOCK && b in pending
      modifies this
      ensures Valid() && |files| == old(|files|) && bitmap == old(bitmap) && pending == old(pending) && b in pending
      ensures nextbno == old(nextbno) + 1 && PutsLink(old(State()), State(), Slot(f, INDIRECT), old(nextbno))
    {
      ghost var s := State();
      IndirectSlot(s, nextbno, owner, pending, f, 0);
      assert forall p: set<nat> :: nextbno !in p ==> p + {nextbno} - {nextbno} == p;
      var n := NextBlock(BLOCK_INDEX);
      hide BlockAt;
      Link(Slot(f, INDIRECT), n);
    }

    /** Store block number b in slot k. */
    method Link(k: Slot, b: nat)
      requires Valid() && b in pending && CanPut(State(), k) && BlockAt(State(), k) == 0
      requires k.i == INDIRECT ==> contents[b] == ZeroBlock()
      modifies this`contents, this`files, this`owner, this`pending
      ensures Valid() && |files| == old(|files|) && pending == old(pending) - {b}
      ensures PutsLink(old(State()), State(), k, b)
    {
      LinkBlock(State(), nextbno, owner, pending, k, b);
      ghost var t := Put(State(), k, b);
      hide Built, BlockAt;
      if k.i == INDIRECT {
        files := files[k.f := files[k.f].(indirect := b)];
      } else if k.i < NDIRECT {
        files := files[k.f := files[k.f].(direct := files[k.f].direct[k.i := b])];
      } else {
        var n := files[k.f].indirect;
        contents := contents[n := contents[n][k.i := b]];
      }
      assert State() == t;
      owner, pending := owner[b := k], pending - {b};
    }

    /** make_link_block: a new block for directory d at the slot its size points to. */
    method MakeLinkBlock(d: nat) returns (b: nat)
      requires Valid() && d < |files| && files[d].size / BY2BLK < NINDIRECT && nextbno + 2 <= NBLOCK
      requires BlockAt(State(), Slot(d, files[d].size / BY2BLK)) == 0
      modifies this
      ensures Valid() && pending == old(pending) && |files| == old(|files|) && bitmap == old(bitmap)
      ensures b == old(nextbno) && BlockAt(State(), Slot(d, old(files)[d].size / BY2BLK)) == b
      ensures files[d].size == old(files)[d].size + BY2BLK
      ensures forall j :: IsSlot(old(State()), j) && j != Slot(d, old(files)[d].size / BY2BLK) && j != Slot(d, INDIRECT) ==>
                BlockAt(State(), j) == BlockAt(old(State()), j)
      ensures old(Settled()) ==> Settled()
    {
      ghost var s := State();
      hide BlockAt, Built;
      b := LinkNext(d, files[d].size / BY2BLK);
      Resize(d, files[d].size + BY2BLK);
      if AllWithin(s) {
        WithinExtended(s, State(), d);
      }
    }

    method LinkNext(d: nat, nblk: nat) returns (b: nat)
      requires Valid() && d < |files| && nblk < NINDIRECT && nextbno + 2 <= NBLOCK
      requires BlockAt(State(), Slot(d, nblk)) == 0
      modifies this
      ensures Valid() && pending == old(pending) && |files| == old(|files|) && bitmap == old(bitmap)
      ensures b == old(nextbno) && BlockAt(State(), Slot(d, nblk)) == b
      ensures forall g :: 0 <= g < |files| ==> files[g].size == old(files)[g].size
      ensures forall j :: IsSlot(old(State()), j) && j != Slot(d, nblk) && j != Slot(d, INDIRECT) ==>
                BlockAt(State(), j) == BlockAt(old(State()), j)
    {
      ghost var s := State();
      assert forall p: set<nat> :: nextbno !in p ==> p + {nextbno} - {nextbno} == p;
      b := NextBlock(BLOCK_FILE);
      assert forall j :: IsSlot(s, j) ==> BlockAt(State(), j) == BlockAt(s, j);
      SaveBlockLink(d, nblk, b);
      hide BlockAt;
    }

    method Resize(f: nat, size: nat)
      requires Valid() && f < |files|
      modifies this`files
      ensures Valid() && files == old(files)[f := old(files)[f].(size := size)]
      ensures forall j :: IsSlot(old(State()), j) ==> BlockAt(State(), j) == BlockAt(old(State()), j)
    {
      ghost var s := State();
      files := files[f := files[f].(size := size)];
      assert forall j :: IsSlot(s, j) <==> IsSlot(State(), j);
      assert forall j :: IsSlot(s, j) ==> BlockAt(State(), j) == BlockAt(s, j);
      hide BlockAt;
    }

    /** write_file's blocks, one after the other: data into the next block, then its link. */
    method WriteFile(size: nat, blocks: seq<Block>) returns (f: nat)
      requires |blocks| == (size + BY2BLK - 1) / BY2BLK
      requires Valid() && |blocks| <= NINDIRECT && NumberOf(nextbno, |blocks|) <= NBLOCK
      modifies this
      ensures Valid() && pending == old(pending) && bitmap == old(bitmap)
      ensures f == old(|files|) && |files| == f + 1 && files[f].size == size && files[..f] == old(files)
      ensures Linked(State(), f, old(nextbno), |blocks|)
      ensures Stores(State(), old(nextbno), blocks, |blocks|)
      ensures SlotsKept(old(State()), State(), f)
      ensures nextbno == NumberOf(old(nextbno), |blocks|)
      ensures old(Settled()) ==> Settled()
    {
      ghost var s, first := State(), nextbno;
      f := AddEntry(size);
      assert Stores(State(), first, blocks, 0);
      assert |contents| == NBLOCK;
      hide Built, BlockAt, Linked, SlotsKept, Stores;
      for i := 0 to |blocks|
        invariant Valid() && pending == old(pending) && bitmap == old(bitmap)
        invariant |files| == f + 1 && files[f].size == size && files[..f] == old(files)
        invariant Linked(State(), f, first, i)
        invariant Stores(State(), first, blocks, i)
        invariant SlotsKept(s, State(), f)
        invariant nextbno == NumberOf(first, i)
      {
        ghost var m := State();
        AppendBlock(f, first, i, blocks[i]);
        StoresMore(m, State(), first, blocks, i);
        SlotsKeptOn(s, m, State(), f);
      }
      if AllWithin(s) {
        WithinWritten(s, State(), f, first, |blocks|);
      }
    }

    method AppendBlock(f: nat, ghost first: nat, i: nat, data: Block)
      requires Valid() && f < |files| && i < NINDIRECT && Linked(State(), f, first, i)
      requires nextbno == NumberOf(first, i) && NumberOf(first, i + 1) <= NBLOCK && first >= FIRST
      modifies this
      ensures Valid() && pending == old(pending) && bitmap == old(bitmap)
      ensures |files| == old(|files|) && files[f].size == old(files)[f].size
      ensures forall g :: 0 <= g < |files| && g != f ==> files[g] == old(files)[g]
      ensures Linked(State(), f, first, i + 1)
      ensures contents[NumberOf(first, i)] == data
      ensures forall k :: 0 <= k < i ==> contents[NumberOf(first, k)] == old(contents)[NumberOf(first, k)]
      ensures SlotsKept(old(State()), State(), f)
      ensures nextbno == NumberOf(first, i + 1)
    {
      ghost var s := State();
      hide AddsLink, BlockAt, Linked, SlotsKept, NeedsIndirect, Built;
      BuiltSize(s, nextbno, owner, pending);
      var b := NextData(data);
      ghost var m, pend, n := State(), pending, nextbno;
      DataAdded(s, m, f, first, i);
      BuiltSize(m, n, owner, pend);
      SaveBlockLink(f, i, b);
      LinkedMore(m, State(), f, first, i, n);
      FilesKept(m, State(), f, i, b, n);
      SlotsKeptOn(s, m, State(), f);
      ghost var t := State();
      assert t.contents == contents && m.contents == s.contents[b := data];
      forall k | 0 <= k < i ensures contents[NumberOf(first, k)] == old(contents)[NumberOf(first, k)] {
        assert t.contents[NumberOf(first, k)] == m.contents[NumberOf(first, k)];
      }
      assert t.contents[NumberOf(first, i)] == m.contents[b];
    }

    method NextData(data: Block) returns (b: nat)
      requires Valid() && nextbno < NBLOCK
      modifies this`types, this`nextbno, this`pending, this`contents
      ensures Valid() && b == old(nextbno) && nextbno == b + 1 && pending == old(pending) + {b} && b !in old(pending)
      ensures contents == old(contents)[b := data]
      ensures forall j :: IsSlot(State(), j) ==> BlockAt(State(), j) == BlockAt(old(State()), j)
    {
      ghost var s := State();
      b := NextBlock(BLOCK_DATA);
      assert forall j :: IsSlot(s, j) ==> BlockAt(State(), j) == BlockAt(s, j);
      FillBlock(State(), nextbno, owner, pending, b, data);
      contents := contents[b := data];
    }

    method AddEntry(size: nat) returns (f: nat)
      requires Valid()
      modifies this`files
      ensures Valid() && f == old(|files|) && files == old(files) + [NewFile(size)]
      ensures Linked(State(), f, nextbno, 0)
      ensures SlotsKept(old(State()), State(), f)
    {
      AddFile(State(), nextbno, owner, pending, size);
      f := |files|;
      files := files + [NewFile(size)];
    }

    /** flush_bitmap clears the bit of every block handed out. */
    method FlushBitmap()
      requires Valid() && (forall b: nat :: IsFree(State(), b) <==> b < NBLOCK)
      modifies this`bitmap
      ensures Valid() && Flushed(State(), nextbno)
      ensures old(Settled()) ==> Sound(State())
    {
      ghost var was := State();
      for i := 0 to nextbno
        invariant Valid()
        invariant forall b: nat :: IsFree(State(), b) <==> i <= b < NBLOCK
      {
        ghost var s := State();
        assert forall b: nat :: IsFree(s, b) <==> i <= b < NBLOCK;
        BuiltAnyBitmap(s, nextbno, owner, pending, PutBit(bitmap, i, false));
        bitmap := PutBit(bitmap, i, false);
        forall b: nat | b < NBLOCK ensures IsFree(State(), b) <==> i + 1 <= b {
          assert IsFree(s, b) <==> i <= b;
          PutBitAt(s.bitmap, i, false, b);
        }
      }
      if pending == {} && AllWithin(was) {
        WithinAnyBitmap(was, bitmap);
        ImageSound(State(), nextbno, owner);
      }
    }
  }
}
