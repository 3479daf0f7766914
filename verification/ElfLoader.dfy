/** Loading one program segment page by page (lib/elfloader.c and the callback load_icode_mapper of kern/env.c).
    System V ABI, "Program Header": the bytes between p_filesz and p_memsz read as zero. */
module ElfLoader {
  const BY2PG: nat := 4096
  const E_NO_MEM: int := 4

  type Bytes = b: seq<bv8> | |b| == BY2PG witness seq(BY2PG, _ => 0)

  datatype Perm = Perm(writable: bool)

  datatype Frame = Frame(bytes: Bytes, perm: Perm)

  datatype Source = Null | From(bytes: seq<bv8>)

  function Zeros(): (b: Bytes)
    ensures forall i :: 0 <= i < BY2PG ==> b[i] == 0
  {
    seq(BY2PG, _ => 0)
  }

  /** A fresh page with the source's bytes copied in at the offset. */
  function Filled(offset: nat, src: seq<bv8>): (b: Bytes)
    requires offset + |src| <= BY2PG
    ensures forall i :: 0 <= i < BY2PG ==> b[i] == if offset <= i < offset + |src| then src[i - offset] else 0
  {
    Zeros()[..offset] + src + Zeros()[offset + |src|..]
  }

  /** The byte the segment puts at address a. */
  function Want(va: nat, bin: seq<bv8>, a: nat): bv8 {
    if va <= a < va + |bin| then bin[a - va] else 0
  }

  predicate Reads(pages: map<nat, Frame>, perm: Perm, a: nat, b: bv8) {
    a / BY2PG in pages && pages[a / BY2PG].bytes[a % BY2PG] == b && pages[a / BY2PG].perm == perm
  }

  /** Addresses lo to hi-1 hold the segment's bytes. */
  ghost predicate Right(pages: map<nat, Frame>, perm: Perm, va: nat, bin: seq<bv8>, hi: nat) {
    forall a {:trigger Reads(pages, perm, a, Want(va, bin, a))} :: va <= a < hi ==> Reads(pages, perm, a, Want(va, bin, a))
  }

  function Max(a: nat, b: nat): nat {
    if a < b then b else a
  }

  function Min(a: nat, b: nat): nat {
    if a < b then a else b
  }

  /** The segment the program header describes: file bytes, then zeros up to memsz, all mapped. */
  ghost predicate Image(pages: map<nat, Frame>, perm: Perm, va: nat, bin: seq<bv8>, memsz: nat) {
    Right(pages, perm, va, bin, va + Max(|bin|, memsz))
  }

  /** When the zero-filling loop does not come back to the segment's first page. */
  predicate Safe(va: nat, filesz: nat, memsz: nat) {
    va % BY2PG == 0 || filesz >= BY2PG - va % BY2PG || memsz <= filesz
  }

  lemma MapNext(pages: map<nat, Frame>, perm: Perm, va: nat, bin: seq<bv8>, i: nat, offset: nat, src: seq<bv8>)
    requires Right(pages, perm, va, bin, va + i) && offset + |src| <= BY2PG
    requires offset == (va + i) % BY2PG && (offset == 0 || i == 0)
    requires src == if i >= |bin| then [] else bin[i..i + Min(|bin| - i, BY2PG - offset)]
    ensures Right(pages[(va + i) / BY2PG := Frame(Filled(offset, src), perm)], perm, va, bin, va + i + (BY2PG - offset))
  {
    var p := (va + i) / BY2PG;
    var after := pages[p := Frame(Filled(offset, src), perm)];
    forall a | va <= a < va + i + (BY2PG - offset) ensures Reads(after, perm, a, Want(va, bin, a)) {
      if a < va + i {
        assert Reads(pages, perm, a, Want(va, bin, a)) && a / BY2PG != p;
      } else {
        assert a / BY2PG == p;
      }
    }
  }

  lemma RightLess(pages: map<nat, Frame>, perm: Perm, va: nat, bin: seq<bv8>, hi: nat, lo: nat)
    requires Right(pages, perm, va, bin, hi) && lo <= hi
    ensures Right(pages, perm, va, bin, lo)
  {
  }

  lemma RightImage(pages: map<nat, Frame>, perm: Perm, va: nat, bin: seq<bv8>, memsz: nat)
    ensures Image(pages, perm, va, bin, memsz) <==> Right(pages, perm, va, bin, va + Max(|bin|, memsz))
  {
  }

  lemma NothingToCopy()
    ensures Filled(0, []) == Zeros()
  {
  }

  lemma RightNothing(pages: map<nat, Frame>, perm: Perm, va: nat, bin: seq<bv8>)
    ensures Right(pages, perm, va, bin, va)
  {
  }

  /** Pages that the segment does not reach are as they were. */
  ghost predicate Outside(was: map<nat, Frame>, now: map<nat, Frame>, va: nat, len: nat) {
    forall p {:trigger p in now} {:trigger now[p]} :: p < va / BY2PG || p * BY2PG >= va + Max(1, len) ==>
      (p in now <==> p in was) && (p in now ==> now[p] == was[p])
  }

  lemma OutsideSame(pages: map<nat, Frame>, va: nat, len: nat)
    ensures Outside(pages, pages, va, len)
  {
  }

  lemma OutsideMap(was: map<nat, Frame>, now: map<nat, Frame>, va: nat, len: nat, a: nat, frame: Frame)
    requires Outside(was, now, va, len) && va <= a < va + Max(1, len)
    ensures Outside(was, now[a / BY2PG := frame], va, len)
  {
  }

  predicate AllZero(bin: seq<bv8>) {
    forall k :: 0 <= k < |bin| ==> bin[k] == 0
  }

  /** How many pages the zero-filling loop maps when it starts right after the file bytes. */
  function Blanks(filesz: nat, memsz: nat): nat
    requires filesz < memsz
  {
    (memsz - filesz - 1) / BY2PG + 1
  }

  /** Pages p to p+n-1 are blank, and the others are as they were. */
  ghost predicate Blank(was: map<nat, Frame>, now: map<nat, Frame>, perm: Perm, p: nat, n: nat) {
    forall q: nat {:trigger now[q]} {:trigger q in now} ::
      if p <= q < p + n then q in now && now[q] == Frame(Zeros(), perm)
      else (q in now <==> q in was) && (q in now ==> now[q] == was[q])
  }

  /** Where the loop that starts on the first page stops mapping. */
  function BlankEnd(va: nat, filesz: nat, memsz: nat): nat
    requires filesz < memsz
  {
    (va / BY2PG + Blanks(filesz, memsz)) * BY2PG
  }

  /** When elf_load_seg loads the segment right: the loop keeps off the first page, or there is nothing but zeros to
      load and the page that the loop may stop short of holds them already. */
  ghost predicate Loads(was: map<nat, Frame>, perm: Perm, va: nat, bin: seq<bv8>, memsz: nat) {
    Safe(va, |bin|, memsz) ||
    (AllZero(bin) && forall a {:trigger Reads(was, perm, a, 0)} ::
       BlankEnd(va, |bin|, memsz) <= a < va + memsz ==> Reads(was, perm, a, 0))
  }

  /** Once the first page has been replaced by zeros, a file byte other than zero is lost. */
  lemma NotRight(was: map<nat, Frame>, pages: map<nat, Frame>, perm: Perm, va: nat, bin: seq<bv8>, hi: nat, n: nat)
    requires Blank(was, pages, perm, va / BY2PG, n) && n > 0 && va % BY2PG + |bin| < BY2PG && va + |bin| <= hi && !AllZero(bin)
    ensures !Right(pages, perm, va, bin, hi)
  {
    var k :| 0 <= k < |bin| && bin[k] != 0;
    assert (va + k) / BY2PG == va / BY2PG;
    assert pages[va / BY2PG].bytes == Zeros();
    assert !Reads(pages, perm, va + k, Want(va, bin, va + k));
  }

  /** After the unsafe loop the image is right exactly under the condition of `Loads`. */
  lemma BlankExact(was: map<nat, Frame>, pages: map<nat, Frame>, perm: Perm, va: nat, bin: seq<bv8>, memsz: nat)
    requires !Safe(va, |bin|, memsz) && Blank(was, pages, perm, va / BY2PG, Blanks(|bin|, memsz))
    ensures Image(pages, perm, va, bin, memsz) <==> Loads(was, perm, va, bin, memsz)
  {
    var lo := BlankEnd(va, |bin|, memsz);
    if AllZero(bin) {
      forall a | va <= a < va + memsz
        ensures Want(va, bin, a) == 0
        ensures a < lo ==> Reads(pages, perm, a, 0)
        ensures a >= lo ==> Reads(pages, perm, a, 0) == Reads(was, perm, a, 0)
      {
        assert va / BY2PG <= a / BY2PG;
        assert a < lo <==> a / BY2PG < va / BY2PG + Blanks(|bin|, memsz);
        assert a / BY2PG in pages ==> pages[a / BY2PG] == pages[a / BY2PG];
      }
      assert va < lo;
      forall a | lo <= a < va + memsz ensures Reads(pages, perm, a, Want(va, bin, a)) == Reads(was, perm, a, 0) {
        assert Want(va, bin, a) == 0;
      }
    } else {
      NotRight(was, pages, perm, va, bin, va + Max(|bin|, memsz), Blanks(|bin|, memsz));
    }
  }

  /** With a non-zero file byte only the safe case is right. */
  lemma LoadsNonZero(was: map<nat, Frame>, perm: Perm, va: nat, bin: seq<bv8>, memsz: nat)
    requires !AllZero(bin)
    ensures Loads(was, perm, va, bin, memsz) <==> Safe(va, |bin|, memsz)
  {
  }

  /** Over pages not mapped before, zeros alone are loaded right exactly when the loop, which counts from the end of the
      file bytes, gets to the segment's last page. */
  lemma LoadsUnmapped(was: map<nat, Frame>, perm: Perm, va: nat, bin: seq<bv8>, memsz: nat)
    requires AllZero(bin) && !Safe(va, |bin|, memsz)
    requires forall a :: va <= a < va + memsz ==> a / BY2PG !in was
    ensures Loads(was, perm, va, bin, memsz) <==> (va % BY2PG + memsz - 1) / BY2PG == (memsz - |bin| - 1) / BY2PG
  {
    var lo, last := BlankEnd(va, |bin|, memsz), va + memsz - 1;
    assert last / BY2PG == va / BY2PG + (va % BY2PG + memsz - 1) / BY2PG;
    assert lo == (va / BY2PG + Blanks(|bin|, memsz)) * BY2PG;
    assert lo <= last <==> lo / BY2PG <= last / BY2PG;
    if lo <= last {
      assert !Reads(was, perm, last, 0);
    }
  }

  /** Uninitialized data of one page's size that does not start on a page boundary: the second page stays unmapped. */
  lemma BssFallsShort(perm: Perm)
    ensures !Loads(map[], perm, 100, [], BY2PG) && Loads(map[], perm, 100, [], 10) && !Safe(100, 0, 10)
  {
    LoadsUnmapped(map[], perm, 100, [], BY2PG);
    LoadsUnmapped(map[], perm, 100, [], 10);
  }

  lemma SafeLoads(was: map<nat, Frame>, perm: Perm, va: nat, bin: seq<bv8>, memsz: nat)
    requires Safe(va, |bin|, memsz)
    ensures Loads(was, perm, va, bin, memsz)
  {
  }

  lemma BlankNext(was: map<nat, Frame>, now: map<nat, Frame>, perm: Perm, va: nat, filesz: nat, n: nat)
    requires va % BY2PG + filesz < BY2PG
    requires if n > 0 then Blank(was, now, perm, va / BY2PG, n)
             else va / BY2PG in now && now == was[va / BY2PG := now[va / BY2PG]]
    ensures Blank(was, now[(va + (filesz + n * BY2PG)) / BY2PG := Frame(Zeros(), perm)], perm, va / BY2PG, n + 1)
  {
    assert (va + (filesz + n * BY2PG)) / BY2PG == va / BY2PG + n;
    hide Zeros;
  }

  /** Pages that loading takes: those that the segment touches; or, when the zero-filling loop starts on the first page,
      that page and those of the loop. */
  function PagesUsed(va: nat, filesz: nat, memsz: nat): nat {
    if Safe(va, filesz, memsz) then (va % BY2PG + Max(filesz, memsz) + BY2PG - 1) / BY2PG
    else 1 + Blanks(filesz, memsz)
  }

  /** m pages are mapped, up to position i of the segment. */
  predicate Mapped(va: nat, i: nat, m: nat) {
    va % BY2PG + i == m * BY2PG
  }

  lemma CountSafe(va: nat, filesz: nat, memsz: nat, i: nat, m: nat)
    requires Safe(va, filesz, memsz) && Mapped(va, i, m)
    ensures i < Max(filesz, memsz) ==> m < PagesUsed(va, filesz, memsz)
    ensures Max(filesz, memsz) <= i < Max(filesz, memsz) + BY2PG ==> m == PagesUsed(va, filesz, memsz)
  {
  }

  /** m pages are mapped when the zero-filling loop stands at position i. */
  ghost predicate Counted(va: nat, filesz: nat, memsz: nat, i: nat, m: nat) {
    if Safe(va, filesz, memsz) then
      (Mapped(va, i, m) && i < Max(filesz, memsz) + BY2PG) || (i >= memsz && m == PagesUsed(va, filesz, memsz))
    else m >= 1 && i == filesz + (m - 1) * BY2PG && i < memsz + BY2PG
  }

  /** m pages are mapped when the copying loop stands at position i. */
  ghost predicate Started(va: nat, filesz: nat, memsz: nat, i: nat, m: nat) {
    if Safe(va, filesz, memsz) && Mapped(va, i, m) then i < Max(filesz, memsz) + BY2PG
    else i == filesz && m == 1 && va % BY2PG != 0 && va % BY2PG + i < BY2PG
  }

  lemma StartCount(va: nat, filesz: nat, memsz: nat)
    ensures if va % BY2PG == 0 then Started(va, filesz, memsz, 0, 0)
            else Started(va, filesz, memsz, Min(filesz, BY2PG - va % BY2PG), 1) && PagesUsed(va, filesz, memsz) > 0
  {
  }

  lemma StartNext(va: nat, filesz: nat, memsz: nat, i: nat, m: nat)
    requires Started(va, filesz, memsz, i, m) && i < filesz
    ensures m < PagesUsed(va, filesz, memsz) && Started(va, filesz, memsz, i + BY2PG, m + 1)
  {
    CountSafe(va, filesz, memsz, i, m);
  }

  lemma CountRest(va: nat, filesz: nat, memsz: nat, i: nat, m: nat)
    requires i >= filesz && Started(va, filesz, memsz, i, m)
    ensures Counted(va, filesz, memsz, i, m)
  {
  }

  lemma CountNext(va: nat, filesz: nat, memsz: nat, i: nat, m: nat)
    requires Counted(va, filesz, memsz, i, m) && filesz <= i < memsz
    ensures m < PagesUsed(va, filesz, memsz) && Counted(va, filesz, memsz, i + BY2PG, m + 1)
  {
    if Safe(va, filesz, memsz) {
      CountSafe(va, filesz, memsz, i, m);
    }
  }

  lemma CountDone(va: nat, filesz: nat, memsz: nat, i: nat, m: nat)
    requires Counted(va, filesz, memsz, i, m) && i >= memsz && i >= filesz
    ensures m == PagesUsed(va, filesz, memsz)
  {
    if Safe(va, filesz, memsz) && Mapped(va, i, m) {
      CountSafe(va, filesz, memsz, i, m);
    }
  }

  /** An environment's pages; `memory` counts what the kernel can still hand out. */
  class Space {
    var pages: map<nat, Frame>
    var memory: nat

    /** load_icode_mapper: a fresh page at va, with the source copied in. */
    method MapPage(va: nat, offset: nat, perm: Perm, src: Source) returns (r: int)
      requires src.From? ==> offset + |src.bytes| <= BY2PG
      modifies this
      ensures r == 0 || r == -E_NO_MEM
      ensures r != 0 ==> pages == old(pages)
      ensures r == 0 ==> pages == old(pages)[va / BY2PG := Frame(if src.From? then Filled(offset, src.bytes) else Zeros(), perm)]
      ensures r == 0 <==> old(memory) > 0
      ensures memory == if r == 0 then old(memory) - 1 else old(memory)
    {
      if memory == 0 {
        return -E_NO_MEM;
      }
      memory := memory - 1;
      pages := pages[va / BY2PG := Frame(if src.From? then Filled(offset, src.bytes) else Zeros(), perm)];
      return 0;
    }

    method LoadSeg(va: nat, bin: seq<bv8>, memsz: nat, perm: Perm) returns (r: int)
      modifies this
      ensures r == 0 || r == -E_NO_MEM
      ensures r == 0 && Safe(va, |bin|, memsz) ==> Image(pages, perm, va, bin, memsz)
      ensures r == 0 ==> (Image(pages, perm, va, bin, memsz) <==> Loads(old(pages), perm, va, bin, memsz))
      ensures Outside(old(pages), pages, va, Max(|bin|, memsz))
      ensures r == 0 <==> old(memory) >= PagesUsed(va, |bin|, memsz)
      ensures r == 0 ==> memory == old(memory) - PagesUsed(va, |bin|, memsz)
    {
      hide Right, Outside, Image, Blank, Loads, PagesUsed, Counted, Started;
      ghost var was, len := pages, Max(|bin|, memsz);
      var i;
      ghost var m;
      r, i, m := CopyFile(va, bin, memsz, perm);
      if r != 0 {
        return;
      }
      CountRest(va, |bin|, memsz, i, m);
      r, i := ZeroFill(va, i, bin, memsz, perm, was, m);
      if r != 0 {
        return;
      }
      if Safe(va, |bin|, memsz) {
        RightLess(pages, perm, va, bin, va + i, va + len);
        SafeLoads(was, perm, va, bin, memsz);
      } else {
        BlankExact(was, pages, perm, va, bin, memsz);
      }
      RightImage(pages, perm, va, bin, memsz);
    }

    /** elf_load_seg's first step: the file's bytes; m counts the pages. */
    method CopyFile(va: nat, bin: seq<bv8>, memsz: nat, perm: Perm) returns (r: int, i: nat, ghost m: nat)
      modifies this
      ensures (r == 0 || r == -E_NO_MEM) && Outside(old(pages), pages, va, Max(|bin|, memsz))
      ensures r != 0 ==> old(memory) < PagesUsed(va, |bin|, memsz)
      ensures r == 0 ==>
        && memory + m == old(memory) && i >= |bin| && Started(va, |bin|, memsz, i, m) && Right(pages, perm, va, bin, va + i)
        && (Safe(va, |bin|, memsz) ==> (va + i) % BY2PG == 0 || i >= memsz)
        && (!Safe(va, |bin|, memsz) ==>
              va / BY2PG in pages && i == |bin| && pages == old(pages)[va / BY2PG := pages[va / BY2PG]])
    {
      hide Right, Filled, Zeros, Outside, PagesUsed, Started, Reads, Want, Mapped;
      ghost var was, len, safe := pages, Max(|bin|, memsz), Safe(va, |bin|, memsz);
      r, i, m := 0, 0, 0;
      var offset := va % BY2PG;
      RightNothing(pages, perm, va, bin);
      OutsideSame(pages, va, len);
      StartCount(va, |bin|, memsz);
      if offset != 0 {
        var n := Min(|bin|, BY2PG - offset);
        MapNext(pages, perm, va, bin, 0, offset, bin[..n]);
        OutsideMap(was, pages, va, len, va, Frame(Filled(offset, bin[..n]), perm));
        r := MapPage(va, offset, perm, From(bin[..n]));
        if r != 0 {
          return;
        }
        RightLess(pages, perm, va, bin, va + (BY2PG - offset), va + n);
        i, m := n, 1;
      }
      while i < |bin|
        invariant r == 0 && memory + m == old(memory) && Started(va, |bin|, memsz, i, m)
        invariant (va + i) % BY2PG == 0 || i >= |bin|
        invariant Right(pages, perm, va, bin, va + i)
        invariant safe ==> (va + i) % BY2PG == 0 || i >= memsz
        invariant !safe ==> va / BY2PG in pages && i == |bin| && pages == was[va / BY2PG := pages[va / BY2PG]]
        invariant Outside(was, pages, va, len)
      {
        var n := Min(|bin| - i, BY2PG);
        StartNext(va, |bin|, memsz, i, m);
        MapNext(pages, perm, va, bin, i, 0, bin[i..i + n]);
        OutsideMap(was, pages, va, len, va + i, Frame(Filled(0, bin[i..i + n]), perm));
        r := MapPage(va + i, 0, perm, From(bin[i..i + n]));
        if r != 0 {
          return;
        }
        i, m := i + BY2PG, m + 1;
      }
    }

    /** elf_load_seg's second step, from position i on. */
    method ZeroFill(va: nat, start: nat, ghost bin: seq<bv8>, memsz: nat, perm: Perm, ghost was: map<nat, Frame>, ghost before: nat)
      returns (r: int, i: nat)
      requires start >= |bin| && Outside(was, pages, va, Max(|bin|, memsz)) && Right(pages, perm, va, bin, va + start)
      requires Safe(va, |bin|, memsz) ==> (va + start) % BY2PG == 0 || start >= memsz
      requires !Safe(va, |bin|, memsz) ==> va / BY2PG in pages && start == |bin| && pages == was[va / BY2PG := pages[va / BY2PG]]
      requires Counted(va, |bin|, memsz, start, before)
      modifies this
      ensures r == 0 <==> old(memory) + before >= PagesUsed(va, |bin|, memsz)
      ensures r == 0 ==> memory == old(memory) + before - PagesUsed(va, |bin|, memsz)
      ensures (r == 0 || r == -E_NO_MEM) && Outside(was, pages, va, Max(|bin|, memsz))
      ensures r == 0 ==> i >= memsz && i >= |bin|
      ensures r == 0 && Safe(va, |bin|, memsz) ==> Right(pages, perm, va, bin, va + i)
      ensures r == 0 && !Safe(va, |bin|, memsz) ==> Blank(was, pages, perm, va / BY2PG, Blanks(|bin|, memsz))
    {
      hide Right, Filled, Zeros, Outside, Blank, PagesUsed, Counted;
      ghost var n: nat := 0;
      ghost var len, safe := Max(|bin|, memsz), Safe(va, |bin|, memsz);
      i := start;
      while i < memsz
        invariant i >= |bin| && memory + n == old(memory) && Counted(va, |bin|, memsz, i, before + n)
        invariant safe ==> Right(pages, perm, va, bin, va + i) && ((va + i) % BY2PG == 0 || i >= memsz)
        invariant !safe ==> i == |bin| + n * BY2PG && i < memsz + BY2PG
        invariant !safe && n > 0 ==> Blank(was, pages, perm, va / BY2PG, n)
        invariant !safe && n == 0 ==> va / BY2PG in pages && pages == was[va / BY2PG := pages[va / BY2PG]]
        invariant Outside(was, pages, va, len)
      {
        NothingToCopy();
        if safe {
          MapNext(pages, perm, va, bin, i, 0, []);
        }
        OutsideMap(was, pages, va, len, va + i, Frame(Zeros(), perm));
        ghost var held := pages;
        CountNext(va, |bin|, memsz, i, before + n);
        r := MapPage(va + i, 0, perm, Null);
        if r != 0 {
          return;
        }
        if !safe {
          BlankNext(was, held, perm, va, |bin|, n);
        }
        i, n := i + BY2PG, n + 1;
      }
      CountDone(va, |bin|, memsz, i, before + n);
      r := 0;
    }
  }
}
