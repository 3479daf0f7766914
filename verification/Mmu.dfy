/** Page-table words, address layout and the flat view of address spaces (include/mmu.h). */
module Mmu {

  /** A 32-bit word cut where the MMU cuts it: PTE_ADDR(w) >> 12 and the low twelve bits. The permission arguments of
      the system calls are such words too, for nothing masks their high bits. */
  datatype Word = Word(ppn: Ppn, low: bv12)

  type Ppn = x: nat | x < 0x10_0000

  const PTE_COW: bv12 := 0x001
  const PTE_LIBRARY: bv12 := 0x004
  const PTE_G: bv12 := 0x100
  const PTE_V: bv12 := 0x200
  const PTE_D: bv12 := 0x400

  const WORDS_PER_PAGE: nat := 1024
  const PDX_UTOP: nat := 509
  const VPN_UTOP: nat := 509 * 1024
  const PDX_UVPT: nat := 511
  const VPN_UVPT: nat := 511 * 1024
  const VPN_UTEMP: nat := 0x3fe
  const VPN_UCOW: nat := 0x3ff
  const VPN_USTACKTOP: nat := VPN_UTOP - 2

  const ZERO_WORD: Word := Word(0, 0)

  predicate Valid(w: Word) {
    w.low & PTE_V != 0
  }

  predicate Global(w: Word) {
    w.low & PTE_G != 0
  }

  function SetValid(w: Word): (r: Word)
    ensures Valid(r) && r.ppn == w.ppn && r.low & !PTE_V == w.low & !PTE_V
  {
    Word(w.ppn, w.low | PTE_V)
  }

  /** `page2pa(pp) | perm | PTE_V` for a permission within the low twelve bits. */
  function MakePte(ppn: Ppn, perm: bv12): (w: Word)
    ensures Valid(w) && w.ppn == ppn && w.low & !PTE_V == perm & !PTE_V
  {
    Word(ppn, perm | PTE_V)
  }

  /** The bitwise or of two n-bit numbers. */
  function Or(a: nat, b: nat, n: nat): (r: nat)
    requires a < Power(n) && b < Power(n)
    ensures r < Power(n)
  {
    if n == 0 then 0 else 2 * Or(a / 2, b / 2, n - 1) + if a % 2 == 1 || b % 2 == 1 then 1 else 0
  }

  function Power(n: nat): nat {
    if n == 0 then 1 else 2 * Power(n - 1)
  }

  /** Each of the n bits of b is a bit of a. */
  predicate Within(b: nat, a: nat, n: nat) {
    n == 0 || ((b % 2 == 1 ==> a % 2 == 1) && Within(b / 2, a / 2, n - 1))
  }

  predicate Bit(a: nat, i: nat) {
    if i == 0 then a % 2 == 1 else Bit(a / 2, i - 1)
  }

  lemma OrParts(a: nat, b: nat, n: nat)
    requires a < Power(n) && b < Power(n) && n > 0
    ensures a / 2 < Power(n - 1) && b / 2 < Power(n - 1) && Or(a, b, n) / 2 == Or(a / 2, b / 2, n - 1)
    ensures Or(a, b, n) % 2 == 1 <==> a % 2 == 1 || b % 2 == 1
  {
  }

  lemma {:induction false} OrBit(a: nat, b: nat, n: nat, i: nat)
    requires a < Power(n) && b < Power(n) && i < n
    ensures Bit(Or(a, b, n), i) <==> Bit(a, i) || Bit(b, i)
  {
    OrParts(a, b, n);
    hide Or, Power;
    if i > 0 {
      OrBit(a / 2, b / 2, n - 1, i - 1);
    }
  }

  lemma {:induction false} WithinBit(b: nat, a: nat, n: nat, i: nat)
    requires Within(b, a, n) && i < n
    ensures Bit(b, i) ==> Bit(a, i)
  {
    if i > 0 {
      WithinBit(b / 2, a / 2, n - 1, i - 1);
    }
  }

  lemma {:induction false} WithinBits(b: nat, a: nat, n: nat)
    requires forall i: nat :: i < n && Bit(b, i) ==> Bit(a, i)
    ensures Within(b, a, n)
  {
    if n > 0 {
      forall i: nat | i < n - 1 && Bit(b / 2, i) ensures Bit(a / 2, i) {
        assert Bit(b, i + 1);
        assert Bit(a, i + 1);
      }
      WithinBits(b / 2, a / 2, n - 1);
      assert Bit(b, 0) ==> Bit(a, 0);
    }
  }

  lemma {:induction false} OrExact(a: nat, b: nat, n: nat)
    requires a < Power(n) && b < Power(n)
    ensures Or(a, b, n) == a <==> Within(b, a, n)
  {
    if n > 0 {
      OrExact(a / 2, b / 2, n - 1);
      assert a == 2 * (a / 2) + a % 2;
    }
  }

  lemma {:induction false} WithinZero(a: nat, n: nat)
    ensures Within(0, a, n)
  {
    if n > 0 {
      WithinZero(a / 2, n - 1);
    }
  }

  lemma Power20()
    ensures Power(20) == 0x10_0000
  {
    assert Power(10) == 1024;
    assert Power(15) == 32 * Power(10);
    assert Power(20) == 32 * Power(15);
  }

  /** The word `page2pa(pp) | perm | PTE_V` written by page_insert, for any 32-bit perm. */
  function EntryWord(ppn: Ppn, perm: Word): (w: Word)
    ensures Valid(w)
  {
    Power20();
    Word(Or(ppn, perm.ppn, 20), perm.low | PTE_V)
  }

  /** The high bits of perm add nothing to the page number. */
  predicate Fits(perm: Word, ppn: nat) {
    Within(perm.ppn, ppn, 20)
  }

  /** The entry names the page exactly when perm's high 20 bits lie within the page number. */
  lemma EntryNames(ppn: Ppn, perm: Word)
    ensures EntryWord(ppn, perm).ppn == ppn <==> Fits(perm, ppn)
    ensures Fits(perm, ppn) ==> EntryWord(ppn, perm) == MakePte(ppn, perm.low)
    ensures perm.ppn == 0 ==> Fits(perm, ppn)
    ensures Global(EntryWord(ppn, perm)) <==> Global(perm)
  {
    Power20();
    OrExact(ppn, perm.ppn, 20);
    WithinZero(ppn, 20);
  }

  /** Bit for bit: what page_insert writes is the page number and the permission together, made valid. */
  lemma EntryBits(ppn: Ppn, perm: Word, i: nat)
    requires i < 20
    ensures Bit(EntryWord(ppn, perm).ppn, i) <==> Bit(ppn, i) || Bit(perm.ppn, i)
    ensures EntryWord(ppn, perm).low & !PTE_V == perm.low & !PTE_V
  {
    Power20();
    OrBit(ppn, perm.ppn, 20, i);
  }

  /** perm = 0x1000 on an even page: the entry names the page after it. */
  lemma StrayPermission(ppn: Ppn)
    requires ppn % 2 == 0
    ensures EntryWord(ppn, Word(1, 0)).ppn == ppn + 1
  {
    Power20();
    OrZero(ppn / 2, 19);
  }

  lemma {:induction false} OrZero(a: nat, n: nat)
    requires a < Power(n)
    ensures 0 < Power(n) && Or(a, 0, n) == a
  {
    if n > 0 {
      OrZero(a / 2, n - 1);
    }
  }

  /** The simple form that the two-level tables refine: (address space, virtual page) to PTE. */
  type FlatMap = map<(nat, nat), Word>

  /** The slots that name physical page p. */
  function Naming(flat: FlatMap, p: nat): set<(nat, nat)> {
    set k | k in flat && flat[k].ppn == p
  }

  /** Mapping one more slot to p adds exactly that slot to p's names and takes it from the page it held. */
  lemma NamingInsert(flat: FlatMap, k: (nat, nat), w: Word)
    ensures Naming(flat[k := w], w.ppn) == Naming(flat, w.ppn) + {k}
    ensures forall q :: q != w.ppn ==> Naming(flat[k := w], q) == Naming(flat, q) - {k}
  {
  }

  lemma NamingRemove(flat: FlatMap, k: (nat, nat))
    ensures forall q :: Naming(flat - {k}, q) == Naming(flat, q) - {k}
  {
  }
}
