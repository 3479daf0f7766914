/** Physical pages and the two-level page tables kept inside them (kern/pmap.c). */
module PageTables {
  import opened Mmu

  /** What a physical page is used for. A table page records the one directory slot that names it. */
  datatype Role = Free | Held | Reserved | Dir | Table(dir: nat, pdx: nat) | User

  type Pages = seq<seq<Word>>

  predicate Shaped(pages: Pages, role: seq<Role>) {
    && |pages| == |role| <= 0x10_0000
    && forall p :: 0 <= p < |pages| ==> |pages[p]| == WORDS_PER_PAGE
  }

  /** Valid user entries of a directory name table pages, and those point back at the entry. */
  ghost predicate DirsOk(pages: Pages, role: seq<Role>)
    requires Shaped(pages, role)
  {
    && (forall d, i {:trigger pages[d][i]} :: 0 <= d < |role| && role[d] == Dir && 0 <= i < PDX_UTOP && Valid(pages[d][i]) ==>
          pages[d][i].ppn < |role| && role[pages[d][i].ppn] == Table(d, i))
    && (forall t {:trigger role[t].pdx} :: 0 <= t < |role| && role[t].Table? ==>
          && role[t].dir < |role| && role[role[t].dir] == Dir && role[t].pdx < PDX_UTOP
          && Valid(pages[role[t].dir][role[t].pdx]) && pages[role[t].dir][role[t].pdx].ppn == t)
  }

  /** Valid entries of a table page name user pages only. */
  ghost predicate TablesOk(pages: Pages, role: seq<Role>)
    requires Shaped(pages, role)
  {
    forall t, j {:trigger pages[t][j]} :: 0 <= t < |role| && role[t].Table? && 0 <= j < WORDS_PER_PAGE && Valid(pages[t][j]) ==>
      pages[t][j].ppn < |role| && role[pages[t][j].ppn] == User
  }

  ghost predicate Layout(pages: Pages, role: seq<Role>) {
    Shaped(pages, role) && DirsOk(pages, role) && TablesOk(pages, role)
  }

  predicate IsDir(role: seq<Role>, d: nat) {
    d < |role| && role[d] == Dir
  }

  /** The walk `pgdir[PDX(va)]` then `table[PTX(va)]` finds a valid entry for virtual page v. */
  predicate Mapped(pages: Pages, d: nat, v: nat) {
    && d < |pages| && v / 1024 < |pages[d]| && Valid(pages[d][v / 1024])
    && var t := pages[d][v / 1024].ppn;
       t < |pages| && v % 1024 < |pages[t]| && Valid(pages[t][v % 1024])
  }

  function PteOf(pages: Pages, d: nat, v: nat): Word
    requires Mapped(pages, d, v)
  {
    pages[pages[d][v / 1024].ppn][v % 1024]
  }

  ghost function MappedSlots(pages: Pages, role: seq<Role>): set<(nat, nat)> {
    set d: nat, v: nat | d < |role| && role[d] == Dir && v < VPN_UTOP && Mapped(pages, d, v) :: (d, v)
  }

  /** The flat map that the tables of all address spaces stand for, below UTOP. */
  ghost function Flat(pages: Pages, role: seq<Role>): FlatMap {
    map k | k in MappedSlots(pages, role) :: PteOf(pages, k.0, k.1)
  }

  lemma FlatAt(pages: Pages, role: seq<Role>, k: (nat, nat))
    ensures k in Flat(pages, role) <==> IsDir(role, k.0) && k.1 < VPN_UTOP && Mapped(pages, k.0, k.1)
    ensures k in Flat(pages, role) ==> Flat(pages, role)[k] == PteOf(pages, k.0, k.1)
  {
    assert k == (k.0, k.1);
  }

  /** Two states whose walks agree slot by slot stand for the same flat map. */
  lemma FlatSame(pages: Pages, role: seq<Role>, pages': Pages, role': seq<Role>)
    requires forall d: nat, v: nat :: v < VPN_UTOP ==>
      (IsDir(role, d) && Mapped(pages, d, v) <==> IsDir(role', d) && Mapped(pages', d, v))
    requires forall d: nat, v: nat :: v < VPN_UTOP && IsDir(role, d) && Mapped(pages, d, v) && Mapped(pages', d, v) ==>
      PteOf(pages, d, v) == PteOf(pages', d, v)
    ensures Flat(pages', role') == Flat(pages, role)
  {
    forall k: (nat, nat)
      ensures k in Flat(pages, role) <==> k in Flat(pages', role')
      ensures k in Flat(pages, role) ==> Flat(pages, role)[k] == Flat(pages', role')[k]
    {
      FlatAt(pages, role, k);
      FlatAt(pages', role', k);
    }
  }

  /** The table page that directory entry (d, i) names. */
  function TableOf(pages: Pages, d: nat, i: nat): (t: nat)
    requires d < |pages| && i < |pages[d]|
  {
    pages[d][i].ppn
  }

  function SetWord(pages: Pages, p: nat, i: nat, w: Word): (pages': Pages)
    requires p < |pages| && i < |pages[p]|
  {
    pages[p := pages[p][i := w]]
  }

  lemma WalkAfterWrite(pages: Pages, role: seq<Role>, d: nat, v: nat, w: Word, d': nat, v': nat)
    requires Layout(pages, role) && IsDir(role, d) && v < VPN_UTOP && Valid(pages[d][v / 1024])
    requires IsDir(role, d') && v' < VPN_UTOP
    ensures TableOf(pages, d, v / 1024) < |pages|
    ensures var after := SetWord(pages, TableOf(pages, d, v / 1024), v % 1024, w);
            if (d', v') == (d, v) then
              Mapped(after, d, v) == Valid(w) && (Valid(w) ==> PteOf(after, d, v) == w)
            else
              Mapped(after, d', v') == Mapped(pages, d', v') &&
              (Mapped(pages, d', v') ==> PteOf(after, d', v') == PteOf(pages, d', v'))
  {
    var t := TableOf(pages, d, v / 1024);
    assert role[t] == Table(d, v / 1024);
    var after := SetWord(pages, t, v % 1024, w);
    assert after[d'] == pages[d'] && after[d] == pages[d];
    if Valid(pages[d'][v' / 1024]) {
      assert role[TableOf(pages, d', v' / 1024)] == Table(d', v' / 1024);
    }
  }

  function Updated(flat: FlatMap, k: (nat, nat), w: Word): FlatMap {
    if Valid(w) then flat[k := w] else flat - {k}
  }

  lemma FlatAfterWriteAt(pages: Pages, role: seq<Role>, d: nat, v: nat, w: Word, k: (nat, nat))
    requires Layout(pages, role) && IsDir(role, d) && v < VPN_UTOP && Valid(pages[d][v / 1024])
    requires TableOf(pages, d, v / 1024) < |pages|
    ensures var flat := Flat(SetWord(pages, TableOf(pages, d, v / 1024), v % 1024, w), role);
            var flat' := Updated(Flat(pages, role), (d, v), w);
            (k in flat <==> k in flat') && (k in flat ==> flat[k] == flat'[k])
  {
    FlatAt(pages, role, k);
    FlatAt(SetWord(pages, TableOf(pages, d, v / 1024), v % 1024, w), role, k);
    if IsDir(role, k.0) && k.1 < VPN_UTOP {
      WalkAfterWrite(pages, role, d, v, w, k.0, k.1);
    }
  }

  /** Writing one page-table word changes the flat map at exactly one slot: tables never alias. */
  lemma WritePte(pages: Pages, role: seq<Role>, d: nat, v: nat, w: Word)
    requires Layout(pages, role) && IsDir(role, d) && v < VPN_UTOP && Valid(pages[d][v / 1024])
    ensures TableOf(pages, d, v / 1024) < |pages|
    ensures Flat(SetWord(pages, TableOf(pages, d, v / 1024), v % 1024, w), role) ==
            Updated(Flat(pages, role), (d, v), w)
  {
    forall k: (nat, nat)
      ensures var flat := Flat(SetWord(pages, TableOf(pages, d, v / 1024), v % 1024, w), role);
              var flat' := Updated(Flat(pages, role), (d, v), w);
              (k in flat <==> k in flat') && (k in flat ==> flat[k] == flat'[k])
    {
      FlatAfterWriteAt(pages, role, d, v, w, k);
    }
  }

  /** The page pool: page contents, pp_ref, the free list head first, and each page's use. */
  datatype Pool = Pool(pages: Pages, refs: seq<nat>, free: seq<nat>, role: seq<Role>)

  ghost function FlatOf(m: Pool): FlatMap {
    Flat(m.pages, m.role)
  }

  /** pp_ref is the number of table entries (or the owning env, for a directory) that name the page. */
  ghost predicate RefOk(m: Pool, flat: FlatMap, p: nat)
    requires p < |m.refs| && p < |m.role|
  {
    match m.role[p]
    case Free => m.refs[p] == 0
    case Held => m.refs[p] == 0
    case Dir => m.refs[p] == 1
    case Table(_, _) => m.refs[p] == 1
    case User => m.refs[p] == |Naming(flat, p)| && m.refs[p] > 0
    case Reserved => true
  }

  predicate NoDup(s: seq<nat>) {
    forall i, j :: 0 <= i < j < |s| ==> s[i] != s[j]
  }

  ghost predicate FreeListOk(m: Pool) {
    && NoDup(m.free)
    && forall p: nat {:trigger p in m.free} :: p in m.free <==> p < |m.role| && m.role[p] == Free
  }

  ghost predicate RefsOk(m: Pool, flat: FlatMap) {
    && |m.refs| == |m.role|
    && forall p: nat {:trigger RefOk(m, flat, p)} :: p < |m.role| ==> m.refs[p] < 0x1_0000 && RefOk(m, flat, p)
  }

  ghost predicate Good(m: Pool) {
    Layout(m.pages, m.role) && RefsOk(m, FlatOf(m)) && FreeListOk(m)
  }

  /** The free list holds, once each, exactly the pages with a zero count that no caller holds. */
  lemma FreeListExact(m: Pool, p: nat)
    requires Good(m) && p < |m.role| && m.role[p] != Reserved
    ensures p in m.free <==> m.refs[p] == 0 && m.role[p] != Held
    ensures forall i, j :: 0 <= i < j < |m.free| ==> m.free[i] != m.free[j]
  {
    hide Layout, Naming, FlatOf;
    assert RefOk(m, FlatOf(m), p);
  }

  /** What memset leaves in a page. */
  function ZeroPage(): (page: seq<Word>)
    ensures |page| == WORDS_PER_PAGE && forall i :: 0 <= i < WORDS_PER_PAGE ==> page[i] == ZERO_WORD
  {
    seq(WORDS_PER_PAGE, _ => ZERO_WORD)
  }

  /** page_alloc: the head of the free list, zeroed, held by the caller with pp_ref still 0. */
  function AfterAlloc(m: Pool): Pool
    requires |m.free| > 0 && m.free[0] < |m.pages| && m.free[0] < |m.role|
  {
    var p := m.free[0];
    m.(pages := m.pages[p := ZeroPage()], free := m.free[1..], role := m.role[p := Held])
  }

  /** Pages that are neither directories nor tables do not show in the flat map. */
  lemma FlatIgnores(m: Pool, p: nat, page: seq<Word>, use: Role)
    requires Layout(m.pages, m.role) && p < |m.role| && m.role[p] in {Free, Held, Reserved} && use in {Free, Held, Reserved}
    requires |page| == WORDS_PER_PAGE
    ensures Layout(m.pages[p := page], m.role[p := use])
    ensures Flat(m.pages[p := page], m.role[p := use]) == FlatOf(m)
  {
    var pages', role' := m.pages[p := page], m.role[p := use];
    forall d: nat, v: nat | v < VPN_UTOP && IsDir(m.role, d)
      ensures Mapped(m.pages, d, v) == Mapped(pages', d, v)
      ensures Mapped(m.pages, d, v) ==> PteOf(m.pages, d, v) == PteOf(pages', d, v)
    {
      assert pages'[d] == m.pages[d];
      if Valid(m.pages[d][v / 1024]) {
        assert m.role[TableOf(m.pages, d, v / 1024)] == Table(d, v / 1024);
      }
    }
    FlatSame(m.pages, m.role, pages', role');
  }

  lemma AllocStep(m: Pool)
    requires Good(m) && |m.free| > 0
    ensures m.free[0] < |m.role|
    ensures var m' := AfterAlloc(m); Good(m') && FlatOf(m') == FlatOf(m)
  {
    var p := m.free[0];
    assert p in m.free;
    FlatIgnores(m, p, ZeroPage(), Held);
    var m' := AfterAlloc(m);
    forall q: nat ensures q in m'.free <==> q < |m'.role| && m'.role[q] == Free {
      assert q in m.free <==> q == p || q in m.free[1..];
    }
    forall q: nat | q < |m'.role| ensures m'.refs[q] < 0x1_0000 && RefOk(m', FlatOf(m), q) {
      assert RefOk(m, FlatOf(m), q);
    }
  }

  /** A page that boot code keeps for itself, whatever it holds and counts. */
  lemma ReserveStep(m: Pool, p: nat, page: seq<Word>, count: nat)
    requires Good(m) && p < |m.role| && m.role[p] in {Held, Reserved} && |page| == WORDS_PER_PAGE && count < 0x1_0000
    ensures var m' := m.(pages := m.pages[p := page], refs := m.refs[p := count], role := m.role[p := Reserved]);
            Good(m') && FlatOf(m') == FlatOf(m)
  {
    FlatIgnores(m, p, page, Reserved);
    var m' := m.(pages := m.pages[p := page], refs := m.refs[p := count], role := m.role[p := Reserved]);
    forall q: nat | q < |m'.role| ensures m'.refs[q] < 0x1_0000 && RefOk(m', FlatOf(m), q) {
      assert RefOk(m, FlatOf(m), q);
    }
  }

  /** Programs write what they like into their own pages: no table and no directory is one. */
  lemma StoreStep(m: Pool, p: nat, page: seq<Word>)
    requires Good(m) && p < |m.role| && m.role[p] == User && |page| == WORDS_PER_PAGE
    ensures var m' := m.(pages := m.pages[p := page]); Good(m') && FlatOf(m') == FlatOf(m)
  {
    var m' := m.(pages := m.pages[p := page]);
    forall d: nat, v: nat | v < VPN_UTOP && IsDir(m.role, d)
      ensures Mapped(m.pages, d, v) == Mapped(m'.pages, d, v)
      ensures Mapped(m.pages, d, v) ==> PteOf(m.pages, d, v) == PteOf(m'.pages, d, v)
    {
      if Valid(m.pages[d][v / 1024]) {
        assert m.role[TableOf(m.pages, d, v / 1024)] == Table(d, v / 1024);
      }
    }
    FlatSame(m.pages, m.role, m'.pages, m'.role);
    forall q: nat | q < |m'.role| ensures m'.refs[q] < 0x1_0000 && RefOk(m', FlatOf(m), q) {
      assert RefOk(m, FlatOf(m), q);
    }
  }

  /** page_free: back onto the head of the free list. */
  function AfterFree(m: Pool, p: nat): Pool
    requires p < |m.role|
  {
    m.(free := [p] + m.free, role := m.role[p := Free])
  }

  lemma FreePush(m: Pool, m': Pool, p: nat)
    requires FreeListOk(m) && p < |m.role| && m.role[p] != Free
    requires m'.free == [p] + m.free && m'.role == m.role[p := Free]
    ensures FreeListOk(m')
  {
    assert p !in m.free;
    forall q: nat ensures q in m'.free <==> q < |m'.role| && m'.role[q] == Free {
      assert q in m'.free <==> q == p || q in m.free;
    }
  }

  /** `pp_ref++` on a 16-bit counter. */
  function Inc16(r: nat): nat {
    if r == 0xffff then 0 else r + 1
  }

  /** pgdir_walk with create: a held, zeroed page becomes the table of directory slot (d, i). */
  function AfterInstallTable(m: Pool, d: nat, i: nat, t: Ppn): Pool
    requires d < |m.pages| && i < |m.pages[d]| && t < |m.role| && t < |m.refs|
  {
    m.(pages := SetWord(m.pages, d, i, MakePte(t, PTE_D)), refs := m.refs[t := Inc16(m.refs[t])],
       role := m.role[t := Table(d, i)])
  }

  lemma InstallTableStep(m: Pool, d: nat, i: nat, t: Ppn)
    requires Good(m) && IsDir(m.role, d) && i < PDX_UTOP && !Valid(m.pages[d][i])
    requires t < |m.role| && m.role[t] == Held && m.pages[t] == ZeroPage()
    ensures Good(AfterInstallTable(m, d, i, t)) && FlatOf(AfterInstallTable(m, d, i, t)) == FlatOf(m)
  {
    var m' := AfterInstallTable(m, d, i, t);
    forall d': nat, v: nat | v < VPN_UTOP && IsDir(m.role, d')
      ensures Mapped(m.pages, d', v) == Mapped(m'.pages, d', v)
      ensures Mapped(m.pages, d', v) ==> PteOf(m.pages, d', v) == PteOf(m'.pages, d', v)
    {
      if Valid(m.pages[d'][v / 1024]) {
        assert m.role[TableOf(m.pages, d', v / 1024)] == Table(d', v / 1024);
      }
    }
    FlatSame(m.pages, m.role, m'.pages, m'.role);
    forall q: nat | q < |m'.role| ensures m'.refs[q] < 0x1_0000 && RefOk(m', FlatOf(m), q) {
      assert RefOk(m, FlatOf(m), q);
    }
  }

  /** The final writes of page_insert: the entry and pp_ref++ (a 16-bit counter). */
  function AfterMap(m: Pool, d: nat, v: nat, p: Ppn, w: Word): Pool
    requires Shaped(m.pages, m.role) && d < |m.pages| && v < VPN_UTOP && TableOf(m.pages, d, v / 1024) < |m.pages|
    requires p < |m.role| == |m.refs|
  {
    m.(pages := SetWord(m.pages, TableOf(m.pages, d, v / 1024), v % 1024, w),
       refs := m.refs[p := Inc16(m.refs[p])], role := m.role[p := User])
  }

  /** A table entry that names a user page, or nothing, keeps the layout. */
  lemma WriteLayout(pages: Pages, role: seq<Role>, d: nat, i: nat, j: nat, w: Word)
    requires Layout(pages, role) && IsDir(role, d) && i < PDX_UTOP && Valid(pages[d][i]) && j < WORDS_PER_PAGE
    requires Valid(w) ==> w.ppn < |role| && role[w.ppn] == User
    ensures TableOf(pages, d, i) < |pages| && role[TableOf(pages, d, i)] == Table(d, i)
    ensures Layout(SetWord(pages, TableOf(pages, d, i), j, w), role)
  {
  }

  lemma UseLayout(pages: Pages, role: seq<Role>, p: nat)
    requires Layout(pages, role) && p < |role| && role[p] in {Held, User}
    ensures Layout(pages, role[p := User]) && Flat(pages, role[p := User]) == Flat(pages, role)
  {
    FlatSame(pages, role, pages, role[p := User]);
  }

  lemma DropLayout(pages: Pages, role: seq<Role>, p: nat)
    requires Layout(pages, role) && p < |role| && role[p] == User && Naming(Flat(pages, role), p) == {}
    ensures Layout(pages, role[p := Free]) && Flat(pages, role[p := Free]) == Flat(pages, role)
  {
    FlatSame(pages, role, pages, role[p := Free]);
    forall t, j | 0 <= t < |role| && role[t].Table? && 0 <= j < WORDS_PER_PAGE && Valid(pages[t][j])
      ensures pages[t][j].ppn != p
    {
      EntryInFlat(pages, role, t, j);
      var k := (role[t].dir, role[t].pdx * 1024 + j);
      assert k in Naming(Flat(pages, role), pages[t][j].ppn);
    }
  }

  lemma TableHasDir(pages: Pages, role: seq<Role>, t: nat)
    requires Layout(pages, role) && t < |role| && role[t].Table?
    ensures role[t].dir < |role| && role[role[t].dir] == Dir
  {
    assert role[t].pdx < PDX_UTOP;
  }

  /** Every valid word of a table page is an entry of the flat map. */
  lemma EntryInFlat(pages: Pages, role: seq<Role>, t: nat, j: nat)
    requires Layout(pages, role) && t < |role| && role[t].Table? && j < WORDS_PER_PAGE && Valid(pages[t][j])
    ensures var k := (role[t].dir, role[t].pdx * 1024 + j);
            k in Flat(pages, role) && Flat(pages, role)[k] == pages[t][j]
  {
    var k := (role[t].dir, role[t].pdx * 1024 + j);
    FlatAt(pages, role, k);
    assert k.1 / 1024 == role[t].pdx && k.1 % 1024 == j;
  }

  lemma UserNamed(m: Pool, k: (nat, nat))
    requires Layout(m.pages, m.role) && k in FlatOf(m)
    ensures FlatOf(m)[k].ppn < |m.role| && m.role[FlatOf(m)[k].ppn] == User
  {
    FlatAt(m.pages, m.role, k);
    assert m.role[TableOf(m.pages, k.0, k.1 / 1024)] == Table(k.0, k.1 / 1024);
  }

  /** Only user pages are named by the flat map. */
  lemma NothingNames(m: Pool, p: nat)
    requires Layout(m.pages, m.role) && p < |m.role| && m.role[p] != User
    ensures Naming(FlatOf(m), p) == {}
  {
    forall k | k in FlatOf(m) ensures FlatOf(m)[k].ppn != p {
      UserNamed(m, k);
    }
  }

  /** One more or one fewer name for a page moves its count by one and no other count. */
  lemma CountsAfterInsert(m: Pool, m': Pool, k: (nat, nat), w: Word)
    requires Good(m) && k !in FlatOf(m) && FlatOf(m') == FlatOf(m)[k := w]
    requires w.ppn < |m.role| && m.role[w.ppn] in {Held, User} && m.refs[w.ppn] < 0xffff
    requires m'.refs == m.refs[w.ppn := m.refs[w.ppn] + 1] && m'.role == m.role[w.ppn := User]
    ensures RefsOk(m', FlatOf(m'))
  {
    NamingInsert(FlatOf(m), k, w);
    if m.role[w.ppn] == Held {
      NothingNames(m, w.ppn);
    }
    forall q: nat | q < |m'.role| ensures m'.refs[q] < 0x1_0000 && RefOk(m', FlatOf(m'), q) {
      assert RefOk(m, FlatOf(m), q);
      if q != w.ppn {
        assert Naming(FlatOf(m'), q) == Naming(FlatOf(m), q);
      }
    }
  }

  lemma MapRest(m: Pool, m': Pool, k: (nat, nat), w: Word)
    requires Good(m) && k !in FlatOf(m) && FlatOf(m') == FlatOf(m)[k := w]
    requires w.ppn < |m.role| && m.role[w.ppn] in {Held, User} && m.refs[w.ppn] < 0xffff
    requires m'.refs == m.refs[w.ppn := Inc16(m.refs[w.ppn])] && m'.role == m.role[w.ppn := User] && m'.free == m.free
    ensures RefsOk(m', FlatOf(m')) && FreeListOk(m')
  {
    CountsAfterInsert(m, m', k, w);
  }

  lemma CountsAfterRemove(m: Pool, m': Pool, k: (nat, nat))
    requires Good(m) && k in FlatOf(m) && FlatOf(m') == FlatOf(m) - {k}
    requires FlatOf(m)[k].ppn < |m.role| && m.role[FlatOf(m)[k].ppn] == User && m.refs[FlatOf(m)[k].ppn] > 0
    requires m'.refs == m.refs[FlatOf(m)[k].ppn := m.refs[FlatOf(m)[k].ppn] - 1]
    requires m'.role == m.role[FlatOf(m)[k].ppn := if m.refs[FlatOf(m)[k].ppn] == 1 then Free else User]
    ensures RefsOk(m', FlatOf(m'))
  {
    var p := FlatOf(m)[k].ppn;
    NamingRemove(FlatOf(m), k);
    assert k in Naming(FlatOf(m), p);
    forall q: nat | q < |m'.role| ensures m'.refs[q] < 0x1_0000 && RefOk(m', FlatOf(m'), q) {
      assert RefOk(m, FlatOf(m), q);
      if q != p {
        assert Naming(FlatOf(m'), q) == Naming(FlatOf(m), q);
      }
    }
  }

  lemma MapPages(pages: Pages, role: seq<Role>, d: nat, v: nat, w: Word)
    requires Layout(pages, role) && IsDir(role, d) && v < VPN_UTOP && Valid(pages[d][v / 1024])
    requires Valid(w) && w.ppn < |role| && role[w.ppn] in {Held, User}
    ensures TableOf(pages, d, v / 1024) < |pages|
    ensures var pages' := SetWord(pages, TableOf(pages, d, v / 1024), v % 1024, w);
            && Layout(pages', role[w.ppn := User])
            && Flat(pages', role[w.ppn := User]) == Flat(pages, role)[(d, v) := w]
  {
    UseLayout(pages, role, w.ppn);
    WriteLayout(pages, role[w.ppn := User], d, v / 1024, v % 1024, w);
    WritePte(pages, role[w.ppn := User], d, v, w);
  }

  lemma MapFlat(m: Pool, d: nat, v: nat, w: Word)
    requires Layout(m.pages, m.role) && IsDir(m.role, d) && v < VPN_UTOP && Valid(m.pages[d][v / 1024])
    requires Valid(w) && w.ppn < |m.role| == |m.refs| && m.role[w.ppn] in {Held, User}
    ensures TableOf(m.pages, d, v / 1024) < |m.pages|
    ensures var m' := AfterMap(m, d, v, w.ppn, w);
            Layout(m'.pages, m'.role) && FlatOf(m') == FlatOf(m)[(d, v) := w]
  {
    MapPages(m.pages, m.role, d, v, w);
  }

  lemma MapStep(m: Pool, d: nat, v: nat, w: Word)
    requires Good(m) && IsDir(m.role, d) && v < VPN_UTOP && Valid(m.pages[d][v / 1024]) && !Mapped(m.pages, d, v)
    requires Valid(w) && w.ppn < |m.role| && m.role[w.ppn] in {Held, User} && m.refs[w.ppn] < 0xffff
    ensures TableOf(m.pages, d, v / 1024) < |m.pages|
    ensures var m' := AfterMap(m, d, v, w.ppn, w);
            Good(m') && FlatOf(m') == FlatOf(m)[(d, v) := w]
  {
    FlatAt(m.pages, m.role, (d, v));
    MapFlat(m, d, v, w);
    MapRest(m, AfterMap(m, d, v, w.ppn, w), (d, v), w);
  }

  /** page_insert over the same page: only the permission bits change. */
  function AfterRemap(m: Pool, d: nat, v: nat, w: Word): Pool
    requires Shaped(m.pages, m.role) && d < |m.pages| && v < VPN_UTOP && TableOf(m.pages, d, v / 1024) < |m.pages|
  {
    m.(pages := SetWord(m.pages, TableOf(m.pages, d, v / 1024), v % 1024, w))
  }

  lemma RemapPages(pages: Pages, role: seq<Role>, d: nat, v: nat, w: Word)
    requires Layout(pages, role) && IsDir(role, d) && v < VPN_UTOP && Mapped(pages, d, v)
    requires Valid(w) && w.ppn == PteOf(pages, d, v).ppn < |role| && role[w.ppn] == User
    ensures TableOf(pages, d, v / 1024) < |pages| && (d, v) in Flat(pages, role) && Flat(pages, role)[(d, v)] == PteOf(pages, d, v)
    ensures var pages' := SetWord(pages, TableOf(pages, d, v / 1024), v % 1024, w);
            Layout(pages', role) && Flat(pages', role) == Flat(pages, role)[(d, v) := w]
  {
    FlatAt(pages, role, (d, v));
    WriteLayout(pages, role, d, v / 1024, v % 1024, w);
    WritePte(pages, role, d, v, w);
  }

  lemma SameCounts(m: Pool, m': Pool, k: (nat, nat), w: Word)
    requires RefsOk(m, FlatOf(m)) && k in FlatOf(m) && FlatOf(m)[k].ppn == w.ppn
    requires FlatOf(m') == FlatOf(m)[k := w] && m'.refs == m.refs && m'.role == m.role
    ensures RefsOk(m', FlatOf(m'))
  {
    NamingInsert(FlatOf(m), k, w);
    forall q: nat | q < |m'.role| ensures m'.refs[q] < 0x1_0000 && RefOk(m', FlatOf(m'), q) {
      assert RefOk(m, FlatOf(m), q);
      assert Naming(FlatOf(m'), q) == Naming(FlatOf(m), q);
    }
  }

  lemma RemapStep(m: Pool, d: nat, v: nat, w: Word)
    requires Good(m) && IsDir(m.role, d) && v < VPN_UTOP && Mapped(m.pages, d, v)
    requires Valid(w) && PteOf(m.pages, d, v).ppn == w.ppn
    ensures TableOf(m.pages, d, v / 1024) < |m.pages|
    ensures var m' := AfterRemap(m, d, v, w); Good(m') && FlatOf(m') == FlatOf(m)[(d, v) := w]
  {
    UserNamed(m, (d, v));
    RemapPages(m.pages, m.role, d, v, w);
    var m' := AfterRemap(m, d, v, w);
    hide Layout, Mapped, PteOf, Flat;
    SameCounts(m, m', (d, v), w);
  }

  /** page_decref then page_free when the count reaches zero. */
  function AfterDecref(m: Pool, p: nat): Pool
    requires p < |m.refs| && p < |m.role| && m.refs[p] > 0
  {
    var m1 := m.(refs := m.refs[p := m.refs[p] - 1]);
    if m1.refs[p] == 0 then AfterFree(m1, p) else m1
  }

  /** page_remove: drop the count of the page found by the walk, then clear the entry. */
  function AfterUnmap(m: Pool, d: nat, v: nat): Pool
    requires Shaped(m.pages, m.role) && Mapped(m.pages, d, v)
    requires var p := PteOf(m.pages, d, v).ppn; p < |m.refs| && p < |m.role| && m.refs[p] > 0
  {
    var m1 := AfterDecref(m, PteOf(m.pages, d, v).ppn);
    m1.(pages := SetWord(m1.pages, TableOf(m.pages, d, v / 1024), v % 1024, ZERO_WORD))
  }

  lemma UnmapPages(pages: Pages, role: seq<Role>, d: nat, v: nat)
    requires Layout(pages, role) && IsDir(role, d) && v < VPN_UTOP && Mapped(pages, d, v)
    ensures (d, v) in Flat(pages, role) && Flat(pages, role)[(d, v)] == PteOf(pages, d, v)
    ensures PteOf(pages, d, v).ppn < |role| && role[PteOf(pages, d, v).ppn] == User
    ensures var pages' := SetWord(pages, TableOf(pages, d, v / 1024), v % 1024, ZERO_WORD);
            && Layout(pages', role)
            && Flat(pages', role) == Flat(pages, role) - {(d, v)}
  {
    FlatAt(pages, role, (d, v));
    WriteLayout(pages, role, d, v / 1024, v % 1024, ZERO_WORD);
    WritePte(pages, role, d, v, ZERO_WORD);
  }

  lemma UnmapFlat(m: Pool, d: nat, v: nat)
    requires Layout(m.pages, m.role) && IsDir(m.role, d) && v < VPN_UTOP && Mapped(m.pages, d, v)
    requires |m.refs| == |m.role| && PteOf(m.pages, d, v).ppn < |m.role|
    requires m.refs[PteOf(m.pages, d, v).ppn] == |Naming(FlatOf(m), PteOf(m.pages, d, v).ppn)| > 0
    ensures var m' := AfterUnmap(m, d, v);
            Layout(m'.pages, m'.role) && FlatOf(m') == FlatOf(m) - {(d, v)}
  {
    UnmapPages(m.pages, m.role, d, v);
    var p := PteOf(m.pages, d, v).ppn;
    if m.refs[p] == 1 {
      LastName(FlatOf(m), (d, v), p);
      DropLayout(SetWord(m.pages, TableOf(m.pages, d, v / 1024), v % 1024, ZERO_WORD), m.role, p);
    }
  }

  lemma UnmapStep(m: Pool, d: nat, v: nat)
    requires Good(m) && IsDir(m.role, d) && v < VPN_UTOP && Mapped(m.pages, d, v)
    ensures PteOf(m.pages, d, v).ppn < |m.role| && m.refs[PteOf(m.pages, d, v).ppn] > 0
    ensures var m' := AfterUnmap(m, d, v); Good(m') && FlatOf(m') == FlatOf(m) - {(d, v)}
  {
    UnmapPages(m.pages, m.role, d, v);
    var p := PteOf(m.pages, d, v).ppn;
    assert RefOk(m, FlatOf(m), p);
    UnmapFlat(m, d, v);
    var m' := AfterUnmap(m, d, v);
    hide Layout, Mapped, PteOf, RefsOk, RefOk;
    CountsAfterRemove(m, m', (d, v));
    if m.refs[p] == 1 {
      FreePush(m, m', p);
    }
  }

  lemma LastName(flat: FlatMap, k: (nat, nat), p: nat)
    requires k in flat && flat[k].ppn == p && |Naming(flat, p)| == 1
    ensures Naming(flat - {k}, p) == {}
  {
    NamingRemove(flat, k);
    assert k in Naming(flat, p);
    assert |Naming(flat, p) - {k}| == 0;
  }

  /** env_setup_vm: a held, zeroed page becomes a directory with pp_ref 1. */
  function AfterInstallDir(m: Pool, d: Ppn, shared: seq<Word>): Pool
    requires d < |m.pages| && d < |m.role| && d < |m.refs| && |m.pages[d]| == WORDS_PER_PAGE
    requires |shared| == PDX_UVPT - PDX_UTOP
  {
    m.(pages := m.pages[d := m.pages[d][..PDX_UTOP] + shared + [Word(d, PTE_V)] + m.pages[d][PDX_UVPT + 1..]],
       refs := m.refs[d := Inc16(m.refs[d])], role := m.role[d := Dir])
  }

  lemma InstallDirStep(m: Pool, d: Ppn, shared: seq<Word>)
    requires Good(m) && d < |m.role| && m.role[d] == Held && m.pages[d] == ZeroPage()
    requires |shared| == PDX_UVPT - PDX_UTOP
    ensures var m' := AfterInstallDir(m, d, shared); Good(m') && FlatOf(m') == FlatOf(m)
  {
    var m' := AfterInstallDir(m, d, shared);
    assert forall i :: 0 <= i < PDX_UTOP ==> m'.pages[d][i] == ZERO_WORD;
    forall d': nat, v: nat | v < VPN_UTOP && IsDir(m.role, d')
      ensures Mapped(m.pages, d', v) == Mapped(m'.pages, d', v)
      ensures Mapped(m.pages, d', v) ==> PteOf(m.pages, d', v) == PteOf(m'.pages, d', v)
    {
      if Valid(m.pages[d'][v / 1024]) {
        assert m.role[TableOf(m.pages, d', v / 1024)] == Table(d', v / 1024);
      }
    }
    FlatSame(m.pages, m.role, m'.pages, m'.role);
    forall q: nat | q < |m'.role| ensures m'.refs[q] < 0x1_0000 && RefOk(m', FlatOf(m), q) {
      assert RefOk(m, FlatOf(m), q);
    }
  }

  /** env_free on one directory slot: clear it and drop the table page. */
  function AfterReleaseTable(m: Pool, d: nat, i: nat): Pool
    requires d < |m.pages| && i < |m.pages[d]|
    requires var t := TableOf(m.pages, d, i); t < |m.refs| && t < |m.role| && m.refs[t] > 0
  {
    AfterDecref(m.(pages := SetWord(m.pages, d, i, ZERO_WORD)), TableOf(m.pages, d, i))
  }

  lemma ReleaseTableStep(m: Pool, d: nat, i: nat)
    requires Good(m) && IsDir(m.role, d) && i < PDX_UTOP && Valid(m.pages[d][i])
    requires TableOf(m.pages, d, i) < |m.pages|
    requires forall j :: 0 <= j < WORDS_PER_PAGE ==> !Valid(m.pages[TableOf(m.pages, d, i)][j])
    ensures var t := TableOf(m.pages, d, i); m.role[t] == Table(d, i) && m.refs[t] == 1
    ensures var m' := AfterReleaseTable(m, d, i); Good(m') && FlatOf(m') == FlatOf(m)
  {
    var t := TableOf(m.pages, d, i);
    assert m.role[t] == Table(d, i);
    assert RefOk(m, FlatOf(m), t);
    var m' := AfterReleaseTable(m, d, i);
    FreePush(m, m', t);
    forall d': nat, v: nat | v < VPN_UTOP && IsDir(m.role, d')
      ensures Mapped(m.pages, d', v) == Mapped(m'.pages, d', v)
      ensures Mapped(m.pages, d', v) ==> PteOf(m.pages, d', v) == PteOf(m'.pages, d', v)
    {
      if Valid(m.pages[d'][v / 1024]) {
        assert m.role[TableOf(m.pages, d', v / 1024)] == Table(d', v / 1024);
      }
    }
    FlatSame(m.pages, m.role, m'.pages, m'.role);
    forall q: nat | q < |m'.role| ensures m'.refs[q] < 0x1_0000 && RefOk(m', FlatOf(m'), q) {
      assert RefOk(m, FlatOf(m), q);
    }
  }

  lemma ReleaseDirStep(m: Pool, d: nat)
    requires Good(m) && IsDir(m.role, d) && forall i :: 0 <= i < PDX_UTOP ==> !Valid(m.pages[d][i])
    ensures m.refs[d] == 1
    ensures Good(AfterDecref(m, d)) && FlatOf(AfterDecref(m, d)) == FlatOf(m)
  {
    assert RefOk(m, FlatOf(m), d);
    var m' := AfterDecref(m, d);
    FreePush(m, m', d);
    FlatSame(m.pages, m.role, m'.pages, m'.role);
    forall q: nat | q < |m'.role| ensures m'.refs[q] < 0x1_0000 && RefOk(m', FlatOf(m'), q) {
      assert RefOk(m, FlatOf(m), q);
    }
  }
}
