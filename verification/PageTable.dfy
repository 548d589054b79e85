/** Sv39 page tables as a value (os/mm/vmem.cc, os/arch/riscv.h; section 4.4 of the RISC-V
    Privileged Architecture, version 20211203).

    Shifts of unsigned words are divisions, masks are remainders, and `PA2PTE(pa) | perm | V`
    is a sum of disjoint fields.  As for the disk blocks of nfs, the shape invariant is that a
    ghost map `role` from table pages to positions is the inverse of `TableAt`. */
module PageTable {
  import opened Basics

  const PGSIZE := 4096
  const ENTRIES := 512
  const MAXVA := 0x40_0000_0000       // 1 << 38
  const MAX_PAGES := 0x400_0000       // MAXVA / PGSIZE
  const VPNS := 0x800_0000            // the page numbers of Sv39: 27 bits

  // ------------------------------------------------------------ entries

  /** PTE_V. */
  predicate IsValid(pte: nat) { FlagsOf(pte) % 2 == 1 }

  /** PTE2PA. */
  function PaOf(pte: nat): (pa: nat) { pte / 1024 * PGSIZE }

  /** PTE_FLAGS. */
  function FlagsOf(pte: nat): (f: nat) { pte % 1024 }

  /** perm | PTE_V. */
  function OrV(perm: nat): (f: nat) { if perm % 2 == 1 then perm else perm + 1 }

  /** PA2PTE(pa) | perm | PTE_V. */
  function MakePte(pa: nat, perm: nat): (pte: nat) { pa / PGSIZE * 1024 + OrV(perm) }

  predicate IsPage(pa: nat) { pa > 0 && pa % PGSIZE == 0 }

  lemma DivMod(k: nat, f: nat)
    requires f < 1024
    ensures (k * 1024 + f) / 1024 == k && (k * 1024 + f) % 1024 == f
  {
  }

  lemma PteFields(pa: nat, perm: nat)
    requires pa % PGSIZE == 0 && perm < 1024
    ensures IsValid(MakePte(pa, perm)) && PaOf(MakePte(pa, perm)) == pa && FlagsOf(MakePte(pa, perm)) == OrV(perm)
  {
    DivMod(pa / PGSIZE, OrV(perm));
  }

  /** The page number stands at bit 10 of an entry, in both directions. */
  lemma PageNumberAtBit10(pa: nat, perm: nat, pte: nat)
    requires pa % 0x1000 == 0 && perm < 0x400
    ensures MakePte(pa, perm) / 0x400 == pa / 0x1000 && MakePte(pa, perm) % 0x400 / 2 == perm / 2
    ensures PaOf(pte) / 0x1000 == pte / 0x400 && PaOf(pte) % 0x1000 == 0
  {
    DivMod(pa / PGSIZE, OrV(perm));
  }

  lemma EmptyEntry()
    ensures !IsValid(0)
  {
  }

  /** PTE_U. */
  predicate IsUser(pte: nat) { FlagsOf(pte) / 16 % 2 == 1 }

  /** None of PTE_R, PTE_W, PTE_X: the entry points to a table. */
  predicate IsPointer(pte: nat) { FlagsOf(pte) / 2 % 8 == 0 }

  // ------------------------------------------------------------ the tree

  /** A position in the tree: the root, the table below entry i2 of the root, the table below
      entry i1 of that one. */
  datatype Pos = Root | Mid(i2: nat) | Leaf(i2: nat, i1: nat)

  type Words = map<nat, seq<nat>>     // page address to its 512 words

  ghost predicate IsTable(words: Words, p: nat)
  {
    p in words && |words[p]| == ENTRIES
  }

  lemma TableShape(words: Words, p: nat)
    requires IsTable(words, p)
    ensures p in words && |words[p]| == ENTRIES
  {
  }

  /** The entry of a table page, 0 if there is no such page or entry. */
  ghost function Entry(words: Words, p: nat, i: nat): (pte: nat)
  {
    if IsTable(words, p) && i < ENTRIES then words[p][i] else 0
  }

  /** The table page a valid entry points to. */
  ghost function Child(words: Words, p: nat, i: nat): (c: Option<nat>)
  {
    if IsValid(Entry(words, p, i)) then Some(PaOf(Entry(words, p, i))) else None
  }

  /** The table page at a position. */
  ghost function TableAt(words: Words, root: nat, pos: Pos): (p: Option<nat>)
  {
    match pos
    case Root => Some(root)
    case Mid(i2) => Child(words, root, i2)
    case Leaf(i2, i1) =>
      match Child(words, root, i2)
      case None => None
      case Some(m) => Child(words, m, i1)
  }

  ghost predicate Owned(words: Words, root: nat, role: map<nat, Pos>)
  {
    forall pos :: TableAt(words, root, pos).Some? ==>
      var p := TableAt(words, root, pos).value; p in role && role[p] == pos
  }

  ghost predicate NoLeak(words: Words, root: nat, role: map<nat, Pos>)
  {
    forall p :: p in role ==> TableAt(words, root, role[p]) == Some(p)
  }

  /** Valid entries above the last level carry no permission bits. */
  ghost predicate PointersOk(words: Words, role: map<nat, Pos>)
  {
    forall p: nat, i: nat :: p in role && !role[p].Leaf? && IsValid(Entry(words, p, i)) ==>
        IsPointer(Entry(words, p, i))
  }

  /** The tables reachable from root are exactly the keys of role, each at one position. */
  ghost predicate TreeOk(words: Words, root: nat, role: map<nat, Pos>)
  {
    && PointersOk(words, role)
    && (forall p :: p in role ==> IsTable(words, p) && IsPage(p))
    && Owned(words, root, role) && NoLeak(words, root, role)
  }

  // ------------------------------------------------------------ what it means

  /** PX(2, va), PX(1, va), PX(0, va) of the page with number vpn. */
  function I2(vpn: nat): (i: nat) { vpn / 0x4_0000 % ENTRIES }
  function I1(vpn: nat): (i: nat) { vpn / ENTRIES % ENTRIES }
  function I0(vpn: nat): (i: nat) { vpn % ENTRIES }

  /** Distinct pages take distinct paths. */
  lemma PathInjective(v: nat, w: nat)
    requires v < VPNS && w < VPNS && I2(v) == I2(w) && I1(v) == I1(w) && I0(v) == I0(w)
    ensures v == w
  {
    hide I0, I1, I2;
    Indexes(v);
    Indexes(w);
  }

  /** A page number is made of its three indexes. */
  lemma Indexes(v: nat)
    requires v < VPNS
    ensures v == I2(v) * 0x4_0000 + I1(v) * ENTRIES + I0(v)
  {
    var a := v / ENTRIES;
    assert v == a * ENTRIES + v % ENTRIES && a == a / ENTRIES * ENTRIES + a % ENTRIES;
  }

  /** The PTE of a page, 0 if no table reaches it. */
  ghost function PteAt(words: Words, root: nat, vpn: nat): (pte: nat)
  {
    match TableAt(words, root, Leaf(I2(vpn), I1(vpn)))
    case None => 0
    case Some(p) => Entry(words, p, I0(vpn))
  }

  /** What the hardware makes of it: the partial map from page numbers to PTEs. */
  ghost function Translation(words: Words, root: nat, vpn: nat): (t: Option<nat>)
  {
    if IsValid(PteAt(words, root, vpn)) then Some(PteAt(words, root, vpn)) else None
  }

  /** The 64-bit word at a physical address. */
  ghost function Load(words: Words, addr: nat): (w: nat)
  {
    Entry(words, addr / 0x1000 * 0x1000, addr % 0x1000 / 8)
  }

  /** The 9 bits of a virtual address that index the table at a level. */
  function IndexAt(va: nat, level: nat): (i: nat)
    ensures i < 0x200
  {
    va / (if level == 2 then 0x4000_0000 else if level == 1 then 0x20_0000 else 0x1000) % 0x200
  }

  /** The entry that an address leads to and the level of its table, or a page fault. */
  datatype Access = Page(pte: nat, level: nat) | Fault

  /** Address translation as section 4.3.2 of the RISC-V Privileged Architecture lists its steps, with the
      parameters of Sv39 from section 4.4, from the table at `a` on. */
  ghost function Sv39(words: Words, a: nat, va: nat, level: nat): (found: Access)
    requires level <= 2
    decreases level
  {
    var pte := Load(words, a + 8 * IndexAt(va, level));
    var v, r, w, x := pte % 2, pte / 2 % 2, pte / 4 % 2, pte / 8 % 2;
    if v == 0 || (r == 0 && w == 1) then Fault
    else if r == 1 || x == 1 then Page(pte, level)
    else if level == 0 then Fault
    else Sv39(words, pte / 0x400 * 0x1000, va, level - 1)
  }

  lemma LoadEntry(words: Words, a: nat, i: nat)
    requires a % 0x1000 == 0 && i < 0x200
    ensures Load(words, a + 8 * i) == Entry(words, a, i)
  {
    hide Entry;
    var addr := a + 8 * i;
    assert addr / 0x1000 == a / 0x1000 && addr % 0x1000 == 8 * i;
  }

  lemma Spans(va: nat)
    ensures var vpn := va / 0x1000;
            IndexAt(va, 2) == I2(vpn) && IndexAt(va, 1) == I1(vpn) && IndexAt(va, 0) == I0(vpn)
  {
  }

  /** The hardware finds exactly the entries of PteAt that allow some access, all of them in the last level. */
  lemma HardwareWalk(words: Words, root: nat, role: map<nat, Pos>, va: nat)
    requires TreeOk(words, root, role)
    ensures var pte := PteAt(words, root, va / 0x1000);
            Sv39(words, root, va, 2)
            == (if pte % 2 == 0 || (pte / 2 % 2 == 0 && (pte / 4 % 2 == 1 || pte / 8 % 2 == 0)) then Fault
                else Page(pte, 0))
  {
    hide Entry, Load, I0, I1, I2, FlagsOf, IsPointer, IsValid, PaOf, IsTable, IndexAt, Sv39;
    var vpn := va / 0x1000;
    Spans(va);
    assert TableAt(words, root, Root) == Some(root);
    Descend(words, root, role, root, I2(vpn));
    Upper(words, root, va, 2);
    match Child(words, root, I2(vpn)) {
      case None =>
      case Some(m) =>
        assert TableAt(words, root, Mid(I2(vpn))) == Some(m);
        Descend(words, root, role, m, I1(vpn));
        Upper(words, m, va, 1);
        match Child(words, m, I1(vpn)) {
          case None =>
          case Some(p) =>
            assert TableAt(words, root, Leaf(I2(vpn), I1(vpn))) == Some(p);
            LoadEntry(words, p, I0(vpn));
            Last(words, p, va);
        }
    }
  }

  lemma Upper(words: Words, a: nat, va: nat, level: nat)
    requires 0 < level <= 2
    ensures var pte := Load(words, a + 8 * IndexAt(va, level));
            && (pte % 2 == 0 ==> Sv39(words, a, va, level) == Fault)
            && (pte % 16 == 1 ==> Sv39(words, a, va, level) == Sv39(words, pte / 0x400 * 0x1000, va, level - 1))
  {
    hide Load, IndexAt;
    var pte := Load(words, a + 8 * IndexAt(va, level));
    if pte % 16 == 1 { PointerBits(pte); }
  }

  lemma PointerBits(pte: nat)
    requires pte % 16 == 1
    ensures pte % 2 == 1 && pte / 2 % 2 == 0 && pte / 4 % 2 == 0 && pte / 8 % 2 == 0
  {
    var q := pte / 16;
    assert pte == 16 * q + 1;
    Twice(4 * q);
    Twice(2 * q);
    Twice(q);
    assert pte / 2 == 2 * (4 * q);
    assert pte / 4 == 2 * (2 * q);
    assert pte / 8 == 2 * q;
  }

  lemma Twice(k: nat)
    ensures 2 * k % 2 == 0
  {
  }

  lemma Last(words: Words, a: nat, va: nat)
    ensures var pte := Load(words, a + 8 * IndexAt(va, 0));
            Sv39(words, a, va, 0)
            == (if pte % 2 == 0 || (pte / 2 % 2 == 0 && (pte / 4 % 2 == 1 || pte / 8 % 2 == 0)) then Fault
                else Page(pte, 0))
  {
    hide Load, IndexAt;
  }

  /** What the hardware reads in a table above the last level: an invalid entry or a pointer. */
  lemma Descend(words: Words, root: nat, role: map<nat, Pos>, p: nat, i: nat)
    requires TreeOk(words, root, role) && p in role && !role[p].Leaf? && i < ENTRIES
    ensures var pte := Load(words, p + 8 * i);
            if Child(words, p, i) == None then pte % 2 == 0
            else pte % 16 == 1 && Child(words, p, i) == Some(pte / 0x400 * 0x1000)
  {
    hide Entry, Load;
    LoadEntry(words, p, i);
    LowBits(Entry(words, p, i));
  }

  lemma LowBits(pte: nat)
    ensures pte % 2 == FlagsOf(pte) % 2 && pte / 2 % 8 == FlagsOf(pte) / 2 % 8
    ensures pte % 2 == 1 && pte / 2 % 8 == 0 ==> pte % 16 == 1
  {
    var q, f := pte / 1024, pte % 1024;
    assert pte == 2 * (512 * q) + f && pte / 2 == 8 * (64 * q) + f / 2;
  }

  ghost predicate SameMap(words: Words, words': Words, root: nat)
  {
    forall vpn: nat :: PteAt(words', root, vpn) == PteAt(words, root, vpn)
  }

  ghost predicate SameTranslation(words: Words, words': Words, root: nat)
  {
    forall vpn: nat :: vpn < VPNS ==> Translation(words', root, vpn) == Translation(words, root, vpn)
  }

  // ------------------------------------------------------------ changes

  function SetEntry(words: Words, p: nat, i: nat, pte: nat): (words': Words)
    requires p in words && i < |words[p]|
  {
    var row: seq<nat> := words[p][i := pte];
    words[p := row]
  }

  lemma SetEntryEntries(words: Words, p: nat, i: nat, pte: nat)
    requires IsTable(words, p) && i < ENTRIES
    ensures IsTable(SetEntry(words, p, i, pte), p)
    ensures forall r: nat, j: nat :: Entry(SetEntry(words, p, i, pte), r, j)
                                     == (if r == p && j == i then pte else Entry(words, r, j))
  {
  }

  function ZeroPage(): (s: seq<nat>)
    ensures |s| == ENTRIES && forall i :: 0 <= i < ENTRIES ==> s[i] == 0
  {
    seq(ENTRIES, i => 0)
  }

  /** Position of the child below entry i of the table at pos. */
  function Below(pos: Pos, i: nat): (c: Pos)
    requires !pos.Leaf?
  {
    if pos.Root? then Mid(i) else Leaf(pos.i2, i)
  }

  /** A fresh zeroed table below entry i of the table page p. */
  function Grow(words: Words, p: nat, i: nat, q: nat): (words': Words)
    requires p in words && i < |words[p]| && p != q
  {
    SetEntry(words[q := ZeroPage()], p, i, MakePte(q, 0))
  }

  lemma GrowEntries(words: Words, p: nat, i: nat, q: nat)
    requires IsTable(words, p) && i < ENTRIES && p != q
    ensures IsTable(Grow(words, p, i, q), p) && IsTable(Grow(words, p, i, q), q)
    ensures forall r: nat, j: nat ::
              Entry(Grow(words, p, i, q), r, j)
              == (if r == p && j == i then MakePte(q, 0) else if r == q then 0 else Entry(words, r, j))
    ensures forall r :: r != q && IsTable(words, r) ==> IsTable(Grow(words, p, i, q), r)
  {
  }

  /** walk with alloc: the new table adds exactly one position. */
  lemma GrowTables(words: Words, root: nat, role: map<nat, Pos>, p: nat, i: nat, q: nat)
    requires TreeOk(words, root, role) && p in role && !role[p].Leaf? && i < ENTRIES && !IsValid(Entry(words, p, i))
    requires IsPage(q) && q !in role
    ensures forall pos :: TableAt(Grow(words, p, i, q), root, pos)
                          == (if pos == Below(role[p], i) then Some(q) else TableAt(words, root, pos))
  {
    hide IsTable, Entry, Grow, MakePte, IsValid, PaOf;
    TableShape(words, p);
    var words' := Grow(words, p, i, q);
    GrowEntries(words, p, i, q);
    PteFields(q, 0);
    assert TableAt(words, root, Root) == Some(root);
    EmptyEntry();
    assert role[root] == Root;
    forall pos
      ensures TableAt(words', root, pos) == (if pos == Below(role[p], i) then Some(q) else TableAt(words, root, pos))
    {
      match pos
      case Root =>
      case Mid(i2) =>
        assert Child(words', root, i2) == (if root == p && i2 == i then Some(q) else Child(words, root, i2));
      case Leaf(i2, i1) =>
        assert TableAt(words, root, Mid(i2)) == Child(words, root, i2);
        if root == p && i2 == i {
          assert Child(words', q, i1) == None;
        } else {
          assert Child(words', root, i2) == Child(words, root, i2);
        }
    }
  }

  /** walk with alloc keeps the tree and changes no translation. */
  lemma GrowOk(words: Words, root: nat, role: map<nat, Pos>, p: nat, i: nat, q: nat)
    requires TreeOk(words, root, role) && p in role && !role[p].Leaf? && i < ENTRIES && !IsValid(Entry(words, p, i))
    requires IsPage(q) && q !in role
    ensures TreeOk(Grow(words, p, i, q), root, role[q := Below(role[p], i)])
    ensures SameMap(words, Grow(words, p, i, q), root)
  {
    hide IsTable, Entry, Grow, MakePte, IsValid, PaOf, TableAt, IsPointer, FlagsOf, I0, I1, I2;
    TableShape(words, p);
    GrowTables(words, root, role, p, i, q);
    GrowEntries(words, p, i, q);
    NewPointer(q);
    EmptyEntry();
    var words', role' := Grow(words, p, i, q), role[q := Below(role[p], i)];
    assert PointersOk(words', role');
    assert TableAt(words, root, Below(role[p], i)) == None by { NoTableBelow(words, root, role, p, i); }
    forall vpn: nat ensures PteAt(words', root, vpn) == PteAt(words, root, vpn) {
      GrowPte(words, root, role, p, i, q, vpn);
    }
  }

  lemma NewPointer(q: nat)
    requires IsPage(q)
    ensures IsPointer(MakePte(q, 0))
  {
    PteFields(q, 0);
  }

  lemma NoTableBelow(words: Words, root: nat, role: map<nat, Pos>, p: nat, i: nat)
    requires TreeOk(words, root, role) && p in role && !role[p].Leaf? && !IsValid(Entry(words, p, i))
    ensures TableAt(words, root, Below(role[p], i)) == None
  {
    assert TableAt(words, root, role[p]) == Some(p);
  }

  lemma GrowPte(words: Words, root: nat, role: map<nat, Pos>, p: nat, i: nat, q: nat, vpn: nat)
    requires TreeOk(words, root, role) && p in role && !role[p].Leaf? && i < ENTRIES && !IsValid(Entry(words, p, i))
    requires IsPage(q) && q !in role
    ensures PteAt(Grow(words, p, i, q), root, vpn) == PteAt(words, root, vpn)
  {
    hide IsTable, Entry, Grow, MakePte, IsValid, PaOf, TableAt, PointersOk, I0, I1, I2;
    TableShape(words, p);
    GrowTables(words, root, role, p, i, q);
    GrowEntries(words, p, i, q);
    NoTableBelow(words, root, role, p, i);
    var pos := Leaf(I2(vpn), I1(vpn));
    assert TableAt(words, root, pos).Some? ==> role[TableAt(words, root, pos).value] == pos;
  }

  /** Writing an entry of a last-level table changes the translation of one page. */
  lemma SetLeafOk(words: Words, root: nat, role: map<nat, Pos>, p: nat, vpn: nat, pte: nat)
    requires TreeOk(words, root, role) && TableAt(words, root, Leaf(I2(vpn), I1(vpn))) == Some(p)
    requires p in words && |words[p]| == ENTRIES
    ensures var words' := SetEntry(words, p, I0(vpn), pte);
            && TreeOk(words', root, role) && PteAt(words', root, vpn) == pte
            && (vpn < VPNS ==> forall v: nat :: v < VPNS && v != vpn ==>
                PteAt(words', root, v) == PteAt(words, root, v))
  {
    hide IsTable, Entry, IsValid, PaOf, TableAt, I0, I1, I2, SetEntry, IsPointer;
    IndexBound(vpn);
    IsTableOf(words, p);
    var words' := SetEntry(words, p, I0(vpn), pte);
    SetLeafTables(words, root, role, p, vpn, pte);
    SetEntryEntries(words, p, I0(vpn), pte);
    forall r | IsTable(words, r) ensures IsTable(words', r) { SetEntryTable(words, p, I0(vpn), pte, r); }
    if vpn < VPNS {
      forall v: nat | v < VPNS && v != vpn ensures PteAt(words', root, v) == PteAt(words, root, v) {
        SetLeafOther(words, root, role, p, vpn, pte, v);
      }
    }
  }

  lemma IsTableOf(words: Words, p: nat)
    requires p in words && |words[p]| == ENTRIES
    ensures IsTable(words, p)
  {
  }

  lemma IndexBound(vpn: nat)
    ensures I0(vpn) < ENTRIES && I1(vpn) < ENTRIES && I2(vpn) < ENTRIES
  {
  }

  lemma SetEntryTable(words: Words, p: nat, i: nat, pte: nat, r: nat)
    requires IsTable(words, p) && i < ENTRIES && IsTable(words, r)
    ensures p in words && i < |words[p]| && IsTable(SetEntry(words, p, i, pte), r)
  {
  }

  lemma SetLeafTables(words: Words, root: nat, role: map<nat, Pos>, p: nat, vpn: nat, pte: nat)
    requires TreeOk(words, root, role) && TableAt(words, root, Leaf(I2(vpn), I1(vpn))) == Some(p)
    requires p in words && |words[p]| == ENTRIES
    ensures I0(vpn) < ENTRIES
    ensures forall pos :: TableAt(SetEntry(words, p, I0(vpn), pte), root, pos) == TableAt(words, root, pos)
  {
    hide IsTable, Entry, SetEntry, IsValid, PaOf, I0, I1, I2;
    IndexBound(vpn);
    IsTableOf(words, p);
    SetEntryEntries(words, p, I0(vpn), pte);
    var words' := SetEntry(words, p, I0(vpn), pte);
    assert role[p] == Leaf(I2(vpn), I1(vpn));
    assert TableAt(words, root, Root) == Some(root);
    assert role[root] == Root;
    forall pos ensures TableAt(words', root, pos) == TableAt(words, root, pos) {
      match pos
      case Root =>
      case Mid(i2) => assert Child(words', root, i2) == Child(words, root, i2);
      case Leaf(i2, i1) =>
        assert TableAt(words, root, Mid(i2)) == Child(words, root, i2);
        assert Child(words', root, i2) == Child(words, root, i2);
    }
  }

  lemma SetLeafOther(words: Words, root: nat, role: map<nat, Pos>, p: nat, vpn: nat, pte: nat, v: nat)
    requires TreeOk(words, root, role) && TableAt(words, root, Leaf(I2(vpn), I1(vpn))) == Some(p)
    requires p in words && |words[p]| == ENTRIES && v < VPNS && vpn < VPNS && v != vpn
    ensures I0(vpn) < ENTRIES
    ensures PteAt(SetEntry(words, p, I0(vpn), pte), root, v) == PteAt(words, root, v)
  {
    hide IsTable, Entry, SetEntry, IsValid, PaOf, I0, I1, I2, TableAt;
    IndexBound(vpn);
    IsTableOf(words, p);
    SetEntryEntries(words, p, I0(vpn), pte);
    SetLeafTables(words, root, role, p, vpn, pte);
    var pos := Leaf(I2(v), I1(v));
    if TableAt(words, root, pos) == Some(p) && I0(v) == I0(vpn) {
      assert role[p] == pos;
      PathInjective(v, vpn);
    }
  }

  /** A tree depends on its own pages only. */
  ghost predicate SameOn(words: Words, words': Words, pages: set<nat>)
  {
    forall p :: p in pages && p in words ==> p in words' && words'[p] == words[p]
  }

  lemma TreeFrame(words: Words, words': Words, root: nat, role: map<nat, Pos>)
    requires TreeOk(words, root, role) && SameOn(words, words', role.Keys)
    ensures TreeOk(words', root, role) && SameMap(words, words', root)
  {
    hide TableAt, I0, I1, I2, IsValid, IsPointer, Entry;
    forall p: nat, i: nat | p in role ensures Entry(words', p, i) == Entry(words, p, i) {
      SameEntry(words, words', p, i);
    }
    forall pos ensures TableAt(words', root, pos) == TableAt(words, root, pos) {
      FrameTable(words, words', root, role, pos);
    }
  }

  lemma SameEntry(words: Words, words': Words, p: nat, i: nat)
    requires IsTable(words, p) && p in words' && words'[p] == words[p]
    ensures Entry(words', p, i) == Entry(words, p, i)
  {
  }

  lemma FrameTable(words: Words, words': Words, root: nat, role: map<nat, Pos>, pos: Pos)
    requires TreeOk(words, root, role)
    requires forall p: nat, i: nat :: p in role ==> Entry(words', p, i) == Entry(words, p, i)
    ensures TableAt(words', root, pos) == TableAt(words, root, pos)
  {
    hide Entry, IsValid, PaOf, PointersOk, IsTable;
    assert TableAt(words, root, Root) == Some(root);
    match pos
    case Root =>
    case Mid(i2) => assert Child(words', root, i2) == Child(words, root, i2);
    case Leaf(i2, i1) =>
      assert TableAt(words, root, Mid(i2)) == Child(words, root, i2);
      assert Child(words', root, i2) == Child(words, root, i2);
  }
}
