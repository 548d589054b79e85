/** Physical pages: the page allocator (class allocator in os/mm/allocator.h) and the page-table
    operations of os/mm/vmem.cc that write raw pages.  A page is looked at as 512 words while it
    serves as a table and as 4096 bytes while it holds data. */
module PageMemory {
  import opened Basics
  import opened PageTable

  ghost function Elems(s: seq<nat>): (r: set<nat>) { set x | x in s }

  lemma InElems(s: seq<nat>, p: nat)
    ensures p in s <==> p in Elems(s)
  {
  }

  lemma {:induction false} CountOf(s: seq<nat>)
    requires NoDup(s)
    ensures |Elems(s)| == |s|
  {
    if |s| > 0 {
      var t := s[1..];
      CountOf(t);
      assert s == [s[0]] + t;
      assert Elems(s) == Elems(t) + {s[0]};
      assert s[0] !in Elems(t);
    }
  }

  lemma OnlyOnce(pa: nat, s: seq<nat>)
    requires NoDup(s)
    ensures NoDup([pa] + s) <==> pa !in s
  {
    var t := [pa] + s;
    if pa in s {
      var i :| 0 <= i < |s| && s[i] == pa;
      assert t[0] == t[i + 1];
    }
  }

  function RoundDown(a: nat): (r: nat) { a / PGSIZE * PGSIZE }
  function RoundUp(a: nat): (r: nat) { (a + PGSIZE - 1) / PGSIZE * PGSIZE }

  /** The nearest page boundaries at or below, and at or above an address. */
  lemma Rounding(a: nat)
    ensures RoundDown(a) % 0x1000 == 0 && RoundDown(a) <= a < RoundDown(a) + 0x1000
    ensures RoundUp(a) % 0x1000 == 0 && a <= RoundUp(a) < a + 0x1000
  {
  }

  /** PX(level, va) of the page with number vpn. */
  function Index(level: nat, vpn: nat): (i: nat)
  {
    if level == 2 then I2(vpn) else if level == 1 then I1(vpn) else I0(vpn)
  }

  /** Where walk stands when it is about to use the index of a level. */
  function PosAt(level: nat, vpn: nat): (pos: Pos)
  {
    if level == 2 then Root else if level == 1 then Mid(I2(vpn)) else Leaf(I2(vpn), I1(vpn))
  }

  datatype WalkResult = Panicked | Null | Slot(page: nat, index: nat)
  datatype MapResult = Mapped | OutOfMemory | Panic

  /** What the allocator and the tables look like at one moment. */
  datatype Snap = Snap(words: Words, free: seq<nat>)

  ghost predicate SameOutside(words: Words, words': Words, pages: set<nat>)
  {
    forall p :: p !in pages ==> (p in words <==> p in words') && (p in words && p in words' ==> words'[p] == words[p])
  }

  /** The tree took pages from the free list, kept its own, and wrote no page outside it. */
  ghost predicate Extends(s: Snap, role: map<nat, Pos>, s': Snap, role': map<nat, Pos>)
  {
    && (forall p :: p in role ==> p in role' && role'[p] == role[p])
    && Elems(s'.free) <= Elems(s.free)
    && role'.Keys + Elems(s'.free) == role.Keys + Elems(s.free)
    && SameOutside(s.words, s'.words, role'.Keys)
  }

  lemma ExtendsTrans(s: Snap, role: map<nat, Pos>, s1: Snap, role1: map<nat, Pos>, s2: Snap, role2: map<nat, Pos>)
    requires Extends(s, role, s1, role1) && Extends(s1, role1, s2, role2)
    ensures Extends(s, role, s2, role2)
  {
    hide Elems;
  }

  /** Pages [lo, lo+n) translate to consecutive physical pages from pa, all others as before. */
  ghost predicate MapsRange(words: Words, words': Words, root: nat, lo: nat, n: nat, pa: nat, perm: nat)
  {
    forall v: nat :: v < VPNS ==> PteAt(words', root, v) == NewPte(words, root, lo, n, pa, perm, v)
  }

  ghost function NewPte(words: Words, root: nat, lo: nat, n: nat, pa: nat, perm: nat, v: nat): (pte: nat)
  {
    if lo <= v < lo + n then MakePte(pa + (v - lo) * PGSIZE, perm) else PteAt(words, root, v)
  }

  /** Pages [lo, lo+n) have a zero entry, all others translate as before. */
  ghost predicate UnmapsRange(words: Words, words': Words, root: nat, lo: nat, n: nat)
  {
    forall v: nat :: v < VPNS ==> PteAt(words', root, v) == (if lo <= v < lo + n then 0 else PteAt(words, root, v))
  }

  ghost predicate Unmapped(words: Words, root: nat, lo: nat, n: nat)
  {
    forall v: nat :: lo <= v < lo + n ==> !IsValid(PteAt(words, root, v))
  }

  /** uvmunmap undoes mappages. */
  lemma UnmapRestores(w0: Words, w1: Words, w2: Words, root: nat, lo: nat, n: nat, pa: nat, perm: nat)
    requires MapsRange(w0, w1, root, lo, n, pa, perm) && UnmapsRange(w1, w2, root, lo, n) && Unmapped(w0, root, lo, n)
    ensures SameTranslation(w0, w2, root)
  {
    hide PteAt, MakePte, IsValid;
    EmptyEntry();
  }

  class Memory {
    const start: nat
    const end: nat
    var free: seq<nat>                  // free_page_list, top first
    var count: nat                      // free_page_count
    var words: Words
    var bytes: map<nat, seq<byte>>

    predicate InRange(p: nat) { IsPage(p) && start <= p < end }

    ghost predicate Valid()
      reads this
    {
      && count == |free| && NoDup(free) && (forall p :: p in free ==> InRange(p))
      && (forall p :: InRange(p) ==> p in bytes && |bytes[p]| == PGSIZE)
    }

    /** The tree below root is sound and uses no free page. */
    ghost predicate Holds(root: nat, role: map<nat, Pos>)
      reads this
    {
      && Valid() && TreeOk(words, root, role)
      && (forall p :: p in role ==> InRange(p) && p !in free)
    }

    ghost function Now(): (s: Snap)
      reads this
    {
      Snap(words, free)
    }

    constructor (from: nat, to: nat, ram: map<nat, seq<byte>>)
      requires forall p :: p in ram ==> |ram[p]| == PGSIZE
      requires forall p: nat :: IsPage(p) && RoundUp(from) <= p < RoundDown(to) ==> p in ram
      ensures Valid() && start == RoundUp(from) && end == RoundDown(to)
      ensures forall p :: p in free <==> InRange(p)
    {
      start, end := RoundUp(from), RoundDown(to);
      free, count, words, bytes := [], 0, map[], ram;
      new;
      var p := start;
      while p < end
        invariant start <= p && p % PGSIZE == 0
        invariant Valid() && forall q: nat :: q in free <==> IsPage(q) && start <= q < p && q < end
        decreases end - p
      {
        var ok := FreePage(p);
        NextPage(p);
        p := p + PGSIZE;
      }
    }

    /** allocator::free_page; false is the panic.  The free list survives exactly when the page was
        not on it already. */
    method FreePage(pa: nat) returns (ok: bool)
      requires Valid()
      modifies this`free, this`count
      ensures Valid() <==> !(InRange(pa) && pa in old(free))
      ensures ok <==> pa == 0 || InRange(pa)
      ensures free == (if InRange(pa) then [pa] + old(free) else old(free))
    {
      if pa == 0 { return true; }
      if pa % PGSIZE != 0 || pa < start || end <= pa { return false; }
      free, count := [pa] + free, count + 1;
      OnlyOnce(pa, old(free));
      return true;
    }

    /** pagetable[i] = pte. */
    method Store(p: nat, i: nat, pte: nat)
      requires Valid() && p in words && i < |words[p]|
      modifies this`words
      ensures Valid() && words == SetEntry(old(words), p, i, pte)
    {
      hide NoDup;
      words := SetEntry(words, p, i, pte);
    }

    /** allocator::alloc_page: the page freed last, or 0. */
    method AllocPage() returns (pa: nat)
      requires Valid()
      modifies this`free, this`count
      ensures Valid()
      ensures old(free) == [] ==> pa == 0 && free == []
      ensures old(free) != [] ==> InRange(pa) && pa !in free && old(free) == [pa] + free
    {
      if |free| == 0 { return 0; }
      pa := free[0];
      free, count := free[1..], count - 1;
    }

    /** memset of a data page to zero. */
    method ClearPage(p: nat)
      requires Valid()
      modifies this`bytes
      ensures Valid() && bytes == old(bytes)[p := ZeroBytes()]
    {
      bytes := bytes[p := ZeroBytes()];
    }

    /** One level of walk. */
    method Descend(root: nat, ghost role: map<nat, Pos>, p: nat, i: nat, alloc: bool)
      returns (c: nat, ghost role': map<nat, Pos>)
      requires Holds(root, role) && p in role && !role[p].Leaf? && i < ENTRIES
      modifies this`free, this`count, this`words
      ensures Holds(root, role') && Extends(old(Now()), role, Now(), role') && SameMap(old(words), words, root)
      ensures c != 0 ==> TableAt(words, root, Below(role[p], i)) == Some(c)
      ensures c == 0 ==> Now() == old(Now()) && role' == role && TableAt(words, root, Below(role[p], i)) == None
      ensures c == 0 ==> (alloc ==> free == [])
      ensures |old(free)| <= |free| + 1
      ensures !alloc ==> Now() == old(Now()) && role' == role
    {
      hide TreeOk, Grow, TableAt, MakePte, SameMap, IsTable, NoDup;
      TableFacts(words, root, role, p);
      var pte := words[p][i];
      role' := role;
      if IsValid(pte) {
        ChildFacts(words, root, role, p, i);
        return PaOf(pte), role;
      }
      MissingChild(words, root, role, p, i);
      SameMapRefl(words, root);
      if !alloc { return 0, role; }
      c := AllocPage();
      if c == 0 { return; }
      GrowOk(words, root, role, p, i, c);
      GrowTables(words, root, role, p, i, c);
      GrowOutside(words, p, i, c);
      role' := role[c := Below(role[p], i)];
      words := Grow(words, p, i, c);
    }

    /** walk: finds the slot of a page, building the missing tables if asked to; no translation changes. */
    method Walk(root: nat, ghost role: map<nat, Pos>, va: nat, alloc: bool)
      returns (r: WalkResult, ghost role': map<nat, Pos>)
      requires Holds(root, role)
      modifies this`free, this`count, this`words
      ensures Holds(root, role') && Extends(old(Now()), role, Now(), role') && SameMap(old(words), words, root)
      ensures r.Panicked? <==> va >= MAXVA
      ensures r.Panicked? || !alloc ==> Now() == old(Now()) && role' == role
      ensures r.Slot? ==> r.index == I0(va / PGSIZE) && TableAt(words, root, PosAt(0, va / PGSIZE)) == Some(r.page)
      ensures r.Null? ==> TableAt(words, root, PosAt(0, va / PGSIZE)) == None
      ensures r.Null? ==> (alloc ==> free == [] && |old(free)| <= 1)
      ensures |old(free)| <= |free| + 2
    {
      hide TreeOk, TableAt, SameMap, NoDup, I0, I1, I2, Memory.Valid, Extends;
      role' := role;
      ExtendsRefl(Now(), role);
      SameMapRefl(words, root);
      if va >= MAXVA { return Panicked, role; }
      ghost var vpn := va / PGSIZE;
      var level, p := 2, root;
      RootFacts(words, root, role);
      while level > 0
        invariant 0 <= level <= 2
        invariant Holds(root, role') && Extends(old(Now()), role, Now(), role') && SameMap(old(words), words, root)
        invariant !alloc ==> Now() == old(Now()) && role' == role
        invariant TableAt(words, root, PosAt(level, vpn)) == Some(p)
        invariant |old(free)| <= |free| + 2 - level
      {
        TableIsOwned(words, root, role', PosAt(level, vpn));
        var i := Px(level, va);
        ghost var s1, role1 := Now(), role';
        var c;
        c, role' := Descend(root, role', p, i, alloc);
        ExtendsTrans(old(Now()), role, s1, role1, Now(), role');
        SameMapTrans(old(words), s1.words, words, root);
        if c == 0 {
          NoDeeper(words, root, level, vpn);
          return Null, role';
        }
        level, p := level - 1, c;
      }
      r := Slot(p, Px(0, va));
    }

    /** One round of mappages. */
    method MapOne(root: nat, ghost role: map<nat, Pos>, a: nat, pa: nat, perm: nat)
      returns (r: MapResult, ghost role': map<nat, Pos>)
      requires Holds(root, role)
      modifies this`free, this`count, this`words
      ensures Holds(root, role') && Extends(old(Now()), role, Now(), role')
      ensures MapsRange(old(words), words, root, a / PGSIZE, if r.Mapped? then 1 else 0, pa, perm)
      ensures r.Mapped? ==> a < MAXVA && !IsValid(PteAt(old(words), root, a / PGSIZE))
      ensures r.OutOfMemory? ==> free == [] && |old(free)| <= 1
      ensures |old(free)| <= |free| + 2
      ensures r.Panic? ==> a >= MAXVA || IsValid(PteAt(old(words), root, a / PGSIZE))
    {
      hide TreeOk, TableAt, NoDup, I0, I1, I2, Extends, MakePte, IsValid, PteAt, Entry;
      ghost var vpn := a / PGSIZE;
      assert a < MAXVA ==> vpn < VPNS;
      var w;
      w, role' := Walk(root, role, a, true);
      if w.Panicked? { return Panic, role'; }
      if w.Null? { return OutOfMemory, role'; }
      SlotFacts(words, root, role', w.page, vpn);
      if IsValid(words[w.page][w.index]) { return Panic, role'; }
      SetLeafOk(words, root, role', w.page, vpn, MakePte(pa, perm));
      ghost var s1 := Now();
      words := SetEntry(words, w.page, w.index, MakePte(pa, perm));
      SetExtends(old(Now()), role, s1, role', w.page, w.index, MakePte(pa, perm));
      StoreMaps(old(words), s1.words, words, root, vpn, pa, perm);
      r := Mapped;
    }

    /** mappages: maps the pages of [va, va+size) in order and stops at the first that is mapped
        already, lies beyond MAXVA or has no room for its tables; k pages are mapped in the end. */
    method Mappages(root: nat, ghost role: map<nat, Pos>, va: nat, pa: nat, size: nat, perm: nat)
      returns (r: MapResult, ghost role': map<nat, Pos>, ghost k: nat)
      requires Holds(root, role) && Fits(va, size)
      modifies this`free, this`count, this`words
      ensures Holds(root, role') && Extends(old(Now()), role, Now(), role')
      ensures k <= PageCount(va, size) && (r.Mapped? <==> k == PageCount(va, size))
      ensures MapsRange(old(words), words, root, va / PGSIZE, k, pa, perm)
      ensures Unmapped(old(words), root, va / PGSIZE, k) && (k > 0 ==> va / PGSIZE + k <= MAX_PAGES)
      ensures r.OutOfMemory? ==> free == [] && |old(free)| <= 2 * k + 1
      ensures |old(free)| <= |free| + 2 * k + 2 && (r.Mapped? ==> |old(free)| <= |free| + 2 * k)
      ensures r.Panic? ==> va / PGSIZE + k >= MAX_PAGES || IsValid(PteAt(old(words), root, va / PGSIZE + k))
    {
      hide TreeOk, NoDup, Memory.Valid, Extends, MakePte, IsValid, PteAt, Memory.Holds, PageCount, LastPage;
      ghost var lo, n := va / PGSIZE, PageCount(va, size);
      var a, last, pa1 := RoundDown(va), LastPage(va, size), pa;
      RangeArithmetic(va, size);
      role', k := role, 0;
      ExtendsRefl(Now(), role);
      while true
        invariant k < n && a == (lo + k) * PGSIZE && pa1 == pa + k * PGSIZE
        invariant k > 0 ==> lo + k <= MAX_PAGES
        invariant Holds(root, role') && Extends(old(Now()), role, Now(), role')
        invariant MapsRange(old(words), words, root, lo, k, pa, perm) && Unmapped(old(words), root, lo, k)
        invariant |old(free)| <= |free| + 2 * k
        decreases MAXVA - a
      {
        ghost var s1, role1 := Now(), role';
        assert a / PGSIZE == lo + k;
        r, role' := MapOne(root, role', a, pa1, perm);
        ExtendsTrans(old(Now()), role, s1, role1, Now(), role');
        if !r.Mapped? {
          MapNothing(old(words), s1.words, words, root, lo, k, pa, perm, lo + k, pa1);
          return;
        }
        MapStep(old(words), s1.words, words, root, lo, k, pa, perm);
        AtLast(va, size, k);
        k := k + 1;
        if a == last { return; }
        a, pa1 := a + PGSIZE, pa1 + PGSIZE;
      }
    }

    /** One round of uvmunmap; false is a panic. */
    method UnmapOne(root: nat, ghost role: map<nat, Pos>, a: nat, doFree: bool) returns (ok: bool)
      requires Holds(root, role)
      requires doFree ==> Freeable(Now(), root, role, a / PGSIZE, 1)
      modifies this`free, this`count, this`words
      ensures Holds(root, role) && SameOutside(old(words), words, role.Keys)
      ensures ok <==> a < MAXVA && IsLeaf(PteAt(old(words), root, a / PGSIZE))
      ensures UnmapsRange(old(words), words, root, a / PGSIZE, if ok then 1 else 0)
      ensures free == (if ok && doFree then [PaOf(PteAt(old(words), root, a / PGSIZE))] + old(free) else old(free))
    {
      hide TreeOk, TableAt, I0, I1, I2, MakePte, PaOf, IsValid, PteAt, Entry, Extends, IsPage, NoDup;
      ghost var vpn := a / PGSIZE;
      var w;
      ghost var same;
      w, same := Walk(root, role, a, false);
      if w.Panicked? { return false; }
      if w.Null? {
        NoSlot(words, root, vpn);
        return false;
      }
      SlotFacts(words, root, role, w.page, vpn);
      var pte := words[w.page][w.index];
      if !IsValid(pte) || FlagsOf(pte) == 1 { return false; }
      if doFree {
        ok := FreePage(PaOf(pte));
      }
      SetLeafOk(words, root, role, w.page, vpn, 0);
      words := SetEntry(words, w.page, w.index, 0);
      ok := true;
    }

    /** The frames of the mapped pages of a range may be given back: pages of the allocator, each
        mapped once in the range, neither free nor tables. */
    ghost predicate Freeable(s: Snap, root: nat, role: map<nat, Pos>, lo: nat, n: nat)
    {
      && (forall v: nat :: lo <= v < lo + n && v < VPNS ==> FrameOk(s, role, PteAt(s.words, root, v)))
      && (forall v: nat, w: nat :: lo <= v < w < lo + n && w < VPNS ==>
          FramesDiffer(PteAt(s.words, root, v), PteAt(s.words, root, w)))
    }

    ghost predicate FrameOk(s: Snap, role: map<nat, Pos>, pte: nat)
    {
      IsValid(pte) ==> InRange(PaOf(pte)) && PaOf(pte) !in s.free && PaOf(pte) !in role
    }

    lemma FreeableStep(s: Snap, s': Snap, root: nat, role: map<nat, Pos>, lo: nat, n: nat)
      requires n > 0 && lo < VPNS && Freeable(s, root, role, lo, n) && UnmapsRange(s.words, s'.words, root, lo, 1)
      requires IsValid(PteAt(s.words, root, lo))
      requires s'.free == s.free || s'.free == [PaOf(PteAt(s.words, root, lo))] + s.free
      ensures Freeable(s', root, role, lo + 1, n - 1)
    {
      hide PteAt, IsValid, PaOf, Memory.InRange;
      forall v: nat | lo + 1 <= v < lo + n && v < VPNS ensures FrameOk(s', role, PteAt(s'.words, root, v)) {
        assert FramesDiffer(PteAt(s.words, root, lo), PteAt(s.words, root, v));
        assert FrameOk(s, role, PteAt(s.words, root, v));
      }
      forall v: nat, w: nat | lo + 1 <= v < w < lo + n && w < VPNS
        ensures FramesDiffer(PteAt(s'.words, root, v), PteAt(s'.words, root, w))
      {
        assert FramesDiffer(PteAt(s.words, root, v), PteAt(s.words, root, w));
      }
    }

    /** uvmunmap: succeeds exactly on an aligned range of leaves; clears it and, if asked to, gives
        back its frames in the order of the pages. */
    method Uvmunmap(root: nat, ghost role: map<nat, Pos>, va: nat, size: nat, doFree: bool) returns (ok: bool)
      requires Holds(root, role) && Fits(va, size)
      requires doFree && va % PGSIZE == 0 && size % PGSIZE == 0 ==>
                 Freeable(Now(), root, role, va / PGSIZE, PageCount(va, size))
      modifies this`free, this`count, this`words
      ensures Holds(root, role) && SameOutside(old(words), words, role.Keys)
      ensures ok <==>
              va % PGSIZE == 0 && size % PGSIZE == 0 && AllLeaves(old(words), root, va / PGSIZE, PageCount(va, size))
      ensures ok ==> UnmapsRange(old(words), words, root, va / PGSIZE, PageCount(va, size))
      ensures ok && doFree ==> free == Freed(old(words), root, va / PGSIZE, PageCount(va, size)) + old(free)
      ensures ok && !doFree ==> free == old(free)
    {
      hide TreeOk, NoDup, Memory.Valid, IsValid, PteAt, Memory.Holds, IsLeaf, PaOf, Memory.Freeable, UnmapsRange;
      hide AllLeaves, SameOutside, Freed, PageCount, RoundDown, LastPage;
      UnmapStart(words, root, va / PGSIZE, role.Keys);
      if va % PGSIZE != 0 || size % PGSIZE != 0 { return false; }
      ghost var lo, n, k := va / PGSIZE, PageCount(va, size), 0;
      var a, last := va, LastPage(va, size);
      RangeArithmetic(va, size);
      while true
        invariant k < n && a == (lo + k) * PGSIZE
        invariant Holds(root, role) && SameOutside(old(words), words, role.Keys)
        invariant doFree ==> Freeable(Now(), root, role, lo + k, n - k)
        invariant AllLeaves(old(words), root, lo, k) && UnmapsRange(old(words), words, root, lo, k)
        invariant free == (if doFree then Freed(old(words), root, lo, k) else []) + old(free)
        decreases MAXVA - a
      {
        ghost var s1 := Now();
        assert a / PGSIZE == lo + k;
        if doFree { FreeableHead(s1, root, role, lo + k, n - k); }
        ok := UnmapOne(root, role, a, doFree);
        UnmapStep(old(words), s1.words, words, root, lo, k, ok);
        SameOutsideTrans(old(words), s1.words, words, role.Keys);
        if !ok { return; }
        if doFree {
          FreeableNext(s1, Now(), root, role, lo + k, n - k);
          FreedStep(old(words), root, lo, k, old(free));
        }
        AtLast(va, size, k);
        k := k + 1;
        if a == last { return; }
        a := a + PGSIZE;
      }
    }

    /** uvmunmap of an empty aligned range, which sets out to unmap, and give back, whatever lies behind
        it.  Each round may halt for any reason (`more` is arbitrary); whatever the rounds do, the
        loop never gets to its last page, which is the one before the range. */
    method UnmapOnwards(va: nat) returns (ok: bool)
      requires va % PGSIZE == 0 && Fits(va, 0)
      ensures !ok
    {
      hide LastPage;
      var a, last := va, LastPage(va, 0);
      while true
        invariant a % PGSIZE == 0 && va <= a
        decreases MAXVA - a
      {
        var more: bool := *;
        if a >= MAXVA || !more { return false; }
        NeverLast(va, a);
        if a == last { return true; }
        a := a + PGSIZE;
      }
    }

    /** mappages of an aligned range and then uvmunmap of it: every translation is as it was. */
    method MapUnmap(root: nat, ghost role: map<nat, Pos>, va: nat, pa: nat, size: nat, perm: nat)
      returns (r: MapResult, ok: bool, ghost role': map<nat, Pos>)
      requires Holds(root, role) && Fits(va, size) && 2 <= perm < 1024 && va % PGSIZE == 0 && size % PGSIZE == 0
      modifies this`free, this`count, this`words
      ensures Holds(root, role') && Extends(old(Now()), role, Now(), role')
      ensures r.Mapped? ==> ok && SameTranslation(old(words), words, root)
    {
      hide TreeOk, NoDup, Memory.Valid, Extends, MapsRange, UnmapsRange, Unmapped, AllLeaves, MakePte, IsValid, PteAt;
      hide Memory.Holds, PageCount, SameOutside;
      ghost var k, w0 := 0, words;
      ok := false;
      r, role', k := Mappages(root, role, va, pa, size, perm);
      if !r.Mapped? { return; }
      ghost var s1 := Now();
      RangeArithmetic(va, size);
      MappedAreLeaves(w0, words, root, va, size, pa, perm);
      ok := Uvmunmap(root, role', va, size, false);
      UnmapRestores(w0, s1.words, words, root, va / PGSIZE, k, pa, perm);
      UnmapExtends(old(Now()), role, s1, Now(), role');
    }

    lemma FreeableHead(s: Snap, root: nat, role: map<nat, Pos>, lo: nat, n: nat)
      requires n > 0 && Freeable(s, root, role, lo, n)
      ensures Freeable(s, root, role, lo, 1)
    {
    }

    lemma FreeableNext(s: Snap, s': Snap, root: nat, role: map<nat, Pos>, lo: nat, n: nat)
      requires n > 0 && lo < VPNS && Freeable(s, root, role, lo, n) && UnmapsRange(s.words, s'.words, root, lo, 1)
      requires IsLeaf(PteAt(s.words, root, lo)) && s'.free == [PaOf(PteAt(s.words, root, lo))] + s.free
      ensures Freeable(s', root, role, lo + 1, n - 1)
    {
      FreeableStep(s, s', root, role, lo, n);
    }
  }

  ghost predicate FramesDiffer(pte: nat, pte': nat)
  {
    IsValid(pte) && IsValid(pte') ==> PaOf(pte) != PaOf(pte')
  }

  ghost predicate AllLeaves(words: Words, root: nat, lo: nat, n: nat)
  {
    (n > 0 ==> lo + n <= MAX_PAGES) && forall v: nat :: lo <= v < lo + n ==> IsLeaf(PteAt(words, root, v))
  }

  /** The frames of the pages [lo, lo+k), last page first. */
  ghost function Freed(words: Words, root: nat, lo: nat, k: nat): (s: seq<nat>)
  {
    if k == 0 then [] else [PaOf(PteAt(words, root, lo + k - 1))] + Freed(words, root, lo, k - 1)
  }

  lemma {:induction false} FreedElems(words: Words, root: nat, lo: nat, k: nat, x: nat)
    ensures x in Freed(words, root, lo, k) <==> exists v: nat :: lo <= v < lo + k && PaOf(PteAt(words, root, v)) == x
  {
    hide PaOf, PteAt;
    if k > 0 { FreedElems(words, root, lo, k - 1, x); }
  }

  lemma FreedStep(words: Words, root: nat, lo: nat, k: nat, rest: seq<nat>)
    ensures [PaOf(PteAt(words, root, lo + k))] + (Freed(words, root, lo, k) + rest)
            == Freed(words, root, lo, k + 1) + rest
  {
    hide PaOf, PteAt;
  }

  lemma UnmapStart(words: Words, root: nat, lo: nat, pages: set<nat>)
    ensures UnmapsRange(words, words, root, lo, 0) && AllLeaves(words, root, lo, 0) && SameOutside(words, words, pages)
    ensures Freed(words, root, lo, 0) == []
  {
  }

  lemma SameOutsideTrans(w0: Words, w1: Words, w2: Words, pages: set<nat>)
    requires SameOutside(w0, w1, pages) && SameOutside(w1, w2, pages)
    ensures SameOutside(w0, w2, pages)
  {
  }

  lemma UnmapStep(w0: Words, w1: Words, w2: Words, root: nat, lo: nat, k: nat, ok: bool)
    requires UnmapsRange(w0, w1, root, lo, k) && UnmapsRange(w1, w2, root, lo + k, if ok then 1 else 0)
    requires AllLeaves(w0, root, lo, k)
    requires ok <==> lo + k < MAX_PAGES && IsLeaf(PteAt(w1, root, lo + k))
    ensures lo + k < VPNS ==> PteAt(w1, root, lo + k) == PteAt(w0, root, lo + k)
    ensures ok ==> AllLeaves(w0, root, lo, k + 1) && UnmapsRange(w0, w2, root, lo, k + 1)
    ensures !ok ==> forall n :: n > k ==> !AllLeaves(w0, root, lo, n)
  {
    hide PteAt, IsLeaf;
    if !ok && lo + k < MAX_PAGES {
      forall n | n > k ensures !AllLeaves(w0, root, lo, n) { assert !IsLeaf(PteAt(w0, root, lo + k)); }
    }
  }

  /** What uvmunmap takes for a leaf: valid, and some other flag set. */
  predicate IsLeaf(pte: nat) { IsValid(pte) && FlagsOf(pte) != 1 }

  /** The number of pages that the loops of mappages and uvmunmap are set for: the pages that meet
      [va, va+size).  For an empty range their last page is the one before va, so that they
      run over one page, or around the whole address space. */
  function PageCount(va: nat, size: nat): (n: nat)
  {
    if size > 0 then (va + size - 1) / PGSIZE - va / PGSIZE + 1 else if va % PGSIZE != 0 then 1 else 0x10_0000_0000_0000
  }

  /** A page is among these exactly if it holds a byte of the range. */
  lemma PagesTouched(va: nat, size: nat, v: nat)
    requires size > 0
    ensures va / 0x1000 <= v < va / 0x1000 + PageCount(va, size) <==> v * 0x1000 < va + size && va < (v + 1) * 0x1000
  {
  }

  /** The range does not run past the end of the 64-bit address space. */
  predicate Fits(va: nat, size: nat) { va < 0x1_0000_0000_0000_0000 && va + size <= 0x1_0000_0000_0000_0000 }

  /** PGROUNDDOWN(va + size - 1) in 64 bits. */
  function LastPage(va: nat, size: nat): (a: nat)
  {
    RoundDown((va + size + 0xFFFF_FFFF_FFFF_FFFF) % 0x1_0000_0000_0000_0000)
  }

  lemma RangeArithmetic(va: nat, size: nat)
    requires Fits(va, size)
    ensures RoundDown(va) == va / PGSIZE * PGSIZE && PageCount(va, size) >= 1
  {
  }

  /** The loops stop at their last page and not before. */
  lemma AtLast(va: nat, size: nat, k: nat)
    requires Fits(va, size) && k < PageCount(va, size) && (va / PGSIZE + k) * PGSIZE < MAXVA
    ensures (va / PGSIZE + k) * PGSIZE == LastPage(va, size) <==> k == PageCount(va, size) - 1
  {
    if size > 0 {
      assert LastPage(va, size) == RoundDown(va + size - 1);
    } else if va > 0 {
      assert LastPage(va, size) == RoundDown(va - 1);
    }
  }

  lemma NeverLast(va: nat, a: nat)
    requires va % PGSIZE == 0 && Fits(va, 0) && va <= a < MAXVA
    ensures a != LastPage(va, 0)
  {
    if va > 0 { assert LastPage(va, 0) == RoundDown(va - 1); }
  }

  lemma SlotFacts(words: Words, root: nat, role: map<nat, Pos>, p: nat, vpn: nat)
    requires TreeOk(words, root, role) && TableAt(words, root, PosAt(0, vpn)) == Some(p)
    ensures p in role && p in words && |words[p]| == ENTRIES && I0(vpn) < ENTRIES
    ensures words[p][I0(vpn)] == PteAt(words, root, vpn)
  {
  }

  lemma NoSlot(words: Words, root: nat, vpn: nat)
    requires TableAt(words, root, PosAt(0, vpn)) == None
    ensures !IsValid(PteAt(words, root, vpn))
  {
  }

  lemma SetExtends(s: Snap, role: map<nat, Pos>, s1: Snap, role': map<nat, Pos>, p: nat, i: nat, pte: nat)
    requires Extends(s, role, s1, role') && p in role' && p in s1.words && i < |s1.words[p]|
    ensures Extends(s, role, Snap(SetEntry(s1.words, p, i, pte), s1.free), role')
  {
  }

  lemma StoreMaps(w0: Words, w1: Words, w2: Words, root: nat, vpn: nat, pa: nat, perm: nat)
    requires SameMap(w0, w1, root) && PteAt(w2, root, vpn) == MakePte(pa, perm)
    requires forall v: nat :: v < VPNS && v != vpn ==> PteAt(w2, root, v) == PteAt(w1, root, v)
    ensures MapsRange(w0, w2, root, vpn, 1, pa, perm)
  {
    hide PteAt, MakePte;
  }

  lemma MapStep(w0: Words, w1: Words, w2: Words, root: nat, lo: nat, k: nat, pa: nat, perm: nat)
    requires MapsRange(w0, w1, root, lo, k, pa, perm) && MapsRange(w1, w2, root, lo + k, 1, pa + k * PGSIZE, perm)
    requires Unmapped(w0, root, lo, k) && !IsValid(PteAt(w1, root, lo + k)) && lo + k < VPNS
    ensures MapsRange(w0, w2, root, lo, k + 1, pa, perm) && Unmapped(w0, root, lo, k + 1)
  {
    hide PteAt, MakePte, IsValid;
    assert PteAt(w1, root, lo + k) == PteAt(w0, root, lo + k);
  }

  lemma MapNothing(w0: Words, w1: Words, w2: Words, root: nat, lo: nat, k: nat, pa: nat, perm: nat, lo': nat, pa': nat)
    requires MapsRange(w0, w1, root, lo, k, pa, perm) && MapsRange(w1, w2, root, lo', 0, pa', perm)
    ensures MapsRange(w0, w2, root, lo, k, pa, perm)
  {
    hide PteAt, MakePte, IsValid;
  }

  function ZeroBytes(): (s: seq<byte>)
    ensures |s| == PGSIZE && forall i :: 0 <= i < PGSIZE ==> s[i] == 0
  {
    seq(PGSIZE, i => 0)
  }

  lemma MappedAreLeaves(w0: Words, w1: Words, root: nat, va: nat, size: nat, pa: nat, perm: nat)
    requires MapsRange(w0, w1, root, va / PGSIZE, PageCount(va, size), pa, perm) && 2 <= perm < 1024
    requires va / PGSIZE + PageCount(va, size) <= MAX_PAGES
    ensures AllLeaves(w1, root, va / PGSIZE, PageCount(va, size))
  {
    hide PteAt, MakePte, IsValid, FlagsOf, PageCount;
    var lo, n := va / PGSIZE, PageCount(va, size);
    forall v: nat | lo <= v < lo + n ensures IsLeaf(PteAt(w1, root, v)) {
      LeafFields(pa + (v - lo) * PGSIZE, perm);
    }
  }

  lemma LeafFields(pa: nat, perm: nat)
    requires 2 <= perm < 1024
    ensures IsLeaf(MakePte(pa, perm))
  {
    DivMod(pa / PGSIZE, OrV(perm));
  }

  lemma UnmapExtends(s: Snap, role: map<nat, Pos>, s1: Snap, s2: Snap, role': map<nat, Pos>)
    requires Extends(s, role, s1, role') && s2.free == s1.free && SameOutside(s1.words, s2.words, role'.Keys)
    ensures Extends(s, role, s2, role')
  {
  }

  /** PX. */
  function Px(level: nat, va: nat): (i: nat)
    requires level <= 2
    ensures i == Index(level, va / PGSIZE) && i < ENTRIES
  {
    if level == 2 then va / PGSIZE / 0x4_0000 % ENTRIES
    else if level == 1 then va / PGSIZE / ENTRIES % ENTRIES
    else va / PGSIZE % ENTRIES
  }

  lemma NextPage(p: nat)
    requires p % PGSIZE == 0
    ensures (p + PGSIZE) % PGSIZE == 0
    ensures forall q :: p < q < p + PGSIZE ==> q % PGSIZE != 0
  {
  }

  lemma TableFacts(words: Words, root: nat, role: map<nat, Pos>, p: nat)
    requires TreeOk(words, root, role) && p in role
    ensures p in words && |words[p]| == ENTRIES && IsPage(p)
    ensures forall i: nat :: i < ENTRIES ==> words[p][i] == Entry(words, p, i)
  {
  }

  lemma RootFacts(words: Words, root: nat, role: map<nat, Pos>)
    requires TreeOk(words, root, role)
    ensures TableAt(words, root, Root) == Some(root) && root in role && role[root] == Root
  {
    assert TableAt(words, root, Root) == Some(root);
  }

  lemma TableIsOwned(words: Words, root: nat, role: map<nat, Pos>, pos: Pos)
    requires TreeOk(words, root, role) && TableAt(words, root, pos).Some?
    ensures var p := TableAt(words, root, pos).value; p in role && role[p] == pos
  {
  }

  lemma ChildFacts(words: Words, root: nat, role: map<nat, Pos>, p: nat, i: nat)
    requires TreeOk(words, root, role) && p in role && !role[p].Leaf? && IsValid(Entry(words, p, i))
    ensures TableAt(words, root, Below(role[p], i)) == Some(PaOf(Entry(words, p, i))) && PaOf(Entry(words, p, i)) != 0
    ensures SameMap(words, words, root)
  {
    hide IsValid, PaOf;
    assert TableAt(words, root, role[p]) == Some(p);
    var pos := Below(role[p], i);
    assert TableAt(words, root, pos) == Some(PaOf(Entry(words, p, i)));
  }

  lemma MissingChild(words: Words, root: nat, role: map<nat, Pos>, p: nat, i: nat)
    requires TreeOk(words, root, role) && p in role && !role[p].Leaf? && !IsValid(Entry(words, p, i))
    ensures TableAt(words, root, Below(role[p], i)) == None
  {
    NoTableBelow(words, root, role, p, i);
  }

  lemma SameMapRefl(words: Words, root: nat)
    ensures SameMap(words, words, root)
  {
  }

  lemma SameMapTrans(w0: Words, w1: Words, w2: Words, root: nat)
    requires SameMap(w0, w1, root) && SameMap(w1, w2, root)
    ensures SameMap(w0, w2, root)
  {
    hide PteAt;
  }

  lemma ExtendsRefl(s: Snap, role: map<nat, Pos>)
    ensures Extends(s, role, s, role)
  {
  }

  lemma GrowOutside(words: Words, p: nat, i: nat, q: nat)
    requires p in words && i < |words[p]| && p != q
    ensures SameOutside(words, Grow(words, p, i, q), {p, q})
  {
  }

  lemma NoDeeper(words: Words, root: nat, level: nat, vpn: nat)
    requires 1 <= level <= 2 && TableAt(words, root, PosAt(level - 1, vpn)) == None
    ensures TableAt(words, root, PosAt(0, vpn)) == None
  {
  }
}
