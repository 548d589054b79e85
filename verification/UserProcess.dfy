/** Building and tearing down the address space of a user process (os/proc/process.cc). */
module UserProcess {
  import opened Basics
  import opened PageTable
  import opened PageMemory
  import opened AddressSpace
  import opened PageTeardown

  const TRAMPOLINE := 0x3F_FFFF_F000        // MAXVA - PGSIZE
  const TRAPFRAME := 0x3F_FFFF_E000         // TRAMPOLINE - PGSIZE
  const USER_STACK_TOP := 0x1F_FFFF_F000    // USER_TOP - USTACK_SIZE
  const PTE_R := 2
  const PTE_W := 4
  const PTE_X := 8
  const PTE_U := 16
  const MAP_DEFAULT := 0
  const MAP_SHARED := 1
  const MAP_USER := 4

  /** mmap_info. */
  datatype Info = Info(start: nat, size: nat, flags: nat, pteFlags: nat)

  predicate IsShared(flags: nat) { flags % 2 == MAP_SHARED }

  /** flags & ~MAP_SHARED. */
  function Unshared(flags: nat): (f: nat)
    ensures !IsShared(f) && flags - 1 <= f <= flags
  {
    flags / 2 * 2
  }

  ghost function RegionOf(info: Info): (r: Region)
  {
    Region(info.start / PGSIZE, if info.size == 0 then 0 else PageCount(info.start, info.size),
        IsShared(info.flags), info.pteFlags)
  }

  ghost function RegionsOf(infos: seq<Info>): (r: seq<Region>)
    ensures |r| == |infos| && forall i :: 0 <= i < |infos| ==> r[i] == RegionOf(infos[i])
  {
    seq(|infos|, i requires 0 <= i < |infos| => RegionOf(infos[i]))
  }

  lemma RegionsPush(infos: seq<Info>, info: Info)
    ensures RegionsOf(infos + [info]) == RegionsOf(infos) + [RegionOf(info)]
  {
  }

  /** The entry can be unmapped: aligned, not empty, and not taken for a pointer by uvmunmap. */
  predicate Tidy(info: Info)
  {
    info.start % PGSIZE == 0 && info.size % PGSIZE == 0 && info.size > 0 && OrV(info.pteFlags) != 1
  }

  ghost predicate NoEmpty(infos: seq<Info>)
  {
    forall i :: 0 <= i < |infos| ==> infos[i].size > 0
  }

  /** One of PTE_R, PTE_W and PTE_X. */
  predicate HasAccess(perm: nat) { perm / 2 % 8 != 0 }

  /** The mapped pages, and the data pages among them, of a list of regions. */
  ghost predicate Owns(mem: Memory, s: Snap, root: nat, role: map<nat, Pos>, regions: seq<Region>, who: map<nat, nat>,
                       data: map<nat, nat>)
  {
    SpaceOk(s, root, regions, who, data, 0) && DataPages(mem, role, data)
  }

  ghost predicate DataPages(mem: Memory, role: map<nat, Pos>, data: map<nat, nat>)
  {
    forall p: nat :: p in data ==> mem.InRange(p) && p !in role
  }

  /** Frames that the caller allocated and that nobody else uses. */
  ghost predicate Loose(mem: Memory, s: Snap, role: map<nat, Pos>, data: map<nat, nat>, frame: nat, n: nat)
  {
    forall p: nat :: p in FrameSet(frame, n) ==> mem.InRange(p) && p !in s.free && p !in role && p !in data
  }

  class Process {
    const mem: Memory
    var pagetable: nat
    var infos: seq<Info>                // mmap_infos
    var trapframe: nat                  // trapframe_pa
    ghost var role: map<nat, Pos>       // table pages
    ghost var who: map<nat, nat>        // mapped pages, by entry of infos
    ghost var data: map<nat, nat>       // physical pages to give back, by page
    ghost var stray: seq<Region>        // pages left behind by a failed __mmap, in no entry

    ghost predicate Built()
      reads this, mem
    {
      && mem.Valid()
      && (forall i :: 0 <= i < |infos| ==> infos[i].pteFlags < 1024 && Fits(infos[i].start, infos[i].size))
      && (if pagetable == 0 then infos == [] && role == map[] && data == map[] && who == map[]
          else mem.Holds(pagetable, role) && Owns(mem, mem.Now(), pagetable, role, RegionsOf(infos), who, data))
      && stray == []
    }

    /** The same with pages that are mapped but in no entry. */
    ghost predicate Strayed()
      reads this, mem
    {
      && mem.Valid()
      && (forall i :: 0 <= i < |infos| ==> infos[i].pteFlags < 1024 && Fits(infos[i].start, infos[i].size))
      && pagetable != 0 && mem.Holds(pagetable, role)
      && |stray| == 1 && stray[0].n > 0 && HasAccess(stray[0].perm)
      && Owns(mem, mem.Now(), pagetable, role, RegionsOf(infos) + stray, who, data)
    }

    /** All pages that are free or belong to this process. */
    ghost function Stock(): (s: set<nat>)
      reads this`role, this`data, mem`free
    {
      Elems(mem.free) + role.Keys + data.Keys
    }

    /** What the hardware finds at an address: the page of an entry of the list, with the entry's flags, and in
        a frame of its own if the entry is private; nothing, if no entry has the page or its flags allow
        neither reading nor executing. */
    lemma HardwareSees(va: nat)
      requires Built() && pagetable != 0 && va < 0x80_0000_0000
      ensures match Sv39(mem.words, pagetable, va, 2)
              case Page(pte, level) =>
                && level == 0 && va / 0x1000 in who && who[va / 0x1000] < |infos|
                && var info := infos[who[va / 0x1000]];
                   && pte % 0x400 == OrV(info.pteFlags) && info.start / 0x1000 <= va / 0x1000
                   && (!IsShared(info.flags) ==>
                         pte / 0x400 * 0x1000 in data && data[pte / 0x400 * 0x1000] == va / 0x1000)
              case Fault =>
                va / 0x1000 in who && who[va / 0x1000] < |infos| ==>
                  var f := infos[who[va / 0x1000]].pteFlags; f / 2 % 2 == 0 && (f / 4 % 2 == 1 || f / 8 % 2 == 0)
    {
      hide TreeOk, RegionsOk, LiveOk, FramesOk, NotFree, Sv39, OrV, PteAt, DataPages, Memory.Valid, PageCount;
      Hardware(mem.words, pagetable, role, RegionsOf(infos), who, data, va);
    }

    constructor (m: Memory)
      requires m.Valid()
      ensures Built() && mem == m && pagetable == 0
    {
      mem, pagetable, infos, trapframe := m, 0, [], 0;
      role, who, data, stray := map[], map[], map[], [];
    }

    /** uvmmap at the end of the region being built. */
    method MapMore(ghost base: seq<Region>, ghost r: Region, va: nat, pa: nat, size: nat, perm: nat)
      returns (res: MapResult, ghost k: nat)
      requires mem.Holds(pagetable, role) && Owns(mem, mem.Now(), pagetable, role, base + [r], who, data)
      requires size > 0 && Fits(va, size) && perm == r.perm < 1024 && va / PGSIZE == r.lo + r.n
      requires r.shared || Loose(mem, mem.Now(), role, data, pa / PGSIZE, PageCount(va, size))
      modifies this`role, this`who, this`data, mem`free, mem`count, mem`words
      ensures mem.Holds(pagetable, role) && Extends(old(mem.Now()), old(role), mem.Now(), role)
      ensures k <= PageCount(va, size) && (res.Mapped? <==> k == PageCount(va, size))
      ensures MapsRange(old(mem.words), mem.words, pagetable, va / PGSIZE, k, pa, perm)
      ensures Unmapped(old(mem.words), pagetable, va / PGSIZE, k) && (k > 0 ==> va / PGSIZE + k <= MAX_PAGES)
      ensures res.Mapped? ==> Owns(mem, mem.Now(), pagetable, role, base + [r.(n := r.n + PageCount(va, size))],
              who, data)
      ensures res.Mapped? && r.shared ==> data == old(data)
      ensures res.Mapped? && !r.shared ==>
                data == old(data) + FrameMap(pa / PGSIZE, va / PGSIZE, PageCount(va, size))
      ensures res.Mapped? ==> who == old(who) + WhoMap(va / PGSIZE, PageCount(va, size), |base|)
      ensures !res.Mapped? ==> who == old(who) && data == old(data)
      ensures k == 0 ==> Owns(mem, mem.Now(), pagetable, role, base + [r], who, data)
      ensures res.OutOfMemory? ==> mem.free == [] && |old(mem.free)| <= 2 * k + 1
      ensures res.Mapped? ==> |old(mem.free)| <= |mem.free| + 2 * k
      ensures res.Panic? ==> va / PGSIZE + k >= MAX_PAGES || IsValid(PteAt(old(mem.words), pagetable, va / PGSIZE + k))
    {
      hide Memory.Valid, Memory.Holds, TreeOk, SpaceOk, Extends, MapsRange, Unmapped, IsValid, PteAt, FrameMap;
      hide FrameSet, PageCount, Elems, WhoMap, Loose, DataPages;
      ghost var s0, role0 := mem.Now(), role;
      ghost var n := PageCount(va, size);
      ghost var role1;
      res, role1, k := mem.Mappages(pagetable, role, va, pa, size, perm);
      role := role1;
      ExtendsFree(s0, role0, mem.Now(), role);
      DataKept(mem, s0, role0, mem.Now(), role, pagetable, base + [r], who, data);
      if !res.Mapped? {
        if k == 0 {
          NothingMapped(s0.words, mem.words, pagetable, va / PGSIZE, pa, perm);
          OwnsFrame(mem, s0, role0, mem.Now(), role, pagetable, base + [r], who, data);
        }
        return;
      }
      CountPositive(va, size);
      if !r.shared { LooseApart(mem, s0, role0, data, pa / PGSIZE, n, mem.Now(), role, va / PGSIZE); }
      GrowOne(base, r, n);
      GrowSpace(s0, mem.Now(), pagetable, base + [r], base + [r.(n := r.n + n)], who, data, n, pa);
      who := who + WhoMap(va / PGSIZE, n, |base|);
      data := if r.shared then data else data + FrameMap(pa / PGSIZE, va / PGSIZE, n);
    }

    /** The overload of __mmap for physical pages that the caller has. */
    method MmapAt(va: nat, pa: nat, size: nat, flags: nat, perm: nat) returns (res: MapResult, ghost k: nat)
      requires Built() && pagetable != 0 && size > 0 && Fits(va, size) && perm < 1024
      requires IsShared(flags) || Loose(mem, mem.Now(), role, data, pa / PGSIZE, PageCount(va, size))
      modifies this`infos, this`role, this`who, this`data, this`stray, mem`free, mem`count, mem`words
      ensures Extends(old(mem.Now()), old(role), mem.Now(), role)
      ensures MapsRange(old(mem.words), mem.words, pagetable, va / PGSIZE, k, pa, perm)
      ensures Unmapped(old(mem.words), pagetable, va / PGSIZE, k)
      ensures k <= PageCount(va, size) && (res.Mapped? <==> k == PageCount(va, size))
      ensures res.Mapped? ==> Built() && infos == old(infos) + [Info(va, size, flags, perm)]
      ensures res.Mapped? && IsShared(flags) ==> data == old(data)
      ensures res.Mapped? && !IsShared(flags) ==>
                data == old(data) + FrameMap(pa / PGSIZE, va / PGSIZE, PageCount(va, size))
      ensures !res.Mapped? ==> infos == old(infos) && data == old(data) && (k == 0 ==> Built())
      ensures !res.Mapped? && k > 0 && HasAccess(perm) ==> Strayed()
      ensures res.OutOfMemory? ==> mem.free == [] && |old(mem.free)| <= 2 * k + 1
      ensures res.Mapped? ==> |old(mem.free)| <= |mem.free| + 2 * k
      ensures res.Panic? ==> va / PGSIZE + k >= MAX_PAGES || IsValid(PteAt(old(mem.words), pagetable, va / PGSIZE + k))
    {
      hide Memory.Valid, TreeOk, SpaceOk, Extends, MapsRange, Unmapped, IsValid, PteAt, FrameMap, FrameSet, PageCount;
      hide Elems, WhoMap, Loose, DataPages, MakePte, IsShared;
      CountPositive(va, size);
      RegionsLength(infos);
      ghost var s0, role0 := mem.Now(), role;
      ghost var r := Region(va / PGSIZE, 0, IsShared(flags), perm);
      AddRegion(mem.Now(), pagetable, RegionsOf(infos), who, data, r);
      res, k := MapMore(RegionsOf(infos), r, va, pa, size, perm);
      if !res.Mapped? {
        if k == 0 {
          DropRegion(mem.Now(), pagetable, RegionsOf(infos), who, data, r);
        } else {
          LeftBehind(mem, s0, role0, mem.Now(), role, pagetable, RegionsOf(infos), who, data, va / PGSIZE, k, pa, perm);
          who := who + WhoMap(va / PGSIZE, k, |infos|);
          stray := [Region(va / PGSIZE, k, true, perm)];
        }
        return;
      }
      RegionsPush(infos, Info(va, size, flags, perm));
      infos := infos + [Info(va, size, flags, perm)];
    }

    /** alloc_page while the process has a page table. */
    method TakePage() returns (pa: nat)
      requires mem.Holds(pagetable, role)
      modifies mem`free, mem`count
      ensures mem.Holds(pagetable, role)
      ensures pa == 0 ==> mem.Now() == old(mem.Now()) && mem.free == []
      ensures pa != 0 ==> mem.InRange(pa) && pa !in mem.free && pa !in role && old(mem.free) == [pa] + mem.free
    {
      hide TreeOk, NoDup;
      pa := mem.AllocPage();
    }

    /** One round of the loop of the other overload: a fresh page, mapped at cur.  If the tables
        cannot be built the fresh page is dropped. */
    method MmapOne(ghost base: seq<Region>, ghost r: Region, cur: nat, perm: nat)
      returns (res: MapResult, ghost page: nat, ghost lost: set<nat>)
      requires mem.Holds(pagetable, role) && Owns(mem, mem.Now(), pagetable, role, base + [r], who, data)
      requires !r.shared && perm == r.perm < 1024 && cur % PGSIZE == 0 && cur / PGSIZE == r.lo + r.n
      requires Fits(cur, PGSIZE)
      modifies this`role, this`who, this`data, mem`free, mem`count, mem`words
      ensures mem.Holds(pagetable, role) && Elems(mem.free) <= old(Elems(mem.free))
      ensures SameOutside(old(mem.words), mem.words, role.Keys)
      ensures RoleGrows(old(role), role)
      ensures Stock() + lost == old(Stock())
      ensures MapsRange(old(mem.words), mem.words, pagetable, cur / PGSIZE, if res.Mapped? then 1 else 0, page, perm)
      ensures res.Mapped? ==> Owns(mem, mem.Now(), pagetable, role, base + [r.(n := r.n + 1)], who, data) && lost == {}
      ensures res.Mapped? ==> page in old(mem.free) && page % PGSIZE == 0
      ensures res.Mapped? ==> !IsValid(PteAt(old(mem.words), pagetable, cur / PGSIZE)) && cur / PGSIZE < MAX_PAGES
      ensures res.Mapped? ==> data == old(data)[page := cur / PGSIZE] && who == old(who)[cur / PGSIZE := |base|]
      ensures res.Mapped? ==> page !in old(data)
      ensures !res.Mapped? ==> Owns(mem, mem.Now(), pagetable, role, base + [r], who, data) && data == old(data)
      ensures !res.Mapped? ==> who == old(who)
      ensures lost <= {page} && lost <= old(Elems(mem.free))
      ensures res.OutOfMemory? ==> |old(mem.free)| <= 2
      ensures res.Mapped? ==> |old(mem.free)| <= |mem.free| + 3
      ensures res.Panic? ==> cur / PGSIZE >= MAX_PAGES || IsValid(PteAt(old(mem.words), pagetable, cur / PGSIZE))
    {
      hide TreeOk, SpaceOk, Extends, MapsRange, Unmapped, IsValid, PteAt, FrameMap, FrameSet, PageCount, Elems;
      hide WhoMap, Loose, DataPages, MakePte, NoDup, SameOutside, RoleGrows, Owns, Memory.InRange, Memory.Valid;
      hide Memory.Holds;
      ghost var s0, role0 := mem.Now(), role;
      MapsNothing(s0.words, pagetable, cur / PGSIZE, perm, role);
      var pa := TakePage();
      page := pa;
      if pa == 0 { return OutOfMemory, 0, {}; }
      ghost var s1 := mem.Now();
      TakenPage(mem, s0, s1, pagetable, role, base + [r], who, data, pa);
      OnePage(cur, pa, cur / PGSIZE, |base|);
      ghost var k;
      res, k := MapMore(base, r, cur, pa, PGSIZE, perm);
      lost := if res.Mapped? then {} else {pa};
      if res.Mapped? { FirstUnmapped(s1.words, pagetable, cur / PGSIZE, k); }
      OneMapped(s0, role0, s1, mem.Now(), role, pa, cur / PGSIZE, k);
    }

    /** m pages of the anonymous region are mapped; nothing else has changed since s0. */
    ghost predicate Building(s0: Snap, role0: map<nat, Pos>, who0: map<nat, nat>, data0: map<nat, nat>, va: nat, m: nat,
                             perm: nat)
      reads this, mem
    {
      && mem.Holds(pagetable, role)
      && Owns(mem, mem.Now(), pagetable, role, RegionsOf(infos) + [Region(va / PGSIZE, m, false, perm)], who, data)
      && NewData(data0, data, who, |infos|)
      && AnonRange(s0.words, mem.words, pagetable, Elems(s0.free), va / PGSIZE, m, perm)
      && Elems(mem.free) <= Elems(s0.free) && RoleGrows(role0, role) && SameOutside(s0.words, mem.words, role.Keys)
    }

    /** One more page of the anonymous region. */
    method BuildOne(ghost s0: Snap, ghost role0: map<nat, Pos>, ghost who0: map<nat, nat>, ghost data0: map<nat, nat>,
                    va: nat, ghost m: nat, cur: nat, perm: nat)
      returns (res: MapResult, ghost lost: set<nat>)
      requires Building(s0, role0, who0, data0, va, m, perm) && va % PGSIZE == 0 && cur == va + m * PGSIZE
      requires perm < 1024 && Fits(cur, PGSIZE)
      modifies this`role, this`who, this`data, mem`free, mem`count, mem`words
      ensures Building(s0, role0, who0, data0, va, if res.Mapped? then m + 1 else m, perm)
      ensures Stock() + lost == old(Stock()) && |lost| <= 1 && lost <= Elems(s0.free) && (res.Mapped? ==> lost == {})
      ensures res.OutOfMemory? ==> |old(mem.free)| <= 2
      ensures res.Mapped? ==> |old(mem.free)| <= |mem.free| + 3
      ensures res.Panic? ==> va / PGSIZE + m >= MAX_PAGES || IsValid(PteAt(s0.words, pagetable, va / PGSIZE + m))
    {
      hide Memory.Holds, Owns, NewData, AnonRange, Elems, RoleGrows, SameOutside, MapsRange, IsValid, PteAt;
      hide Memory.Valid, RegionsOf, Process.Stock, OrV;
      ghost var s1 := mem.Now();
      ghost var r := Region(va / PGSIZE, m, false, perm);
      ghost var w1, role1, who1, data1, page := mem.words, role, who, data, 0;
      NextAddress(va, m);
      res, page, lost := MmapOne(RegionsOf(infos), r, cur, perm);
      RegionsLength(infos);
      if res.Mapped? {
        InElems(s1.free, page);
        NotMapped(mem, s1, pagetable, role1, RegionsOf(infos) + [r], who1, data1, cur / PGSIZE);
      }
      StillAsBefore(s0, w1, pagetable, va / PGSIZE, m, perm);
      AnonNext(s0, w1, mem.words, pagetable, va / PGSIZE, m, perm, page, res.Mapped?);
      if res.Mapped? { NewDataNext(data0, data1, who1, page, cur / PGSIZE, |infos|); }
      GrowsNext(s0.words, w1, mem.words, role0, role1, role);
      AtMostOne(lost, page);
    }

    /** The overload of __mmap that allocates, for an aligned start: fresh pages for the whole range,
        or, when memory runs out, every translation as before and all pages back but the one
        that could not be mapped. */
    method MmapAligned(va: nat, size: nat, flags: nat, perm: nat) returns (res: MapResult, ghost lost: set<nat>)
      requires Built() && pagetable != 0 && size > 0 && va % PGSIZE == 0 && perm < 1024 && Fits(va, size + PGSIZE)
      modifies this`infos, this`role, this`who, this`data, mem`free, mem`count, mem`words
      ensures res.Mapped? ==> Built() && infos == old(infos) + [Info(va, size, Unshared(flags), perm)] && lost == {}
      ensures res.Mapped? ==> AnonRange(old(mem.words), mem.words, pagetable, old(Elems(mem.free)), va / PGSIZE,
              PageCount(va, size), perm)
      ensures res.Mapped? ==> |old(mem.free)| <= |mem.free| + 3 * PageCount(va, size)
      ensures res.OutOfMemory? ==> Built() && infos == old(infos) && data == old(data)
      ensures res.OutOfMemory? ==> SameTranslation(old(mem.words), mem.words, pagetable)
      ensures res.OutOfMemory? ==> |old(mem.free)| < 3 * PageCount(va, size)
      ensures res.Panic? ==> Blocked(old(mem.words), pagetable, va / PGSIZE, PageCount(va, size)) || OrV(perm) == 1
      ensures !res.Panic? ==> Stock() + lost == old(Stock()) && |lost| <= 1 && lost <= old(Elems(mem.free))
      ensures RoleGrows(old(role), role) && SameOutside(old(mem.words), mem.words, role.Keys)
    {
      hide Memory.Holds, Owns, NewData, AnonRange, Elems, RoleGrows, SameOutside, IsValid, PteAt, Memory.Valid;
      hide RegionsOf, PageCount, SameTranslation, Process.Stock, SpaceOk, Blocked, OrV;
      ghost var s0, role0, who0, data0 := mem.Now(), role, who, data;
      ghost var m := 0;
      BuildStart(mem, s0, pagetable, role, infos, who, data, va / PGSIZE, perm);
      lost := {};
      var cur, end := va, va + size;
      while cur < end
        invariant Building(s0, role0, who0, data0, va, m, perm) && cur == va + m * PGSIZE && cur < end + PGSIZE
        invariant infos == old(infos) && pagetable == old(pagetable) && Stock() == old(Stock())
        invariant |s0.free| <= |mem.free| + 3 * m
        decreases end - cur
      {
        MorePages(va, size, m);
        res, lost := BuildOne(s0, role0, who0, data0, va, m, cur, perm);
        if res.Panic? {
          BlockedAt(s0.words, pagetable, va / PGSIZE, m, PageCount(va, size));
          return;
        }
        if res.OutOfMemory? {
          var ok := Rollback(s0, role0, who0, data0, va, m, cur, perm);
          if !ok { res := Panic; }
          HoldsValid();
          return;
        }
        m, cur := m + 1, cur + PGSIZE;
      }
      AllPages(va, size, m);
      RegionsPush(infos, Info(va, size, Unshared(flags), perm));
      HoldsValid();
      infos := infos + [Info(va, size, Unshared(flags), perm)];
      res, lost := Mapped, {};
    }

    /** The same loop for a start inside a page.  The first round maps two pages from the one it has
        allocated; a second round, if there is one, meets the second of them or has to roll
        back from an unaligned start, and halts. */
    method MmapUnaligned(va: nat, size: nat, flags: nat, perm: nat) returns (res: MapResult, ghost page: nat)
      requires Built() && pagetable != 0 && size > 0 && va % PGSIZE != 0 && perm < 1024 && Fits(va, size + 2 * PGSIZE)
      modifies this`infos, this`role, mem`free, mem`count, mem`words
      ensures res.Mapped? ==> size <= PGSIZE && infos == old(infos) + [Info(va, size, Unshared(flags), perm)]
      ensures res.Mapped? ==> MapsRange(old(mem.words), mem.words, pagetable, va / PGSIZE, 2, page, perm)
      ensures res.Mapped? ==> Unmapped(old(mem.words), pagetable, va / PGSIZE, 2)
      ensures res.Mapped? ==> va / PGSIZE + 2 <= MAX_PAGES && page % PGSIZE == 0 && page in old(mem.free)
      ensures res.Mapped? ==> forall p :: p in old(mem.free) && p != page ==> p in mem.free || p in role
      ensures res.OutOfMemory? ==> |old(mem.free)| <= 4
      ensures res.Panic? ==> size > PGSIZE || Blocked(old(mem.words), pagetable, va / PGSIZE, 2)
    {
      hide Memory.Valid, TreeOk, SpaceOk, Extends, MapsRange, Unmapped, IsValid, PteAt, PageCount, Elems, DataPages;
      hide MakePte, Blocked, RoleGrows, SameOutside, NoDup, Owns;
      ghost var s0, role0 := mem.Now(), role;
      var pa := TakePage();
      page := pa;
      if pa == 0 { return OutOfMemory, 0; }
      ghost var s1 := mem.Now();
      ghost var k, role1;
      TwoPages(va);
      res, role1, k := mem.Mappages(pagetable, role, va, pa, PGSIZE, perm);
      role := role1;
      if res.Panic? { BlockedAt(s1.words, pagetable, va / PGSIZE, k, 2); }
      if !res.Mapped? { return; }
      OthersLeft(s0, role0, s1, mem.Now(), role, pa);
      if size <= PGSIZE {
        infos := infos + [Info(va, size, Unshared(flags), perm)];
        return;
      }
      ghost var s2 := mem.Now();
      pa := TakePage();
      res := OutOfMemory;
      if pa != 0 {
        res, role1, k := mem.Mappages(pagetable, role, va + PGSIZE, pa, PGSIZE, perm);
        role := role1;
        SecondRound(s1.words, s2.words, pagetable, va, page, perm, k);
      }
      if res.OutOfMemory? {
        var ok := mem.Uvmunmap(pagetable, role, va, PGSIZE, true);
        if !ok { res := Panic; }
      }
    }

    /** For an empty range the loop does not run; the entry is listed all the same. */
    method MmapEmpty(va: nat, flags: nat, perm: nat)
      requires Built() && pagetable != 0 && perm < 1024 && Fits(va, 0)
      modifies this`infos
      ensures Built() && infos == old(infos) + [Info(va, 0, Unshared(flags), perm)]
    {
      hide SpaceOk, Memory.Holds, DataPages, Memory.Valid;
      var info := Info(va, 0, Unshared(flags), perm);
      AddRegion(mem.Now(), pagetable, RegionsOf(infos), who, data, RegionOf(info));
      RegionsPush(infos, info);
      infos := infos + [info];
    }

    /** The overload of __mmap that allocates.  It gives every new page a page of its own exactly when
        the start is aligned or the range is empty. */
    method Mmap(va: nat, size: nat, flags: nat, perm: nat)
      returns (res: MapResult, ghost page: nat, ghost lost: set<nat>)
      requires Built() && pagetable != 0 && perm < 1024 && Fits(va, size + 2 * PGSIZE)
      modifies this`infos, this`role, this`who, this`data, mem`free, mem`count, mem`words
      ensures res.Mapped? ==> infos == old(infos) + [Info(va, size, Unshared(flags), perm)]
      ensures res.Mapped? ==> (OwnFrames(old(mem.Now()), mem.Now(), pagetable, role) <==> va % PGSIZE == 0 || size == 0)
      ensures size == 0 ==> res.Mapped? && Built() && mem.Now() == old(mem.Now()) && Stock() == old(Stock())
      ensures res.Mapped? && va % PGSIZE != 0 && size > 0 ==>
                MapsRange(old(mem.words), mem.words, pagetable, va / PGSIZE, 2, page, perm) && page % PGSIZE == 0
      ensures va % PGSIZE == 0 && size > 0 ==>
                AlignedResult(old(mem.Now()), mem.Now(), va / PGSIZE, PageCount(va, size), perm, res)
      ensures va % PGSIZE == 0 && !res.Panic? ==> Built() && Stock() + lost == old(Stock()) && |lost| <= 1
      ensures va % PGSIZE == 0 && !res.Panic? ==> (res.Mapped? ==> lost == {})
      ensures va % PGSIZE == 0 && res.OutOfMemory? ==> infos == old(infos) && data == old(data)
      ensures va % PGSIZE != 0 && res.OutOfMemory? ==> |old(mem.free)| <= 4
      ensures va % PGSIZE != 0 && res.Panic? ==> size > PGSIZE || Blocked(old(mem.words), pagetable, va / PGSIZE, 2)
    {
      hide Process.Built, AnonRange, MapsRange, Unmapped, RoleGrows, SameOutside, SameTranslation, PageCount, Elems;
      hide OwnFrames, Blocked, Process.Stock, IsValid, PteAt, OrV;
      ghost var s0 := mem.Now();
      page, lost := 0, {};
      if size == 0 {
        MmapEmpty(va, flags, perm);
        OwnNothing(s0, pagetable, role);
        res := Mapped;
      } else if va % PGSIZE == 0 {
        res, lost := MmapAligned(va, size, flags, perm);
        if res.Mapped? { OwnAligned(s0, va, size, flags, perm); }
      } else {
        res, page := MmapUnaligned(va, size, flags, perm);
        if res.Mapped? { NotOwnUnaligned(s0, mem.Now(), pagetable, role, va / PGSIZE, page, perm); }
      }
    }

    /** What __mmap does for an aligned start, and when it does not succeed. */
    ghost predicate AlignedResult(s0: Snap, s1: Snap, lo: nat, n: nat, perm: nat, res: MapResult)
      reads this
    {
      match res
      case Mapped => AnonRange(s0.words, s1.words, pagetable, Elems(s0.free), lo, n, perm)
          && |s0.free| <= |s1.free| + 3 * n
      case OutOfMemory => SameTranslation(s0.words, s1.words, pagetable) && |s0.free| < 3 * n
      case Panic => Blocked(s0.words, pagetable, lo, n) || OrV(perm) == 1
    }

    lemma OwnAligned(s0: Snap, va: nat, size: nat, flags: nat, perm: nat)
      requires Built() && pagetable != 0 && size > 0
      requires infos != [] && infos[|infos| - 1] == Info(va, size, Unshared(flags), perm)
      requires AnonRange(s0.words, mem.words, pagetable, Elems(s0.free), va / PGSIZE, PageCount(va, size), perm)
      ensures OwnFrames(s0, mem.Now(), pagetable, role)
    {
      hide Memory.Holds, PteAt, IsValid, FlagsOf, OrV, PaOf, PageCount;
      var regions, last := RegionsOf(infos), |infos| - 1;
      assert regions[last] == RegionOf(infos[last]) && !regions[last].shared;
      forall v: nat | v < VPNS && !IsValid(PteAt(s0.words, pagetable, v)) && IsValid(PteAt(mem.words, pagetable, v))
        ensures OwnFrame(s0, mem.Now(), role, PaOf(PteAt(mem.words, pagetable, v)))
      {
        assert In(regions[last], v);
        assert PageFrame(mem.words, pagetable, regions, who, data, 0, v);
        InElems(s0.free, PaOf(PteAt(mem.words, pagetable, v)));
      }
    }

    lemma HoldsValid()
      requires mem.Holds(pagetable, role)
      ensures mem.Valid()
    {
    }

    /** err_free: takes the pages mapped so far away again. */
    method Rollback(ghost s0: Snap, ghost role0: map<nat, Pos>, ghost who0: map<nat, nat>, ghost data0: map<nat, nat>,
                    va: nat, ghost m: nat, cur: nat, ghost perm: nat)
      returns (ok: bool)
      requires Building(s0, role0, who0, data0, va, m, perm) && va % PGSIZE == 0 && cur == va + m * PGSIZE
      requires Fits(va, cur - va)
      requires SpaceOk(s0, pagetable, RegionsOf(infos), who0, data0, 0)
      modifies this`who, this`data, mem`free, mem`count, mem`words
      ensures mem.Holds(pagetable, role) && RoleGrows(role0, role) && SameOutside(s0.words, mem.words, role.Keys)
      ensures ok <==> m == 0 || OrV(perm) != 1
      ensures ok ==> who == who0 && data == data0 && Owns(mem, mem.Now(), pagetable, role, RegionsOf(infos), who, data)
      ensures ok ==> SameTranslation(s0.words, mem.words, pagetable) && Stock() == old(Stock())
    {
      hide Memory.Holds, NewData, AnonRange, Elems, RoleGrows, SameOutside, IsValid, PteAt, Memory.Valid, RegionsOf;
      hide PageCount, SameTranslation, SpaceOk, DataPages, Freed, UnmapsRange, AllLeaves, Memory.Freeable, OrV;
      ghost var regions := RegionsOf(infos) + [Region(va / PGSIZE, m, false, perm)];
      ghost var s1 := mem.Now();
      RegionsLength(infos);
      if cur != va {
        DataFreeable(mem, s1, pagetable, role, regions, who, data, 0, |infos|);
        RegionLeaves(s1, pagetable, regions, who, data, 0, |infos|);
        WholePages(va, m);
        ok := mem.Uvmunmap(pagetable, role, va, cur - va, true);
        SameOutsideTrans(s0.words, s1.words, mem.words, role.Keys);
        if !ok { return; }
      } else {
        UnmapNone(s1, pagetable, va / PGSIZE);
      }
      Undone(mem, s0, s1, mem.Now(), pagetable, role, RegionsOf(infos), regions, who0, data0, who, data);
      who, data := who0, data0;
      ok := true;
    }

    /** The first k entries are unmapped and their data pages given back. */
    ghost predicate Torn(s0: Snap, k: nat)
      reads this, mem
    {
      && mem.Holds(pagetable, role) && SpaceOk(mem.Now(), pagetable, RegionsOf(infos) + stray, who, data, k)
      && DataPages(mem, role, data)
      && Elems(mem.free) == Elems(s0.free) + FramesBefore(who, data, k)
      && SameOutside(s0.words, mem.words, role.Keys)
    }

    /** One round of the loop of __free_pagetable. */
    method UnmapInfo(ghost s0: Snap, k: nat) returns (ok: bool)
      requires k < |infos| && Fits(infos[k].start, infos[k].size) && Torn(s0, k)
      modifies mem`free, mem`count, mem`words
      ensures infos[k].size > 0 ==> mem.Valid() && SameOutside(s0.words, mem.words, role.Keys)
      ensures ok <==> Tidy(infos[k])
      ensures ok ==> Torn(s0, k + 1)
    {
      hide TreeOk, SpaceOk, UnmapsRange, IsValid, PteAt, PageCount, Elems, DataPages, SameOutside, AllLeaves, Freed;
      hide FramesBefore, OrV, NoDup, Memory.InRange, Memory.Freeable;
      var info := infos[k];
      ghost var regions := RegionsOf(infos) + stray;
      RegionsLength(infos);
      ghost var s1 := mem.Now();
      if info.size == 0 && info.start % PGSIZE == 0 {
        ok := mem.UnmapOnwards(info.start);
        return;
      }
      if info.size > 0 {
        CountPositive(info.start, info.size);
        RegionLeaves(s1, pagetable, regions, who, data, k, k);
      }
      var doFree := !IsShared(info.flags);
      if doFree && info.size > 0 { DataFreeable(mem, s1, pagetable, role, regions, who, data, k, k); }
      ok := mem.Uvmunmap(pagetable, role, info.start, info.size, doFree);
      SameOutsideTrans(s0.words, s1.words, mem.words, role.Keys);
      if !ok { return; }
      UnmapRegion(s1, mem.Now(), pagetable, regions, who, data, k);
      FramesNext(s0, s1, mem.Now(), who, data, k);
    }

    /** __free_pagetable: unmaps every entry, then releases the tables.  Every page of the process
        ends up free, once; a second call does nothing.  Pages that a failed __mmap has left behind
        make it halt. */
    method FreePagetable() returns (ok: bool)
      requires Built() || Strayed()
      modifies this`pagetable, this`infos, this`role, this`who, this`data, mem`free, mem`count, mem`words
      ensures ok || NoEmpty(infos) ==> mem.Valid() && SameOutside(old(mem.words), mem.words, old(role).Keys)
      ensures ok <==> stray == [] && forall i :: 0 <= i < |old(infos)| ==> Tidy(old(infos)[i])
      ensures ok ==> Built() && pagetable == 0 && Elems(mem.free) == old(Stock())
      ensures old(pagetable) == 0 ==> mem.Now() == old(mem.Now())
    {
      hide Elems, DataPages, SameOutside, Tidy, Memory.Holds, Memory.Valid, Owns, Process.Torn, HasAccess;
      StockFacts();
      SameOutsideRefl(mem.words, role.Keys);
      ok := true;
      if pagetable != 0 {
        ghost var s0 := mem.Now();
        ok := UnmapAll(s0);
        if !ok { return; }
        ok := ReleaseTables(s0);
        if !ok { return; }
      }
      infos, pagetable := [], 0;
      role, who, data := map[], map[], map[];
    }

    lemma StockFacts()
      requires Built() || Strayed()
      ensures mem.Valid() && Stock() == Elems(mem.free) + role.Keys + data.Keys
      ensures pagetable == 0 ==> infos == [] && stray == [] && Stock() == Elems(mem.free)
      ensures stray == [] || (|stray| == 1 && stray[0].n > 0 && HasAccess(stray[0].perm))
    {
      hide Memory.Valid, Memory.Holds, Owns;
    }

    /** The loop of __free_pagetable.  At an empty entry it halts, after having unmapped other pages. */
    method UnmapAll(ghost s0: Snap) returns (ok: bool)
      requires (Built() || Strayed()) && pagetable != 0 && s0 == mem.Now()
      modifies mem`free, mem`count, mem`words
      ensures NoEmpty(infos) ==> mem.Valid() && SameOutside(s0.words, mem.words, role.Keys)
      ensures ok <==> forall i :: 0 <= i < |infos| ==> Tidy(infos[i])
      ensures ok ==> Torn(s0, |infos|)
    {
      hide SpaceOk, Elems, DataPages, SameOutside, FramesBefore, Tidy, Memory.Holds, Memory.Valid, HasAccess;
      TornStart(s0, role, who, data);
      assert stray == [] ==> RegionsOf(infos) + stray == RegionsOf(infos);
      HoldsValid();
      var k := 0;
      while k < |infos|
        invariant 0 <= k <= |infos| && Torn(s0, k) && mem.Valid()
        invariant forall i :: 0 <= i < k ==> Tidy(infos[i])
      {
        ok := UnmapInfo(s0, k);
        if !ok { return; }
        HoldsValid();
        k := k + 1;
      }
      ok := true;
    }

    method ReleaseTables(ghost s0: Snap) returns (ok: bool)
      requires pagetable != 0 && Torn(s0, |infos|)
      requires stray == [] || (|stray| == 1 && stray[0].n > 0 && HasAccess(stray[0].perm))
      modifies mem`free, mem`count, mem`words
      ensures mem.Valid() && SameOutside(s0.words, mem.words, role.Keys)
      ensures ok <==> stray == []
      ensures ok ==> Elems(mem.free) == Elems(s0.free) + role.Keys + data.Keys
    {
      hide TreeOk, SpaceOk, Elems, DataPages, SameOutside, FramesBefore, IsValid, PteAt, Entry, NoDup, Memory.InRange;
      hide Intact, Clear, LeavesArePages, Subtree, HasAccess;
      ghost var s1 := mem.Now();
      RegionsLength(infos);
      if stray == [] {
        NothingLive(s1, pagetable, role, RegionsOf(infos) + stray, who, data);
      } else {
        StrayLive(s1, pagetable, role, RegionsOf(infos) + stray, who, data);
      }
      WholeTree(s1, pagetable, role);
      ok := FreeTables(mem, mem.words, pagetable, role, pagetable);
      SameOutsideTrans(s0.words, s1.words, mem.words, role.Keys);
    }

    /** create_empty_user_pagetable and the two page allocations of __init_pagetable. */
    method TakeThree() returns (root: nat, frame: nat, stack: nat)
      requires mem.Valid()
      modifies mem`free, mem`count, mem`words
      ensures mem.Valid() && old(mem.free) == Pages(root, frame, stack) + mem.free
      ensures forall p :: p in Pages(root, frame, stack) ==> mem.InRange(p)
      ensures root == 0 ==> frame == 0
      ensures frame == 0 ==> stack == 0
      ensures if stack == 0 then |old(mem.free)| <= 2 else |old(mem.free)| == |mem.free| + 3
      ensures mem.words == (if root == 0 then old(mem.words) else old(mem.words)[root := ZeroPage()])
    {
      hide NoDup;
      root := mem.AllocPage();
      if root != 0 { mem.words := mem.words[root := ZeroPage()]; }
      frame := mem.AllocPage();
      stack := mem.AllocPage();
    }

    /** The exit of __init_pagetable when one of the three pages is missing. */
    method GiveBack(root: nat, frame: nat, stack: nat)
      requires mem.Valid() && (root == 0 ==> frame == 0) && stack == 0
      requires NoDup(Pages(root, frame, stack) + mem.free) && forall p :: p in Pages(root, frame, stack) ==>
              mem.InRange(p)
      requires root != 0 ==> root in mem.words && mem.words[root] == ZeroPage()
      modifies mem`free, mem`count, mem`words
      ensures mem.Valid() && Elems(mem.free) == old(Elems(Pages(root, frame, stack) + mem.free))
    {
      hide TreeOk, Intact, Clear, LeavesArePages, Subtree, Elems;
      ghost var f0 := mem.free;
      Spread(root, frame, stack, f0);
      if root != 0 {
        FreshTree(mem.words, root);
        FreshClear(mem.Now(), root);
        var ok := FreeTables(mem, mem.words, root, map[root := Root], root);
        InElems(mem.free, frame);
        InElems(f0, frame);
      }
      ghost var f1 := mem.free;
      var ok := mem.FreePage(frame);
      ok := mem.FreePage(stack);
      GivenBack(root, frame, f0, f1, mem.free);
    }

    /** __mmap of one page. */
    method MapFixed(va: nat, pa: nat, flags: nat, perm: nat) returns (ok: bool)
      requires Built() && pagetable != 0 && va % PGSIZE == 0 && perm < 1024 && Fits(va, PGSIZE)
      requires IsShared(flags) || Apart(mem, mem.Now(), role, data, pa)
      modifies this`infos, this`role, this`who, this`data, this`stray, mem`free, mem`count, mem`words
      ensures Built() && Extends(old(mem.Now()), old(role), mem.Now(), role)
      ensures ok ==> infos == old(infos) + [Info(va, PGSIZE, flags, perm)]
      ensures ok ==> data == (if IsShared(flags) then old(data) else old(data)[pa := va / PGSIZE])
      ensures MapsRange(old(mem.words), mem.words, pagetable, va / PGSIZE, if ok then 1 else 0, pa, perm)
      ensures !ok ==> infos == old(infos) && data == old(data)
      ensures !ok ==>
              |old(mem.free)| <= 1 || va / PGSIZE >= MAX_PAGES || IsValid(PteAt(old(mem.words), pagetable, va / PGSIZE))
      ensures ok ==> |old(mem.free)| <= |mem.free| + 2
    {
      hide Memory.Valid, Memory.Holds, TreeOk, SpaceOk, Extends, MapsRange, Unmapped, IsValid, PteAt, FrameMap;
      hide FrameSet, PageCount, Loose, Process.Built, MakePte, IsShared, Apart;
      if !IsShared(flags) { ApartLoose(mem, mem.Now(), role, data, pa, va, |infos|); }
      OneCount(va);
      ghost var k;
      var r;
      r, k := MmapAt(va, pa, PGSIZE, flags, perm);
      ok := r.Mapped?;
    }

    /** The page table with nothing mapped, before the first __mmap. */
    method StartSpace()
      requires mem.Valid() && pagetable != 0 && infos == [] && mem.InRange(pagetable) && pagetable !in mem.free
      requires pagetable in mem.words && mem.words[pagetable] == ZeroPage()
      modifies this`role, this`who, this`data, this`stray
      ensures Built() && role == map[pagetable := Root] && data == map[]
      ensures forall v: nat :: v < VPNS ==> PteAt(mem.words, pagetable, v) == 0
    {
      hide TreeOk, SpaceOk, PteAt;
      FreshTree(mem.words, pagetable);
      EmptySpace(mem.Now(), pagetable);
      RegionsLength([]);
      role, who, data, stray := map[pagetable := Root], map[], map[], [];
    }

    /** The three mappings of __init_pagetable. */
    method MapInitial(trampoline: nat, stack: nat) returns (ok: bool)
      requires Built() && pagetable != 0 && infos == [] && data == map[] && trapframe != stack
      requires Apart(mem, mem.Now(), role, data, trapframe) && Apart(mem, mem.Now(), role, data, stack)
      requires forall v: nat :: v < VPNS ==> PteAt(mem.words, pagetable, v) == 0
      modifies this`infos, this`role, this`who, this`data, this`stray, mem`free, mem`count, mem`words
      ensures Built() && Elems(mem.free) + role.Keys == old(Elems(mem.free) + role.Keys)
      ensures |infos| <= 3 && infos == InitialInfos()[..|infos|] && data.Keys <= {trapframe, stack}
      ensures ok ==> infos == InitialInfos() && data.Keys == {trapframe, stack}
      ensures ok ==> InitialMap(mem.words, pagetable, trampoline, trapframe, stack) && |old(mem.free)| <= |mem.free| + 6
      ensures |old(mem.free)| >= 6 ==> ok
    {
      hide Process.Built, Elems, Apart, PteAt, Extends, MapsRange, InitialMap, MakePte, IsValid;
      NotYet(mem.words, pagetable);
      ghost var s0, role0 := mem.Now(), role;
      ok := MapFixed(TRAMPOLINE, trampoline, MAP_SHARED, PTE_R + PTE_X);
      ghost var s1, role1 := mem.Now(), role;
      ExtendsSum(s0, role0, s1, role1);
      if !ok { return; }
      StillNotYet(s0.words, s1.words, pagetable, TRAMPOLINE, trampoline, PTE_R + PTE_X, TRAPFRAME);
      StillNotYet(s0.words, s1.words, pagetable, TRAMPOLINE, trampoline, PTE_R + PTE_X, USER_STACK_TOP);
      StillApart(mem, s0, role0, s1, role1, map[], trapframe);
      StillApart(mem, s0, role0, s1, role1, map[], stack);
      ok := MapFixed(TRAPFRAME, trapframe, MAP_DEFAULT, PTE_R + PTE_W);
      ghost var s2, role2 := mem.Now(), role;
      ExtendsSum(s1, role1, s2, role2);
      if !ok { return; }
      StillNotYet(s1.words, s2.words, pagetable, TRAPFRAME, trapframe, PTE_R + PTE_W, USER_STACK_TOP);
      StillApart(mem, s1, role1, s2, role2, map[], stack);
      AddApart(mem, s2, role2, stack, trapframe, TRAPFRAME / PGSIZE);
      ok := MapFixed(USER_STACK_TOP, stack, MAP_USER, PTE_U + PTE_R + PTE_W);
      ExtendsSum(s2, role2, mem.Now(), role);
      if !ok { return; }
      ThreeMapped(s0.words, s1.words, s2.words, mem.words, pagetable, trampoline, trapframe, stack);
    }

    /** alloc_page by a process with an address space: the page belongs to nobody yet. */
    method TakeLoose() returns (pa: nat)
      requires Built() && pagetable != 0
      modifies mem`free, mem`count
      ensures Built() && mem.words == old(mem.words) && (pa == 0 ==> old(mem.free) == [])
      ensures pa != 0 ==> |old(mem.free)| == |mem.free| + 1
      ensures pa != 0 ==> Apart(mem, mem.Now(), role, data, pa) && old(Elems(mem.free)) == Elems(mem.free) + {pa}
    {
      hide SpaceOk, TreeOk, NoDup, RegionsOf, DataPages, Elems, Loose;
      ghost var s0 := mem.Now();
      pa := TakePage();
      if pa != 0 { TakenPage(mem, s0, mem.Now(), pagetable, role, RegionsOf(infos), who, data, pa); }
    }

    /** __init_pagetable from the point where the three pages are there. */
    method BuildInitial(trampoline: nat, stack: nat) returns (ok: bool, ghost lost: set<nat>)
      requires mem.Valid() && pagetable != 0 && infos == [] && mem.InRange(pagetable) && mem.InRange(trapframe)
      requires mem.InRange(stack)
      requires pagetable !in mem.free && trapframe !in mem.free && stack !in mem.free
      requires pagetable != trapframe && pagetable != stack && trapframe != stack
      requires pagetable in mem.words && mem.words[pagetable] == ZeroPage()
      modifies this`pagetable, this`infos, this`role, this`who, this`data, this`stray, mem
      ensures Built() && Stock() + lost == old(Elems(mem.free) + {pagetable, trapframe, stack})
      ensures ok ==> pagetable != 0 && infos == InitialInfos() && lost == {}
      ensures ok ==> InitialMap(mem.words, pagetable, trampoline, trapframe, stack) && data.Keys == {trapframe, stack}
      ensures mem.bytes == old(mem.bytes)[old(trapframe) := ZeroBytes()][stack := ZeroBytes()]
      ensures !ok ==> pagetable == 0 && lost <= {trapframe, stack}
      ensures |old(mem.free)| >= 6 ==> ok && |old(mem.free)| <= |mem.free| + 6
    {
      hide NoDup, Elems, Memory.Valid, TreeOk, SpaceOk, RegionsOf, InitialMap, PteAt, Memory.InRange, Owns;
      hide Memory.Holds, InitialInfos, Tidy, SameOutside, ZeroPage, ZeroBytes, Process.Strayed, NoEmpty;
      mem.ClearPage(trapframe);
      mem.ClearPage(stack);
      StartSpace();
      ok := MapInitial(trampoline, stack);
      lost := {trapframe, stack} - data.Keys;
      if !ok {
        InitialTidy(infos);
        var done := FreePagetable();
      }
    }

    /** __init_pagetable.  If a mapping fails, the pages not yet mapped are lost. */
    method InitPagetable(trampoline: nat) returns (ok: bool, ghost stackPage: nat, ghost lost: set<nat>)
      requires Built() && pagetable == 0
      modifies this, mem
      ensures Built() && Stock() + lost == old(Stock())
      ensures ok ==> pagetable != 0 && infos == InitialInfos() && lost == {}
      ensures ok ==> InitialMap(mem.words, pagetable, trampoline, trapframe, stackPage)
      ensures ok ==> data.Keys == {trapframe, stackPage}
      ensures ok ==> mem.bytes == old(mem.bytes)[trapframe := ZeroBytes()][stackPage := ZeroBytes()]
      ensures !ok ==> pagetable == 0 && lost <= old(Elems(mem.free)) && |lost| <= 2
      ensures |old(mem.free)| >= 9 ==> ok && |old(mem.free)| <= |mem.free| + 9
    {
      hide NoDup, Elems, TreeOk, SpaceOk, RegionsOf, InitialMap, PteAt, Memory.InRange, Owns, Memory.Holds;
      hide InitialInfos, SameOutside, Pages, ZeroPage, ZeroBytes;
      ghost var free0 := mem.free;
      var stack;
      pagetable, trapframe, stack := TakeThree();
      stackPage := stack;
      FreeListFacts(free0, pagetable, trapframe, stack, mem.free);
      if pagetable == 0 || trapframe == 0 || stack == 0 {
        GiveBack(pagetable, trapframe, stack);
        pagetable, trapframe := 0, 0;
        return false, 0, {};
      }
      ThreeFacts(mem, pagetable, trapframe, stack, mem.free);
      ghost var frame := trapframe;
      ok, lost := BuildInitial(trampoline, stack);
      PairSize(lost, frame, stack);
    }
  }

  /** The pages actually taken, in the order of the free list. */
  ghost function Pages(root: nat, frame: nat, stack: nat): (s: seq<nat>)
  {
    (if root == 0 then [] else [root]) + (if frame == 0 then [] else [frame]) + (if stack == 0 then [] else [stack])
  }

  ghost function InitialInfos(): (s: seq<Info>)
  {
    [Info(TRAMPOLINE, PGSIZE, MAP_SHARED, PTE_R + PTE_X), Info(TRAPFRAME, PGSIZE, MAP_DEFAULT, PTE_R + PTE_W),
     Info(USER_STACK_TOP, PGSIZE, MAP_USER, PTE_U + PTE_R + PTE_W)]
  }

  /** Exactly three pages are mapped. */
  ghost predicate InitialMap(words: Words, root: nat, trampoline: nat, frame: nat, stack: nat)
  {
    forall v: nat :: v < VPNS ==> PteAt(words, root, v) == InitialPte(trampoline, frame, stack, v)
  }

  ghost function InitialPte(trampoline: nat, frame: nat, stack: nat, v: nat): (pte: nat)
  {
    if v == TRAMPOLINE / PGSIZE then MakePte(trampoline, PTE_R + PTE_X)
    else if v == TRAPFRAME / PGSIZE then MakePte(frame, PTE_R + PTE_W)
    else if v == USER_STACK_TOP / PGSIZE then MakePte(stack, PTE_U + PTE_R + PTE_W)
    else 0
  }

  /** What the hardware makes of a new address space: the trampoline, readable and executable, and the
      trapframe, readable and writable, in the last two pages below 2^38, neither for the user; the stack,
      for the user, readable and writable, below 2^37; nothing else. */
  lemma InitialMeaning(words: Words, root: nat, role: map<nat, Pos>, trampoline: nat, frame: nat, stack: nat, va: nat)
    requires TreeOk(words, root, role) && InitialMap(words, root, trampoline, frame, stack) && va < 0x80_0000_0000
    ensures Sv39(words, root, va, 2)
            == if 0x3F_FFFF_F000 <= va < 0x40_0000_0000 then Page(trampoline / 0x1000 * 0x400 + 0xB, 0)
               else if 0x3F_FFFF_E000 <= va < 0x3F_FFFF_F000 then Page(frame / 0x1000 * 0x400 + 0x7, 0)
               else if 0x1F_FFFF_F000 <= va < 0x20_0000_0000 then Page(stack / 0x1000 * 0x400 + 0x17, 0)
               else Fault
  {
    hide TreeOk, PteAt, Sv39, InitialPte;
    HardwareWalk(words, root, role, va);
    var v := va / 0x1000;
    assert PteAt(words, root, v) == InitialPte(trampoline, frame, stack, v);
    InitialBits(trampoline, frame, stack, va);
  }

  lemma InitialBits(trampoline: nat, frame: nat, stack: nat, va: nat)
    ensures InitialPte(trampoline, frame, stack, va / 0x1000)
            == if 0x3F_FFFF_F000 <= va < 0x40_0000_0000 then trampoline / 0x1000 * 0x400 + 0xB
               else if 0x3F_FFFF_E000 <= va < 0x3F_FFFF_F000 then frame / 0x1000 * 0x400 + 0x7
               else if 0x1F_FFFF_F000 <= va < 0x20_0000_0000 then stack / 0x1000 * 0x400 + 0x17
               else 0
    ensures var pte := InitialPte(trampoline, frame, stack, va / 0x1000);
            pte == 0 || (pte % 2 == 1 && pte / 2 % 2 == 1)
  {
    LowFive(trampoline / 0x1000, 0xB);
    LowFive(frame / 0x1000, 0x7);
    LowFive(stack / 0x1000, 0x17);
  }

  lemma LowFive(n: nat, f: nat)
    requires f < 32 && f % 4 == 3
    ensures (n * 0x400 + f) % 2 == 1 && (n * 0x400 + f) / 2 % 2 == 1
  {
    assert n * 0x400 + f == 2 * (n * 0x200) + f;
    assert (n * 0x400 + f) / 2 == 2 * (n * 0x100) + f / 2;
  }

  ghost predicate Apart(mem: Memory, s: Snap, role: map<nat, Pos>, data: map<nat, nat>, p: nat)
  {
    mem.InRange(p) && p !in s.free && p !in role && p !in data
  }

  lemma ApartLoose(mem: Memory, s: Snap, role: map<nat, Pos>, data: map<nat, nat>, pa: nat, va: nat, i: nat)
    requires Apart(mem, s, role, data, pa) && va % PGSIZE == 0
    ensures Loose(mem, s, role, data, pa / PGSIZE, PageCount(va, PGSIZE))
    ensures forall m: map<nat, nat> ::
              m + FrameMap(pa / PGSIZE, va / PGSIZE, PageCount(va, PGSIZE)) == m[pa := va / PGSIZE]
  {
    OnePage(va, pa, va / PGSIZE, i);
    forall p: nat | p in FrameSet(pa / PGSIZE, 1)
      ensures p == pa
    { assert p == p / PGSIZE * PGSIZE && pa == pa / PGSIZE * PGSIZE; }
  }

  lemma OneCount(va: nat)
    requires va % PGSIZE == 0
    ensures PageCount(va, PGSIZE) == 1
  {
    assert (va + PGSIZE - 1) / PGSIZE == va / PGSIZE;
  }

  lemma ExtendsSum(s: Snap, role: map<nat, Pos>, s': Snap, role': map<nat, Pos>)
    requires Extends(s, role, s', role')
    ensures Elems(s'.free) + role'.Keys == Elems(s.free) + role.Keys
  {
  }

  lemma StillApart(mem: Memory, s: Snap, role: map<nat, Pos>, s': Snap, role': map<nat, Pos>, data: map<nat, nat>,
                   p: nat)
    requires Apart(mem, s, role, data, p) && Extends(s, role, s', role')
    ensures Apart(mem, s', role', data, p)
  {
    InElems(s.free, p);
    InElems(s'.free, p);
    assert p !in role.Keys + Elems(s.free);
  }

  lemma AddApart(mem: Memory, s: Snap, role: map<nat, Pos>, p: nat, q: nat, v: nat)
    requires Apart(mem, s, role, map[], p) && p != q
    ensures Apart(mem, s, role, map[q := v], p)
  {
  }

  lemma NotYet(words: Words, root: nat)
    requires forall v: nat :: v < VPNS ==> PteAt(words, root, v) == 0
    ensures !IsValid(PteAt(words, root, TRAMPOLINE / PGSIZE)) && !IsValid(PteAt(words, root, TRAPFRAME / PGSIZE))
    ensures !IsValid(PteAt(words, root, USER_STACK_TOP / PGSIZE))
  {
    hide PteAt, IsValid;
    EmptyEntry();
  }

  lemma StillNotYet(w0: Words, w1: Words, root: nat, va: nat, pa: nat, perm: nat, other: nat)
    requires MapsRange(w0, w1, root, va / PGSIZE, 1, pa, perm) && !IsValid(PteAt(w0, root, other / PGSIZE))
    requires va / PGSIZE != other / PGSIZE && other < MAXVA
    ensures !IsValid(PteAt(w1, root, other / PGSIZE))
  {
    hide PteAt, IsValid, MakePte;
  }

  lemma ThreeMapped(w0: Words, w1: Words, w2: Words, w3: Words, root: nat, trampoline: nat, frame: nat, stack: nat)
    requires forall v: nat :: v < VPNS ==> PteAt(w0, root, v) == 0
    requires MapsRange(w0, w1, root, TRAMPOLINE / PGSIZE, 1, trampoline, PTE_R + PTE_X)
    requires MapsRange(w1, w2, root, TRAPFRAME / PGSIZE, 1, frame, PTE_R + PTE_W)
    requires MapsRange(w2, w3, root, USER_STACK_TOP / PGSIZE, 1, stack, PTE_U + PTE_R + PTE_W)
    ensures InitialMap(w3, root, trampoline, frame, stack)
  {
    hide PteAt, MakePte;
  }

  lemma Spread(root: nat, frame: nat, stack: nat, f: seq<nat>)
    requires NoDup(Pages(root, frame, stack) + f)
    ensures root != 0 ==> root !in f && root in Pages(root, frame, stack)
    ensures frame != 0 ==> frame !in f && frame != root && frame in Pages(root, frame, stack)
  {
    var s := Pages(root, frame, stack) + f;
    if root != 0 {
      assert s[0] == root;
      forall i | 0 <= i < |f| ensures f[i] != root { assert s[|s| - |f| + i] == f[i]; }
    }
    if frame != 0 {
      var j := if root == 0 then 0 else 1;
      assert s[j] == frame;
      forall i | 0 <= i < |f| ensures f[i] != frame { assert s[|s| - |f| + i] == f[i]; }
    }
  }

  lemma FreshTree(words: Words, root: nat)
    requires root in words && words[root] == ZeroPage() && IsPage(root)
    ensures TreeOk(words, root, map[root := Root])
    ensures forall v: nat :: v < VPNS ==> PteAt(words, root, v) == 0
  {
    EmptyEntry();
    forall i: nat ensures Entry(words, root, i) == 0 { }
  }

  lemma FreshClear(s: Snap, root: nat)
    requires root in s.words && root !in s.free
    ensures var role := map[root := Root];
            LeavesArePages(s.words, role) && Clear(s.words, role, Subtree(role, Root))
                && Subtree(role, Root) == {root} && Intact(s, s.words, Subtree(role, Root))
  {
  }

  lemma GivenBack(root: nat, frame: nat, f0: seq<nat>, f1: seq<nat>, f: seq<nat>)
    requires Elems(f1) == (if root == 0 then Elems(f0) else Elems(f0) + {root})
    requires f == (if frame == 0 then f1 else [frame] + f1)
    ensures Elems(f) == Elems(Pages(root, frame, 0) + f0)
  {
    forall x: nat ensures x in Elems(f) <==> x in Elems(Pages(root, frame, 0) + f0) {
      InElems(f1, x);
      InElems(f0, x);
    }
  }

  lemma FreeListFacts(free0: seq<nat>, root: nat, frame: nat, stack: nat, f: seq<nat>)
    requires free0 == Pages(root, frame, stack) + f
    ensures Elems(free0) == Elems(f) + Elems(Pages(root, frame, stack))
  {
  }

  lemma ThreeFacts(mem: Memory, root: nat, frame: nat, stack: nat, f: seq<nat>)
    requires root != 0 && frame != 0 && stack != 0 && NoDup(Pages(root, frame, stack) + f)
    ensures root !in f && frame !in f && stack !in f && root != frame && root != stack && frame != stack
    ensures Elems(Pages(root, frame, stack)) == {root, frame, stack}
    ensures root in Pages(root, frame, stack) && frame in Pages(root, frame, stack)
    ensures stack in Pages(root, frame, stack)
  {
    var s := Pages(root, frame, stack) + f;
    assert s[0] == root && s[1] == frame && s[2] == stack;
    forall i | 0 <= i < |f| ensures f[i] != root && f[i] != frame && f[i] != stack { assert s[3 + i] == f[i]; }
  }

  lemma PairSize(s: set<nat>, x: nat, y: nat)
    requires s <= {x, y}
    ensures |s| <= 2
  {
    assert s == {} || s == {x} || s == {y} || s == {x, y};
  }

  lemma InitialTidy(infos: seq<Info>)
    requires |infos| <= 3 && infos == InitialInfos()[..|infos|]
    ensures forall i :: 0 <= i < |infos| ==> Tidy(infos[i])
  {
  }

  ghost predicate RoleGrows(role: map<nat, Pos>, role': map<nat, Pos>)
  {
    forall p :: p in role ==> p in role' && role'[p] == role[p]
  }

  lemma MapsNothing(w: Words, root: nat, lo: nat, perm: nat, role: map<nat, Pos>)
    ensures MapsRange(w, w, root, lo, 0, 0, perm) && SameOutside(w, w, role.Keys) && RoleGrows(role, role)
  {
    hide PteAt, MakePte;
  }

  /** A page taken from the free list belongs to nobody. */
  lemma TakenPage(mem: Memory, s0: Snap, s1: Snap, root: nat, role: map<nat, Pos>, regions: seq<Region>,
                  who: map<nat, nat>, data: map<nat, nat>, pa: nat)
    requires Owns(mem, s0, root, role, regions, who, data) && s1.words == s0.words && s0.free == [pa] + s1.free
    requires mem.InRange(pa) && pa !in s1.free && pa !in role
    ensures Owns(mem, s1, root, role, regions, who, data) && Loose(mem, s1, role, data, pa / PGSIZE, 1)
    ensures Elems(s0.free) == Elems(s1.free) + {pa} && pa !in data && pa % PGSIZE == 0
  {
    hide PteAt, IsValid, FlagsOf, OrV, PaOf, RegionsOk, LiveOk;
    FramesKnown(s0.words, root, regions, who, data);
    forall p | p in data ensures p !in s1.free && p != pa { assert p !in s0.free; }
    SpaceFrame(s0, s1, root, regions, who, data);
    forall p: nat
      ensures p in Elems(s0.free) <==> p in Elems(s1.free) + {pa}
    {
      InElems(s0.free, p);
      InElems(s1.free, p);
    }
    forall p: nat | p in FrameSet(pa / PGSIZE, 1)
      ensures p == pa
    { assert p == p / PGSIZE * PGSIZE && pa == pa / PGSIZE * PGSIZE; }
    assert pa in s0.free;
  }

  lemma OnePage(cur: nat, pa: nat, v: nat, i: nat)
    requires cur % PGSIZE == 0 && pa % PGSIZE == 0
    ensures PageCount(cur, PGSIZE) == 1
    ensures FrameMap(pa / PGSIZE, v, 1) == map[pa := v] && WhoMap(v, 1, i) == map[v := i]
    ensures forall m: map<nat, nat> :: m + FrameMap(pa / PGSIZE, v, 1) == m[pa := v]
    ensures forall m: map<nat, nat> :: m + WhoMap(v, 1, i) == m[v := i]
  {
    assert (cur + PGSIZE - 1) / PGSIZE == cur / PGSIZE;
    forall p: nat | p in FrameMap(pa / PGSIZE, v, 1)
      ensures p == pa
    { assert p == p / PGSIZE * PGSIZE && pa == pa / PGSIZE * PGSIZE; }
    assert pa in FrameMap(pa / PGSIZE, v, 1);
  }

  lemma FirstUnmapped(w: Words, root: nat, lo: nat, k: nat)
    requires k > 0 && Unmapped(w, root, lo, k)
    ensures !IsValid(PteAt(w, root, lo))
  {
  }

  lemma OneMapped(s0: Snap, role0: map<nat, Pos>, s1: Snap, s2: Snap, role: map<nat, Pos>, pa: nat, v: nat, k: nat)
    requires s1.words == s0.words && Elems(s0.free) == Elems(s1.free) + {pa} && Extends(s1, role0, s2, role)
    ensures Elems(s2.free) <= Elems(s0.free) && SameOutside(s0.words, s2.words, role.Keys) && RoleGrows(role0, role)
    ensures Elems(s2.free) + role.Keys + {pa} == Elems(s0.free) + role0.Keys
  {
    hide Elems;
  }

  /** Pages [lo, lo+m) are new, backed by pages from a set of free pages; all others are as before. */
  ghost predicate AnonRange(w0: Words, w: Words, root: nat, pool: set<nat>, lo: nat, m: nat, perm: nat)
  {
    forall v: nat :: v < VPNS ==> AnonPage(PteAt(w0, root, v), PteAt(w, root, v), pool, lo <= v < lo + m, perm)
  }

  ghost predicate AnonPage(pte0: nat, pte: nat, pool: set<nat>, mapped: bool, perm: nat)
  {
    if mapped then !IsValid(pte0) && IsValid(pte) && FlagsOf(pte) == OrV(perm) && PaOf(pte) in pool else pte == pte0
  }

  /** The data pages of the last region are the new ones. */
  ghost predicate NewData(data0: map<nat, nat>, data: map<nat, nat>, who: map<nat, nat>, last: nat)
  {
    && data0.Keys <= data.Keys
    && (forall p :: p in data && data[p] in who ==> (p in data0 <==> who[data[p]] != last))
    && (forall p :: p in data ==> data[p] in who)
  }

  lemma NextAddress(va: nat, m: nat)
    requires va % PGSIZE == 0
    ensures (va + m * PGSIZE) % PGSIZE == 0 && (va + m * PGSIZE) / PGSIZE == va / PGSIZE + m
  {
  }

  lemma WholePages(va: nat, m: nat)
    requires va % PGSIZE == 0 && m > 0
    ensures PageCount(va, m * PGSIZE) == m && m * PGSIZE % PGSIZE == 0 && m * PGSIZE > 0
  {
    assert (va + m * PGSIZE - 1) / PGSIZE == va / PGSIZE + m - 1;
  }

  lemma AllPages(va: nat, size: nat, m: nat)
    requires va % PGSIZE == 0 && size > 0 && va + size <= va + m * PGSIZE < va + size + PGSIZE
    ensures PageCount(va, size) == m
  {
    assert (va + size - 1) / PGSIZE == va / PGSIZE + m - 1;
  }

  /** The page came off the free list, and is neither back on it nor a table. */
  ghost predicate OwnFrame(s0: Snap, s1: Snap, role: map<nat, Pos>, p: nat)
  {
    p in s0.free && p !in s1.free && p !in role
  }

  /** Every page that is new in the table is backed by a page taken for it. */
  ghost predicate OwnFrames(s0: Snap, s1: Snap, root: nat, role: map<nat, Pos>)
  {
    forall v: nat :: v < VPNS && !IsValid(PteAt(s0.words, root, v)) && IsValid(PteAt(s1.words, root, v)) ==>
      OwnFrame(s0, s1, role, PaOf(PteAt(s1.words, root, v)))
  }

  lemma OwnNothing(s: Snap, root: nat, role: map<nat, Pos>)
    ensures OwnFrames(s, s, root, role)
  {
  }

  /** The second page mapped from one allocated page is nobody's to map. */
  lemma NotOwnUnaligned(s0: Snap, s1: Snap, root: nat, role: map<nat, Pos>, lo: nat, page: nat, perm: nat)
    requires MapsRange(s0.words, s1.words, root, lo, 2, page, perm) && Unmapped(s0.words, root, lo, 2)
    requires lo + 2 <= MAX_PAGES
    requires page % PGSIZE == 0 && perm < 1024 && forall p :: p in s0.free && p != page ==> p in s1.free || p in role
    ensures !OwnFrames(s0, s1, root, role)
  {
    hide PteAt, FlagsOf, OrV, MakePte, PaOf, IsValid;
    PteFields(page + PGSIZE, perm);
    assert PteAt(s1.words, root, lo + 1) == MakePte(page + (lo + 1 - lo) * PGSIZE, perm);
    assert !OwnFrame(s0, s1, role, page + PGSIZE);
  }

  /** A page of the range lies beyond MAXVA or is mapped already. */
  ghost predicate Blocked(words: Words, root: nat, lo: nat, n: nat)
  {
    lo + n > MAX_PAGES || !Unmapped(words, root, lo, n)
  }

  lemma BlockedAt(words: Words, root: nat, lo: nat, k: nat, n: nat)
    requires k < n && (lo + k >= MAX_PAGES || IsValid(PteAt(words, root, lo + k)))
    ensures Blocked(words, root, lo, n)
  {
    hide IsValid, PteAt;
  }

  lemma MorePages(va: nat, size: nat, m: nat)
    requires va % PGSIZE == 0 && m * PGSIZE < size
    ensures m < PageCount(va, size)
  {
  }

  lemma TwoPages(va: nat)
    requires va % PGSIZE != 0
    ensures PageCount(va, PGSIZE) == 2
  {
    assert (va + PGSIZE - 1) / PGSIZE == va / PGSIZE + 1;
  }

  /** A second round meets the second page that the first one has mapped. */
  lemma SecondRound(w0: Words, w1: Words, root: nat, va: nat, page: nat, perm: nat, k: nat)
    requires va % PGSIZE != 0 && page % PGSIZE == 0 && perm < 1024 && va / PGSIZE + 2 <= MAX_PAGES
    requires MapsRange(w0, w1, root, va / PGSIZE, 2, page, perm)
    requires Unmapped(w1, root, (va + PGSIZE) / PGSIZE, k)
    ensures k == 0 && PageCount(va + PGSIZE, PGSIZE) == 2
  {
    hide PteAt, MakePte, IsValid, PageCount, FlagsOf, OrV, PaOf;
    TwoPages(va + PGSIZE);
    PteFields(page + PGSIZE, perm);
    var lo := va / PGSIZE;
    assert (va + PGSIZE) / PGSIZE == lo + 1;
    assert PteAt(w1, root, lo + 1) == MakePte(page + (lo + 1 - lo) * PGSIZE, perm);
  }

  lemma OthersLeft(s0: Snap, role0: map<nat, Pos>, s1: Snap, s2: Snap, role: map<nat, Pos>, pa: nat)
    requires s0.free == [pa] + s1.free && Extends(s1, role0, s2, role)
    ensures forall p :: p in s0.free && p != pa ==> p in s2.free || p in role
  {
    forall p | p in s0.free && p != pa ensures p in s2.free || p in role {
      InElems(s1.free, p);
      InElems(s2.free, p);
      assert p in role0.Keys + Elems(s1.free);
    }
  }

  lemma RegionsLength(infos: seq<Info>)
    ensures |RegionsOf(infos)| == |infos|
  {
  }

  lemma AnonNext(s0: Snap, w1: Words, w2: Words, root: nat, lo: nat, m: nat, perm: nat, page: nat, mapped: bool)
    requires AnonRange(s0.words, w1, root, Elems(s0.free), lo, m, perm)
    requires MapsRange(w1, w2, root, lo + m, if mapped then 1 else 0, page, perm)
    requires mapped ==> page in Elems(s0.free) && page % PGSIZE == 0 && !IsValid(PteAt(w1, root, lo + m))
    requires mapped ==> lo + m < MAX_PAGES && perm < 1024
    ensures AnonRange(s0.words, w2, root, Elems(s0.free), lo, if mapped then m + 1 else m, perm)
  {
    hide PteAt, IsValid, FlagsOf, OrV, PaOf, MakePte, Elems;
    var m' := if mapped then m + 1 else m;
    forall v: nat | v < VPNS
      ensures AnonPage(PteAt(s0.words, root, v), PteAt(w2, root, v), Elems(s0.free), lo <= v < lo + m', perm)
    {
      assert AnonPage(PteAt(s0.words, root, v), PteAt(w1, root, v), Elems(s0.free), lo <= v < lo + m, perm);
      if mapped && v == lo + m {
        PteFields(page, perm);
      }
    }
  }

  lemma StillAsBefore(s0: Snap, w1: Words, root: nat, lo: nat, m: nat, perm: nat)
    requires AnonRange(s0.words, w1, root, Elems(s0.free), lo, m, perm)
    ensures lo + m < MAX_PAGES ==> PteAt(w1, root, lo + m) == PteAt(s0.words, root, lo + m)
  {
    hide PteAt, IsValid, FlagsOf, OrV, PaOf, Elems;
  }

  lemma NotMapped(mem: Memory, s: Snap, root: nat, role: map<nat, Pos>, regions: seq<Region>, who: map<nat, nat>,
                  data: map<nat, nat>, v: nat)
    requires Owns(mem, s, root, role, regions, who, data) && v < MAX_PAGES && !IsValid(PteAt(s.words, root, v))
    ensures v !in who
  {
    hide PteAt, IsValid, FlagsOf, OrV, PaOf, RegionsOk, FramesOk;
  }

  lemma NewDataNext(data0: map<nat, nat>, data: map<nat, nat>, who: map<nat, nat>, page: nat, v: nat, last: nat)
    requires NewData(data0, data, who, last) && page !in data && v !in who
    ensures NewData(data0, data[page := v], who[v := last], last)
  {
  }

  lemma GrowsNext(w0: Words, w1: Words, w2: Words, role0: map<nat, Pos>, role1: map<nat, Pos>, role2: map<nat, Pos>)
    requires RoleGrows(role0, role1) && RoleGrows(role1, role2) && SameOutside(w0, w1, role1.Keys)
    requires SameOutside(w1, w2, role2.Keys)
    ensures RoleGrows(role0, role2) && SameOutside(w0, w2, role2.Keys)
  {
  }

  lemma AtMostOne(s: set<nat>, x: nat)
    requires s <= {x}
    ensures |s| <= 1
  {
    assert s == {} || s == {x};
  }

  lemma BuildStart(mem: Memory, s: Snap, root: nat, role: map<nat, Pos>, infos: seq<Info>, who: map<nat, nat>,
                   data: map<nat, nat>, lo: nat, perm: nat)
    requires Owns(mem, s, root, role, RegionsOf(infos), who, data)
    ensures Owns(mem, s, root, role, RegionsOf(infos) + [Region(lo, 0, false, perm)], who, data)
    ensures SpaceOk(s, root, RegionsOf(infos), who, data, 0)
    ensures NewData(data, data, who, |infos|) && AnonRange(s.words, s.words, root, Elems(s.free), lo, 0, perm)
    ensures RoleGrows(role, role) && SameOutside(s.words, s.words, role.Keys)
  {
    hide PteAt, IsValid, FlagsOf, OrV, PaOf, Elems, RegionsOk, LiveOk;
    AddRegion(s, root, RegionsOf(infos), who, data, Region(lo, 0, false, perm));
    forall p | p in data ensures data[p] in who && who[data[p]] != |infos| {
      assert FramePage(s.words, root, RegionsOf(infos), who, data, 0, p);
    }
  }

  lemma UnmapNone(s: Snap, root: nat, lo: nat)
    ensures UnmapsRange(s.words, s.words, root, lo, 0) && s.free == Freed(s.words, root, lo, 0) + s.free
  {
    hide PteAt;
  }

  /** Mapping and unmapping the last region leaves the space as it was. */
  lemma Undone(mem: Memory, s0: Snap, s1: Snap, s2: Snap, root: nat, role: map<nat, Pos>, base: seq<Region>,
               regions: seq<Region>, who0: map<nat, nat>, data0: map<nat, nat>, who: map<nat, nat>, data: map<nat, nat>)
    requires SpaceOk(s0, root, base, who0, data0, 0) && SpaceOk(s1, root, regions, who, data, 0)
    requires DataPages(mem, role, data)
    requires |regions| == |base| + 1 && var r := regions[|base|];
             !r.shared && AnonRange(s0.words, s1.words, root, Elems(s0.free), r.lo, r.n, r.perm)
             && UnmapsRange(s1.words, s2.words, root, r.lo, r.n)
                 && s2.free == Freed(s1.words, root, r.lo, r.n) + s1.free
    requires NewData(data0, data, who, |base|)
    ensures SameTranslation(s0.words, s2.words, root) && SpaceOk(s2, root, base, who0, data0, 0)
    ensures DataPages(mem, role, data0)
    ensures Elems(s2.free) + data0.Keys == Elems(s1.free) + data.Keys
  {
    hide PteAt, IsValid, FlagsOf, OrV, PaOf, Freed, RegionsOk, LiveOk, FramesOk, AnonRange, UnmapsRange;
    hide SameTranslation;
    var r := regions[|base|];
    UndoneTranslation(s0.words, s1.words, s2.words, root, Elems(s0.free), r.lo, r.n, r.perm);
    forall p: nat ensures p in s2.free <==> p in s1.free || (p in data && p !in data0) {
      RegionFrame(s1.words, root, regions, who, data, 0, |base|, p);
    }
    assert forall p :: p in data0 ==> p !in s2.free;
    SpaceFrame(s0, s2, root, base, who0, data0);
  }

  lemma UndoneTranslation(w0: Words, w1: Words, w2: Words, root: nat, pool: set<nat>, lo: nat, n: nat, perm: nat)
    requires AnonRange(w0, w1, root, pool, lo, n, perm) && UnmapsRange(w1, w2, root, lo, n)
    ensures SameTranslation(w0, w2, root)
  {
    hide PteAt, IsValid, FlagsOf, OrV, PaOf;
    EmptyEntry();
    forall v: nat | v < VPNS ensures Translation(w2, root, v) == Translation(w0, root, v) {
      assert AnonPage(PteAt(w0, root, v), PteAt(w1, root, v), pool, lo <= v < lo + n, perm);
    }
  }

  lemma SameOutsideRefl(w: Words, pages: set<nat>)
    ensures SameOutside(w, w, pages)
  {
  }

  lemma TornStart(s: Snap, role: map<nat, Pos>, who: map<nat, nat>, data: map<nat, nat>)
    ensures FramesBefore(who, data, 0) == {} && SameOutside(s.words, s.words, role.Keys)
    ensures Elems(s.free) == Elems(s.free) + FramesBefore(who, data, 0)
  {
  }

  lemma DataFreeable(mem: Memory, s: Snap, root: nat, role: map<nat, Pos>, regions: seq<Region>, who: map<nat, nat>,
                     data: map<nat, nat>, k: nat, i: nat)
    requires SpaceOk(s, root, regions, who, data, k) && k <= i < |regions| && !regions[i].shared
    requires DataPages(mem, role, data)
    ensures mem.Freeable(s, root, role, regions[i].lo, regions[i].n)
  {
    hide SpaceOk, Memory.Freeable, Memory.InRange;
    RegionFreeable(mem, s, root, role, regions, who, data, k, i);
  }

  lemma FramesNext(s0: Snap, s1: Snap, s2: Snap, who: map<nat, nat>, data: map<nat, nat>, k: nat)
    requires Elems(s1.free) == Elems(s0.free) + FramesBefore(who, data, k)
    requires Elems(s2.free) == Elems(s1.free) + (FramesBefore(who, data, k + 1) - FramesBefore(who, data, k))
    ensures Elems(s2.free) == Elems(s0.free) + FramesBefore(who, data, k + 1)
  {
    hide Elems;
    assert FramesBefore(who, data, k) <= FramesBefore(who, data, k + 1);
  }

  /** With every region unmapped no entry of a last-level table is valid and all data is free. */
  lemma NothingLive(s: Snap, root: nat, role: map<nat, Pos>, regions: seq<Region>, who: map<nat, nat>,
                    data: map<nat, nat>)
    requires TreeOk(s.words, root, role) && SpaceOk(s, root, regions, who, data, |regions|)
    ensures LeavesArePages(s.words, role) && Clear(s.words, role, Subtree(role, Root))
    ensures FramesBefore(who, data, |regions|) == data.Keys
  {
    hide Subtree, IsValid, Entry, PteAt, IsPointer, PaOf, TreeOk;
    forall v: nat | v < VPNS ensures !IsValid(PteAt(s.words, root, v)) {
      if v in who { WhoBound(regions, who, v); }
    }
    forall p: nat, i: nat | p in role && role[p].Leaf? ensures !IsValid(Entry(s.words, p, i)) {
      ClearLeaf(s.words, root, role, p, i);
    }
    forall p: nat | p in data ensures p in FramesBefore(who, data, |regions|) {
      assert FramePage(s.words, root, regions, who, data, |regions|, p);
    }
  }

  /** With every region but the last unmapped the valid entries are those of the last one. */
  lemma StrayLive(s: Snap, root: nat, role: map<nat, Pos>, regions: seq<Region>, who: map<nat, nat>,
                  data: map<nat, nat>)
    requires TreeOk(s.words, root, role) && regions != [] && SpaceOk(s, root, regions, who, data, |regions| - 1)
    requires var r := regions[|regions| - 1]; r.n > 0 && HasAccess(r.perm)
    ensures LeavesArePages(s.words, role) && !Clear(s.words, role, Subtree(role, Root))
  {
    hide Subtree, IsValid, Entry, PteAt, IsPointer, PaOf, TreeOk, FlagsOf, OrV, HasAccess, FramesOk, NotFree, IsPage;
    var k := |regions| - 1;
    forall p: nat, i: nat | p in role && role[p].Leaf? && IsValid(Entry(s.words, p, i))
      ensures !IsPointer(Entry(s.words, p, i))
    {
      var v := LeafPage(s.words, root, role, p, i);
      WhoBound(regions, who, v);
      AccessIsNoPointer(Entry(s.words, p, i), regions[k].perm);
    }
    var v := regions[k].lo;
    assert In(regions[k], v);
    LeafOf(s.words, root, role, v);
  }

  lemma AccessIsNoPointer(pte: nat, perm: nat)
    requires FlagsOf(pte) == OrV(perm) && HasAccess(perm)
    ensures !IsPointer(pte)
  {
  }

  /** The page that entry i of a last-level table is about. */
  lemma LeafPage(words: Words, root: nat, role: map<nat, Pos>, p: nat, i: nat) returns (v: nat)
    requires TreeOk(words, root, role) && p in role && role[p].Leaf? && IsValid(Entry(words, p, i))
    ensures v < VPNS && PteAt(words, root, v) == Entry(words, p, i)
  {
    hide IsValid, IsPointer, PaOf, TableAt, I0, I1, I2, PointersOk;
    EmptyEntry();
    var pos := role[p];
    assert TableAt(words, root, pos) == Some(p);
    IndexesBound(words, root, pos);
    v := pos.i2 * 0x4_0000 + pos.i1 * ENTRIES + i;
    PathOf(pos.i2, pos.i1, i);
  }

  /** A valid page has its entry in a last-level table. */
  lemma LeafOf(words: Words, root: nat, role: map<nat, Pos>, v: nat)
    requires TreeOk(words, root, role) && IsValid(PteAt(words, root, v))
    ensures !Clear(words, role, Subtree(role, Root))
  {
    hide IsValid, IsPointer, PaOf, TableAt, I0, I1, I2, PointersOk, Entry;
    EmptyEntry();
    var pos := Leaf(I2(v), I1(v));
    var p := TableAt(words, root, pos).value;
    assert p in role && role[p] == pos;
    assert p in Subtree(role, Root);
    assert IsValid(Entry(words, p, I0(v)));
  }

  /** Pages mapped before memory ran out, as a region of their own whose frames are not the process's. */
  lemma LeftBehind(mem: Memory, s: Snap, role: map<nat, Pos>, s': Snap, role': map<nat, Pos>, root: nat,
                   regions: seq<Region>, who: map<nat, nat>, data: map<nat, nat>, lo: nat, k: nat, pa: nat, perm: nat)
    requires Owns(mem, s, root, role, regions, who, data) && Extends(s, role, s', role') && k > 0
    requires Unmapped(s.words, root, lo, k) && MapsRange(s.words, s'.words, root, lo, k, pa, perm)
    requires lo + k <= MAX_PAGES && perm < 1024
    ensures Owns(mem, s', root, role', regions + [Region(lo, k, true, perm)], who + WhoMap(lo, k, |regions|), data)
  {
    hide SpaceOk, Extends, DataPages, MapsRange, Unmapped, WhoMap;
    var r := Region(lo, 0, true, perm);
    DataKept(mem, s, role, s', role', root, regions, who, data);
    AddRegion(s, root, regions, who, data, r);
    ExtendsFree(s, role, s', role');
    GrowOne(regions, r, k);
    GrowSpace(s, s', root, regions + [r], regions + [r.(n := k)], who, data, k, pa);
  }

  lemma ClearLeaf(words: Words, root: nat, role: map<nat, Pos>, p: nat, i: nat)
    requires TreeOk(words, root, role) && p in role && role[p].Leaf?
    requires forall v: nat :: v < VPNS ==> !IsValid(PteAt(words, root, v))
    ensures !IsValid(Entry(words, p, i))
  {
    hide IsValid, IsPointer, PaOf, TableAt, I0, I1, I2, PointersOk;
    EmptyEntry();
    var pos := role[p];
    assert TableAt(words, root, pos) == Some(p);
    IndexesBound(words, root, pos);
    if i < ENTRIES {
      var v := pos.i2 * 0x4_0000 + pos.i1 * ENTRIES + i;
      PathOf(pos.i2, pos.i1, i);
      assert PteAt(words, root, v) == Entry(words, p, i);
    }
  }

  lemma PathOf(i2: nat, i1: nat, i0: nat)
    requires i2 < ENTRIES && i1 < ENTRIES && i0 < ENTRIES
    ensures var v := i2 * 0x4_0000 + i1 * ENTRIES + i0; v < VPNS && I2(v) == i2 && I1(v) == i1 && I0(v) == i0
  {
  }

  lemma WholeTree(s: Snap, root: nat, role: map<nat, Pos>)
    requires TreeOk(s.words, root, role) && forall p :: p in role ==> p !in s.free
    ensures root in role && role[root] == Root && Subtree(role, Root) == role.Keys
    ensures Intact(s, s.words, Subtree(role, Root))
  {
    RootFacts(s.words, root, role);
  }

  lemma ExtendsFree(s: Snap, role: map<nat, Pos>, s': Snap, role': map<nat, Pos>)
    requires Extends(s, role, s', role')
    ensures Elems(s'.free) <= Elems(s.free)
  {
  }

  lemma DataKept(mem: Memory, s: Snap, role: map<nat, Pos>, s': Snap, role': map<nat, Pos>, root: nat,
                 regions: seq<Region>, who: map<nat, nat>, data: map<nat, nat>)
    requires SpaceOk(s, root, regions, who, data, 0) && DataPages(mem, role, data) && Extends(s, role, s', role')
    ensures DataPages(mem, role', data) && forall p :: p in data ==> p !in s'.free
  {
    hide Memory.InRange, RegionsOk, LiveOk;
    FramesKnown(s.words, root, regions, who, data);
    forall p: nat | p in data ensures p !in role' && p !in s'.free {
      assert p !in role && p !in s.free;
      InElems(s.free, p);
      InElems(s'.free, p);
      assert p !in role.Keys + Elems(s.free);
    }
  }

  lemma OwnsFrame(mem: Memory, s: Snap, role: map<nat, Pos>, s': Snap, role': map<nat, Pos>, root: nat,
                  regions: seq<Region>, who: map<nat, nat>, data: map<nat, nat>)
    requires Owns(mem, s, root, role, regions, who, data) && Extends(s, role, s', role')
    requires SameTranslation(s.words, s'.words, root)
    ensures Owns(mem, s', root, role', regions, who, data)
  {
    hide SpaceOk, SameTranslation, Extends, DataPages;
    DataKept(mem, s, role, s', role', root, regions, who, data);
    SpaceFrame(s, s', root, regions, who, data);
  }

  lemma NothingMapped(w: Words, w': Words, root: nat, lo: nat, pa: nat, perm: nat)
    requires MapsRange(w, w', root, lo, 0, pa, perm)
    ensures SameTranslation(w, w', root)
  {
    hide PteAt, IsValid, MakePte;
  }

  lemma CountPositive(va: nat, size: nat)
    requires size > 0
    ensures PageCount(va, size) > 0
  {
  }

  lemma LooseApart(mem: Memory, s: Snap, role: map<nat, Pos>, data: map<nat, nat>, frame: nat, n: nat, s': Snap,
                   role': map<nat, Pos>, lo: nat)
    requires Loose(mem, s, role, data, frame, n) && Extends(s, role, s', role') && DataPages(mem, role', data)
    ensures FrameSet(frame, n) !! (data.Keys + Elems(s.free)) && DataPages(mem, role', data + FrameMap(frame, lo, n))
  {
    hide Memory.InRange, FrameMap, FrameSet;
    FrameMapKeys(frame, lo, n);
    forall p: nat | p in FrameSet(frame, n) ensures p !in role' && mem.InRange(p) && p !in Elems(s.free) {
      InElems(s.free, p);
      assert p !in role.Keys + Elems(s.free);
    }
  }

  lemma GrowOne(base: seq<Region>, r: Region, n: nat)
    requires r.lo + r.n + n <= MAX_PAGES && r.perm < 1024
    ensures Grows(base + [r], base + [r.(n := r.n + n)], n)
  {
    assert (base + [r])[..|base|] == base;
    assert (base + [r.(n := r.n + n)])[..|base|] == base;
  }
}
