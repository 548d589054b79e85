/** The life of an address space: __init_pagetable, any calls of __mmap, __free_pagetable twice. */
module ProcessRuns {
  import opened Basics
  import opened PageTable
  import opened PageMemory
  import opened AddressSpace
  import opened UserProcess

  /** A call of one of the overloads of __mmap. */
  datatype Request =
    | Fresh(va: nat, size: nat, flags: nat, perm: nat)
    | Shared(va: nat, pa: nat, size: nat, flags: nat, perm: nat)    // pages of somebody else
    | Private(va: nat, size: nat, flags: nat, perm: nat)            // one page the caller has allocated

  /** A non-empty, aligned range with some permission. */
  predicate Legal(r: Request)
  {
    && r.size > 0 && r.va % PGSIZE == 0 && r.size % PGSIZE == 0 && 2 <= r.perm < 1024 && Fits(r.va, r.size + 2 * PGSIZE)
    && (r.Shared? ==> IsShared(r.flags)) && (r.Private? ==> !IsShared(r.flags) && r.size == PGSIZE)
  }

  /** The list entry that a request leaves; the allocating overload never shares. */
  function Entry(r: Request): (info: Info)
  {
    Info(r.va, r.size, if r.Fresh? then Unshared(r.flags) else r.flags, r.perm)
  }

  function Entries(requests: seq<Request>): (infos: seq<Info>)
  {
    seq(|requests|, i requires 0 <= i < |requests| => Entry(requests[i]))
  }

  /** The pages of a request. */
  function Lo(r: Request): (v: nat) { r.va / PGSIZE }
  function Pages(r: Request): (n: nat) { r.size / PGSIZE }

  lemma RequestPages(r: Request)
    requires Legal(r)
    ensures PageCount(r.va, r.size) == Pages(r) > 0
  {
    WholePages(r.va, Pages(r));
  }

  /** Only the pages of the request have changed, and it took at most three pages for each. */
  ghost predicate Served(s0: Snap, s1: Snap, root: nat, r: Request)
  {
    && (forall v: nat :: v < VPNS && !(Lo(r) <= v < Lo(r) + Pages(r)) ==>
          PteAt(s1.words, root, v) == PteAt(s0.words, root, v))
    && |s0.free| <= |s1.free| + 3 * Pages(r)
  }

  /** The pages of the request are there to be mapped, and memory suffices. */
  ghost predicate HasRoom(s: Snap, root: nat, r: Request)
  {
    Lo(r) + Pages(r) <= MAX_PAGES && Unmapped(s.words, root, Lo(r), Pages(r)) && |s.free| >= 3 * Pages(r)
  }

  /** Two requests share no page. */
  predicate Disjoint(r: Request, r': Request)
  {
    Lo(r) + Pages(r) <= Lo(r') || Lo(r') + Pages(r') <= Lo(r)
  }

  /** The requests from i on are for pages of their own that can be mapped. */
  ghost predicate Separate(words: Words, root: nat, requests: seq<Request>, i: nat)
  {
    && (forall j, k :: i <= j < k < |requests| ==> Disjoint(requests[j], requests[k]))
    && (forall j :: i <= j < |requests| ==>
          Lo(requests[j]) + Pages(requests[j]) <= MAX_PAGES
          && Unmapped(words, root, Lo(requests[j]), Pages(requests[j])))
  }

  /** The pages of all requests from i on. */
  function AllPages(requests: seq<Request>, i: nat): (n: nat)
    requires i <= |requests|
    decreases |requests| - i
  {
    if i == |requests| then 0 else Pages(requests[i]) + AllPages(requests, i + 1)
  }

  lemma SeparateNext(s0: Snap, s1: Snap, root: nat, requests: seq<Request>, i: nat)
    requires i < |requests| && Separate(s0.words, root, requests, i) && Served(s0, s1, root, requests[i])
    ensures Separate(s1.words, root, requests, i + 1)
  {
    hide PteAt, IsValid;
    forall j | i + 1 <= j < |requests| ensures Unmapped(s1.words, root, Lo(requests[j]), Pages(requests[j])) {
      assert Disjoint(requests[i], requests[j]);
    }
  }

  lemma SeparateHead(s: Snap, root: nat, requests: seq<Request>, i: nat)
    requires i < |requests| && Separate(s.words, root, requests, i) && |s.free| >= 3 * AllPages(requests, i)
    ensures HasRoom(s, root, requests[i])
  {
    hide Unmapped;
  }

  lemma PermTidy(perm: nat)
    requires perm >= 2
    ensures OrV(perm) != 1
  {
  }

  ghost predicate AllTidy(infos: seq<Info>)
  {
    forall i :: 0 <= i < |infos| ==> Tidy(infos[i])
  }

  lemma TidyPush(infos: seq<Info>, info: Info)
    requires AllTidy(infos) && Tidy(info)
    ensures AllTidy(infos + [info])
  {
  }

  lemma RequestTidy(r: Request, flags: nat)
    requires Legal(r)
    ensures Tidy(Info(r.va, r.size, flags, r.perm))
  {
    PermTidy(r.perm);
  }

  /** One request. */
  method Serve(p: Process, r: Request) returns (ok: bool)
    requires p.Built() && p.pagetable != 0 && Legal(r) && AllTidy(p.infos)
    modifies p`infos, p`role, p`who, p`data, p`stray, p.mem`free, p.mem`count, p.mem`words
    ensures ok ==> p.Built() && p.Stock() == old(p.Stock()) && AllTidy(p.infos) && p.infos == old(p.infos) + [Entry(r)]
    ensures ok ==> Served(old(p.mem.Now()), p.mem.Now(), p.pagetable, r)
    ensures old(HasRoom(p.mem.Now(), p.pagetable, r)) ==> ok
  {
    if r.Fresh? {
      ok := ServeFresh(p, r);
    } else if r.Shared? {
      ok := ServeShared(p, r);
    } else {
      ok := ServePrivate(p, r);
    }
  }

  method ServeFresh(p: Process, r: Request) returns (ok: bool)
    requires p.Built() && p.pagetable != 0 && Legal(r) && r.Fresh? && AllTidy(p.infos)
    modifies p`infos, p`role, p`who, p`data, p`stray, p.mem`free, p.mem`count, p.mem`words
    ensures ok ==> p.Built() && p.Stock() == old(p.Stock()) && AllTidy(p.infos) && p.infos == old(p.infos) + [Entry(r)]
    ensures ok ==> Served(old(p.mem.Now()), p.mem.Now(), p.pagetable, r)
    ensures old(HasRoom(p.mem.Now(), p.pagetable, r)) ==> ok
  {
    hide Process.Built, Process.Stock, AllTidy, Tidy, Elems, MapsRange, OwnFrames, PageCount, AnonRange, Served;
    hide SameTranslation, Unmapped, OrV;
    RequestPages(r);
    PermTidy(r.perm);
    ghost var s0 := p.mem.Now();
    RequestTidy(r, Unshared(r.flags));
    TidyPush(p.infos, Info(r.va, r.size, Unshared(r.flags), r.perm));
    ghost var page, lost;
    var res;
    res, page, lost := p.Mmap(r.va, r.size, r.flags, r.perm);
    ok := res.Mapped?;
    if ok { AnonServed(s0, p.mem.Now(), p.pagetable, r, Elems(s0.free)); }
  }

  lemma AnonServed(s0: Snap, s1: Snap, root: nat, r: Request, pool: set<nat>)
    requires AnonRange(s0.words, s1.words, root, pool, Lo(r), Pages(r), r.perm) && |s0.free| <= |s1.free| + 3 * Pages(r)
    ensures Served(s0, s1, root, r)
  {
    hide PteAt, IsValid, FlagsOf, OrV, PaOf;
    forall v: nat | v < VPNS && !(Lo(r) <= v < Lo(r) + Pages(r))
      ensures PteAt(s1.words, root, v) == PteAt(s0.words, root, v)
    {
      assert AnonPage(PteAt(s0.words, root, v), PteAt(s1.words, root, v), pool, false, r.perm);
    }
  }

  lemma MapsServed(s0: Snap, s1: Snap, root: nat, r: Request, pa: nat)
    requires MapsRange(s0.words, s1.words, root, Lo(r), Pages(r), pa, r.perm) && |s0.free| <= |s1.free| + 3 * Pages(r)
    ensures Served(s0, s1, root, r)
  {
    hide PteAt, MakePte;
  }

  method ServeShared(p: Process, r: Request) returns (ok: bool)
    requires p.Built() && p.pagetable != 0 && Legal(r) && r.Shared? && AllTidy(p.infos)
    modifies p`infos, p`role, p`who, p`data, p`stray, p.mem`free, p.mem`count, p.mem`words
    ensures ok ==> p.Built() && p.Stock() == old(p.Stock()) && AllTidy(p.infos) && p.infos == old(p.infos) + [Entry(r)]
    ensures ok ==> Served(old(p.mem.Now()), p.mem.Now(), p.pagetable, r)
    ensures old(HasRoom(p.mem.Now(), p.pagetable, r)) ==> ok
  {
    hide Process.Built, AllTidy, Tidy, Elems, MapsRange, Unmapped, Extends, PageCount, IsValid, PteAt, Loose;
    hide FrameMap, IsShared, Served;
    RequestPages(r);
    RequestTidy(r, r.flags);
    TidyPush(p.infos, Info(r.va, r.size, r.flags, r.perm));
    ghost var s0, role0 := p.mem.Now(), p.role;
    ghost var k;
    var res;
    res, k := p.MmapAt(r.va, r.pa, r.size, r.flags, r.perm);
    ExtendsSum(s0, role0, p.mem.Now(), p.role);
    ok := res.Mapped?;
    if ok { MapsServed(s0, p.mem.Now(), p.pagetable, r, r.pa); }
    if res.Panic? { BlockedAt(s0.words, p.pagetable, Lo(r), k, Pages(r)); }
  }

  method ServePrivate(p: Process, r: Request) returns (ok: bool)
    requires p.Built() && p.pagetable != 0 && Legal(r) && r.Private? && AllTidy(p.infos)
    modifies p`infos, p`role, p`who, p`data, p`stray, p.mem`free, p.mem`count, p.mem`words
    ensures ok ==> p.Built() && p.Stock() == old(p.Stock()) && AllTidy(p.infos) && p.infos == old(p.infos) + [Entry(r)]
    ensures ok ==> Served(old(p.mem.Now()), p.mem.Now(), p.pagetable, r)
    ensures old(HasRoom(p.mem.Now(), p.pagetable, r)) ==> ok
  {
    hide Process.Built, AllTidy, Tidy, Elems, MapsRange, Extends, Apart, IsShared, Served, IsValid, PteAt;
    ghost var s0 := p.mem.Now();
    RequestTidy(r, r.flags);
    TidyPush(p.infos, Info(r.va, r.size, r.flags, r.perm));
    var pa := p.TakeLoose();
    if pa == 0 { return false; }
    ghost var s1, role1 := p.mem.Now(), p.role;
    ok := p.MapFixed(r.va, pa, r.flags, r.perm);
    ExtendsSum(s1, role1, p.mem.Now(), p.role);
    if ok { MapsServed(s0, p.mem.Now(), p.pagetable, r, pa); }
  }

  /** A sequence of requests: the list grows by their entries in order, and pages are conserved.  It
      succeeds if the requests are for pages of their own and three pages are free for each. */
  method ServeAll(p: Process, requests: seq<Request>) returns (ok: bool)
    requires p.Built() && p.pagetable != 0 && AllTidy(p.infos)
    requires forall i :: 0 <= i < |requests| ==> Legal(requests[i])
    modifies p`infos, p`role, p`who, p`data, p`stray, p.mem`free, p.mem`count, p.mem`words
    ensures ok ==> p.Built() && p.Stock() == old(p.Stock()) && AllTidy(p.infos)
    ensures ok ==> p.infos == old(p.infos) + Entries(requests)
    ensures old(Separate(p.mem.words, p.pagetable, requests, 0)) ==>
              |old(p.mem.free)| >= 3 * AllPages(requests, 0) ==> ok
  {
    hide Process.Built, Process.Stock, Legal, AllTidy, Entry, Separate, HasRoom;
    ghost var good := Separate(p.mem.words, p.pagetable, requests, 0) && |p.mem.free| >= 3 * AllPages(requests, 0);
    for i := 0 to |requests|
      invariant p.Built() && p.Stock() == old(p.Stock()) && AllTidy(p.infos)
      invariant p.infos == old(p.infos) + Entries(requests[..i])
      invariant good ==>
                  Separate(p.mem.words, p.pagetable, requests, i) && |p.mem.free| >= 3 * AllPages(requests, i)
    {
      ghost var s0 := p.mem.Now();
      if good { SeparateHead(s0, p.pagetable, requests, i); }
      ok := Serve(p, requests[i]);
      if !ok { return; }
      if good { SeparateNext(s0, p.mem.Now(), p.pagetable, requests, i); }
      assert Entries(requests[..i + 1]) == Entries(requests[..i]) + [Entry(requests[i])];
    }
    ok := true;
    assert requests[..|requests|] == requests;
  }

  /** The request keeps off the three pages that __init_pagetable maps. */
  predicate OffInitial(r: Request)
  {
    && !(Lo(r) <= TRAMPOLINE / PGSIZE < Lo(r) + Pages(r)) && !(Lo(r) <= TRAPFRAME / PGSIZE < Lo(r) + Pages(r))
    && !(Lo(r) <= USER_STACK_TOP / PGSIZE < Lo(r) + Pages(r)) && Lo(r) + Pages(r) <= MAX_PAGES
  }

  /** The requests can all be served in a new address space. */
  ghost predicate Feasible(requests: seq<Request>)
  {
    && (forall i :: 0 <= i < |requests| ==> OffInitial(requests[i]))
    && (forall j, k :: 0 <= j < k < |requests| ==> Disjoint(requests[j], requests[k]))
  }

  lemma InitiallySeparate(words: Words, root: nat, trampoline: nat, frame: nat, stack: nat, requests: seq<Request>)
    requires InitialMap(words, root, trampoline, frame, stack) && Feasible(requests)
    ensures Separate(words, root, requests, 0)
  {
    hide PteAt, IsValid, MakePte;
    EmptyEntry();
    forall j | 0 <= j < |requests| ensures Unmapped(words, root, Lo(requests[j]), Pages(requests[j])) {
      assert OffInitial(requests[j]);
    }
  }

  /** Whatever is mapped in between (`mapped` is the list at its longest), the free list gets every page
      back, once.  The life runs to its end if the requests are for pages of their own and nine pages,
      and three for each, are free. */
  method Lifetime(p: Process, trampoline: nat, requests: seq<Request>)
    returns (done: bool, ghost mapped: seq<Info>)
    requires p.Built() && p.pagetable == 0 && forall i :: 0 <= i < |requests| ==> Legal(requests[i])
    modifies p, p.mem
    ensures done ==> p.Built() && p.pagetable == 0 && mapped == InitialInfos() + Entries(requests)
    ensures done ==> Elems(p.mem.free) == old(Elems(p.mem.free)) && p.mem.count == old(p.mem.count)
    ensures Feasible(requests) && |old(p.mem.free)| >= 9 + 3 * AllPages(requests, 0) ==> done
  {
    hide Process.Built, Process.Stock, Elems, Legal, AllTidy, InitialMap, NoDup, SameOutside, Feasible, Separate;
    ghost var free0 := p.mem.free;
    mapped := [];
    Idle(p);
    ghost var stack, lost;
    done, stack, lost := p.InitPagetable(trampoline);
    if !done { return; }
    InitialAllTidy();
    if Feasible(requests) {
      InitiallySeparate(p.mem.words, p.pagetable, trampoline, p.trapframe, stack, requests);
    }
    done := ServeAll(p, requests);
    if !done { return; }
    mapped := p.infos;
    done := FreeTwice(p);
    Finish(p, free0);
  }

  /** __free_pagetable, and once more. */
  method FreeTwice(p: Process) returns (ok: bool)
    requires p.Built() && AllTidy(p.infos)
    modifies p, p.mem
    ensures ok && p.Built() && p.pagetable == 0 && Elems(p.mem.free) == old(p.Stock())
  {
    hide Process.Built, Process.Stock, Elems, Tidy, SameOutside, NoDup;
    NoStray(p);
    ok := p.FreePagetable();
    Idle(p);
    ok := p.FreePagetable();
  }

  lemma InitialAllTidy()
    ensures AllTidy(InitialInfos())
  {
  }

  lemma NoStray(p: Process)
    requires p.Built()
    ensures p.stray == []
  {
  }

  lemma Idle(p: Process)
    requires p.Built() && p.pagetable == 0
    ensures p.Stock() == Elems(p.mem.free) && NoDup(p.mem.free) && p.mem.count == |p.mem.free| && p.infos == []
  {
  }

  lemma Finish(p: Process, free0: seq<nat>)
    requires p.Built() && p.pagetable == 0 && Elems(p.mem.free) == Elems(free0) && NoDup(free0)
    ensures p.mem.count == |free0|
  {
    CountOf(p.mem.free);
    CountOf(free0);
  }

  /** A range that is not a multiple of the page size can be mapped, whenever three pages are free and
      its page is not, but never torn down: uvmunmap halts the machine.  FreePagetable says that
      such ranges are the only ones. */
  method UnalignedRange(p: Process) returns (mapped: bool, freed: bool)
    requires p.Built() && p.pagetable != 0 && |p.mem.free| >= 3 && Unmapped(p.mem.words, p.pagetable, 1, 1)
    modifies p, p.mem
    ensures mapped && !freed
  {
    hide Process.Built, Process.Stock, AnonRange, MapsRange, OwnFrames, SameTranslation, Elems, Unmapped;
    ghost var page, lost;
    var res;
    res, page, lost := p.Mmap(0x1000, 100, MAP_USER, PTE_U + PTE_R);
    mapped := res.Mapped?;
    assert !Tidy(p.infos[|p.infos| - 1]);
    freed := p.FreePagetable();
  }

  /** An empty range can be listed, and then the address space can never be torn down. */
  method EmptyRange(p: Process) returns (mapped: bool, freed: bool)
    requires p.Built() && p.pagetable != 0
    modifies p, p.mem
    ensures mapped && !freed
  {
    hide Process.Built, Process.Stock, AnonRange, MapsRange, OwnFrames, SameTranslation, Elems, Unmapped;
    ghost var page, lost;
    var res;
    res, page, lost := p.Mmap(0x1000, 0, MAP_USER, PTE_U + PTE_R);
    mapped := res.Mapped?;
    assert !Tidy(p.infos[|p.infos| - 1]);
    freed := p.FreePagetable();
  }

  /** A start inside a page: page 2 is mapped to the page behind the one allocated, which is still free,
      a table of this process, or somebody else's. */
  method UnalignedStart(p: Process) returns (mapped: bool, ghost page: nat)
    requires p.Built() && p.pagetable != 0 && |p.mem.free| >= 5 && Unmapped(p.mem.words, p.pagetable, 1, 2)
    modifies p, p.mem
    ensures mapped && PteAt(p.mem.words, p.pagetable, 2) == MakePte(page + PGSIZE, PTE_U + PTE_R)
    ensures !OwnFrames(old(p.mem.Now()), p.mem.Now(), p.pagetable, p.role)
  {
    hide Process.Built, Process.Stock, AnonRange, OwnFrames, SameTranslation, Elems, Unmapped, PteAt, MakePte;
    ghost var lost;
    var res;
    res, page, lost := p.Mmap(0x1800, 1, MAP_USER, PTE_U + PTE_R);
    mapped := res.Mapped?;
  }

  /** In a memory with twelve free pages a new process gets there. */
  method UnalignedFromNew(mem: Memory, trampoline: nat) returns (mapped: bool, freed: bool)
    requires mem.Valid() && |mem.free| >= 12
    modifies mem
    ensures mapped && !freed
  {
    hide Process.Built, Process.Stock, InitialMap, Elems, NoDup, Unmapped;
    var p := new Process(mem);
    var ok;
    ghost var stack, lost;
    ok, stack, lost := p.InitPagetable(trampoline);
    LowPages(p.mem.words, p.pagetable, trampoline, p.trapframe, stack);
    mapped, freed := UnalignedRange(p);
  }

  lemma LowPages(words: Words, root: nat, trampoline: nat, frame: nat, stack: nat)
    requires InitialMap(words, root, trampoline, frame, stack)
    ensures Unmapped(words, root, 1, 1)
  {
    hide PteAt, IsValid, MakePte;
    EmptyEntry();
  }
}
