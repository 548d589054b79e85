/** The PT_LOAD loop of user_process::__load_elf (os/proc/elf.cc). */
module ElfLoader {
  import opened Basics
  import opened PageTable
  import opened PageMemory
  import opened AddressSpace
  import opened UserProcess
  import opened UserCopy

  const PT_LOAD := 1
  const USER_TEXT_START := 0x1000

  datatype Phdr = Phdr(ptype: nat, flags: nat, offset: nat, vaddr: nat, filesz: nat, memsz: nat)
  datatype LoadResult = Loaded | Rejected | Halted

  /** PF_R is 4, PF_W is 2, PF_X is 1. */
  function PteFlags(flags: nat): (perm: nat)
    ensures perm < 32 && perm / 16 % 2 == 1 && perm % 2 == 0
  {
    (if flags / 4 % 2 == 1 then PTE_R else 0) + (if flags / 2 % 2 == 1 then PTE_W else 0)
    + (if flags % 2 == 1 then PTE_X else 0) + PTE_U
  }

  /** Bits 1, 2, 3 and 4 of the entry: readable, writable and executable as p_flags says, and the user's. */
  predicate RightsOf(pte: nat, flags: nat)
  {
    && IsValid(pte) && FlagsOf(pte) / 2 % 2 == flags / 4 % 2 && FlagsOf(pte) / 4 % 2 == flags / 2 % 2
    && FlagsOf(pte) / 8 % 2 == flags % 2 && FlagsOf(pte) / 16 % 2 == 1
  }

  lemma RightsSet(pte: nat, flags: nat)
    requires FlagsOf(pte) == OrV(PteFlags(flags))
    ensures RightsOf(pte, flags)
  {
    hide FlagsOf;
    var r, w, x := flags / 4 % 2, flags / 2 % 2, flags % 2;
    assert OrV(PteFlags(flags)) == 1 + 2 * r + 4 * w + 8 * x + 16;
  }

  function First(ph: Phdr): (a: nat) { RoundDown(ph.vaddr) }
  function End(ph: Phdr): (a: nat) { RoundUp(ph.vaddr + ph.memsz) }

  /** The pages of a segment: from the page of its first byte to the end of the page of its last. */
  lemma SegmentBounds(ph: Phdr)
    ensures First(ph) % 0x1000 == 0 && First(ph) <= ph.vaddr < First(ph) + 0x1000
    ensures End(ph) % 0x1000 == 0 && ph.vaddr + ph.memsz <= End(ph) < ph.vaddr + ph.memsz + 0x1000
  {
    Rounding(ph.vaddr);
    Rounding(ph.vaddr + ph.memsz);
  }

  /** Where the writes end: beyond the pages of the segment if the file has more bytes than they hold. */
  function Top(ph: Phdr): (a: nat) { if ph.vaddr + ph.filesz <= End(ph) then End(ph) else ph.vaddr + ph.filesz }

  lemma Order(ph: Phdr)
    ensures First(ph) <= End(ph) <= Top(ph)
  {
  }

  /** The length of the pages, of the writes, and of the writes behind the pages. */
  function Size(ph: Phdr): (n: nat) { Order(ph); End(ph) - First(ph) }
  function Reach(ph: Phdr): (n: nat) { Order(ph); Top(ph) - First(ph) }
  function Behind(ph: Phdr): (n: nat) { Order(ph); Top(ph) - End(ph) }

  /** The file bytes stay in the pages of the segment. */
  predicate Fitting(ph: Phdr) { ph.vaddr + ph.filesz <= End(ph) }

  /** What the segment should look like at an address of its pages. */
  ghost function SegByte(file: seq<byte>, ph: Phdr, a: nat): (b: byte)
  {
    if ph.vaddr <= a < ph.vaddr + ph.filesz
        && ph.offset + (a - ph.vaddr) < |file| then file[ph.offset + (a - ph.vaddr)] else 0
  }

  ghost predicate SegmentLoaded(words: Words, bytes: Bytes, root: nat, file: seq<byte>, ph: Phdr)
  {
    forall a: nat :: First(ph) <= a < End(ph) ==>
        Frame(words, root, a / PGSIZE) != 0 && UserByte(words, bytes, root, a) == SegByte(file, ph, a)
  }

  /** No user page is mapped from a shared physical page. */
  ghost predicate UserPrivate(infos: seq<Info>)
  {
    forall i :: 0 <= i < |infos| && infos[i].pteFlags / 16 % 2 == 1 ==> !IsShared(infos[i].flags)
  }

  /** What was mapped stays mapped, with the same contents, except where file bytes run on behind the
      pages of the segment. */
  ghost predicate Kept(w0: Words, b0: Bytes, w1: Words, b1: Bytes, root: nat, file: seq<byte>, ph: Phdr)
  {
    forall a: nat :: Frame(w0, root, a / PGSIZE) != 0 ==>
      && Frame(w1, root, a / PGSIZE) == Frame(w0, root, a / PGSIZE)
      && UserByte(w1, b1, root, a) == if End(ph) <= a < Top(ph) then SegByte(file, ph, a) else UserByte(w0, b0, root, a)
  }

  /** copyout and the two memset_user of one segment. */
  method FillSegment(mem: Memory, root: nat, ghost role: map<nat, Pos>, file: seq<byte>, ph: Phdr) returns (ok: bool)
    requires mem.Holds(root, role) && Private(mem.words, mem.bytes, root) && ph.offset + ph.filesz <= |file|
    modifies mem`free, mem`count, mem`words, mem`bytes
    ensures mem.Holds(root, role) && mem.Now() == old(mem.Now())
    ensures ok <==> UserCopy.Mapped(mem.words, root, First(ph), Reach(ph))
    ensures ok ==> FilledBytes(mem.words, old(mem.bytes), mem.bytes, root, file, ph)
    ensures Private(mem.words, mem.bytes, root)
  {
    hide Memory.Holds, Private, Backed, Stored, UserByte, Frame, Written, FilledBytes, UserCopy.Mapped, RoundUp;
    hide RoundDown;
    PrivateBacked(mem.words, mem.bytes, root);
    Bounds(ph);
    var data := file[ph.offset..ph.offset + ph.filesz];
    ghost var words, b0, k, k1, k2 := mem.words, mem.bytes, 0, 0, 0;
    ok, k := Copyout(mem, root, role, ph.vaddr, data);
    if !ok { NotAll(words, root, First(ph), Reach(ph), ph.vaddr + k); return; }
    assert data[..k] == data;
    ghost var b1 := mem.bytes;
    if ph.vaddr > First(ph) {
      ok, k1 := MemsetUser(mem, root, role, First(ph), 0, ph.vaddr - First(ph));
      if !ok { NotAll(words, root, First(ph), Reach(ph), First(ph) + k1); return; }
    } else {
      WrittenNothing(words, root, b1, First(ph));
      FillNothing(0);
    }
    ghost var b2 := mem.bytes;
    if ph.vaddr + ph.filesz < End(ph) {
      ok, k2 := MemsetUser(mem, root, role, ph.vaddr + ph.filesz, 0, End(ph) - (ph.vaddr + ph.filesz));
      if !ok { NotAll(words, root, First(ph), Reach(ph), ph.vaddr + ph.filesz + k2); return; }
    } else {
      WrittenNothing(words, root, b2, ph.vaddr + ph.filesz);
      FillNothing(0);
    }
    MappedParts(words, root, First(ph), ph.vaddr, ph.vaddr + ph.filesz, Top(ph));
    Filled(words, root, b0, b1, b2, mem.bytes, file, ph);
  }

  /** User memory after the three writes. */
  ghost predicate FilledBytes(words: Words, b0: Bytes, b1: Bytes, root: nat, file: seq<byte>, ph: Phdr)
  {
    forall a: nat :: UserByte(words, b1, root, a)
                     == if First(ph) <= a < Top(ph) then SegByte(file, ph, a) else UserByte(words, b0, root, a)
  }

  lemma Bounds(ph: Phdr)
    ensures First(ph) <= ph.vaddr <= ph.vaddr + ph.memsz <= End(ph) <= Top(ph)
    ensures First(ph) % PGSIZE == 0 && (Size(ph)) % PGSIZE == 0
    ensures First(ph) == End(ph) <==> ph.memsz == 0 && ph.vaddr % PGSIZE == 0
  {
  }

  lemma NotAll(words: Words, root: nat, first: nat, n: nat, a: nat)
    requires first <= a < first + n && Frame(words, root, a / PGSIZE) == 0
    ensures !UserCopy.Mapped(words, root, first, n)
  {
    hide Frame;
  }

  lemma MappedParts(words: Words, root: nat, a: nat, b: nat, c: nat, d: nat)
    requires a <= b <= c <= d
    requires UserCopy.Mapped(words, root, a, b - a) && UserCopy.Mapped(words, root, b, c - b)
    requires UserCopy.Mapped(words, root, c, d - c)
    ensures UserCopy.Mapped(words, root, a, d - a)
  {
    hide Frame;
  }

  /** File bytes, then zeros before and after them: together the segment. */
  lemma Filled(words: Words, root: nat, b0: Bytes, b1: Bytes, b2: Bytes, b3: Bytes, file: seq<byte>, ph: Phdr)
    requires ph.offset + ph.filesz <= |file| && First(ph) <= ph.vaddr && ph.vaddr + ph.filesz <= Top(ph)
    requires Written(words, root, b0, b1, ph.vaddr, file[ph.offset..ph.offset + ph.filesz])
    requires Written(words, root, b1, b2, First(ph), Fill(0, ph.vaddr - First(ph)))
    requires Written(words, root, b2, b3, ph.vaddr + ph.filesz, Fill(0, Top(ph) - (ph.vaddr + ph.filesz)))
    ensures FilledBytes(words, b0, b3, root, file, ph)
  {
    hide Frame, UserByte, RoundUp, RoundDown;
    forall a: nat
      ensures UserByte(words, b3, root, a)
              == (if First(ph) <= a < Top(ph) then SegByte(file, ph, a) else UserByte(words, b0, root, a))
    {
      var data := file[ph.offset..ph.offset + ph.filesz];
      var rest := Fill(0, Top(ph) - (ph.vaddr + ph.filesz));
      assert UserByte(words, b3, root, a) == ByteAfter(words, root, b2, ph.vaddr + ph.filesz, rest, a);
      assert UserByte(words, b2, root, a) == ByteAfter(words, root, b1, First(ph), Fill(0, ph.vaddr - First(ph)), a);
      assert UserByte(words, b1, root, a) == ByteAfter(words, root, b0, ph.vaddr, data, a);
    }
  }

  /** The tests of the loop: the file bytes exist, and the pages lie in the user's part. */
  predicate InBounds(file: seq<byte>, ph: Phdr)
  {
    ph.offset + ph.filesz <= |file| && End(ph) < USER_STACK_TOP && First(ph) >= USER_TEXT_START
  }

  /** The pages of a segment. */
  function Lo(ph: Phdr): (v: nat) { First(ph) / PGSIZE }
  function Pages(ph: Phdr): (n: nat) { (Size(ph)) / PGSIZE }

  /** No page outside the segment has changed its translation. */
  ghost predicate OtherPages(w0: Words, w1: Words, root: nat, ph: Phdr)
  {
    forall v: nat :: v < VPNS && !(Lo(ph) <= v < Lo(ph) + Pages(ph)) ==> PteAt(w1, root, v) == PteAt(w0, root, v)
  }

  /** Every page of the segment may be used as its header says, and by the user. */
  ghost predicate SegmentRights(words: Words, root: nat, ph: Phdr)
  {
    forall v: nat :: Lo(ph) <= v < Lo(ph) + Pages(ph) ==> RightsOf(PteAt(words, root, v), ph.flags)
  }

  /** What was mapped keeps its entry. */
  ghost predicate EntriesKept(w0: Words, w1: Words, root: nat)
  {
    forall v: nat :: v < VPNS && IsValid(PteAt(w0, root, v)) ==> PteAt(w1, root, v) == PteAt(w0, root, v)
  }

  lemma NewRights(w0: Words, w1: Words, root: nat, pool: set<nat>, ph: Phdr)
    requires Lo(ph) + Pages(ph) <= MAX_PAGES
    requires AnonRange(w0, w1, root, pool, Lo(ph), Pages(ph), PteFlags(ph.flags))
    ensures SegmentRights(w1, root, ph) && EntriesKept(w0, w1, root)
  {
    hide PteAt, IsValid, FlagsOf, OrV, PaOf, RoundUp, RoundDown, RightsOf, PteFlags;
    var lo, n, perm := Lo(ph), Pages(ph), PteFlags(ph.flags);
    forall v: nat | v < VPNS ensures AnonPage(PteAt(w0, root, v), PteAt(w1, root, v), pool, lo <= v < lo + n, perm) { }
    forall v: nat | lo <= v < lo + n ensures RightsOf(PteAt(w1, root, v), ph.flags) {
      RightsSet(PteAt(w1, root, v), ph.flags);
    }
  }

  lemma RightsKept(w0: Words, w1: Words, root: nat, ph: Phdr)
    requires SegmentRights(w0, root, ph) && EntriesKept(w0, w1, root) && Lo(ph) + Pages(ph) <= MAX_PAGES
    ensures SegmentRights(w1, root, ph)
  {
    hide PteAt, IsValid, FlagsOf, RoundUp, RoundDown;
    forall v: nat | Lo(ph) <= v < Lo(ph) + Pages(ph) ensures RightsOf(PteAt(w1, root, v), ph.flags) {
      assert IsValid(PteAt(w0, root, v)) && v < VPNS;
    }
  }

  /** The body of the loop for one PT_LOAD header.  It halts only when a page of the segment is
      mapped already, and fails only out of bounds, out of memory, or when file bytes run on into pages
      that are not mapped.  If they run on into mapped pages, these lose their contents. */
  method LoadSegment(p: Process, file: seq<byte>, ph: Phdr) returns (r: LoadResult, ghost lost: set<nat>)
    requires p.Built() && p.pagetable != 0 && UserPrivate(p.infos)
    modifies p`infos, p`role, p`who, p`data, p.mem
    ensures !r.Halted? ==> p.Built() && UserPrivate(p.infos) && p.Stock() + lost == old(p.Stock()) && |lost| <= 1
    ensures r.Loaded? ==> SegmentLoaded(p.mem.words, p.mem.bytes, p.pagetable, file, ph) && lost == {}
    ensures r.Loaded? ==> Kept(old(p.mem.words), old(p.mem.bytes), p.mem.words, p.mem.bytes, p.pagetable, file, ph)
    ensures r.Loaded? ==> p.infos == old(p.infos) + [Info(First(ph), Size(ph), MAP_USER, PteFlags(ph.flags))]
    ensures r.Loaded? ==> OtherPages(old(p.mem.words), p.mem.words, p.pagetable, ph)
    ensures r.Loaded? ==> |old(p.mem.free)| <= |p.mem.free| + 3 * Pages(ph)
    ensures r.Loaded? ==> InBounds(file, ph) && SegmentRights(p.mem.words, p.pagetable, ph)
    ensures r.Loaded? ==> EntriesKept(old(p.mem.words), p.mem.words, p.pagetable)
    ensures r.Loaded? ==> UserCopy.Mapped(p.mem.words, p.pagetable, First(ph), Reach(ph))
    ensures r.Halted? ==> !Unmapped(old(p.mem.words), p.pagetable, Lo(ph), Pages(ph))
    ensures r.Rejected? ==> !InBounds(file, ph) || |old(p.mem.free)| < 3 * Pages(ph)
                            || !UserCopy.Mapped(old(p.mem.words), p.pagetable, End(ph), Behind(ph))
  {
    hide Process.Stock, SegmentLoaded, Kept, RoundUp, RoundDown, PteFlags, Private, OwnFrames, MapsRange, Owns, Frame;
    hide UserByte, UserCopy.Mapped, Elems, Memory.Holds;
    hide OtherPages, OrV, PageCount, Unmapped, AnonRange, SameTranslation, SegmentRights, EntriesKept;
    lost := {};
    if ph.offset + ph.filesz > |file| { return Rejected, lost; }
    if End(ph) >= USER_STACK_TOP || First(ph) < USER_TEXT_START { return Rejected, lost; }
    ghost var w0, b0 := p.mem.words, p.mem.bytes;
    var res;
    res, lost := MapSegment(p, ph);
    if res.Panic? { return Halted, lost; }
    if res.OutOfMemory? { return Rejected, lost; }
    PrivateOf(p.mem, p.mem.Now(), p.mem.bytes, p.pagetable, p.role, p.infos, p.who, p.data);
    if UserCopy.Mapped(w0, p.pagetable, End(ph), Behind(ph)) { BehindMapped(w0, p.mem.words, p.pagetable, ph); }
    r := FillMapped(p, file, ph, w0, b0);
  }

  /** The mapping of a segment in bounds; an empty one only gets an entry. */
  method MapSegment(p: Process, ph: Phdr) returns (res: MapResult, ghost lost: set<nat>)
    requires p.Built() && p.pagetable != 0 && UserPrivate(p.infos) && End(ph) < USER_STACK_TOP
    modifies p`infos, p`role, p`who, p`data, p.mem`free, p.mem`count, p.mem`words
    ensures !res.Panic? ==> p.Built() && UserPrivate(p.infos) && p.Stock() + lost == old(p.Stock()) && |lost| <= 1
    ensures res.Mapped? ==>
              p.infos == old(p.infos) + [Info(First(ph), Size(ph), MAP_USER, PteFlags(ph.flags))]
    ensures res.Mapped? ==> lost == {} && |old(p.mem.free)| <= |p.mem.free| + 3 * Pages(ph)
    ensures res.Mapped? ==> UserCopy.Mapped(p.mem.words, p.pagetable, First(ph), Size(ph))
    ensures res.Mapped? ==> NewPages(old(p.mem.words), p.mem.words, p.pagetable, ph)
    ensures res.Mapped? ==> SegmentRights(p.mem.words, p.pagetable, ph)
    ensures res.Mapped? ==> EntriesKept(old(p.mem.words), p.mem.words, p.pagetable)
    ensures res.Mapped? ==> OtherPages(old(p.mem.words), p.mem.words, p.pagetable, ph)
    ensures res.Panic? ==> !Unmapped(old(p.mem.words), p.pagetable, Lo(ph), Pages(ph))
    ensures res.OutOfMemory? ==> |old(p.mem.free)| < 3 * Pages(ph)
  {
    hide Process.Stock, RoundUp, RoundDown, PteFlags, OwnFrames, MapsRange, Owns, Frame, UserCopy.Mapped, Elems;
    hide Memory.Holds, OtherPages, OrV, PageCount, Unmapped, AnonRange, SameTranslation, SegmentRights, EntriesKept;
    Bounds(ph);
    var perm := PteFlags(ph.flags);
    PermFacts(ph.flags);
    SegmentBound(ph);
    ghost var w0, pool := p.mem.words, Elems(p.mem.free);
    PoolPages(p.mem);
    ghost var page;
    res, page, lost := p.Mmap(First(ph), Size(ph), MAP_USER, perm);
    if !res.Mapped? { return; }
    if First(ph) == End(ph) {
      NothingNew(w0, p.pagetable, ph);
    } else {
      NewRights(w0, p.mem.words, p.pagetable, pool, ph);
      SegmentMapped(w0, p.mem.words, p.pagetable, pool, ph, perm);
    }
  }

  /** The pages behind the segment are as mapped as they were. */
  lemma BehindMapped(w0: Words, w1: Words, root: nat, ph: Phdr)
    requires UserCopy.Mapped(w0, root, End(ph), Behind(ph)) && OtherPages(w0, w1, root, ph)
    requires UserCopy.Mapped(w1, root, First(ph), Size(ph))
    ensures UserCopy.Mapped(w1, root, First(ph), Reach(ph))
  {
    hide PteAt, IsValid, RoundUp, RoundDown, PaOf;
    Bounds(ph);
    forall a: nat | End(ph) <= a < Top(ph) ensures Frame(w1, root, a / PGSIZE) != 0 {
      assert Frame(w0, root, a / PGSIZE) != 0 && Lo(ph) + Pages(ph) <= a / PGSIZE;
    }
  }

  lemma NothingNew(w: Words, root: nat, ph: Phdr)
    requires First(ph) == End(ph)
    ensures UserCopy.Mapped(w, root, First(ph), Size(ph)) && NewPages(w, w, root, ph)
    ensures OtherPages(w, w, root, ph) && SegmentRights(w, root, ph) && EntriesKept(w, w, root)
  {
    hide Frame, PteAt, RoundUp, RoundDown;
  }

  /** The part after the mapping, which fails only when the file bytes run on into unmapped pages. */
  method FillMapped(p: Process, file: seq<byte>, ph: Phdr, ghost w0: Words, ghost b0: Bytes) returns (r: LoadResult)
    requires p.Built() && p.pagetable != 0 && ph.offset + ph.filesz <= |file|
    requires Private(p.mem.words, p.mem.bytes, p.pagetable) && p.mem.bytes == b0
    requires NewPages(w0, p.mem.words, p.pagetable, ph)
    requires UserCopy.Mapped(p.mem.words, p.pagetable, First(ph), Size(ph))
    modifies p.mem
    ensures !r.Halted? && p.Built() && p.mem.Now() == old(p.mem.Now())
    ensures r.Loaded? <==> UserCopy.Mapped(p.mem.words, p.pagetable, First(ph), Reach(ph))
    ensures Fitting(ph) ==> r.Loaded?
    ensures r.Loaded? ==> SegmentLoaded(p.mem.words, p.mem.bytes, p.pagetable, file, ph)
    ensures r.Loaded? ==> Kept(w0, b0, p.mem.words, p.mem.bytes, p.pagetable, file, ph)
  {
    hide SegmentLoaded, Kept, RoundUp, RoundDown, Private, Owns, Frame, UserByte, UserCopy.Mapped, Memory.Holds;
    hide NewPages, FilledBytes;
    Bounds(ph);
    var ok := FillSegment(p.mem, p.pagetable, p.role, file, ph);
    p.HoldsValid();
    if !ok { return Rejected; }
    LoadedAfter(w0, b0, p.mem.words, p.mem.bytes, p.pagetable, file, ph);
    r := Loaded;
  }

  lemma SegmentBound(ph: Phdr)
    requires End(ph) < USER_STACK_TOP
    ensures Fits(First(ph), Size(ph) + 2 * PGSIZE) && Lo(ph) + Pages(ph) <= MAX_PAGES
    ensures First(ph) < End(ph) ==> Pages(ph) == PageCount(First(ph), Size(ph))
  {
    hide RoundUp, RoundDown, PageCount;
    Bounds(ph);
    if First(ph) < End(ph) { SegmentPages(ph); }
  }

  lemma PermFacts(flags: nat)
    ensures PteFlags(flags) < 1024 && PteFlags(flags) / 16 % 2 == 1 && IsUserFlags(PteFlags(flags))
    ensures OrV(PteFlags(flags)) != 1
  {
  }

  predicate IsUserFlags(perm: nat) { OrV(perm) / 16 % 2 == 1 }

  lemma SegmentPages(ph: Phdr)
    requires First(ph) < End(ph)
    ensures PageCount(First(ph), Size(ph)) * PGSIZE == Size(ph)
  {
    Bounds(ph);
    WholePages(First(ph), (Size(ph)) / PGSIZE);
  }

  lemma PoolPages(mem: Memory)
    requires mem.Valid()
    ensures 0 !in Elems(mem.free)
  {
  }

  /** The pages of the segment are new and mapped for the user. */
  lemma SegmentMapped(w0: Words, w1: Words, root: nat, pool: set<nat>, ph: Phdr, perm: nat)
    requires First(ph) < End(ph) && End(ph) <= MAXVA && IsUserFlags(perm) && 0 !in pool
    requires AnonRange(w0, w1, root, pool, First(ph) / PGSIZE, PageCount(First(ph), Size(ph)), perm)
    ensures UserCopy.Mapped(w1, root, First(ph), Size(ph))
    ensures NewPages(w0, w1, root, ph) && OtherPages(w0, w1, root, ph)
  {
    hide PteAt, IsValid, FlagsOf, OrV, PaOf, RoundUp, RoundDown, PageCount;
    Bounds(ph);
    SegmentPages(ph);
    forall a: nat ensures PageInside(ph, a) { SegmentPage(ph, a); }
    var lo, n := First(ph) / PGSIZE, PageCount(First(ph), Size(ph));
    forall v: nat | v < VPNS ensures AnonPage(PteAt(w0, root, v), PteAt(w1, root, v), pool, lo <= v < lo + n, perm) { }
  }

  /** Address and page number agree on what belongs to the segment. */
  ghost predicate PageInside(ph: Phdr, a: nat)
    requires First(ph) < End(ph)
  {
    var lo, n := First(ph) / PGSIZE, PageCount(First(ph), Size(ph));
    (First(ph) <= a < End(ph) <==> lo <= a / PGSIZE < lo + n) && (End(ph) <= MAXVA ==> lo + n <= MAX_PAGES)
  }

  lemma SegmentPage(ph: Phdr, a: nat)
    requires First(ph) < End(ph)
    ensures PageInside(ph, a)
  {
    hide PageCount, RoundUp, RoundDown;
    Bounds(ph);
    SegmentPages(ph);
    assert First(ph) == First(ph) / PGSIZE * PGSIZE;
    assert a == a / PGSIZE * PGSIZE + a % PGSIZE;
  }

  ghost predicate NewPages(w0: Words, w1: Words, root: nat, ph: Phdr)
  {
    forall a: nat :: Frame(w0, root, a / PGSIZE) != 0 ==>
        !(First(ph) <= a < End(ph)) && Frame(w1, root, a / PGSIZE) == Frame(w0, root, a / PGSIZE)
  }

  lemma LoadedAfter(w0: Words, b0: Bytes, w1: Words, b1: Bytes, root: nat, file: seq<byte>, ph: Phdr)
    requires NewPages(w0, w1, root, ph) && FilledBytes(w1, b0, b1, root, file, ph)
    requires UserCopy.Mapped(w1, root, First(ph), Reach(ph)) && First(ph) <= End(ph) <= Top(ph)
    ensures SegmentLoaded(w1, b1, root, file, ph) && Kept(w0, b0, w1, b1, root, file, ph)
  {
    hide Frame, RoundUp, RoundDown, SegByte;
    forall a: nat | Frame(w0, root, a / PGSIZE) != 0
      ensures UserByte(w1, b0, root, a) == UserByte(w0, b0, root, a)
    {
    }
  }

  lemma UserBit(perm: nat)
    ensures OrV(perm) / 16 % 2 == perm / 16 % 2
  {
    if perm % 2 == 0 { assert (perm + 1) / 16 == perm / 16; }
  }

  /** A process whose shared mappings are not for the user has a frame for each user page. */
  lemma PrivateOf(mem: Memory, s: Snap, bytes: Bytes, root: nat, role: map<nat, Pos>, infos: seq<Info>,
                  who: map<nat, nat>, data: map<nat, nat>)
    requires Owns(mem, s, root, role, RegionsOf(infos), who, data) && UserPrivate(infos)
    requires forall q :: mem.InRange(q) ==> q in bytes && |bytes[q]| == PGSIZE
    ensures Private(s.words, bytes, root)
  {
    hide PteAt, IsValid, FlagsOf, OrV, PaOf, Memory.InRange, PageFrame, FramePage, RegionsOk, LiveOk, NotFree;
    hide IsShared, Frame, RegionsOf;
    forall v: nat | Frame(s.words, root, v) != 0
      ensures Frame(s.words, root, v) in data && data[Frame(s.words, root, v)] == v
    {
      UserFrame(mem, s, root, role, infos, who, data, v);
    }
  }

  lemma UserFrame(mem: Memory, s: Snap, root: nat, role: map<nat, Pos>, infos: seq<Info>, who: map<nat, nat>,
                  data: map<nat, nat>, v: nat)
    requires SpaceOk(s, root, RegionsOf(infos), who, data, 0) && UserPrivate(infos) && Frame(s.words, root, v) != 0
    ensures Frame(s.words, root, v) in data && data[Frame(s.words, root, v)] == v
  {
    hide PteAt, IsValid, FlagsOf, OrV, PaOf, FramePage, NotFree, IsShared, PageCount;
    var regions := RegionsOf(infos);
    WhoBound(regions, who, v);
    UserBit(regions[who[v]].perm);
    assert regions[who[v]] == RegionOf(infos[who[v]]);
    assert PageFrame(s.words, root, regions, who, data, 0, v);
  }

  lemma KeptTrans(w0: Words, b0: Bytes, w1: Words, b1: Bytes, root: nat, file: seq<byte>, ph: Phdr, ph': Phdr)
    requires Kept(w0, b0, w1, b1, root, file, ph') && SegmentLoaded(w0, b0, root, file, ph) && Fitting(ph')
    ensures SegmentLoaded(w1, b1, root, file, ph)
  {
    hide Frame, UserByte, RoundUp, RoundDown, SegByte;
  }

  /** Two segments share no page. */
  predicate Apart(ph: Phdr, ph': Phdr)
  {
    Lo(ph) + Pages(ph) <= Lo(ph') || Lo(ph') + Pages(ph') <= Lo(ph)
  }

  /** The segments from i on are in pages of their own that are not mapped. */
  ghost predicate Separate(words: Words, root: nat, phs: seq<Phdr>, i: nat)
  {
    && (forall j, k :: i <= j < k < |phs| && phs[j].ptype == PT_LOAD && phs[k].ptype == PT_LOAD ==>
        Apart(phs[j], phs[k]))
    && (forall j :: i <= j < |phs| && phs[j].ptype == PT_LOAD ==> Unmapped(words, root, Lo(phs[j]), Pages(phs[j])))
  }

  /** The pages of all segments from i on. */
  function AllPages(phs: seq<Phdr>, i: nat): (n: nat)
    requires i <= |phs|
    decreases |phs| - i
  {
    if i == |phs| then 0 else (if phs[i].ptype == PT_LOAD then Pages(phs[i]) else 0) + AllPages(phs, i + 1)
  }

  ghost predicate AllInBounds(file: seq<byte>, phs: seq<Phdr>)
  {
    forall i :: 0 <= i < |phs| && phs[i].ptype == PT_LOAD ==> InBounds(file, phs[i])
  }

  ghost predicate AllFitting(phs: seq<Phdr>)
  {
    forall i :: 0 <= i < |phs| && phs[i].ptype == PT_LOAD ==> Fitting(phs[i])
  }

  lemma SeparateNext(w0: Words, w1: Words, root: nat, phs: seq<Phdr>, i: nat, file: seq<byte>)
    requires i < |phs| && phs[i].ptype == PT_LOAD && Separate(w0, root, phs, i) && OtherPages(w0, w1, root, phs[i])
    requires AllInBounds(file, phs)
    ensures Separate(w1, root, phs, i + 1)
  {
    hide PteAt, IsValid, RoundUp, RoundDown, PageCount;
    forall j | i + 1 <= j < |phs| && phs[j].ptype == PT_LOAD ensures Unmapped(w1, root, Lo(phs[j]), Pages(phs[j])) {
      assert Apart(phs[i], phs[j]);
      SegmentBound(phs[j]);
    }
  }

  /** No segment before the n-th has file bytes that run on over address a. */
  ghost predicate Spared(phs: seq<Phdr>, n: nat, a: nat)
  {
    forall i :: 0 <= i < n && i < |phs| && phs[i].ptype == PT_LOAD ==> !(End(phs[i]) <= a < Top(phs[i]))
  }

  /** What was mapped stays mapped, with the same contents wherever no file bytes run on. */
  ghost predicate KeptSo(w0: Words, b0: Bytes, w1: Words, b1: Bytes, root: nat, phs: seq<Phdr>, n: nat)
  {
    forall a: nat :: Frame(w0, root, a / PGSIZE) != 0 ==>
      && Frame(w1, root, a / PGSIZE) == Frame(w0, root, a / PGSIZE)
      && (Spared(phs, n, a) ==> UserByte(w1, b1, root, a) == UserByte(w0, b0, root, a))
  }

  lemma KeptNext(w0: Words, b0: Bytes, w1: Words, b1: Bytes, w2: Words, b2: Bytes, root: nat, file: seq<byte>,
                 phs: seq<Phdr>, n: nat)
    requires n < |phs| && phs[n].ptype == PT_LOAD
    requires KeptSo(w0, b0, w1, b1, root, phs, n) && Kept(w1, b1, w2, b2, root, file, phs[n])
    ensures KeptSo(w0, b0, w2, b2, root, phs, n + 1)
  {
    hide Frame, UserByte, SegByte, RoundUp, RoundDown;
    forall a: nat | Frame(w0, root, a / PGSIZE) != 0 && Spared(phs, n + 1, a)
      ensures UserByte(w2, b2, root, a) == UserByte(w0, b0, root, a)
    {
      assert Spared(phs, n, a) && !(End(phs[n]) <= a < Top(phs[n]));
    }
  }

  lemma KeptSkip(w0: Words, b0: Bytes, w1: Words, b1: Bytes, root: nat, phs: seq<Phdr>, n: nat)
    requires n < |phs| && KeptSo(w0, b0, w1, b1, root, phs, n)
    ensures KeptSo(w0, b0, w1, b1, root, phs, n + 1)
  {
    hide Frame, UserByte, RoundUp;
    forall a: nat | Spared(phs, n + 1, a) ensures Spared(phs, n, a) { }
  }

  /** The PT_LOAD loop: every segment ends up in user memory, whatever the later ones did, if the file
      bytes of all of them stay in their pages.  Segments in pages of their own never halt it, and
      then it fails only out of bounds, out of memory, or when file bytes run on. */
  method LoadSegments(p: Process, file: seq<byte>, phs: seq<Phdr>) returns (r: LoadResult, ghost lost: set<nat>)
    requires p.Built() && p.pagetable != 0 && UserPrivate(p.infos)
    modifies p`infos, p`role, p`who, p`data, p.mem
    ensures !r.Halted? ==> p.Built() && UserPrivate(p.infos) && p.Stock() + lost == old(p.Stock()) && |lost| <= 1
    ensures r.Loaded? ==> lost == {}
    ensures r.Loaded? ==>
              KeptSo(old(p.mem.words), old(p.mem.bytes), p.mem.words, p.mem.bytes, p.pagetable, phs, |phs|)
    ensures r.Loaded? && AllFitting(phs) ==> forall i :: 0 <= i < |phs| && phs[i].ptype == PT_LOAD ==>
              SegmentLoaded(p.mem.words, p.mem.bytes, p.pagetable, file, phs[i])
    ensures r.Loaded? ==> forall i :: 0 <= i < |phs| && phs[i].ptype == PT_LOAD ==>
              SegmentRights(p.mem.words, p.pagetable, phs[i])
    ensures old(Separate(p.mem.words, p.pagetable, phs, 0)) && AllInBounds(file, phs) ==> !r.Halted?
    ensures old(Separate(p.mem.words, p.pagetable, phs, 0)) && AllInBounds(file, phs) && AllFitting(phs) ==>
              |old(p.mem.free)| >= 3 * AllPages(phs, 0) ==> r.Loaded?
  {
    hide Process.Stock, Process.Built, SegmentLoaded, Kept, UserPrivate, RoundUp, RoundDown, Separate, AllInBounds;
    hide OtherPages, Unmapped, PageCount, KeptSo, SegmentRights, EntriesKept, LoadedSo, AllFitting;
    lost := {};
    var i := 0;
    NothingLoaded(p.mem.words, p.mem.bytes, p.pagetable, file, phs);
    ghost var good := Separate(p.mem.words, p.pagetable, phs, 0) && AllInBounds(file, phs);
    while i < |phs|
      invariant 0 <= i <= |phs| && lost == {} && p.Built() && UserPrivate(p.infos) && p.Stock() == old(p.Stock())
      invariant LoadedSo(p.mem.words, p.mem.bytes, p.pagetable, file, phs, i)
      invariant KeptSo(old(p.mem.words), old(p.mem.bytes), p.mem.words, p.mem.bytes, p.pagetable, phs, i)
      invariant good ==> Separate(p.mem.words, p.pagetable, phs, i)
      invariant |old(p.mem.free)| >= 3 * AllPages(phs, 0) ==> |p.mem.free| >= 3 * AllPages(phs, i)
    {
      if phs[i].ptype == PT_LOAD {
        ghost var w0, b0 := p.mem.words, p.mem.bytes;
        if good { HeadSeparate(w0, p.pagetable, phs, i, file); }
        if AllFitting(phs) { FittingBehind(w0, p.pagetable, phs, i); }
        r, lost := LoadSegment(p, file, phs[i]);
        if !r.Loaded? { return; }
        LoadedNext(w0, b0, p.mem.words, p.mem.bytes, p.pagetable, file, phs, i);
        KeptNext(old(p.mem.words), old(p.mem.bytes), w0, b0, p.mem.words, p.mem.bytes, p.pagetable, file, phs, i);
        if good { SeparateNext(w0, p.mem.words, p.pagetable, phs, i, file); }
      } else {
        SkipSegment(old(p.mem.words), old(p.mem.bytes), p.mem.words, p.mem.bytes, p.pagetable, file, phs, i);
        if good { SeparateSkip(p.mem.words, p.pagetable, phs, i); }
      }
      i := i + 1;
    }
    r := Loaded;
    AllLoaded(p.mem.words, p.mem.bytes, p.pagetable, file, phs);
  }

  /** The first n segments are in place, with their rights, and with their contents if all fit. */
  ghost predicate LoadedSo(words: Words, bytes: Bytes, root: nat, file: seq<byte>, phs: seq<Phdr>, n: nat)
  {
    forall j :: 0 <= j < n && j < |phs| && phs[j].ptype == PT_LOAD ==>
      && SegmentRights(words, root, phs[j]) && Lo(phs[j]) + Pages(phs[j]) <= MAX_PAGES
      && (AllFitting(phs) ==> SegmentLoaded(words, bytes, root, file, phs[j]))
  }

  lemma NothingLoaded(words: Words, bytes: Bytes, root: nat, file: seq<byte>, phs: seq<Phdr>)
    ensures LoadedSo(words, bytes, root, file, phs, 0) && KeptSo(words, bytes, words, bytes, root, phs, 0)
  {
    hide Frame, UserByte, Spared;
  }

  lemma LoadedNext(w0: Words, b0: Bytes, w1: Words, b1: Bytes, root: nat, file: seq<byte>, phs: seq<Phdr>, n: nat)
    requires n < |phs| && phs[n].ptype == PT_LOAD && LoadedSo(w0, b0, root, file, phs, n) && InBounds(file, phs[n])
    requires SegmentLoaded(w1, b1, root, file, phs[n]) && SegmentRights(w1, root, phs[n])
    requires Kept(w0, b0, w1, b1, root, file, phs[n]) && EntriesKept(w0, w1, root)
    ensures LoadedSo(w1, b1, root, file, phs, n + 1)
  {
    hide SegmentLoaded, SegmentRights, Kept, EntriesKept, RoundUp, RoundDown;
    SegmentBound(phs[n]);
    forall j | 0 <= j < n && phs[j].ptype == PT_LOAD
      ensures SegmentRights(w1, root, phs[j]) && (AllFitting(phs) ==> SegmentLoaded(w1, b1, root, file, phs[j]))
    {
      RightsKept(w0, w1, root, phs[j]);
      if AllFitting(phs) { KeptTrans(w0, b0, w1, b1, root, file, phs[j], phs[n]); }
    }
  }

  lemma SkipSegment(w0: Words, b0: Bytes, w1: Words, b1: Bytes, root: nat, file: seq<byte>, phs: seq<Phdr>, n: nat)
    requires n < |phs| && phs[n].ptype != PT_LOAD && LoadedSo(w1, b1, root, file, phs, n)
    requires KeptSo(w0, b0, w1, b1, root, phs, n)
    ensures LoadedSo(w1, b1, root, file, phs, n + 1) && KeptSo(w0, b0, w1, b1, root, phs, n + 1)
  {
    hide SegmentLoaded, SegmentRights, RoundUp, RoundDown, KeptSo;
    KeptSkip(w0, b0, w1, b1, root, phs, n);
  }

  lemma AllLoaded(words: Words, bytes: Bytes, root: nat, file: seq<byte>, phs: seq<Phdr>)
    requires LoadedSo(words, bytes, root, file, phs, |phs|)
    ensures forall i :: 0 <= i < |phs| && phs[i].ptype == PT_LOAD ==> SegmentRights(words, root, phs[i])
    ensures AllFitting(phs) ==> forall i :: 0 <= i < |phs| && phs[i].ptype == PT_LOAD ==>
              SegmentLoaded(words, bytes, root, file, phs[i])
  {
    hide SegmentLoaded, SegmentRights, RoundUp, RoundDown;
  }

  lemma FittingBehind(words: Words, root: nat, phs: seq<Phdr>, i: nat)
    requires AllFitting(phs) && i < |phs| && phs[i].ptype == PT_LOAD
    ensures UserCopy.Mapped(words, root, End(phs[i]), Behind(phs[i]))
  {
    hide Frame, RoundUp;
  }

  lemma HeadSeparate(words: Words, root: nat, phs: seq<Phdr>, i: nat, file: seq<byte>)
    requires i < |phs| && phs[i].ptype == PT_LOAD && Separate(words, root, phs, i) && AllInBounds(file, phs)
    ensures Unmapped(words, root, Lo(phs[i]), Pages(phs[i])) && InBounds(file, phs[i])
  {
    hide Unmapped, RoundUp, RoundDown, PageCount;
  }

  lemma SeparateSkip(words: Words, root: nat, phs: seq<Phdr>, i: nat)
    requires i < |phs| && Separate(words, root, phs, i)
    ensures Separate(words, root, phs, i + 1)
  {
    hide Unmapped, RoundUp, RoundDown, PageCount;
  }

  /** A file with two segments of one byte each, of which the second brings 0x1001 file bytes. */
  function OverrunFile(): (file: seq<byte>) { seq(0x1001, i => 7) }
  function FirstSegment(): (ph: Phdr) { Phdr(PT_LOAD, 4, 0, 0x2000, 0, 1) }
  function SecondSegment(): (ph: Phdr) { Phdr(PT_LOAD, 4, 0, 0x1000, 0x1001, 1) }

  /** The code does not compare the file size of a segment with its memory size: the second segment
      overwrites the first, which should hold zeros. */
  method Overrun(p: Process) returns (r: LoadResult)
    requires p.Built() && p.pagetable != 0 && UserPrivate(p.infos) && |p.mem.free| >= 6
    requires Unmapped(p.mem.words, p.pagetable, 1, 2)
    modifies p`infos, p`role, p`who, p`data, p.mem
    ensures r.Loaded?
    ensures SegmentLoaded(p.mem.words, p.mem.bytes, p.pagetable, OverrunFile(), SecondSegment())
    ensures !SegmentLoaded(p.mem.words, p.mem.bytes, p.pagetable, OverrunFile(), FirstSegment())
  {
    hide Process.Built, Process.Stock, UserPrivate, SegmentLoaded, Kept, OtherPages, UserCopy.Mapped, Unmapped;
    hide FirstSegment, SecondSegment;
    ghost var lost, w0 := {}, p.mem.words;
    FirstAlone(w0, p.pagetable);
    r, lost := LoadSegment(p, OverrunFile(), FirstSegment());
    ghost var w1, b1 := p.mem.words, p.mem.bytes;
    SecondAlone(w0, w1, b1, p.pagetable);
    r, lost := LoadSegment(p, OverrunFile(), SecondSegment());
    Overwritten(w1, b1, p.mem.words, p.mem.bytes, p.pagetable);
  }

  lemma FirstAlone(words: Words, root: nat)
    requires Unmapped(words, root, 1, 2)
    ensures var ph := FirstSegment();
            InBounds(OverrunFile(), ph) && Pages(ph) == 1 && Unmapped(words, root, Lo(ph), 1)
            && UserCopy.Mapped(words, root, End(ph), Behind(ph))
  {
    hide PteAt, IsValid, Frame;
  }

  lemma SecondAlone(w0: Words, w1: Words, b1: Bytes, root: nat)
    requires Unmapped(w0, root, 1, 2) && OtherPages(w0, w1, root, FirstSegment())
    requires SegmentLoaded(w1, b1, root, OverrunFile(), FirstSegment())
    ensures var ph := SecondSegment();
            InBounds(OverrunFile(), ph) && Pages(ph) == 1 && Unmapped(w1, root, Lo(ph), 1)
            && UserCopy.Mapped(w1, root, End(ph), Behind(ph))
  {
    hide PteAt, IsValid, Frame;
    assert First(FirstSegment()) == 0x2000 && End(FirstSegment()) == 0x3000;
    assert End(SecondSegment()) == 0x2000 && Top(SecondSegment()) == 0x2001;
    assert PteAt(w1, root, 1) == PteAt(w0, root, 1);
  }

  lemma Overwritten(w1: Words, b1: Bytes, w2: Words, b2: Bytes, root: nat)
    requires SegmentLoaded(w1, b1, root, OverrunFile(), FirstSegment())
    requires Kept(w1, b1, w2, b2, root, OverrunFile(), SecondSegment())
    ensures !SegmentLoaded(w2, b2, root, OverrunFile(), FirstSegment())
  {
    hide Frame, UserByte;
    var a: nat := 0x2000;
    assert First(FirstSegment()) <= a < End(FirstSegment());
    assert End(SecondSegment()) <= a < Top(SecondSegment());
    assert Frame(w1, root, a / PGSIZE) != 0;
    assert UserByte(w2, b2, root, a) == SegByte(OverrunFile(), SecondSegment(), a) == 7;
    assert SegByte(OverrunFile(), FirstSegment(), a) == 0;
  }
}
