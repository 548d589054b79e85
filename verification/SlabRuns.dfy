/** Whole runs of the kernel heap: any sequence of new, delete and writes through held pointers. */
module SlabRuns {
  import opened Basics
  import opened PageTable
  import opened PageMemory
  import opened SizeClass
  import opened Slab

  datatype HeapOp = New(size: nat) | Drop(k: nat) | Write(k: nat, o: nat, x: byte)

  /** A pointer that the program holds, the size it asked for, the slot behind it, and the bytes
      that the program has there. */
  datatype Held = Held(ptr: nat, size: nat, page: nat, slot: nat, bytes: seq<byte>)

  /** What the program holds, and the number of free pages. */
  datatype Seen = Seen(held: seq<Held>, free: nat)

  /** What an operation does to the objects held: new adds one, unless the request is for nothing or
      too large for the slabs or no page is left; delete removes one; a write changes one byte of one. */
  ghost predicate Does(a: Seen, op: HeapOp, b: Seen)
  {
    match op
    case New(size) =>
      if 1 <= size <= 1024 && |b.held| > |a.held| then
        |b.held| == |a.held| + 1 && b.held[..|a.held|] == a.held && b.held[|a.held|].size == size
      else b.held == a.held && (1 <= size <= 1024 ==> b.free == 0)
    case Drop(k) => b.held == if k < |a.held| then a.held[..k] + a.held[k + 1..] else a.held
    case Write(k, o, x) =>
      b.held == if k < |a.held| && o < |a.held[k].bytes| then a.held[k := Put(a.held[k], o, x)] else a.held
  }

  function Put(h: Held, o: nat, x: byte): (h': Held)
    requires o < |h.bytes|
  {
    var bytes: seq<byte> := h.bytes[o := x];
    h.(bytes := bytes)
  }

  /** A run: one step for each operation. */
  ghost predicate Steps(trace: seq<Seen>, ops: seq<HeapOp>)
  {
    |trace| == |ops| + 1 && forall i :: 0 <= i < |ops| ==> Does(trace[i], ops[i], trace[i + 1])
  }

  ghost predicate Sound(blocks: map<nat, Block>, chains: map<nat, seq<nat>>, x: Held)
  {
    && LiveIn(blocks, chains, x.page, x.slot) && blocks[x.page].size > 0
    && x.ptr == Address(x.page, blocks[x.page].size, x.slot) && x.size <= blocks[x.page].size
    && SlotAt(blocks, x.page, x.slot) == x.bytes && |x.bytes| == blocks[x.page].size
  }

  ghost predicate Distinct(x: Held, y: Held) { (x.page, x.slot) != (y.page, y.slot) }

  ghost predicate Names(held: seq<Held>, p: nat, i: nat)
  {
    exists k :: 0 <= k < |held| && held[k].page == p && held[k].slot == i
  }

  /** The live objects are exactly the held ones, each held once and with the program's bytes. */
  ghost predicate Accounts(blocks: map<nat, Block>, chains: map<nat, seq<nat>>, held: seq<Held>)
  {
    && (forall k :: 0 <= k < |held| ==> Sound(blocks, chains, held[k]))
    && (forall j, k :: 0 <= j < k < |held| ==> Distinct(held[j], held[k]))
    && (forall p: nat, i: nat :: LiveIn(blocks, chains, p, i) ==> Names(held, p, i))
  }

  ghost predicate Pointers(ptrs: seq<nat>, held: seq<Held>)
  {
    |ptrs| == |held| && forall k :: 0 <= k < |held| ==> ptrs[k] == held[k].ptr
  }

  lemma Unchanged(blocks: map<nat, Block>, chains: map<nat, seq<nat>>, blocks': map<nat, Block>,
                  chains': map<nat, seq<nat>>, held: seq<Held>)
    requires Accounts(blocks, chains, held) && SameSizes(blocks, blocks') && SameLive(blocks, chains, blocks', chains')
    requires SameSlots(blocks, blocks')
    ensures Accounts(blocks', chains', held)
  {
    hide LiveIn, Names, Address;
    forall k | 0 <= k < |held| ensures Sound(blocks', chains', held[k]) {
      KeepSound(blocks, chains, blocks', chains', held[k]);
    }
  }

  lemma KeepSound(blocks: map<nat, Block>, chains: map<nat, seq<nat>>, blocks': map<nat, Block>,
                  chains': map<nat, seq<nat>>, x: Held)
    requires Sound(blocks, chains, x) && SameSizes(blocks, blocks') && LiveIn(blocks', chains', x.page, x.slot)
    requires SlotAt(blocks', x.page, x.slot) == SlotAt(blocks, x.page, x.slot)
    ensures Sound(blocks', chains', x)
  {
    hide IsClass, Address;
  }

  lemma Added(blocks: map<nat, Block>, chains: map<nat, seq<nat>>, blocks': map<nat, Block>,
              chains': map<nat, seq<nat>>, held: seq<Held>, x: Held)
    requires Accounts(blocks, chains, held) && SameSizes(blocks, blocks')
    requires SameLiveBut(blocks, chains, blocks', chains', x.page, x.slot)
    requires !LiveIn(blocks, chains, x.page, x.slot) && Sound(blocks', chains', x) && SameSlots(blocks, blocks')
    ensures Accounts(blocks', chains', held + [x])
  {
    hide LiveIn, Address;
    var held' := held + [x];
    forall k | 0 <= k < |held'| ensures Sound(blocks', chains', held'[k]) && (k < |held| ==> Distinct(held'[k], x)) {
      if k < |held| { KeepSound(blocks, chains, blocks', chains', held[k]); }
    }
    forall p: nat, i: nat | LiveIn(blocks', chains', p, i) ensures Names(held', p, i) {
      if (p, i) == (x.page, x.slot) {
        assert held'[|held|] == x;
      } else {
        var k :| 0 <= k < |held| && held[k].page == p && held[k].slot == i;
        assert held'[k] == held[k];
      }
    }
  }

  lemma HeldDiffer(blocks: map<nat, Block>, chains: map<nat, seq<nat>>, held: seq<Held>, m: nat, n: nat)
    requires Accounts(blocks, chains, held) && m < |held| && n < |held| && m != n
    ensures Distinct(held[m], held[n]) && Distinct(held[n], held[m])
  {
    hide LiveIn, Address, Sound, Names;
    assert Distinct(held[if m < n then m else n], held[if m < n then n else m]);
  }

  /** An object stays as it was when another slot changes. */
  lemma OtherSound(blocks: map<nat, Block>, chains: map<nat, seq<nat>>, blocks': map<nat, Block>,
                   chains': map<nat, seq<nat>>, x: Held, y: Held)
    requires Sound(blocks, chains, x) && Distinct(x, y) && SameSizes(blocks, blocks')
    requires SameLiveBut(blocks, chains, blocks', chains', y.page, y.slot)
    requires SameSlotsBut(blocks, blocks', y.page, y.slot)
    ensures Sound(blocks', chains', x)
  {
    hide LiveIn, Address, SlotAt;
    assert x.page in blocks by { LiveHere(blocks, chains, x); }
    KeepSound(blocks, chains, blocks', chains', x);
  }

  lemma LiveHere(blocks: map<nat, Block>, chains: map<nat, seq<nat>>, x: Held)
    requires LiveIn(blocks, chains, x.page, x.slot)
    ensures x.page in blocks
  {
  }

  lemma StillNamed(held: seq<Held>, n: nat, p: nat, i: nat)
    requires n < |held| && Names(held, p, i) && (held[n].page, held[n].slot) != (p, i)
    ensures Names(held[..n] + held[n + 1..], p, i)
  {
    var held' := held[..n] + held[n + 1..];
    var k :| 0 <= k < |held| && held[k].page == p && held[k].slot == i;
    var m := if k < n then k else k - 1;
    assert held'[m] == held[k];
  }

  lemma Removed(blocks: map<nat, Block>, chains: map<nat, seq<nat>>, blocks': map<nat, Block>,
                chains': map<nat, seq<nat>>, held: seq<Held>, n: nat)
    requires Accounts(blocks, chains, held) && SameSizes(blocks, blocks') && n < |held|
    requires SameLiveBut(blocks, chains, blocks', chains', held[n].page, held[n].slot)
    requires !LiveIn(blocks', chains', held[n].page, held[n].slot)
    requires SameSlotsBut(blocks, blocks', held[n].page, held[n].slot)
    ensures Accounts(blocks', chains', held[..n] + held[n + 1..])
  {
    hide LiveIn, Address, Sound, Names, Distinct, SameSlotsBut, SameSizes;
    var held' := held[..n] + held[n + 1..];
    forall k | 0 <= k < |held'| ensures Sound(blocks', chains', held'[k]) {
      var m := if k < n then k else k + 1;
      assert held'[k] == held[m];
      HeldDiffer(blocks, chains, held, m, n);
      OtherSound(blocks, chains, blocks', chains', held[m], held[n]);
    }
    forall j, k | 0 <= j < k < |held'| ensures Distinct(held'[j], held'[k]) {
      HeldDiffer(blocks, chains, held, if j < n then j else j + 1, if k < n then k else k + 1);
    }
    forall p: nat, i: nat | LiveIn(blocks', chains', p, i) ensures Names(held', p, i) {
      StillNamed(held, n, p, i);
    }
  }

  lemma PutNamed(held: seq<Held>, n: nat, o: nat, x: byte, p: nat, i: nat)
    requires n < |held| && o < |held[n].bytes| && Names(held, p, i)
    ensures Names(held[n := Put(held[n], o, x)], p, i)
  {
    var k :| 0 <= k < |held| && held[k].page == p && held[k].slot == i;
    var held' := held[n := Put(held[n], o, x)];
    assert held'[k].page == p && held'[k].slot == i;
  }

  lemma PutDistinct(held: seq<Held>, n: nat, o: nat, x: byte)
    requires n < |held| && o < |held[n].bytes| && forall j, k :: 0 <= j < k < |held| ==> Distinct(held[j], held[k])
    ensures var held' := held[n := Put(held[n], o, x)];
            forall j, k :: 0 <= j < k < |held'| ==> Distinct(held'[j], held'[k])
  {
    var held' := held[n := Put(held[n], o, x)];
    forall j, k | 0 <= j < k < |held'| ensures Distinct(held'[j], held'[k]) {
      assert Distinct(held[j], held[k]);
    }
  }

  lemma Poked(blocks: map<nat, Block>, chains: map<nat, seq<nat>>, blocks': map<nat, Block>, held: seq<Held>, n: nat,
              o: nat, x: byte)
    requires Accounts(blocks, chains, held) && SameSizes(blocks, blocks') && SameLive(blocks, chains, blocks', chains)
    requires n < |held| && o < |held[n].bytes| && SameSlotsBut(blocks, blocks', held[n].page, held[n].slot)
    requires SlotAt(blocks', held[n].page, held[n].slot) == held[n].bytes[o := x]
    ensures Accounts(blocks', chains, held[n := Put(held[n], o, x)])
  {
    hide LiveIn, Address, Sound, Names, Distinct, SameSlotsBut, SameSizes, SlotAt;
    var held' := held[n := Put(held[n], o, x)];
    forall k | 0 <= k < |held'| ensures Sound(blocks', chains, held'[k]) {
      if k == n {
        PutSound(blocks, chains, blocks', held[n], o, x);
      } else {
        HeldDiffer(blocks, chains, held, k, n);
        OtherSound(blocks, chains, blocks', chains, held[k], held[n]);
      }
    }
    PutDistinct(held, n, o, x);
    forall p: nat, i: nat | LiveIn(blocks', chains, p, i) ensures Names(held', p, i) {
      PutNamed(held, n, o, x, p, i);
    }
  }

  lemma PutSound(blocks: map<nat, Block>, chains: map<nat, seq<nat>>, blocks': map<nat, Block>, h: Held, o: nat,
                 x: byte)
    requires Sound(blocks, chains, h) && SameSizes(blocks, blocks') && SameLive(blocks, chains, blocks', chains)
    requires o < |h.bytes| && SlotAt(blocks', h.page, h.slot) == h.bytes[o := x]
    ensures Sound(blocks', chains, Put(h, o, x))
  {
    hide LiveIn, Address, SlotAt;
    LiveHere(blocks, chains, h);
  }

  method DoNew(h: Heap, ptrs: seq<nat>, ghost held: seq<Held>, size: nat)
    returns (ptrs': seq<nat>, ghost held': seq<Held>)
    requires h.Valid() && Accounts(h.blocks, h.chains, held) && Pointers(ptrs, held)
    modifies h`blocks, h`nextFree, h`chains, h`lists, h.mem`free, h.mem`count
    ensures h.Valid() && Accounts(h.blocks, h.chains, held') && Pointers(ptrs', held')
    ensures Does(Seen(held, old(|h.mem.free|)), New(size), Seen(held', |h.mem.free|))
  {
    hide Heap.Valid, LiveIn, Address, Accounts, SameSizes, ClassOf, IsClass, SameSlots, SlotAt;
    ghost var blocks0, chains0 := h.blocks, h.chains;
    ptrs', held' := ptrs, held;
    var d, ptr;
    ghost var p, i;
    d, ptr, p, i := h.Alloc(size);
    if d.Class? && ptr != 0 {
      ghost var x := Held(ptr, size, p, i, SlotAt(h.blocks, p, i));
      LivePositive(h, p, i);
      SlotSize(h, p, i);
      Added(blocks0, chains0, h.blocks, h.chains, held, x);
      ptrs', held' := ptrs + [ptr], held + [x];
    } else {
      Unchanged(blocks0, chains0, h.blocks, h.chains, held);
    }
  }

  lemma SlotSize(h: Heap, p: nat, i: nat)
    requires h.Valid() && h.Live(p, i)
    ensures p in h.blocks && |SlotAt(h.blocks, p, i)| == h.blocks[p].size
  {
    hide ListsOk, IsClass, Capacity, Memory.Valid, LiveIn;
    LiveFacts(h.mem, h.mem.free, h.blocks, h.chains, p, i);
  }

  lemma LivePositive(h: Heap, p: nat, i: nat)
    requires h.Live(p, i)
    ensures p in h.blocks && h.blocks[p].size > 0
  {
  }

  method DoDrop(h: Heap, ptrs: seq<nat>, ghost held: seq<Held>, k: nat)
    returns (ptrs': seq<nat>, ghost held': seq<Held>)
    requires h.Valid() && Accounts(h.blocks, h.chains, held) && Pointers(ptrs, held) && k < |ptrs|
    modifies h`blocks, h`nextFree, h`chains, h`lists
    ensures h.Valid() && Accounts(h.blocks, h.chains, held') && Pointers(ptrs', held')
    ensures held' == held[..k] + held[k + 1..]
  {
    hide Heap.Valid, LiveIn, Address, SameSizes, IsClass, SlotAt;
    ghost var blocks0, chains0 := h.blocks, h.chains;
    assert Sound(h.blocks, h.chains, held[k]);
    LivePositive(h, held[k].page, held[k].slot);
    h.Delete(ptrs[k], held[k].page, held[k].slot);
    Removed(blocks0, chains0, h.blocks, h.chains, held, k);
    ptrs', held' := ptrs[..k] + ptrs[k + 1..], held[..k] + held[k + 1..];
  }

  /** A byte of an object, written through its pointer; bytes outside it are not written. */
  method DoWrite(h: Heap, ptrs: seq<nat>, ghost held: seq<Held>, k: nat, o: nat, x: byte)
    returns (ghost held': seq<Held>)
    requires h.Valid() && Accounts(h.blocks, h.chains, held) && Pointers(ptrs, held) && k < |ptrs|
    modifies h`blocks
    ensures h.Valid() && Accounts(h.blocks, h.chains, held') && Pointers(ptrs, held')
    ensures held' == if o < |held[k].bytes| then held[k := Put(held[k], o, x)] else held
  {
    hide Heap.Valid, LiveIn, SameSizes, IsClass, Address, RoundDown, InfoSize, SlotAt, SameSlotsBut;
    ghost var blocks0, chains0 := h.blocks, h.chains;
    assert Sound(h.blocks, h.chains, held[k]);
    Whereabouts(h, held[k]);
    var page := RoundDown(ptrs[k]);
    var slot := (ptrs[k] - page - InfoSize(h.blocks[page].size)) / h.blocks[page].size;
    held' := held;
    if o < h.blocks[page].size {
      h.Scribble(page, slot, o, x);
      Poked(blocks0, chains0, h.blocks, held, k, o, x);
      held' := held[k := Put(held[k], o, x)];
    }
  }

  method Do(h: Heap, ptrs: seq<nat>, ghost held: seq<Held>, op: HeapOp)
    returns (ptrs': seq<nat>, ghost held': seq<Held>)
    requires h.Valid() && Accounts(h.blocks, h.chains, held) && Pointers(ptrs, held)
    modifies h`blocks, h`nextFree, h`chains, h`lists, h.mem`free, h.mem`count
    ensures h.Valid() && Accounts(h.blocks, h.chains, held') && Pointers(ptrs', held')
    ensures Does(Seen(held, old(|h.mem.free|)), op, Seen(held', |h.mem.free|))
  {
    hide Heap.Valid, Accounts, Sound;
    ptrs', held' := ptrs, held;
    match op
    case New(size) => ptrs', held' := DoNew(h, ptrs, held, size);
    case Drop(k) => if k < |ptrs| { ptrs', held' := DoDrop(h, ptrs, held, k); }
    case Write(k, o, x) => if k < |ptrs| { held' := DoWrite(h, ptrs, held, k, o, x); }
  }

  /** Any run: each operation does what it says to the objects the program holds and to nothing else;
      at the end the live objects are the held ones, they hold the program's bytes, and no two of
      them share a byte. */
  method Run(h: Heap, ops: seq<HeapOp>) returns (ptrs: seq<nat>, ghost trace: seq<Seen>)
    requires h.Valid() && forall p: nat, i: nat :: !h.Live(p, i)
    modifies h`blocks, h`nextFree, h`chains, h`lists, h.mem`free, h.mem`count
    ensures h.Valid() && Steps(trace, ops) && trace[0].held == []
    ensures Accounts(h.blocks, h.chains, trace[|ops|].held) && Pointers(ptrs, trace[|ops|].held)
    ensures var held := trace[|ops|].held; forall j, k :: 0 <= j < k < |held| ==> ApartHeld(held[j], held[k])
  {
    hide Heap.Valid, Accounts, Pointers, Sound, Does;
    ghost var held := [];
    ptrs, trace := [], [Seen([], |h.mem.free|)];
    NothingHeld(h);
    for n := 0 to |ops|
      invariant h.Valid() && Accounts(h.blocks, h.chains, held) && Pointers(ptrs, held)
      invariant Steps(trace, ops[..n]) && trace[0].held == [] && trace[n] == Seen(held, |h.mem.free|)
    {
      ptrs, held := Do(h, ptrs, held, ops[n]);
      trace := trace + [Seen(held, |h.mem.free|)];
    }
    assert ops[..|ops|] == ops;
    forall j, k | 0 <= j < k < |held| ensures ApartHeld(held[j], held[k]) { HeldApart(h, held, j, k); }
  }

  /** The bytes asked for do not overlap. */
  ghost predicate ApartHeld(x: Held, y: Held)
  {
    x.ptr + x.size <= y.ptr || y.ptr + y.size <= x.ptr
  }

  lemma Whereabouts(h: Heap, x: Held)
    requires h.Valid() && Sound(h.blocks, h.chains, x)
    ensures RoundDown(x.ptr) == x.page && x.page in h.blocks && h.blocks[x.page].size > 0
    ensures x.ptr >= x.page + InfoSize(h.blocks[x.page].size)
    ensures (x.ptr - x.page - InfoSize(h.blocks[x.page].size)) / h.blocks[x.page].size == x.slot
  {
    hide BlocksOk, ListsOk, IsClass, Capacity, Memory.Valid, LiveIn, InfoSize, RoundDown, Address;
    LiveFacts(h.mem, h.mem.free, h.blocks, h.chains, x.page, x.slot);
    Locate(x.page, h.blocks[x.page].size, x.slot);
    AddressAbove(x.page, h.blocks[x.page].size, x.slot);
  }

  lemma NothingHeld(h: Heap)
    requires forall p: nat, i: nat :: !h.Live(p, i)
    ensures Accounts(h.blocks, h.chains, []) && Pointers([], [])
  {
    forall p: nat, i: nat ensures !LiveIn(h.blocks, h.chains, p, i) { assert !h.Live(p, i); }
  }

  lemma HeldApart(h: Heap, held: seq<Held>, j: nat, k: nat)
    requires h.Valid() && Accounts(h.blocks, h.chains, held) && j < k < |held|
    ensures ApartHeld(held[j], held[k])
  {
    hide Heap.Valid, LiveIn, Address, Names;
    var x, y := held[j], held[k];
    assert Sound(h.blocks, h.chains, x) && Sound(h.blocks, h.chains, y) && Distinct(x, y);
    LivePositive(h, x.page, x.slot);
    LivePositive(h, y.page, y.slot);
    h.LiveApart(x.page, x.slot, y.page, y.slot);
  }
}
