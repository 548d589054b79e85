/** The slab heap (heap_block_t and heap_allocator in os/mm/allocator.h, dispatch in
    os/mm/allocator.cc).  A page of the heap is a block: a header, and slots of one size.  The first
    word of a free slot holds the index of the next free slot; a live object may overwrite it. */
module Slab {
  import opened Basics
  import opened PageTable
  import opened PageMemory
  import opened SizeClass

  const END := 0xFFFF_FFFF            // (uint32)-1

  /** __heap_block_info_t is 24 bytes, aligned to the slot size. */
  function InfoSize(size: nat): (n: nat)
    requires size > 0
  {
    (24 + size - 1) / size * size
  }

  function Capacity(size: nat): (n: nat)
    requires IsClass(size)
    ensures 3 <= n < END && InfoSize(size) + n * size <= PGSIZE && InfoSize(size) >= 24
  {
    (PGSIZE - InfoSize(size)) / size
  }

  /** The header is padded to the slot size and no further, and no slot more would fit into the page. */
  lemma CapacityTight(size: nat)
    requires IsClass(size)
    ensures 24 <= InfoSize(size) < 24 + size && InfoSize(size) % size == 0
    ensures InfoSize(size) + Capacity(size) * size <= 4096 < InfoSize(size) + (Capacity(size) + 1) * size
  {
    assert Capacity(8) == 509 && Capacity(16) == 254 && Capacity(32) == 127 && Capacity(64) == 63;
    assert Capacity(128) == 31 && Capacity(256) == 15 && Capacity(512) == 7 && Capacity(1024) == 3;
  }

  function Address(page: nat, size: nat, i: nat): (a: nat)
    requires size > 0
  {
    page + InfoSize(size) + i * size
  }

  /** *(uint32*) of a slot: its first four bytes. */
  function LinkOf(slot: seq<byte>): (w: nat)
  {
    if |slot| < 4 then END
    else slot[0] as int + 0x100 * slot[1] as int + 0x1_0000 * slot[2] as int + 0x100_0000 * slot[3] as int
  }

  function SetLink(slot: seq<byte>, w: nat): (r: seq<byte>)
    ensures |r| == |slot|
  {
    if |slot| < 4 then slot
    else [w % 0x100, w / 0x100 % 0x100, w / 0x1_0000 % 0x100, w / 0x100_0000 % 0x100] + slot[4..]
  }

  lemma LinkSet(slot: seq<byte>, w: nat)
    requires |slot| >= 4 && w <= END
    ensures LinkOf(SetLink(slot, w)) == w
  {
    FourBytes(w);
  }

  /** heap_block_t: _size, used, next_free_index, data, next_free_block. */
  datatype Block = Block(size: nat, used: nat, next: nat, data: seq<seq<byte>>, nextBlock: nat)

  /** The index chain starting at `next` runs through the free slots and accounts for the rest. */
  ghost predicate BlockOk(b: Block, chain: seq<nat>)
  {
    && IsClass(b.size) && |b.data| == Capacity(b.size) && |chain| + b.used == Capacity(b.size)
    && (forall i :: 0 <= i < |b.data| ==> |b.data[i]| == b.size)
    && NoDup(chain) && (forall i :: 0 <= i < |chain| ==> chain[i] < Capacity(b.size))
    && b.next == At(chain, 0)
    && (forall i :: 0 <= i < |chain| ==> LinkOf(b.data[chain[i]]) == At(chain, i + 1))
  }

  /** The i-th index of a chain, END after the last. */
  ghost function At(chain: seq<nat>, i: nat): (x: nat) { if i < |chain| then chain[i] else END }

  function Zeros(n: nat): (s: seq<byte>)
    ensures |s| == n
  {
    seq(n, i => 0)
  }

  /** The first words that heap_block_t() stores: every slot free, in order. */
  function FirstData(size: nat, n: nat): (data: seq<seq<byte>>)
    requires size >= 4 && n < END
    ensures |data| == n
    ensures forall i :: 0 <= i < n ==> |data[i]| == size && LinkOf(data[i]) == (if i < n - 1 then i + 1 else END)
  {
    LinksSet(Zeros(size));
    seq(n, i requires 0 <= i < n => SetLink(Zeros(size), if i < n - 1 then i + 1 else END))
  }

  lemma LinksSet(slot: seq<byte>)
    requires |slot| >= 4
    ensures forall w: nat :: w <= END ==> LinkOf(SetLink(slot, w)) == w
  {
    hide LinkOf, SetLink;
    forall w: nat | w <= END ensures LinkOf(SetLink(slot, w)) == w { LinkSet(slot, w); }
  }

  /** heap_block_t(). */
  function NewBlock(size: nat): (b: Block)
    requires IsClass(size)
  {
    Block(size, 0, 0, FirstData(size, Capacity(size)), 0)
  }

  ghost function AllSlots(n: nat): (s: seq<nat>)
    ensures |s| == n && forall i :: 0 <= i < n ==> s[i] == i
  {
    seq(n, i => i)
  }

  lemma NewBlockOk(size: nat)
    requires IsClass(size)
    ensures BlockOk(NewBlock(size), AllSlots(Capacity(size)))
  {
    hide Capacity, IsClass;
    CapacityBound(size);
  }

  lemma CapacityBound(size: nat)
    requires IsClass(size)
    ensures 3 <= Capacity(size) < END
  {
  }

  /** heap_block_t::alloc when there is room. */
  function Take(b: Block): (b': Block)
    requires b.next < |b.data|
  {
    b.(next := LinkOf(b.data[b.next]), used := b.used + 1)
  }

  /** heap_block_t::free. */
  function Give(b: Block, i: nat): (b': Block)
    requires i < |b.data| && b.used > 0
  {
    b.(data := b.data[i := SetLink(b.data[i], b.next)], next := i, used := b.used - 1)
  }

  lemma TakeOk(b: Block, chain: seq<nat>)
    requires BlockOk(b, chain) && chain != []
    ensures b.next == chain[0] && b.next < |b.data| && BlockOk(Take(b), chain[1..])
  {
    hide Capacity, IsClass;
    var t := chain[1..];
    forall i | 0 <= i < |t| ensures LinkOf(Take(b).data[t[i]]) == At(t, i + 1) { assert t[i] == chain[i + 1]; }
  }

  ghost function Upto(n: nat): (s: set<nat>)
    ensures |s| == n && forall x: nat :: x in s <==> x < n
  {
    if n == 0 then {} else Upto(n - 1) + {n - 1}
  }

  /** A slot outside the chain is in use. */
  lemma SomeUsed(b: Block, chain: seq<nat>, i: nat)
    requires BlockOk(b, chain) && i < Capacity(b.size) && i !in chain
    ensures b.used > 0
  {
    hide Capacity, IsClass;
    var n := Capacity(b.size);
    CountOf(chain);
    assert Elems(chain) + {i} <= Upto(n);
    assert |Elems(chain) + {i}| == |chain| + 1;
    SubsetSize(Elems(chain) + {i}, Upto(n));
  }

  lemma GiveOk(b: Block, chain: seq<nat>, i: nat)
    requires BlockOk(b, chain) && i < Capacity(b.size) && i !in chain
    ensures b.used > 0 && i < |b.data| && BlockOk(Give(b, i), [i] + chain)
  {
    hide Capacity, IsClass;
    SomeUsed(b, chain, i);
    CapacityBound(b.size);
    ClassSize(b.size);
    LinkSet(b.data[i], b.next);
    var t := [i] + chain;
    forall k | 0 <= k < |t| ensures LinkOf(Give(b, i).data[t[k]]) == At(t, k + 1) {
      if k > 0 { assert t[k] == chain[k - 1]; }
    }
  }

  lemma ClassSize(c: nat)
    requires IsClass(c)
    ensures c >= 8
  {
  }

  /** The block after byte o of slot i has been overwritten. */
  function Poke(b: Block, i: nat, o: nat, x: byte): (b': Block)
    requires i < |b.data| && o < |b.data[i]|
  {
    var slot: seq<byte> := b.data[i][o := x];
    b.(data := b.data[i := slot])
  }

  /** A live object may be overwritten, its first word included. */
  lemma PokeOk(b: Block, chain: seq<nat>, i: nat, o: nat, x: byte)
    requires BlockOk(b, chain) && i < Capacity(b.size) && i !in chain && o < b.size
    ensures i < |b.data| && o < |b.data[i]| && BlockOk(Poke(b, i, o, x), chain)
  {
    hide Capacity, IsClass, LinkOf;
  }

  // ------------------------------------------------------------ block lists

  /** The list of a class, from next_free_block through the next_free_block fields: exactly the
      blocks of the class that have room. */
  ghost predicate ListOk(blocks: map<nat, Block>, chains: map<nat, seq<nat>>, c: nat, head: nat, list: seq<nat>)
  {
    && NoDup(list) && head == PageAt(list, 0)
    && (forall i :: 0 <= i < |list| ==> list[i] in blocks && blocks[list[i]].nextBlock == PageAt(list, i + 1))
    && (forall p :: p in list <==> HasRoom(blocks, chains, c, p))
  }

  ghost predicate HasRoom(blocks: map<nat, Block>, chains: map<nat, seq<nat>>, c: nat, p: nat)
  {
    p in blocks && p in chains && blocks[p].size == c && chains[p] != []
  }

  ghost function PageAt(list: seq<nat>, i: nat): (p: nat) { if i < |list| then list[i] else 0 }

  /** A block changes without leaving or entering its list. */
  lemma ListKeep(blocks: map<nat, Block>, chains: map<nat, seq<nat>>, c: nat, head: nat, list: seq<nat>, p: nat,
                 b: Block, chain: seq<nat>)
    requires ListOk(blocks, chains, c, head, list) && p in blocks && p in chains
    requires b.size == blocks[p].size
    requires ((b.nextBlock == blocks[p].nextBlock && (chain == [] <==> chains[p] == [])) || b.size != c)
    ensures ListOk(blocks[p := b], chains[p := chain], c, head, list)
  {
    forall q ensures HasRoom(blocks[p := b], chains[p := chain], c, q) <==> HasRoom(blocks, chains, c, q) { }
    forall i | 0 <= i < |list| ensures blocks[p := b][list[i]].nextBlock == PageAt(list, i + 1) {
      assert HasRoom(blocks, chains, c, list[i]);
    }
  }

  /** The head of the list is full now. */
  lemma ListPop(blocks: map<nat, Block>, chains: map<nat, seq<nat>>, c: nat, head: nat, list: seq<nat>, b: Block)
    requires ListOk(blocks, chains, c, head, list) && list != [] && b.nextBlock == blocks[head].nextBlock && b.size == c
    ensures ListOk(blocks[head := b], chains[head := []], c, b.nextBlock, list[1..])
  {
    var t := list[1..];
    assert list == [head] + t;
    forall q ensures q in t <==> HasRoom(blocks[head := b], chains[head := []], c, q) {
      assert q in list <==> HasRoom(blocks, chains, c, q);
    }
    forall i | 0 <= i < |t| ensures t[i] in blocks && blocks[head := b][t[i]].nextBlock == PageAt(t, i + 1) {
      assert t[i] == list[i + 1];
    }
  }

  /** A block with room joins the list. */
  lemma ListPush(blocks: map<nat, Block>, chains: map<nat, seq<nat>>, c: nat, head: nat, list: seq<nat>, p: nat,
                 b: Block, chain: seq<nat>)
    requires ListOk(blocks, chains, c, head, list) && !HasRoom(blocks, chains, c, p)
    requires (p in blocks ==> blocks[p].size == c)
    requires b.size == c && b.nextBlock == head && chain != []
    ensures ListOk(blocks[p := b], chains[p := chain], c, p, [p] + list)
  {
    var t := [p] + list;
    assert p !in list;
    forall q ensures q in t <==> HasRoom(blocks[p := b], chains[p := chain], c, q) {
      assert q in t <==> q == p || q in list;
    }
    forall i | 0 <= i < |t| ensures t[i] in blocks[p := b] && blocks[p := b][t[i]].nextBlock == PageAt(t, i + 1) {
      if i > 0 { assert t[i] == list[i - 1]; }
    }
  }

  /** A new block of another class. */
  lemma ListOther(blocks: map<nat, Block>, chains: map<nat, seq<nat>>, c: nat, head: nat, list: seq<nat>, p: nat,
                  b: Block, chain: seq<nat>)
    requires ListOk(blocks, chains, c, head, list) && p !in blocks && b.size != c
    ensures ListOk(blocks[p := b], chains[p := chain], c, head, list)
  {
    forall q ensures q in list <==> HasRoom(blocks[p := b], chains[p := chain], c, q) {
      assert q in list <==> HasRoom(blocks, chains, c, q);
    }
  }

  // ------------------------------------------------------------ objects

  lemma SlotArithmetic(size: nat, i: nat, j: nat)
    requires IsClass(size) && i < j <= Capacity(size)
    ensures i * size + size <= j * size
  {
  }

  /** An object lies in the data area of its page. */
  lemma Inside(p: nat, size: nat, i: nat)
    requires IsClass(size) && i < Capacity(size)
    ensures size > 0 && p + InfoSize(size) <= Address(p, size, i) && Address(p, size, i) + size <= p + PGSIZE
  {
    hide IsClass, InfoSize, Capacity;
    CapacityFits(size);
    SlotArithmetic(size, i, Capacity(size));
  }

  /** Objects never overlap. */
  lemma NoOverlap(p: nat, size: nat, i: nat, q: nat, size': nat, j: nat)
    requires p % PGSIZE == 0 && q % PGSIZE == 0 && IsClass(size) && IsClass(size') && i < Capacity(size)
    requires j < Capacity(size')
    requires (p, i) != (q, j) && (p == q ==> size == size')
    ensures Address(p, size, i) + size <= Address(q, size', j) || Address(q, size', j) + size' <= Address(p, size, i)
  {
    hide IsClass, InfoSize, Capacity, Address;
    Inside(p, size, i);
    Inside(q, size', j);
    if p == q {
      SamePage(p, size, i, j);
    } else {
      Apart(p, q);
    }
  }

  lemma SamePage(p: nat, size: nat, i: nat, j: nat)
    requires IsClass(size) && i < Capacity(size) && j < Capacity(size) && i != j
    ensures Address(p, size, i) + size <= Address(p, size, j) || Address(p, size, j) + size <= Address(p, size, i)
  {
    hide IsClass, InfoSize, Capacity;
    if i < j { SlotArithmetic(size, i, j); } else { SlotArithmetic(size, j, i); }
  }

  lemma CapacityFits(size: nat)
    requires IsClass(size)
    ensures size > 0 && InfoSize(size) + Capacity(size) * size <= PGSIZE
  {
  }

  lemma HeaderFits(size: nat)
    requires IsClass(size)
    ensures InfoSize(size) >= 24
  {
  }

  lemma Apart(p: nat, q: nat)
    requires p % PGSIZE == 0 && q % PGSIZE == 0 && p != q
    ensures p + PGSIZE <= q || q + PGSIZE <= p
  {
  }

  /** An address leads back to its page and its slot. */
  lemma Locate(p: nat, size: nat, i: nat)
    requires p % PGSIZE == 0 && IsClass(size) && i < Capacity(size)
    ensures RoundDown(Address(p, size, i)) == p && (Address(p, size, i) - p - InfoSize(size)) / size == i
  {
    hide IsClass, InfoSize, Capacity;
    CapacityFits(size);
    SlotArithmetic(size, i, Capacity(size));
    assert Address(p, size, i) - p < PGSIZE;
    DivUnique(i * size, size, i, 0);
  }

  // ------------------------------------------------------------ the heap

  ghost predicate ListsOk(blocks: map<nat, Block>, chains: map<nat, seq<nat>>, nextFree: map<nat, nat>,
                          lists: map<nat, seq<nat>>)
  {
    forall c :: IsClass(c) ==> c in nextFree && c in lists && ListOk(blocks, chains, c, nextFree[c], lists[c])
  }

  ghost predicate BlocksOk(mem: Memory, free: seq<nat>, blocks: map<nat, Block>, chains: map<nat, seq<nat>>)
  {
    chains.Keys == blocks.Keys && forall p :: p in blocks ==>
        mem.InRange(p) && p !in free && p in chains && BlockOk(blocks[p], chains[p])
  }

  lemma BlocksSet(mem: Memory, free: seq<nat>, free': seq<nat>, blocks: map<nat, Block>, chains: map<nat, seq<nat>>,
                  p: nat, b: Block, chain: seq<nat>)
    requires BlocksOk(mem, free, blocks, chains) && BlockOk(b, chain) && mem.InRange(p) && p !in free'
            && forall q :: q in free' ==> q in free
    ensures BlocksOk(mem, free', blocks[p := b], chains[p := chain])
  {
    hide BlockOk, Memory.InRange;
  }

  /** The lists after block p of class c, which had its list changed, is b. */
  lemma ListsSet(blocks: map<nat, Block>, chains: map<nat, seq<nat>>, nextFree: map<nat, nat>,
                 lists: map<nat, seq<nat>>, c: nat, p: nat, b: Block, chain: seq<nat>, head: nat, list: seq<nat>)
    requires ListsOk(blocks, chains, nextFree, lists) && IsClass(c) && b.size == c
    requires (p in blocks ==> p in chains && blocks[p].size == c)
    requires ListOk(blocks[p := b], chains[p := chain], c, head, list)
    ensures ListsOk(blocks[p := b], chains[p := chain], nextFree[c := head], lists[c := list])
  {
    hide ListOk, IsClass;
    forall d | IsClass(d) && d != c ensures ListOk(blocks[p := b], chains[p := chain], d, nextFree[d], lists[d]) {
      if p in blocks {
        ListKeep(blocks, chains, d, nextFree[d], lists[d], p, b, chain);
      } else {
        ListOther(blocks, chains, d, nextFree[d], lists[d], p, b, chain);
      }
    }
  }

  lemma HeadHasRoom(blocks: map<nat, Block>, chains: map<nat, seq<nat>>, nextFree: map<nat, nat>,
                    lists: map<nat, seq<nat>>, c: nat)
    requires ListsOk(blocks, chains, nextFree, lists) && IsClass(c) && nextFree[c] != 0
    ensures c in nextFree && c in lists && lists[c] != [] && HasRoom(blocks, chains, c, nextFree[c])
    ensures ListOk(blocks, chains, c, nextFree[c], lists[c])
  {
    hide IsClass;
    assert nextFree[c] in lists[c];
  }

  lemma NoRoom(blocks: map<nat, Block>, chains: map<nat, seq<nat>>, nextFree: map<nat, nat>, lists: map<nat, seq<nat>>,
               c: nat)
    requires ListsOk(blocks, chains, nextFree, lists) && IsClass(c) && nextFree[c] == 0 && 0 !in blocks
    ensures c in lists && lists[c] == [] && ListOk(blocks, chains, c, 0, [])
    ensures forall p :: !HasRoom(blocks, chains, c, p)
  {
    hide IsClass;
    HeadOfList(blocks, chains, c, nextFree[c], lists[c]);
  }

  lemma HeadOfList(blocks: map<nat, Block>, chains: map<nat, seq<nat>>, c: nat, head: nat, list: seq<nat>)
    requires ListOk(blocks, chains, c, head, list)
    ensures list != [] ==> head in blocks
  {
  }

  function NoBlocks(): (m: map<nat, nat>)
    ensures forall c :: IsClass(c) ==> c in m && m[c] == 0
  {
    map[8 := 0, 16 := 0, 32 := 0, 64 := 0, 128 := 0, 256 := 0, 512 := 0, 1024 := 0]
  }

  ghost function NoLists(): (m: map<nat, seq<nat>>)
    ensures forall c :: IsClass(c) ==> c in m && m[c] == []
  {
    map[8 := [], 16 := [], 32 := [], 64 := [], 128 := [], 256 := [], 512 := [], 1024 := []]
  }

  lemma EmptyHeap(mem: Memory, free: seq<nat>)
    ensures BlocksOk(mem, free, map[], map[]) && ListsOk(map[], map[], NoBlocks(), NoLists())
  {
    hide IsClass, NoBlocks, NoLists;
    forall c | IsClass(c) ensures ListOk(map[], map[], c, 0, []) { }
  }

  /** Slot i of page p holds a live object. */
  ghost predicate LiveIn(blocks: map<nat, Block>, chains: map<nat, seq<nat>>, p: nat, i: nat)
  {
    p in blocks && p in chains && IsClass(blocks[p].size) && i < Capacity(blocks[p].size) && i !in chains[p]
  }

  /** The same objects are live. */
  ghost predicate SameLive(blocks: map<nat, Block>, chains: map<nat, seq<nat>>, blocks': map<nat, Block>,
                           chains': map<nat, seq<nat>>)
  {
    forall p: nat, i: nat :: LiveIn(blocks', chains', p, i) <==> LiveIn(blocks, chains, p, i)
  }

  ghost predicate SameLiveBut(blocks: map<nat, Block>, chains: map<nat, seq<nat>>, blocks': map<nat, Block>,
                              chains': map<nat, seq<nat>>, p: nat, i: nat)
  {
    forall q: nat, j: nat :: (q, j) != (p, i) ==> (LiveIn(blocks', chains', q, j) <==> LiveIn(blocks, chains, q, j))
  }

  /** The bytes of slot i of page p. */
  function SlotAt(blocks: map<nat, Block>, p: nat, i: nat): (s: seq<byte>)
  {
    if p in blocks && i < |blocks[p].data| then blocks[p].data[i] else []
  }

  /** The slots of the pages there were hold the same bytes. */
  ghost predicate SameSlots(blocks: map<nat, Block>, blocks': map<nat, Block>)
  {
    forall q: nat, j: nat :: q in blocks ==> SlotAt(blocks', q, j) == SlotAt(blocks, q, j)
  }

  ghost predicate SameSlotsBut(blocks: map<nat, Block>, blocks': map<nat, Block>, p: nat, i: nat)
  {
    forall q: nat, j: nat :: q in blocks && (q, j) != (p, i) ==> SlotAt(blocks', q, j) == SlotAt(blocks, q, j)
  }

  /** Pages stay in the heap, and in their class. */
  ghost predicate SameSizes(blocks: map<nat, Block>, blocks': map<nat, Block>)
  {
    forall q :: q in blocks ==> q in blocks' && blocks'[q].size == blocks[q].size
  }

  lemma Full(mem: Memory, free: seq<nat>, blocks: map<nat, Block>, chains: map<nat, seq<nat>>, p: nat)
    requires BlocksOk(mem, free, blocks, chains) && p in blocks
    ensures p in chains && p % PGSIZE == 0 && p > 0 && IsClass(blocks[p].size)
    ensures |blocks[p].data| == Capacity(blocks[p].size)
    ensures BlockOk(blocks[p], chains[p]) && (chains[p] == [] <==> blocks[p].used == Capacity(blocks[p].size))
  {
    hide IsClass, Capacity;
  }

  lemma NewPageOk(mem: Memory, free: seq<nat>, free': seq<nat>, blocks: map<nat, Block>, chains: map<nat, seq<nat>>,
                  nextFree: map<nat, nat>, lists: map<nat, seq<nat>>, c: nat, p: nat)
    requires BlocksOk(mem, free, blocks, chains) && ListsOk(blocks, chains, nextFree, lists) && IsClass(c)
    requires nextFree[c] == 0
    requires mem.InRange(p) && free == [p] + free' && p !in free'
    ensures p !in blocks
    ensures var blocks', chains' := blocks[p := NewBlock(c)], chains[p := AllSlots(Capacity(c))];
            && BlocksOk(mem, free', blocks', chains') && ListsOk(blocks', chains', nextFree[c := p], lists[c := [p]])
            && SameLive(blocks, chains, blocks', chains')
  {
    hide IsClass, Capacity, BlockOk, ListOk, ListsOk, NewBlock, AllSlots, Memory.InRange;
    assert p in free;
    var b, chain := NewBlock(c), AllSlots(Capacity(c));
    NewBlockOk(c);
    NewFields(c);
    BlocksSet(mem, free, free', blocks, chains, p, b, chain);
    if 0 in blocks { Full(mem, free, blocks, chains, 0); }
    NoRoom(blocks, chains, nextFree, lists, c);
    ListPush(blocks, chains, c, 0, [], p, b, chain);
    assert [p] + [] == [p];
    ListsSet(blocks, chains, nextFree, lists, c, p, b, chain, p, [p]);
  }

  lemma NewFields(c: nat)
    requires IsClass(c)
    ensures NewBlock(c).size == c && NewBlock(c).nextBlock == 0 && AllSlots(Capacity(c)) != []
    ensures forall i: nat :: i < Capacity(c) ==> i in AllSlots(Capacity(c))
  {
    hide Capacity;
    CapacityBound(c);
    forall i: nat | i < Capacity(c) ensures i in AllSlots(Capacity(c)) { assert AllSlots(Capacity(c))[i] == i; }
  }

  /** The first slot of the first block with room becomes live. */
  lemma TakeSlotOk(mem: Memory, free: seq<nat>, blocks: map<nat, Block>, chains: map<nat, seq<nat>>,
                   nextFree: map<nat, nat>, lists: map<nat, seq<nat>>, c: nat)
    requires BlocksOk(mem, free, blocks, chains) && ListsOk(blocks, chains, nextFree, lists) && IsClass(c)
    requires nextFree[c] != 0
    ensures var p := nextFree[c];
            && p in blocks && p in chains && blocks[p].size == c && chains[p] != []
                && blocks[p].next == chains[p][0] && blocks[p].next < |blocks[p].data|
    ensures var p := nextFree[c];
            var b, chain := Take(blocks[p]), chains[p][1..];
            && BlocksOk(mem, free, blocks[p := b], chains[p := chain])
            && (if b.used == Capacity(c) then c in lists && lists[c] != []
                && ListsOk(blocks[p := b], chains[p := chain], nextFree[c := b.nextBlock], lists[c := lists[c][1..]])
                else ListsOk(blocks[p := b], chains[p := chain], nextFree, lists))
  {
    hide IsClass, Capacity, BlockOk, ListOk, ListsOk, Memory.InRange, BlocksOk;
    HeadHasRoom(blocks, chains, nextFree, lists, c);
    var p := nextFree[c];
    Full(mem, free, blocks, chains, p);
    TakeOk(blocks[p], chains[p]);
    var b, chain := Take(blocks[p]), chains[p][1..];
    StillThere(mem, free, blocks, chains, p, b, chain);
    Full(mem, free, blocks[p := b], chains[p := chain], p);
    if b.used == Capacity(c) {
      ListPop(blocks, chains, c, p, lists[c], b);
      ListsSet(blocks, chains, nextFree, lists, c, p, b, chain, b.nextBlock, lists[c][1..]);
    } else {
      ListKeep(blocks, chains, c, p, lists[c], p, b, chain);
      ListsSet(blocks, chains, nextFree, lists, c, p, b, chain, p, lists[c]);
      assert nextFree[c := p] == nextFree && lists[c := lists[c]] == lists;
    }
  }

  lemma StillThere(mem: Memory, free: seq<nat>, blocks: map<nat, Block>, chains: map<nat, seq<nat>>, p: nat, b: Block,
                   chain: seq<nat>)
    requires BlocksOk(mem, free, blocks, chains) && p in blocks && BlockOk(b, chain)
    ensures BlocksOk(mem, free, blocks[p := b], chains[p := chain])
  {
    hide BlockOk, Memory.InRange;
    BlocksSet(mem, free, free, blocks, chains, p, b, chain);
  }

  /** A live slot goes back to the front of its chain, and its block to its list if it was full. */
  lemma GiveSlotOk(mem: Memory, free: seq<nat>, blocks: map<nat, Block>, chains: map<nat, seq<nat>>,
                   nextFree: map<nat, nat>, lists: map<nat, seq<nat>>, p: nat, i: nat)
    requires BlocksOk(mem, free, blocks, chains) && ListsOk(blocks, chains, nextFree, lists)
    requires LiveIn(blocks, chains, p, i)
    ensures var c := blocks[p].size; c in nextFree && c in lists && i < |blocks[p].data| && blocks[p].used > 0
    ensures var c := blocks[p].size;
            var b, chain := Give(blocks[p], i), [i] + chains[p];
            if blocks[p].used == Capacity(c) then
              && BlocksOk(mem, free, blocks[p := b.(nextBlock := nextFree[c])], chains[p := chain])
              && ListsOk(blocks[p := b.(nextBlock := nextFree[c])], chains[p := chain], nextFree[c := p],
                  lists[c := [p] + lists[c]])
            else
              && BlocksOk(mem, free, blocks[p := b], chains[p := chain])
              && ListsOk(blocks[p := b], chains[p := chain], nextFree, lists)
  {
    hide IsClass, Capacity, BlockOk, ListOk, Memory.InRange, BlocksOk;
    var c := blocks[p].size;
    Full(mem, free, blocks, chains, p);
    GiveOk(blocks[p], chains[p], i);
    var b, chain := Give(blocks[p], i), [i] + chains[p];
    if blocks[p].used == Capacity(c) {
      var b' := b.(nextBlock := nextFree[c]);
      SameBlock(b, nextFree[c], chain);
      StillThere(mem, free, blocks, chains, p, b', chain);
      ListPush(blocks, chains, c, nextFree[c], lists[c], p, b', chain);
      ListsSet(blocks, chains, nextFree, lists, c, p, b', chain, p, [p] + lists[c]);
    } else {
      StillThere(mem, free, blocks, chains, p, b, chain);
      ListKeep(blocks, chains, c, nextFree[c], lists[c], p, b, chain);
      ListsSet(blocks, chains, nextFree, lists, c, p, b, chain, nextFree[c], lists[c]);
      assert nextFree[c := nextFree[c]] == nextFree && lists[c := lists[c]] == lists;
    }
  }

  lemma SameBlock(b: Block, n: nat, chain: seq<nat>)
    requires BlockOk(b, chain)
    ensures BlockOk(b.(nextBlock := n), chain)
  {
    hide IsClass, Capacity;
  }

  class Heap {
    const mem: Memory
    var blocks: map<nat, Block>               // the pages of the heap
    var nextFree: map<nat, nat>               // next_free_block of the allocator of each class
    ghost var chains: map<nat, seq<nat>>      // free slots of each page
    ghost var lists: map<nat, seq<nat>>       // pages with room of each class

    ghost predicate Valid()
      reads this, mem
    {
      mem.Valid() && BlocksOk(mem, mem.free, blocks, chains) && ListsOk(blocks, chains, nextFree, lists)
    }

    ghost predicate Live(p: nat, i: nat)
      reads this
    {
      LiveIn(blocks, chains, p, i)
    }

    constructor (m: Memory)
      requires m.Valid()
      ensures Valid() && mem == m && forall p: nat, i: nat :: !Live(p, i)
    {
      mem, blocks, chains := m, map[], map[];
      nextFree, lists := NoBlocks(), NoLists();
      new;
      EmptyHeap(mem, mem.free);
    }

    /** A new page for a class whose blocks are all full. */
    method NewPage(c: nat)
      requires Valid() && IsClass(c) && c in nextFree && nextFree[c] == 0
      modifies this`blocks, this`nextFree, this`chains, this`lists, mem`free, mem`count
      ensures Valid() && SameLive(old(blocks), old(chains), blocks, chains)
      ensures c in nextFree && (nextFree[c] == 0 ==> mem.free == []) && SameSlots(old(blocks), blocks)
      ensures nextFree[c] != 0 ==> old(mem.free) == [nextFree[c]] + mem.free && nextFree[c] !in old(blocks)
      ensures nextFree[c] != 0 ==> blocks.Keys == old(blocks.Keys) + {nextFree[c]}
      ensures nextFree[c] == 0 ==> mem.free == old(mem.free) && blocks == old(blocks)
      ensures forall q :: q in old(blocks) ==> q in blocks && blocks[q] == old(blocks[q])
    {
      hide NoDup, BlocksOk, ListsOk, IsClass, Capacity, BlockOk, NewBlock, LiveIn, Memory.InRange;
      ghost var free0 := mem.free;
      var p := mem.AllocPage();
      if p == 0 {
        NoPage(mem, free0);
        return;
      }
      NewPageOk(mem, free0, mem.free, blocks, chains, nextFree, lists, c, p);
      blocks, chains := blocks[p := NewBlock(c)], chains[p := AllSlots(Capacity(c))];
      nextFree, lists := nextFree[c := p], lists[c := [p]];
    }

    /** heap_allocator::alloc once there is a block with room. */
    method TakeSlot(c: nat) returns (ptr: nat, ghost p: nat, ghost i: nat)
      requires Valid() && IsClass(c) && c in nextFree && nextFree[c] != 0
      modifies this`blocks, this`nextFree, this`chains, this`lists
      ensures Valid() && !old(Live(p, i)) && Live(p, i) && blocks[p].size == c && ptr == Address(p, c, i)
      ensures SameLiveBut(old(blocks), old(chains), blocks, chains, p, i) && SameSlots(old(blocks), blocks)
      ensures forall q :: q in old(blocks) ==> q in blocks && blocks[q].size == old(blocks[q].size)
      ensures p == old(nextFree[c]) && blocks.Keys == old(blocks.Keys)
    {
      hide BlocksOk, ListsOk, IsClass, Capacity, BlockOk, Memory.Valid, Memory.InRange, LiveIn, InfoSize;
      TakeSlotOk(mem, mem.free, blocks, chains, nextFree, lists, c);
      ghost var blocks0, chains0 := blocks, chains;
      var page := nextFree[c];
      var b := blocks[page];
      PositiveClass(c);
      p, i := page, b.next;
      ptr := Address(page, c, b.next);
      b := Take(b);
      blocks, chains := blocks[page := b], chains[page := chains[page][1..]];
      if b.used == Capacity(c) {
        nextFree, lists := nextFree[c := b.nextBlock], lists[c := lists[c][1..]];
      }
      TakeLive(mem, mem.free, blocks0, chains0, p);
    }

    /** heap_allocator::alloc: an object that was not live, or 0 when no page is left. */
    method AllocClass(c: nat) returns (ptr: nat, ghost p: nat, ghost i: nat)
      requires Valid() && IsClass(c) && c in nextFree
      modifies this`blocks, this`nextFree, this`chains, this`lists, mem`free, mem`count
      ensures Valid()
      ensures ptr == 0 ==> mem.free == [] && SameLive(old(blocks), old(chains), blocks, chains)
      ensures ptr != 0 ==> !old(Live(p, i)) && Live(p, i) && blocks[p].size == c && ptr == Address(p, c, i)
      ensures ptr != 0 ==> SameLiveBut(old(blocks), old(chains), blocks, chains, p, i)
      ensures forall q :: q in old(blocks) ==> q in blocks && blocks[q].size == old(blocks[q].size)
      ensures SameSlots(old(blocks), blocks)
      ensures old(Roomy(c)) ==> ptr != 0 && mem.free == old(mem.free) && blocks.Keys == old(blocks.Keys)
      ensures !old(Roomy(c)) && ptr != 0 ==> old(mem.free) == [p] + mem.free && blocks.Keys == old(blocks.Keys) + {p}
      ensures !old(Roomy(c)) && ptr == 0 ==> old(mem.free) == mem.free == [] && blocks == old(blocks)
      ensures AlignedTo(ptr, c)
    {
      hide Heap.Valid, LiveIn, IsClass, InfoSize, Heap.Roomy, HasRoom, Address, AlignedTo;
      PositiveClass(c);
      RoomyMeans(c);
      p, i := 0, 0;
      if nextFree[c] == 0 {
        NewPage(c);
        if nextFree[c] == 0 {
          NullAligned(c);
          return 0, 0, 0;
        }
      }
      ptr, p, i := TakeSlot(c);
      PositiveAddress(p, c, i);
      Aligned(p, i, c);
    }

    /** Some block of the class has a free slot. */
    ghost predicate Roomy(c: nat)
      reads this
    {
      exists p :: HasRoom(blocks, chains, c, p)
    }

    lemma RoomyMeans(c: nat)
      requires Valid() && IsClass(c) && c in nextFree
      ensures Roomy(c) <==> nextFree[c] != 0
    {
      hide IsClass, BlocksOk, ListsOk, Memory.Valid;
      if nextFree[c] == 0 {
        ZeroIsNoBlock(mem, mem.free, blocks, chains);
        NoRoom(blocks, chains, nextFree, lists, c);
      } else {
        HeadHasRoom(blocks, chains, nextFree, lists, c);
      }
    }

    /** An object is aligned to the size of its class. */
    lemma Aligned(p: nat, i: nat, c: nat)
      requires Valid() && Live(p, i) && blocks[p].size == c && c > 0
      ensures AlignedTo(Address(p, c, i), c)
    {
      hide BlocksOk, ListsOk, IsClass, Capacity, BlockOk, Memory.Valid, LiveIn, InfoSize, Address;
      LiveFacts(mem, mem.free, blocks, chains, p, i);
      AddressAligned(p, c, i);
    }

    /** heap_allocator::free. */
    method FreeClass(c: nat, ptr: nat, ghost p: nat, ghost i: nat)
      requires Valid() && Live(p, i) && blocks[p].size == c && IsClass(c) && ptr == Address(p, c, i)
      modifies this`blocks, this`nextFree, this`chains, this`lists
      ensures Valid() && !Live(p, i)
      ensures SameLiveBut(old(blocks), old(chains), blocks, chains, p, i) && SameSlotsBut(old(blocks), blocks, p, i)
      ensures blocks.Keys == old(blocks.Keys) && forall q :: q in blocks ==> blocks[q].size == old(blocks[q].size)
    {
      hide BlocksOk, ListsOk, IsClass, Capacity, BlockOk, Memory.Valid, Memory.InRange, InfoSize, Address, RoundDown;
      hide LiveIn;
      LiveFacts(mem, mem.free, blocks, chains, p, i);
      PositiveClass(c);
      Locate(p, c, i);
      var page := RoundDown(ptr);
      AddressAbove(p, c, i);
      var index := (ptr - page - InfoSize(c)) / c;
      GiveSlotOk(mem, mem.free, blocks, chains, nextFree, lists, p, i);
      ghost var blocks0, chains0 := blocks, chains;
      var b := blocks[page];
      var full := b.used == Capacity(c);
      b := Give(b, index);
      chains := chains[page := [index] + chains[page]];
      if full {
        blocks := blocks[page := b.(nextBlock := nextFree[c])];
        nextFree, lists := nextFree[c := page], lists[c := [page] + lists[c]];
      } else {
        blocks := blocks[page := b];
      }
      GiveLive(blocks0, chains0, p, i, blocks[p]);
    }

    /** A program writes any byte of an object it holds. */
    method Scribble(p: nat, i: nat, o: nat, x: byte)
      requires Valid() && Live(p, i) && o < blocks[p].size
      modifies this`blocks
      ensures Valid() && SameSizes(old(blocks), blocks) && SameLive(old(blocks), old(chains), blocks, chains)
      ensures SameSlotsBut(old(blocks), blocks, p, i) && o < |old(SlotAt(blocks, p, i))|
      ensures SlotAt(blocks, p, i) == old(SlotAt(blocks, p, i))[o := x]
    {
      hide BlocksOk, ListsOk, IsClass, Capacity, BlockOk, Memory.Valid, Memory.InRange, LiveIn;
      LiveFacts(mem, mem.free, blocks, chains, p, i);
      PokeSlotOk(mem, mem.free, blocks, chains, nextFree, lists, p, i, o, x);
      blocks := blocks[p := Poke(blocks[p], i, o, x)];
    }

    /** __alloc for sizes the slabs serve; 0 is out of memory. */
    method Alloc(size: nat) returns (d: Dispatch, ptr: nat, ghost p: nat, ghost i: nat)
      requires Valid()
      modifies this`blocks, this`nextFree, this`chains, this`lists, mem`free, mem`count
      ensures Valid() && d == ClassOf(size)
      ensures (d.Class? <==> 1 <= size <= 1024) && (!d.Class? ==> ptr == 0)
      ensures d.Class? && ptr != 0 ==> !old(Live(p, i)) && Live(p, i) && blocks[p].size == d.c && size <= d.c
      ensures d.Class? && ptr != 0 ==> ptr == Address(p, d.c, i) && AlignedTo(ptr, d.c)
      ensures d.Class? && old(Roomy(d.c)) ==> ptr != 0 && mem.free == old(mem.free) && blocks.Keys == old(blocks.Keys)
      ensures d.Class? && !old(Roomy(d.c)) && ptr != 0 ==>
                old(mem.free) == [p] + mem.free && blocks.Keys == old(blocks.Keys) + {p}
      ensures d.Class? && ptr != 0 ==> SameLiveBut(old(blocks), old(chains), blocks, chains, p, i)
      ensures ptr == 0 ==> SameLive(old(blocks), old(chains), blocks, chains)
      ensures SameSizes(old(blocks), blocks) && SameSlots(old(blocks), blocks) && (d.Class? && ptr == 0 ==>
              mem.free == [])
    {
      hide Heap.Valid, Heap.Live, IsClass, ClassOf, InfoSize, Heap.Roomy, AlignedTo;
      ptr, p, i := 0, 0, 0;
      d := ClassOf(size);
      if size <= 1024 { ClassFits(size); } else { TooLarge(size); }
      if d.Class? {
        HasClass(d.c);
        ptr, p, i := AllocClass(d.c);
      }
    }

    /** default_delete of a slab object: the header of its page names its class. */
    method Delete(ptr: nat, ghost p: nat, ghost i: nat)
      requires Valid() && Live(p, i) && ptr == ObjectAddress(p, i)
      modifies this`blocks, this`nextFree, this`chains, this`lists
      ensures Valid() && !Live(p, i) && SameSizes(old(blocks), blocks)
      ensures SameLiveBut(old(blocks), old(chains), blocks, chains, p, i) && SameSlotsBut(old(blocks), blocks, p, i)
    {
      hide BlocksOk, ListsOk, IsClass, Capacity, BlockOk, Memory.Valid, Memory.InRange, InfoSize, RoundDown, LiveIn;
      LiveFacts(mem, mem.free, blocks, chains, p, i);
      Locate(p, blocks[p].size, i);
      var page := RoundDown(ptr);
      DeleteFindsClass(blocks[page].size);
      var d := HeaderClass(blocks[page].size);
      FreeClass(d.c, ptr, p, i);
    }

    ghost function ObjectAddress(p: nat, i: nat): (a: nat)
      reads this
    {
      if p in blocks && blocks[p].size > 0 then Address(p, blocks[p].size, i) else 0
    }

    /** Distinct live objects share no byte and no object leaves the data area of its page. */
    lemma LiveApart(p: nat, i: nat, q: nat, j: nat)
      requires Valid() && Live(p, i) && Live(q, j) && (p, i) != (q, j)
      ensures p + 24 <= ObjectAddress(p, i) && ObjectAddress(p, i) + blocks[p].size <= p + PGSIZE
      ensures ObjectAddress(p, i) + blocks[p].size <= ObjectAddress(q, j)
              || ObjectAddress(q, j) + blocks[q].size <= ObjectAddress(p, i)
    {
      hide BlocksOk, ListsOk, IsClass, Capacity, BlockOk, Memory.Valid, LiveIn, InfoSize, Address;
      LiveFacts(mem, mem.free, blocks, chains, p, i);
      LiveFacts(mem, mem.free, blocks, chains, q, j);
      HeaderFits(blocks[p].size);
      Inside(p, blocks[p].size, i);
      NoOverlap(p, blocks[p].size, i, q, blocks[q].size, j);
    }

    lemma HasClass(c: nat)
      requires Valid() && IsClass(c)
      ensures c in nextFree
    {
      hide IsClass, ListOk, Memory.Valid;
    }
  }

  lemma ZeroIsNoBlock(mem: Memory, free: seq<nat>, blocks: map<nat, Block>, chains: map<nat, seq<nat>>)
    requires BlocksOk(mem, free, blocks, chains)
    ensures 0 !in blocks
  {
    hide BlocksOk, Capacity;
    if 0 in blocks { Full(mem, free, blocks, chains, 0); }
  }

  lemma AddressAligned(p: nat, c: nat, i: nat)
    requires p % PGSIZE == 0 && IsClass(c)
    ensures AlignedTo(Address(p, c, i), c)
  {
    hide Address, InfoSize;
    assert p == 4096 * (p / 4096);
    Addresses(p / 4096, i);
  }

  /** The address is a multiple of the class. */
  ghost predicate AlignedTo(a: nat, c: nat)
  {
    && (c == 8 ==> a % 8 == 0) && (c == 16 ==> a % 16 == 0) && (c == 32 ==> a % 32 == 0) && (c == 64 ==> a % 64 == 0)
    && (c == 128 ==> a % 128 == 0) && (c == 256 ==> a % 256 == 0) && (c == 512 ==> a % 512 == 0)
    && (c == 1024 ==> a % 1024 == 0)
  }

  lemma Addresses(q: nat, i: nat)
    ensures Address(4096 * q, 8, i) == 8 * (512 * q + 3 + i) && Address(4096 * q, 16, i) == 16 * (256 * q + 2 + i)
    ensures Address(4096 * q, 32, i) == 32 * (128 * q + 1 + i) && Address(4096 * q, 64, i) == 64 * (64 * q + 1 + i)
    ensures Address(4096 * q, 128, i) == 128 * (32 * q + 1 + i) && Address(4096 * q, 256, i) == 256 * (16 * q + 1 + i)
    ensures Address(4096 * q, 512, i) == 512 * (8 * q + 1 + i) && Address(4096 * q, 1024, i) == 1024 * (4 * q + 1 + i)
  {
  }

  lemma NullAligned(c: nat)
    ensures AlignedTo(0, c)
  {
  }

  lemma NoPage(mem: Memory, free: seq<nat>)
    requires forall p :: p in free ==> mem.InRange(p)
    ensures 0 !in free
  {
  }

  lemma TooLarge(size: nat)
    requires size > 1024
    ensures ClassOf(size) == Large
  {
  }

  lemma PositiveClass(c: nat)
    requires IsClass(c)
    ensures c > 0
  {
  }

  lemma PositiveAddress(p: nat, c: nat, i: nat)
    requires IsClass(c)
    ensures Address(p, c, i) > 0
  {
    assert InfoSize(c) > 0;
  }

  lemma AddressAbove(p: nat, c: nat, i: nat)
    requires c > 0
    ensures Address(p, c, i) >= p + InfoSize(c)
  {
  }

  lemma LiveFacts(mem: Memory, free: seq<nat>, blocks: map<nat, Block>, chains: map<nat, seq<nat>>, p: nat, i: nat)
    requires BlocksOk(mem, free, blocks, chains) && LiveIn(blocks, chains, p, i)
    ensures p in blocks && p in chains && p % PGSIZE == 0 && IsClass(blocks[p].size) && i < Capacity(blocks[p].size)
    ensures i !in chains[p]
    ensures i < |blocks[p].data| && blocks[p].size > 0
  {
    hide BlocksOk, Capacity;
    Full(mem, free, blocks, chains, p);
  }

  lemma TakeLive(mem: Memory, free: seq<nat>, blocks: map<nat, Block>, chains: map<nat, seq<nat>>, p: nat)
    requires BlocksOk(mem, free, blocks, chains) && p in blocks && p in chains && chains[p] != []
    requires blocks[p].next == chains[p][0] && blocks[p].next < |blocks[p].data|
    ensures var i, blocks', chains' := blocks[p].next, blocks[p := Take(blocks[p])], chains[p := chains[p][1..]];
            && !LiveIn(blocks, chains, p, i) && LiveIn(blocks', chains', p, i)
            && SameLiveBut(blocks, chains, blocks', chains', p, i)
  {
    hide IsClass, Capacity, BlocksOk;
    Full(mem, free, blocks, chains, p);
    var chain := chains[p];
    var i := chain[0];
    assert chain == [i] + chain[1..];
    assert i !in chain[1..];
    forall j: nat | j != i ensures j in chain[1..] <==> j in chain { }
  }

  lemma GiveLive(blocks: map<nat, Block>, chains: map<nat, seq<nat>>, p: nat, i: nat, b: Block)
    requires LiveIn(blocks, chains, p, i) && b.size == blocks[p].size
    ensures var blocks', chains' := blocks[p := b], chains[p := [i] + chains[p]];
            && !LiveIn(blocks', chains', p, i)
            && SameLiveBut(blocks, chains, blocks', chains', p, i)
  {
    hide IsClass, Capacity;
    var chain := chains[p];
    forall j: nat ensures j in [i] + chain <==> j == i || j in chain { }
  }

  lemma PokeSlotOk(mem: Memory, free: seq<nat>, blocks: map<nat, Block>, chains: map<nat, seq<nat>>,
                   nextFree: map<nat, nat>, lists: map<nat, seq<nat>>, p: nat, i: nat, o: nat, x: byte)
    requires BlocksOk(mem, free, blocks, chains) && ListsOk(blocks, chains, nextFree, lists)
    requires LiveIn(blocks, chains, p, i) && o < blocks[p].size
    ensures i < |blocks[p].data| && o < |blocks[p].data[i]|
    ensures var blocks' := blocks[p := Poke(blocks[p], i, o, x)];
            && BlocksOk(mem, free, blocks', chains) && ListsOk(blocks', chains, nextFree, lists)
            && SameLive(blocks, chains, blocks', chains)
  {
    hide IsClass, Capacity, BlockOk, ListOk, Memory.InRange, BlocksOk;
    var c := blocks[p].size;
    Full(mem, free, blocks, chains, p);
    PokeOk(blocks[p], chains[p], i, o, x);
    var b := Poke(blocks[p], i, o, x);
    StillThere(mem, free, blocks, chains, p, b, chains[p]);
    ListKeep(blocks, chains, c, nextFree[c], lists[c], p, b, chains[p]);
    ListsSet(blocks, chains, nextFree, lists, c, p, b, chains[p], nextFree[c], lists[c]);
    assert nextFree[c := nextFree[c]] == nextFree && lists[c := lists[c]] == lists && chains[p := chains[p]] == chains;
  }
}
