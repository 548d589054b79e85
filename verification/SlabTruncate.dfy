/** heap_allocator::truncate (os/mm/allocator.h), which default_alloc calls for every class when it finds no
    memory (os/mm/allocator.cc).  It gives the pages of empty blocks back but leaves them on the list of
    blocks with room. */
module SlabTruncate {
  import opened Basics
  import opened PageTable
  import opened PageMemory
  import opened SizeClass
  import opened Slab

  /** The list of all blocks of a class, from head_block through the next_block fields. */
  ghost predicate AllOf(blocks: map<nat, Block>, c: nat, order: seq<nat>)
  {
    NoDup(order) && forall p :: p in order <==> p in blocks && blocks[p].size == c
  }

  /** The empty blocks among the pages of a list. */
  ghost function Empties(blocks: map<nat, Block>, order: seq<nat>): (s: set<nat>)
  {
    set p | p in order && p in blocks && blocks[p].used == 0
  }

  /** The blocks of a class that hold no object. */
  ghost function EmptyBlocks(blocks: map<nat, Block>, c: nat): (s: set<nat>)
  {
    set p | p in blocks && blocks[p].size == c && blocks[p].used == 0
  }

  lemma {:induction false} AllListed(chain: seq<nat>, n: nat, i: nat)
    requires NoDup(chain) && |chain| == n && i < n && forall k :: 0 <= k < |chain| ==> chain[k] < n
    ensures i in chain
  {
    if i !in chain {
      var all := AllSlots(n);
      CountOf(chain);
      CountOf(all);
      assert all[i] == i;
      forall x | x in chain ensures x in all { assert all[x] == x; }
      assert Elems(chain) <= Elems(all) - {i};
      SubsetSize(Elems(chain), Elems(all) - {i});
    }
  }

  /** An empty block holds no live object and is on the list of blocks with room. */
  lemma EmptyIsListed(mem: Memory, free: seq<nat>, blocks: map<nat, Block>, chains: map<nat, seq<nat>>,
                      nextFree: map<nat, nat>, lists: map<nat, seq<nat>>, c: nat, p: nat)
    requires BlocksOk(mem, free, blocks, chains) && ListsOk(blocks, chains, nextFree, lists) && IsClass(c)
    requires p in blocks && blocks[p].size == c && blocks[p].used == 0
    ensures c in lists && p in lists[c] && forall i: nat :: !LiveIn(blocks, chains, p, i)
  {
    hide IsClass, Capacity, ListOk;
    Full(mem, free, blocks, chains, p);
    CapacityBound(c);
    assert HasRoom(blocks, chains, c, p);
    forall i: nat | i < Capacity(c) ensures i in chains[p] { AllListed(chains[p], Capacity(c), i); }
    InList(blocks, chains, c, nextFree[c], lists[c], p);
  }

  lemma InList(blocks: map<nat, Block>, chains: map<nat, seq<nat>>, c: nat, head: nat, list: seq<nat>, p: nat)
    requires ListOk(blocks, chains, c, head, list) && HasRoom(blocks, chains, c, p)
    ensures p in list
  {
  }

  /** Two lists that follow the same links from the same head agree up to a page that is gone. */
  lemma {:induction false} SameLinks(blocks: map<nat, Block>, left: map<nat, Block>, head: nat, old_list: seq<nat>,
                                     list: seq<nat>, m: nat)
    requires head == PageAt(old_list, 0) == PageAt(list, 0) && m < |old_list| && 0 !in blocks
    requires forall i :: 0 <= i < |old_list| ==>
               old_list[i] in blocks && blocks[old_list[i]].nextBlock == PageAt(old_list, i + 1)
    requires forall i :: 0 <= i < |list| ==> list[i] in left && left[list[i]].nextBlock == PageAt(list, i + 1)
    requires forall q :: q in left ==> q in blocks && left[q] == blocks[q]
    ensures m < |list| && list[m] == old_list[m]
  {
    if m > 0 {
      SameLinks(blocks, left, head, old_list, list, m - 1);
      assert list[m - 1] == old_list[m - 1] && PageAt(list, m) == PageAt(old_list, m) == old_list[m];
    }
  }

  /** Once a listed block is gone, no bookkeeping whatever makes the lists right again. */
  lemma Dangling(blocks: map<nat, Block>, chains: map<nat, seq<nat>>, nextFree: map<nat, nat>,
                 lists: map<nat, seq<nat>>, gone: set<nat>, c: nat, p: nat, chains': map<nat, seq<nat>>,
                 lists': map<nat, seq<nat>>)
    requires ListsOk(blocks, chains, nextFree, lists) && IsClass(c) && c in lists && p in lists[c] && p in gone
    requires 0 !in blocks
    ensures !ListsOk(blocks - gone, chains', nextFree, lists')
  {
    hide IsClass, HasRoom;
    if ListsOk(blocks - gone, chains', nextFree, lists') {
      var m :| 0 <= m < |lists[c]| && lists[c][m] == p;
      assert ListOk(blocks, chains, c, nextFree[c], lists[c]);
      assert ListOk(blocks - gone, chains', c, nextFree[c], lists'[c]);
      SameLinks(blocks, blocks - gone, nextFree[c], lists[c], lists'[c], m);
      assert false;
    }
  }

  /** truncate: exactly the pages of empty blocks go back to the page allocator, and no object is lost.  The
      heap stays sound if and only if there was no empty block; otherwise the block list names free pages,
      and the block that the next alloc will use is one of them if it was empty. */
  method Truncate(h: Heap, c: nat, order: seq<nat>)
    requires h.Valid() && IsClass(c) && AllOf(h.blocks, c, order)
    modifies h`blocks, h`chains, h.mem`free, h.mem`count
    ensures h.mem.Valid() && BlocksOk(h.mem, h.mem.free, h.blocks, h.chains)
    ensures h.blocks == old(h.blocks) - EmptyBlocks(old(h.blocks), c)
    ensures Elems(h.mem.free) == Elems(old(h.mem.free)) + EmptyBlocks(old(h.blocks), c)
    ensures SameLive(old(h.blocks), old(h.chains), h.blocks, h.chains)
    ensures h.Valid() <==> EmptyBlocks(old(h.blocks), c) == {}
    ensures EmptyBlocks(old(h.blocks), c) != {} ==>
              forall chains, lists :: !ListsOk(h.blocks, chains, h.nextFree, lists)
    ensures c in h.nextFree && (h.nextFree[c] in h.mem.free <==> h.nextFree[c] in EmptyBlocks(old(h.blocks), c))
  {
    hide BlocksOk, ListsOk, IsClass, Capacity, Memory.InRange, Memory.Valid, LiveIn, Elems, Empties, EmptyBlocks;
    hide SameLive;
    ghost var gone: set<nat> := {};
    NothingYet(h.blocks, h.chains, order);
    for k := 0 to |order|
      invariant h.mem.Valid() && BlocksOk(h.mem, h.mem.free, h.blocks, h.chains)
      invariant gone == Empties(old(h.blocks), order[..k])
      invariant h.blocks == old(h.blocks) - gone && h.chains == old(h.chains) - gone
      invariant Elems(h.mem.free) == Elems(old(h.mem.free)) + gone
    {
      var p := order[k];
      OneMore(old(h.blocks), c, order, k);
      if h.blocks[p].used == 0 { ReleaseBlock(h, p); }
      gone := Empties(old(h.blocks), order[..k + 1]);
    }
    AllGone(old(h.blocks), c, order);
    ZeroNotFree(h.mem);
    Afterwards(h.mem, old(h.mem.free), old(h.blocks), old(h.chains), h.nextFree, h.lists, c, h.mem.free);
  }

  /** One block of the loop. */
  method ReleaseBlock(h: Heap, p: nat)
    requires h.mem.Valid() && BlocksOk(h.mem, h.mem.free, h.blocks, h.chains) && p in h.blocks
    modifies h`blocks, h`chains, h.mem`free, h.mem`count
    ensures h.mem.Valid() && BlocksOk(h.mem, h.mem.free, h.blocks, h.chains)
    ensures h.blocks == old(h.blocks) - {p} && h.chains == old(h.chains) - {p}
    ensures Elems(h.mem.free) == Elems(old(h.mem.free)) + {p}
  {
    hide BlockOk, Memory.InRange, NoDup;
    var ok := h.mem.FreePage(p);
    h.blocks, h.chains := h.blocks - {p}, h.chains - {p};
  }

  lemma NothingYet(blocks: map<nat, Block>, chains: map<nat, seq<nat>>, order: seq<nat>)
    ensures Empties(blocks, order[..0]) == {} && blocks - {} == blocks && chains - {} == chains
  {
  }

  lemma OneMore(blocks: map<nat, Block>, c: nat, order: seq<nat>, k: nat)
    requires AllOf(blocks, c, order) && k < |order|
    ensures order[k] in blocks && order[k] !in Empties(blocks, order[..k])
    ensures Empties(blocks, order[..k + 1])
            == Empties(blocks, order[..k]) + if blocks[order[k]].used == 0 then {order[k]} else {}
    ensures forall g: set<nat> :: blocks - g - {order[k]} == blocks - (g + {order[k]})
  {
    assert order[k] in order;
    assert order[..k + 1] == order[..k] + [order[k]];
  }

  lemma AllGone(blocks: map<nat, Block>, c: nat, order: seq<nat>)
    requires AllOf(blocks, c, order)
    ensures Empties(blocks, order[..|order|]) == EmptyBlocks(blocks, c)
  {
    assert order[..|order|] == order;
  }

  lemma Afterwards(mem: Memory, free: seq<nat>, blocks: map<nat, Block>, chains: map<nat, seq<nat>>,
                   nextFree: map<nat, nat>, lists: map<nat, seq<nat>>, c: nat, free': seq<nat>)
    requires BlocksOk(mem, free, blocks, chains) && ListsOk(blocks, chains, nextFree, lists) && IsClass(c)
    requires Elems(free') == Elems(free) + EmptyBlocks(blocks, c) && 0 !in free'
    ensures var gone := EmptyBlocks(blocks, c);
            && SameLive(blocks, chains, blocks - gone, chains - gone)
            && (ListsOk(blocks - gone, chains - gone, nextFree, lists) <==> gone == {})
            && (gone != {} ==> forall chains', lists' :: !ListsOk(blocks - gone, chains', nextFree, lists'))
            && c in nextFree && (nextFree[c] in free' <==> nextFree[c] in gone)
  {
    hide BlocksOk, ListsOk, IsClass, LiveIn, SameLive, Elems;
    var gone := EmptyBlocks(blocks, c);
    ZeroIsNoBlock(mem, free, blocks, chains);
    forall p | p in gone ensures c in lists && p in lists[c] && forall i: nat :: !LiveIn(blocks, chains, p, i) {
      EmptyIsListed(mem, free, blocks, chains, nextFree, lists, c, p);
    }
    LiveWithout(blocks, chains, gone);
    HeadIs(mem, free, blocks, chains, nextFree, lists, c);
    HeadFree(free, free', gone, nextFree[c]);
    if gone == {} {
      assert blocks - gone == blocks && chains - gone == chains;
    } else {
      var p :| p in gone;
      forall chains', lists' ensures !ListsOk(blocks - gone, chains', nextFree, lists') {
        Dangling(blocks, chains, nextFree, lists, gone, c, p, chains', lists');
      }
    }
  }

  lemma LiveWithout(blocks: map<nat, Block>, chains: map<nat, seq<nat>>, gone: set<nat>)
    requires forall p, i: nat :: p in gone ==> !LiveIn(blocks, chains, p, i)
    ensures SameLive(blocks, chains, blocks - gone, chains - gone)
  {
    hide IsClass, Capacity;
    forall p: nat, i: nat ensures LiveIn(blocks - gone, chains - gone, p, i) <==> LiveIn(blocks, chains, p, i) {
      if p in gone { assert !LiveIn(blocks, chains, p, i); }
    }
  }

  /** The head of the list is no page or a block, and no block is free. */
  lemma HeadIs(mem: Memory, free: seq<nat>, blocks: map<nat, Block>, chains: map<nat, seq<nat>>,
               nextFree: map<nat, nat>, lists: map<nat, seq<nat>>, c: nat)
    requires BlocksOk(mem, free, blocks, chains) && ListsOk(blocks, chains, nextFree, lists) && IsClass(c)
    ensures c in nextFree && (nextFree[c] == 0 || nextFree[c] !in free)
  {
    hide IsClass, ListOk, BlockOk, Memory.InRange;
    if nextFree[c] != 0 { HeadHasRoom(blocks, chains, nextFree, lists, c); }
  }

  lemma HeadFree(free: seq<nat>, free': seq<nat>, gone: set<nat>, head: nat)
    requires Elems(free') == Elems(free) + gone && 0 !in free' && (head == 0 || head !in free)
    ensures head in free' <==> head in gone
  {
    InElems(free', head);
    InElems(free, head);
  }

  lemma ZeroNotFree(mem: Memory)
    requires mem.Valid()
    ensures 0 !in mem.free
  {
    hide NoDup;
  }

  /** A block is empty exactly if no slot of it is live. */
  lemma EmptyMeans(b: Block, chain: seq<nat>)
    requires BlockOk(b, chain)
    ensures b.used == 0 <==> forall i: nat :: i < Capacity(b.size) ==> i in chain
  {
    hide Capacity, IsClass, LinkOf;
    var n := Capacity(b.size);
    if b.used == 0 {
      forall i: nat | i < n ensures i in chain { AllListed(chain, n, i); }
    } else if forall i: nat :: i < n ==> i in chain {
      CountOf(chain);
      CountOf(AllSlots(n));
      assert Elems(AllSlots(n)) <= Elems(chain);
      SubsetSize(Elems(AllSlots(n)), Elems(chain));
      assert false;
    }
  }

  /** A block of its class without live objects, and the only one, heads the list of the class. */
  lemma OnlyBlock(mem: Memory, free: seq<nat>, blocks: map<nat, Block>, chains: map<nat, seq<nat>>,
                  nextFree: map<nat, nat>, lists: map<nat, seq<nat>>, c: nat, p: nat)
    requires BlocksOk(mem, free, blocks, chains) && ListsOk(blocks, chains, nextFree, lists) && IsClass(c)
    requires p in blocks && blocks[p].size == c && forall q :: q in blocks && q != p ==> blocks[q].size != c
    requires forall i: nat :: !LiveIn(blocks, chains, p, i)
    ensures c in nextFree && nextFree[c] == p && p in EmptyBlocks(blocks, c) && AllOf(blocks, c, [p])
  {
    hide IsClass, Capacity, BlockOk, ListOk, BlocksOk, Memory.InRange;
    Full(mem, free, blocks, chains, p);
    forall i: nat | i < Capacity(c) ensures i in chains[p] { assert !LiveIn(blocks, chains, p, i); }
    EmptyMeans(blocks[p], chains[p]);
    EmptyIsListed(mem, free, blocks, chains, nextFree, lists, c, p);
    ZeroIsNoBlock(mem, free, blocks, chains);
    OneOfList(blocks, chains, c, nextFree[c], lists[c], p);
  }

  lemma OneOfList(blocks: map<nat, Block>, chains: map<nat, seq<nat>>, c: nat, head: nat, list: seq<nat>, p: nat)
    requires ListOk(blocks, chains, c, head, list) && p in list
    requires forall q :: q in blocks && q != p ==> blocks[q].size != c
    ensures head == p
  {
    assert list[0] in list;
  }

  /** The page of a new block holds the one object made there. */
  lemma NewPageLive(blocks: map<nat, Block>, chains: map<nat, seq<nat>>, b1: map<nat, Block>, c1: map<nat, seq<nat>>,
                    b2: map<nat, Block>, c2: map<nat, seq<nat>>, p: nat, i: nat)
    requires p !in blocks && SameLiveBut(blocks, chains, b1, c1, p, i) && SameLiveBut(b1, c1, b2, c2, p, i)
    requires !LiveIn(b2, c2, p, i)
    ensures forall j: nat :: !LiveIn(b2, c2, p, j)
  {
    hide IsClass, Capacity;
    forall j: nat ensures !LiveIn(b2, c2, p, j) {
      assert !LiveIn(blocks, chains, p, j);
      if j != i { assert LiveIn(b2, c2, p, j) <==> LiveIn(b1, c1, p, j); }
    }
  }

  /** new, delete and truncate in a class that has no block yet, while a page is left: the block that the next
      new will use is then a page that the page allocator has as free. */
  method UseAfterTruncate(h: Heap, c: nat) returns (ghost page: nat)
    requires h.Valid() && IsClass(c) && h.mem.free != [] && forall p :: p in h.blocks ==> h.blocks[p].size != c
    modifies h, h.mem
    ensures !h.Valid() && c in h.nextFree && h.nextFree[c] == page && page in h.mem.free
  {
    hide BlocksOk, ListsOk, IsClass, Capacity, Memory.InRange, Memory.Valid, LiveIn, Elems, AlignedTo, Address;
    hide SameLiveBut, EmptyBlocks, AllOf, SameSlots, SameSlotsBut, SameLive;
    h.HasClass(c);
    FreeIsNoBlock(h.mem, h.blocks, h.chains);
    ghost var i;
    var ptr;
    ptr, page, i := h.AllocClass(c);
    ghost var b1, c1 := h.blocks, h.chains;
    h.FreeClass(c, ptr, page, i);
    NewPageLive(old(h.blocks), old(h.chains), b1, c1, h.blocks, h.chains, page, i);
    OnlyBlock(h.mem, h.mem.free, h.blocks, h.chains, h.nextFree, h.lists, c, page);
    var head := h.nextFree[c];
    Truncate(h, c, [head]);
  }

  lemma FreeIsNoBlock(mem: Memory, blocks: map<nat, Block>, chains: map<nat, seq<nat>>)
    requires BlocksOk(mem, mem.free, blocks, chains)
    ensures forall p :: p in mem.free ==> p !in blocks
  {
  }
}
