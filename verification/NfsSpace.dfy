/** Disk layout and block allocation (os/fs/nfs/nfs.cc): make_fs arithmetic,
    alloc_block, free_block. */
module NfsSpace {
  import opened Basics
  import opened NfsCommon
  import opened Bitmap

  const MIN_CAPACITY := 1024
  const TWO32 := 0x1_0000_0000

  // ------------------------------------------------------------ layout

  /** `total_generic_blocks`, computed in 32-bit arithmetic. */
  function TotalGeneric(nblocks: u32): (r: u32)
    requires nblocks >= MIN_CAPACITY
  {
    (nblocks - 2) * BITS_PER_BLOCK % TWO32 / (BITS_PER_BLOCK + 1)
  }

  /** `generic_block_start`, computed in 32-bit arithmetic. */
  function GenericStart(nblocks: u32): (r: u32)
    requires nblocks >= MIN_CAPACITY
  {
    (2 + nblocks - TotalGeneric(nblocks)) % TWO32
  }

  /** The product in the layout formula fits 32 bits. */
  predicate NoOverflow(nblocks: u32)
    requires nblocks >= MIN_CAPACITY
  {
    (nblocks - 2) * BITS_PER_BLOCK < TWO32
  }

  /** What the block allocator needs of a layout: the bitmap region has strictly more
      bits than there are blocks, the reserved bits lie in its first block, and exactly
      two blocks fewer than `total_generic_blocks` can ever be handed out. */
  ghost predicate LayoutOk(total: u32, generic: u32, start: u32)
  {
    && 4 < start < total
    && start <= BITS_PER_BLOCK
    && total < (start - BITMAP_BLOCK_INDEX) * BITS_PER_BLOCK < TWO32
    && total - start == generic - 2
  }

  lemma LayoutSound(nblocks: u32)
    requires nblocks >= MIN_CAPACITY && NoOverflow(nblocks)
    ensures LayoutOk(nblocks, TotalGeneric(nblocks), GenericStart(nblocks))
  {
    hide TotalGeneric, GenericStart, LayoutOk;
    var m := nblocks - 2;
    var q, r := m / 8193, m % 8193;
    ScaledFloor(q, r);
    LayoutPlain(nblocks);
    LayoutNumbers(q, r);
  }

  /** Without overflow the layout is that of plain arithmetic. */
  lemma LayoutPlain(nblocks: u32)
    requires nblocks >= MIN_CAPACITY && NoOverflow(nblocks)
    ensures TotalGeneric(nblocks) == (nblocks - 2) * 8192 / 8193
    ensures GenericStart(nblocks) == 2 + nblocks - TotalGeneric(nblocks)
  {
  }

  lemma LayoutNumbers(q: nat, r: nat)
    requires r < 8193 && 1022 <= q * 8193 + r < 0x8_0000
    ensures LayoutOk(q * 8193 + r + 2, q * 8192 + (if r == 0 then 0 else r - 1), 4 + q + (if r == 0 then 0 else 1))
  {
  }

  lemma ScaledFloor(q: nat, r: nat)
    requires r < 8193
    ensures (q * 8193 + r) * 8192 / 8193 == q * 8192 + (if r == 0 then 0 else r - 1)
  {
    var n, x := (q * 8193 + r) * 8192, q * 8192 + (if r == 0 then 0 else r - 1);
    assert n - x * 8193 == if r == 0 then 0 else 8193 - r;
  }

  /** A new disk has plenty of clear blocks. */
  lemma LayoutRoom(nblocks: u32)
    requires nblocks >= MIN_CAPACITY && NoOverflow(nblocks)
    ensures nblocks - GenericStart(nblocks) >= 1000
  {
    hide LayoutOk;
    var m := nblocks - 2;
    assert TotalGeneric(nblocks) == m * 8192 / 8193;
    assert m * 8192 >= 8193 * (m - 64);
  }

  /** With the product wrapped around, make_fs would set reserved bits past the end of
      the first bitmap block: the layout is sound exactly when nothing overflows. */
  lemma LayoutSoundIff(nblocks: u32)
    requires nblocks >= MIN_CAPACITY
    ensures NoOverflow(nblocks) <==> LayoutOk(nblocks, TotalGeneric(nblocks), GenericStart(nblocks))
  {
    if NoOverflow(nblocks) {
      LayoutSound(nblocks);
    } else {
      var m := nblocks - 2;
      assert m >= 0x8_0000;
      var r := m % 0x8_0000;
      assert m * 8192 % TWO32 == r * 8192;
      assert r * 8192 / 8193 <= r;
    }
  }

  /** A mid-size disk (2 GiB + 2 blocks) on which the layout breaks. */
  lemma LayoutBreaks()
    ensures GenericStart(0x8_0002) > BITS_PER_BLOCK
  {
    LayoutSoundIff(0x8_0002);
    assert TotalGeneric(0x8_0002) == 0;
  }

  // ------------------------------------------------------------ bitmap blocks

  type BitmapBlock = w: seq<Word64> | |w| == 128 witness seq(128, i => seq(64, j => false))

  predicate IsSet(bm: seq<BitmapBlock>, b: nat)
    requires b < BITS_PER_BLOCK * |bm|
  {
    Bit(bm[b / BITS_PER_BLOCK], b % BITS_PER_BLOCK)
  }

  lemma IsSetAt(bm: seq<BitmapBlock>, k: nat, n: nat)
    requires k < |bm| && n <= BITS_PER_BLOCK
    ensures forall b :: k * BITS_PER_BLOCK <= b < k * BITS_PER_BLOCK + n ==>
              (IsSet(bm, b) <==> Bit(bm[k], b - k * BITS_PER_BLOCK))
  {
    hide Bit;
    forall b | k * BITS_PER_BLOCK <= b < k * BITS_PER_BLOCK + n
      ensures IsSet(bm, b) <==> Bit(bm[k], b - k * BITS_PER_BLOCK)
    {
      assert b / BITS_PER_BLOCK == k && b % BITS_PER_BLOCK == b - k * BITS_PER_BLOCK;
    }
  }

  /** The bitmap describes exactly the reserved blocks and the live ones. */
  ghost predicate BitsMatch(bm: seq<BitmapBlock>, start: u32, live: set<u32>)
  {
    forall b :: 0 <= b < BITS_PER_BLOCK * |bm| ==> (IsSet(bm, b) <==> b < start || b in live)
  }

  function MarkBlock(bm: seq<BitmapBlock>, k: nat, j: nat): (r: seq<BitmapBlock>)
    requires k < |bm| && j < BITS_PER_BLOCK
    ensures |r| == |bm|
    ensures forall b :: 0 <= b < BITS_PER_BLOCK * |bm| ==>
              (IsSet(r, b) <==> b == k * BITS_PER_BLOCK + j || IsSet(bm, b))
  {
    bm[k := SetBit(bm[k], j)]
  }

  function UnmarkBlock(bm: seq<BitmapBlock>, k: nat, j: nat): (r: seq<BitmapBlock>)
    requires k < |bm| && j < BITS_PER_BLOCK
    ensures |r| == |bm|
    ensures forall b :: 0 <= b < BITS_PER_BLOCK * |bm| ==>
              (IsSet(r, b) <==> b != k * BITS_PER_BLOCK + j && IsSet(bm, b))
  {
    bm[k := ClearBit(bm[k], j)]
  }

  lemma MarkMatches(bm: seq<BitmapBlock>, start: u32, live: set<u32>, k: nat, j: nat, b: u32)
    requires k < |bm| && j < BITS_PER_BLOCK && b == k * BITS_PER_BLOCK + j
    requires BitsMatch(bm, start, live)
    ensures BitsMatch(MarkBlock(bm, k, j), start, live + {b})
  {
  }

  lemma UnmarkMatches(bm: seq<BitmapBlock>, start: u32, live: set<u32>, k: nat, j: nat, b: u32)
    requires k < |bm| && j < BITS_PER_BLOCK && start <= b == k * BITS_PER_BLOCK + j
    requires BitsMatch(bm, start, live)
    ensures BitsMatch(UnmarkBlock(bm, k, j), start, live - {b})
  {
  }

  /** Cardinality of a set of block numbers confined to [lo, hi). */
  lemma {:induction false} RangeBound(s: set<u32>, lo: int, hi: int)
    requires lo <= hi && forall b :: b in s ==> lo <= b < hi
    ensures |s| <= hi - lo
    decreases hi - lo
  {
    if lo == hi {
      assert s == {};
    } else {
      var top := hi - 1;
      if top in s {
        RangeBound(s - {top}, lo, top);
      } else {
        RangeBound(s, lo, top);
      }
    }
  }

  // ------------------------------------------------------------ counting

  ghost function Below(n: nat): (s: set<int>)
    ensures |s| == n && forall b :: b in s <==> 0 <= b < n
  {
    if n == 0 then {} else Below(n - 1) + {n - 1}
  }

  /** The blocks of a bitmap whose bit is set. */
  ghost function SetBits(bm: seq<BitmapBlock>): (s: set<int>)
    ensures forall b :: b in s <==> 0 <= b < BITS_PER_BLOCK * |bm| && IsSet(bm, b)
  {
    set b | b in Below(BITS_PER_BLOCK * |bm|) && IsSet(bm, b)
  }

  lemma SetBitsOf(bm: seq<BitmapBlock>, start: u32, live: set<u32>)
    requires BitsMatch(bm, start, live) && start <= BITS_PER_BLOCK * |bm|
    requires forall b :: b in live ==> start <= b < BITS_PER_BLOCK * |bm|
    ensures |SetBits(bm)| == start + |live|
  {
    hide IsSet;
    ghost var ints := set b | b in live :: b as int;
    SameSize(live, ints);
    assert SetBits(bm) == Below(start) + ints;
    assert Below(start) !! ints;
  }

  lemma {:induction false} SameSize(live: set<u32>, ints: set<int>)
    requires forall b: int :: b in ints <==> 0 <= b < TWO32 && b in live
    ensures |ints| == |live|
  {
    if live == {} {
      assert forall b :: b in ints ==> b in live;
      assert ints == {};
    } else {
      var b :| b in live;
      SameSize(live - {b}, ints - {b});
    }
  }

  /** The clear blocks of the disk from a block on. */
  ghost function ClearFrom(from: int, start: u32, total: u32, live: set<u32>): (s: set<u32>)
    ensures forall b :: b in s <==> from <= b && start <= b < total && b !in live
  {
    set b: u32 | start <= b < total && from <= b && b !in live
  }

  // ------------------------------------------------------------ the allocator

  ghost function ScanFrom(nextFree: u32, start: u32): (b: int)
  {
    if nextFree >= start then 0 else (nextFree - BITMAP_BLOCK_INDEX) * BITS_PER_BLOCK
  }

  lemma ScanMoves(nextFree: u32, index: u32, bit: u32, start: u32)
    requires BITMAP_BLOCK_INDEX <= nextFree <= index < start
    ensures ScanFrom(nextFree, start) <= ScanFrom(index, start) <= (index - BITMAP_BLOCK_INDEX) * BITS_PER_BLOCK + bit
  {
  }

  /** The superblock counters and the bitmap region, as seen through the block cache. */
  class Space {
    const total: u32            // total_blocks
    const generic: u32          // total_generic_blocks
    const start: u32            // generic_block_start
    var used: u32               // used_generic_blocks
    var nextFree: u32           // next_free_bitmap
    var dirty: bool             // sb_dirty
    var bitmap: seq<BitmapBlock>   // block BITMAP_BLOCK_INDEX + i
    ghost var live: set<u32>
    ghost var room: nat         // clear blocks the next scans can reach

    ghost predicate Valid()
      reads this
    {
      && room == |ClearFrom(ScanStart(), start, total, live)|
      && LayoutOk(total, generic, start)
      && |bitmap| == start - BITMAP_BLOCK_INDEX
      && BITMAP_BLOCK_INDEX <= nextFree
      && used == |live|
      && (forall b :: b in live ==> start <= b < total)
      && BitsMatch(bitmap, start, live)
    }

    /** The bitmap part of make_fs: clear the region, then set the reserved bits. */
    constructor (nblocks: u32)
      requires nblocks >= MIN_CAPACITY && NoOverflow(nblocks)
      ensures Valid() && live == {} && total == nblocks && dirty
      ensures generic == TotalGeneric(nblocks) && start == GenericStart(nblocks) && room == total - start
    {
      total := nblocks;
      generic := TotalGeneric(nblocks);
      start := GenericStart(nblocks);
      used := 0;
      nextFree := BITMAP_BLOCK_INDEX;
      dirty := true;
      live, room := {}, GenericStart(nblocks);
      bitmap := [];
      new;
      LayoutSound(nblocks);
      room := total - start;
      var zero: BitmapBlock := seq(128, i => seq(64, j => false));
      for i := BITMAP_BLOCK_INDEX to start
        invariant |bitmap| == i - BITMAP_BLOCK_INDEX
        invariant forall k :: 0 <= k < |bitmap| ==> bitmap[k] == zero
        invariant used == 0 && nextFree == BITMAP_BLOCK_INDEX && dirty && live == {} && room == total - start
      {
        bitmap := bitmap + [zero];
      }
      for i := 0 to start
        invariant |bitmap| == start - BITMAP_BLOCK_INDEX
        invariant forall b :: 0 <= b < BITS_PER_BLOCK * |bitmap| ==> (IsSet(bitmap, b) <==> b < i)
        invariant used == 0 && nextFree == BITMAP_BLOCK_INDEX && dirty && live == {} && room == total - start
      {
        bitmap := MarkBlock(bitmap, 0, i);
      }
      AllClear(start, total);
    }

    /** First block covered by the bitmap block at which the next scan begins. */
    ghost function ScanStart(): (b: int)
      reads this
    {
      ScanFrom(nextFree, start)
    }

    /** used_generic_blocks is the number of set bits beyond the reserved ones. */
    lemma SetBitsCount()
      requires Valid()
      ensures |SetBits(bitmap)| == start + used && used == |live|
    {
      hide BitsMatch, ClearFrom;
      SetBitsOf(bitmap, start, live);
    }

    /** `room` is zero exactly when every block from the scan start on is taken. */
    lemma RoomIsClear()
      requires Valid()
      ensures room == 0 <==> forall b :: ScanStart() <= b < total ==> b < start || b in live
    {
      hide BitsMatch;
      var s := ClearFrom(ScanStart(), start, total, live);
      assert room == 0 <==> s == {};
      if s == {} {
        forall b | ScanStart() <= b < total ensures b < start || b in live { assert b !in s; }
      }
    }

    /** The capacity test of alloc_block never fires: the bitmap runs out first. */
    lemma NeverAtCapacity()
      requires Valid()
      ensures used <= generic - 2 < TWO32 - 2
    {
      RangeBound(live, start, total);
    }

    /** The scan loop of alloc_block: the first bitmap block at or after `from` with a
        clear bit, and that bit; (start, NIL) when there is none. */
    method Scan(from: u32) returns (index: u32, bit: u32)
      requires Valid() && BITMAP_BLOCK_INDEX <= from < start
      ensures from <= index <= start
      ensures index == start ==> bit == NIL
      ensures index < start ==> bit < BITS_PER_BLOCK
      ensures index < start ==> !IsSet(bitmap, (index - BITMAP_BLOCK_INDEX) * BITS_PER_BLOCK + bit)
      ensures forall b ::
                (from - BITMAP_BLOCK_INDEX) * BITS_PER_BLOCK <= b < BITS_PER_BLOCK * |bitmap| &&
                (index < start ==> b < (index - BITMAP_BLOCK_INDEX) * BITS_PER_BLOCK + bit) ==>
                IsSet(bitmap, b)
    {
      hide BitsMatch, Bit, IsSet;
      index := from;
      bit := NIL;
      while index < start
        invariant from <= index <= start
        invariant bit == NIL
        invariant forall b ::
                    (from - BITMAP_BLOCK_INDEX) * BITS_PER_BLOCK <= b
                    < (index - BITMAP_BLOCK_INDEX) * BITS_PER_BLOCK ==>
                    IsSet(bitmap, b)
      {
        bit := FindFirstZero(bitmap[index - BITMAP_BLOCK_INDEX]);
        IsSetAt(bitmap, index - BITMAP_BLOCK_INDEX, BITS_PER_BLOCK);
        if bit != NIL { return; }
        index := index + 1;
      }
    }

    /** The block number alloc_block computes from the scan, in 32-bit arithmetic. */
    method FindBlock(from: u32) returns (index: u32, bit: u32, b: u32)
      requires Valid() && BITMAP_BLOCK_INDEX <= from < start
      ensures b < total ==> index < start && bit < BITS_PER_BLOCK
      ensures b < total ==> b == (index - BITMAP_BLOCK_INDEX) * BITS_PER_BLOCK + bit
      ensures b < total ==> from <= index && start <= b && b !in live
      ensures forall c :: (from - BITMAP_BLOCK_INDEX) * BITS_PER_BLOCK <= c < b && c < total ==> c < start || c in live
    {
      hide ClearFrom, ScanFrom, Bit, IsSet;
      index, bit := Scan(from);
      b := ((index - BITMAP_BLOCK_INDEX) * BITS_PER_BLOCK + bit) % TWO32;
      assert index == start ==> b == (start - BITMAP_BLOCK_INDEX) * BITS_PER_BLOCK - 1;
    }

    /** The second half of alloc_block: set the bit, count the block. */
    method Take(index: u32, bit: u32, b: u32)
      requires Valid() && BITMAP_BLOCK_INDEX <= index < start && bit < BITS_PER_BLOCK && nextFree <= index
      requires b == (index - BITMAP_BLOCK_INDEX) * BITS_PER_BLOCK + bit && start <= b < total && b !in live
      requires forall c :: ScanStart() <= c < b ==> c < start || c in live
      modifies this
      ensures Valid() && live == old(live) + {b} && nextFree == index && dirty && room == old(room) - 1
    {
      hide BitsMatch, ClearFrom, ScanFrom, LayoutOk, IsSet, MarkBlock;
      MarkMatches(bitmap, start, live, index - BITMAP_BLOCK_INDEX, bit, b);
      NeverAtCapacity();
      ScanMoves(nextFree, index, bit, start);
      ClearTaken(ScanFrom(nextFree, start), ScanFrom(index, start), start, total, live, b);
      bitmap := MarkBlock(bitmap, index - BITMAP_BLOCK_INDEX, bit);
      live, room := live + {b}, room - 1;
      used := used + 1;
      nextFree := index;
      dirty := true;
    }

    /** alloc_block: hands out the least clear block at or after the scan start, marks
        exactly that block, and fails exactly when there is none.  A scan that ends past
        the disk, or wraps around from index -1, is always rejected. */
    method AllocBlock() returns (ok: bool, b: u32)
      requires Valid()
      modifies this
      ensures Valid()
      ensures ok <==> old(room) > 0
      ensures room == if ok then old(room) - 1 else 0
      ensures ok ==> b !in old(live) && start <= b < total && live == old(live) + {b}
      ensures ok ==> old(ScanStart()) <= b
      ensures ok ==> forall c :: old(ScanStart()) <= c < b ==> c < start || c in old(live)
      ensures !ok ==> live == old(live)
      ensures !ok ==> forall c :: old(ScanStart()) <= c < total ==> c < start || c in live
      ensures ok ==> dirty
    {
      hide BitsMatch, IsSet;
      b := 0;
      ok := false;
      NeverAtCapacity();
      if used >= generic { return; }
      if nextFree >= start { nextFree := BITMAP_BLOCK_INDEX; }
      var index, bit, block := FindBlock(nextFree);
      b := block;
      RoomIsClear();
      if b >= total { return; }
      Take(index, bit, b);
      ok := true;
    }

    /** free_block: rejects a number past the disk and clears exactly one bit otherwise.  The
        bookkeeping survives exactly when the block was live. */
    method FreeBlock(b: u32) returns (ok: bool)
      requires Valid()
      modifies this
      ensures ok == (b < total) && live == old(live) - {b} && nextFree == old(nextFree) && |bitmap| == old(|bitmap|)
      ensures Valid() <==> b >= total || b in old(live)
      ensures b < total ==> forall c :: 0 <= c < BITS_PER_BLOCK * |bitmap| ==>
                (IsSet(bitmap, c) <==> c != b && old(IsSet(bitmap, c)))
      ensures Valid() ==> room >= old(room)
      ensures b < total ==> dirty
      ensures b >= total ==> bitmap == old(bitmap) && used == old(used) && dirty == old(dirty)
    {
      hide BitsMatch, IsSet;
      if b >= total { return false; }
      var index := b / BITS_PER_BLOCK;
      ghost var more := ClearFrom(ScanStart(), start, total, live - {b});
      ClearFreed(ScanStart(), start, total, live, b);
      if b in live { UnmarkMatches(bitmap, start, live, index, b % BITS_PER_BLOCK, b); }
      bitmap := UnmarkBlock(bitmap, index, b % BITS_PER_BLOCK);
      assert b !in live ==> live - {b} == live;
      live := live - {b};
      used := if used == 0 then 0xFFFF_FFFF else used - 1;
      dirty := true;
      room := |more|;
      ok := true;
    }
  }

  lemma AllClear(start: u32, total: u32)
    requires start <= total
    ensures |ClearFrom(0, start, total, {})| == total - start
  {
    var s := ClearFrom(0, start, total, {});
    ghost var ints := set b | b in s :: b as int;
    SameSize(s, ints);
    assert Below(total) == Below(start) + ints;
  }

  lemma ClearTaken(from: int, from': int, start: u32, total: u32, live: set<u32>, b: u32)
    requires from <= from' <= b && start <= b < total && b !in live
    requires forall c :: from <= c < b ==> c < start || c in live
    ensures b in ClearFrom(from, start, total, live)
    ensures ClearFrom(from', start, total, live + {b}) == ClearFrom(from, start, total, live) - {b}
    ensures |ClearFrom(from', start, total, live + {b})| == |ClearFrom(from, start, total, live)| - 1
  {
  }

  lemma ClearFreed(from: int, start: u32, total: u32, live: set<u32>, b: u32)
    ensures |ClearFrom(from, start, total, live - {b})| >= |ClearFrom(from, start, total, live)|
  {
    var s, t := ClearFrom(from, start, total, live), ClearFrom(from, start, total, live - {b});
    assert t == s + (t - s);
  }
}
