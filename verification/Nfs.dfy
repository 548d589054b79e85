/** Reading, writing and truncating files (os/fs/nfs/inode.cc).  `co_await` is a call,
    `task_fail` is the outcome ok == false. */
module Nfs {
  import opened Basics
  import opened NfsCommon
  import opened NfsSpace
  import opened NfsTree

  class FileSystem {
    const space: Space
    var disk: map<u32, Block>          // generic blocks, as seen through the block cache
    var inodes: map<nat, Inode>        // in-memory inodes by number
    ghost var owner: map<u32, Ref>

    ghost function T(): (t: Tree)
      reads this, inodes.Values
    {
      Tree(disk, owner, map id | id in inodes :: inodes[id].View())
    }

    ghost predicate Wired()
      reads this, inodes.Values
    {
      forall id :: id in inodes ==> inodes[id].id == id && inodes[id].fs == this
    }

    /** Valid, except that the pending blocks are set in the bitmap but not yet linked. */
    ghost predicate ValidWith(pending: set<u32>)
      reads this, space, inodes.Values
    {
      && space.Valid()
      && Wired()
      && (forall b :: b in disk <==> space.start <= b < space.total)
      && owner.Keys !! pending && owner.Keys + pending == space.live
      && TreeOk(T())
    }

    ghost predicate Valid()
      reads this, space, inodes.Values
    {
      ValidWith({})
    }

    /** Only inode n has changed: the tree changes in n's node, the disk and the owners. */
    twostate lemma Repacked(n: Inode)
      requires old(Wired()) && inodes == old(inodes) && n.id in inodes && inodes[n.id] == n
      requires forall m: Inode :: m in inodes.Values && m != n ==> unchanged(m)
      ensures Wired() && T() == Tree(disk, owner, old(T()).nodes[n.id := n.View()])
    {
      forall k | k in inodes && k != n.id ensures inodes[k].View() == old(inodes[k].View()) {
        var m := inodes[k];
        assert m in inodes.Values && m != n;
      }
    }

    lemma Parts()
      ensures T().disk == disk && T().owner == owner && T().nodes.Keys == inodes.Keys
      ensures forall id :: id in inodes ==> T().nodes[id] == inodes[id].View()
    {
    }

    /** make_fs on a disk with arbitrary old contents; no inode is in memory yet. */
    constructor (nblocks: u32, raw: map<u32, Block>)
      requires nblocks >= MIN_CAPACITY && NoOverflow(nblocks)
      requires forall b :: b in raw <==> GenericStart(nblocks) <= b < nblocks
      ensures Valid() && fresh(space) && inodes == map[] && disk == raw && owner == map[]
      ensures space.room == nblocks - GenericStart(nblocks)
    {
      space := new Space(nblocks);
      disk := raw;
      inodes := map[];
      owner := map[];
    }

    method AllocBlock() returns (ok: bool, b: u32)
      requires Valid()
      modifies space
      ensures ok ==> ValidWith({b}) && b in disk
      ensures !ok ==> Valid()
      ensures (ok <==> old(space.room) > 0) && space.room == if ok then old(space.room) - 1 else 0
    {
      hide TreeOk, BitsMatch;
      ok, b := space.AllocBlock();
    }

    /** memcpy of src at d into a data block, and the two memsets around it when the
        block has just been allocated. */
    method WriteBlock(ghost id: nat, ghost n: nat, b: u32, d: nat, src: seq<byte>, clear: bool)
      requires Valid() && b != NIL && b == Target(T(), PlaceOf(id, n)) && d + |src| <= BLOCK_SIZE
      modifies this`disk
      ensures Valid()
      ensures OneBlockChanged(old(T()), T(), id, n, Patch(if clear then Filled(0) else old(disk)[b], d, src))
    {
      hide TreeOk, OneBlockChanged, Target, Space.Valid;
      TargetLive(T(), PlaceOf(id, n));
      PutDataOk(T(), id, n, Patch(if clear then Filled(0) else disk[b], d, src));
      var blk := disk[b];
      blk := blk[..d] + src + blk[d + |src|..];
      if clear {
        ClearAround(blk, d, src);
        blk := Filled(0)[..d] + blk[d..];
        blk := blk[..d + |src|] + Filled(0)[d + |src|..];
      }
      disk := disk[b := blk];
      assert T() == PutData(old(T()), b, blk);
    }

    /** A new in-memory inode under a number that is not in memory yet. */
    method Open(id: nat) returns (n: Inode)
      requires Valid() && id !in inodes
      modifies this`inodes
      ensures Valid() && fresh(n) && inodes == old(inodes)[id := n] && n.id == id && n.fs == this
      ensures SameFiles(old(T()), T()) && n.HintOk() && n.EmptyOwnsNothing() && n.cacheRaw == NIL
      ensures n.size == 0 && n.nlinks == 0 && n.perm == 0 && n.kind == 0 && n.valid && n.dirty
    {
      hide TreeOk, Target, Space.Valid, SameFiles, FileSystem.T, FileSystem.Wired;
      Parts();
      NewNodeOk(T(), id);
      n := new Inode(this, id);
      inodes := inodes[id := n];
      Opened(n);
    }

    /** Only an inode in memory has come new: the tree changes in its node. */
    twostate lemma Opened(new n: Inode)
      requires old(Wired()) && n.id !in old(inodes) && inodes == old(inodes)[n.id := n] && n.fs == this
      requires disk == old(disk) && owner == old(owner) && forall m :: m in old(inodes.Values) ==> unchanged(m)
      ensures Wired() && T() == Tree(disk, owner, old(T()).nodes[n.id := n.View()])
    {
      forall k | k in old(inodes) ensures inodes[k].View() == old(inodes[k].View()) {
        assert inodes[k] in old(inodes.Values);
      }
      assert T().nodes == old(T()).nodes[n.id := n.View()];
    }

    /** A second in-memory copy of an inode takes the place of the first (__load). */
    method Replace(id: nat, size: u32, nlinks: u16, perm: byte, kind: byte, addrs: seq<u32>, next: u32)
      returns (n: Inode)
      requires Valid() && id in inodes && addrs == inodes[id].addrs && next == inodes[id].nextAddrBlock
      modifies this`inodes
      ensures Valid() && T() == old(T()) && fresh(n) && inodes == old(inodes)[id := n] && n.id == id && n.fs == this
      ensures n.size == size && n.nlinks == nlinks && n.perm == perm && n.kind == kind && n.addrs == addrs
      ensures n.nextAddrBlock == next && n.chain == old(inodes)[id].chain && n.valid && !n.dirty && n.HintOk()
    {
      hide TreeOk, Target, Space.Valid;
      n := new Inode.Loaded(this, id, size, nlinks, perm, kind, addrs, next, inodes[id].chain);
      inodes := inodes[id := n];
      assert T().nodes == old(T()).nodes;
    }

    /** In the middle of a truncation of the tree t: the blocks of the places in `gone`
        have been given back, no block has been written. */
    ghost predicate Draining(t: Tree, gone: set<Ref>)
      reads this, space
    {
      && space.Valid() && owner.Keys == space.live
      && owner == Remaining(t.owner, gone)
      && TreeOk(t) && disk == t.disk
    }

    /** free_block on the block at place r of the tree t, unless r is a hole. */
    method Release(b: u32, ghost r: Ref, ghost t: Tree, ghost gone: set<Ref>)
      requires Draining(t, gone) && r !in gone && b == Target(t, r)
      modifies this`owner, space
      ensures Draining(t, gone + {r}) && space.room >= old(space.room)
    {
      hide TreeOk, Target, Remaining, BitsMatch;
      ReleaseOne(t, gone, r);
      if b != NIL {
        var ok := space.FreeBlock(b);
        owner := owner - {b};
      }
    }
  }

  class Inode {
    const fs: FileSystem
    const id: nat
    var addrs: seq<u32>
    var nextAddrBlock: u32
    var size: u32
    var nlinks: u16
    var perm: byte
    var kind: byte
    var valid: bool
    var dirty: bool
    var cacheRaw: u32           // cache_raw_indirect_offset
    var cacheOffset: u32
    var cacheBlock: u32         // cache_addr_block
    ghost var chain: seq<u32>
    ghost var cachePos: nat

    ghost function View(): (v: Node)
      reads this
    {
      Node(addrs, nextAddrBlock, chain)
    }

    /** A new in-memory inode after init_data: all holes, empty hint. */
    constructor (fs: FileSystem, id: nat)
      ensures this.fs == fs && this.id == id && View() == Node(Holes(), NIL, [])
      ensures size == 0 && nlinks == 0 && perm == 0 && kind == 0 && dirty && valid
      ensures cacheRaw == NIL
    {
      this.fs := fs;
      this.id := id;
      addrs, nextAddrBlock, chain := Holes(), NIL, [];
      size, nlinks, perm, kind := 0, 0, 0, 0;
      valid, dirty := true, true;
      cacheRaw, cacheOffset, cacheBlock, cachePos := NIL, NIL, NIL, 0;
    }

    /** A new in-memory inode with the fields of a record. */
    constructor Loaded(fs: FileSystem, id: nat, size: u32, nlinks: u16, perm: byte, kind: byte, addrs: seq<u32>,
                       next: u32, ghost chain: seq<u32>)
      ensures this.fs == fs && this.id == id && View() == Node(addrs, next, chain)
      ensures this.size == size && this.nlinks == nlinks && this.perm == perm && this.kind == kind
      ensures valid && !dirty && cacheRaw == NIL
    {
      this.fs := fs;
      this.id := id;
      this.addrs, nextAddrBlock, this.chain := addrs, next, chain;
      this.size, this.nlinks, this.perm, this.kind := size, nlinks, perm, kind;
      valid, dirty := true, false;
      cacheRaw, cacheOffset, cacheBlock, cachePos := NIL, NIL, NIL, 0;
    }

    ghost predicate Ready()
      reads this, fs, fs.space, fs.inodes.Values
    {
      fs.Valid() && id in fs.inodes && fs.inodes[id] == this
    }

    /** An inode that is not marked dirty was not before, and what its record holds has not changed. */
    twostate predicate Marked()
      reads this
    {
      !dirty ==>
        && !old(dirty) && addrs == old(addrs) && nextAddrBlock == old(nextAddrBlock) && size == old(size)
        && nlinks == old(nlinks) && perm == old(perm) && kind == old(kind)
    }

    method LinkDirect(i: nat, b: u32)
      requires fs.ValidWith({b}) && id in fs.inodes && fs.inodes[id] == this
      requires i < NUM_DIRECT && |addrs| == NUM_DIRECT && addrs[i] == NIL && b in fs.disk
      modifies this`addrs, this`dirty, fs`owner
      ensures Ready() && dirty
      ensures addrs == old(addrs)[i := b] && OneBlockChanged(old(fs.T()), fs.T(), id, i, fs.disk[b])
    {
      hide TreeOk, OneBlockChanged, Target, Space.Valid;
      AttachDirectOk(fs.T(), id, i, b);
      addrs := addrs[i := b];
      fs.owner := fs.owner[b := Direct(id, i)];
      dirty := true;
      fs.Repacked(this);
      assert fs.T() == AttachDirect(old(fs.T()), id, i, b);
    }

    /** The block in direct slot i, allocated on demand. */
    method EnsureDirect(i: nat) returns (ok: bool, b: u32, clear: bool)
      requires Ready() && i < NUM_DIRECT
      modifies this`addrs, this`dirty, fs`owner, fs.space
      ensures Ready()
      ensures ok ==> b != NIL && b == Target(fs.T(), PlaceOf(id, i))
      ensures clear ==> ok && dirty && Target(old(fs.T()), PlaceOf(id, i)) == NIL
      ensures clear ==> b in fs.disk && OneBlockChanged(old(fs.T()), fs.T(), id, i, fs.disk[b])
      ensures !clear ==> fs.T() == old(fs.T()) && dirty == old(dirty)
      ensures Marked()
      ensures fs.space.room == old(fs.space.room) - (if clear then 1 else 0) && (!ok ==> fs.space.room == 0)
    {
      hide TreeOk, OneBlockChanged, Target, Space.Valid;
      DirectPlace(fs.T(), id, i);
      ok, b, clear := true, addrs[i], false;
      if b == NIL {
        ok, b := fs.AllocBlock();
        if ok {
          LinkDirect(i, b);
          clear := true;
          DirectPlace(fs.T(), id, i);
        }
      }
    }

    /** direct_data_block_rw: n bytes at d in direct block i. */
    method DirectRw(write: bool, i: nat, d: nat, src: seq<byte>, n: nat) returns (ok: bool, data: seq<byte>)
      requires Ready() && i < NUM_DIRECT && d + n <= BLOCK_SIZE && (write ==> |src| == n)
      modifies this`addrs, this`dirty, fs`owner, fs`disk, fs.space
      ensures Ready() && (!write ==> addrs == old(addrs)) && Marked()
      ensures ok ==> |data| == n && (write ==> data == src)
      ensures ok ==> Transferred(write, old(fs.T()), fs.T(), id, i * BLOCK_SIZE + d, data)
      ensures !ok ==> fs.T() == old(fs.T()) && write && fs.space.room == old(fs.space.room) == 0
      ensures fs.space.room <= old(fs.space.room) <= fs.space.room + (if write then 1 else 0)
    {
      hide TreeOk, OneBlockChanged, Target, FileBlock, BytesWritten, Space.Valid;
      ghost var t0 := fs.T();
      FileBlockOf(t0, id, i);
      if write {
        var b, clear;
        ok, b, clear := EnsureDirect(i);
        data := src;
        if ok {
          ghost var t1 := fs.T();
          fs.WriteBlock(id, i, b, d, src, clear);
          if clear { Overwritten(t0, t1, fs.T(), id, i, t1.disk[b], Patch(Filled(0), d, src)); }
          PatchWrites(t0, fs.T(), id, i, d, src);
        }
      } else {
        ok := true;
        DirectPlace(t0, id, i);
        data := if addrs[i] == NIL then Filled(0)[d..d + n] else fs.disk[addrs[i]][d..d + n];
        BlockReads(t0, id, i, d, data);
      }
    }

    method LinkSlot(ghost k: nat, a: u32, i: nat, b: u32)
      requires fs.ValidWith({b}) && id in fs.inodes && fs.inodes[id] == this
      requires k < |chain| && a == chain[k] && i < NUM_ADDRS && b in fs.disk
      requires Target(fs.T(), Slot(id, k, i)) == NIL
      modifies fs`disk, fs`owner
      ensures Ready()
      ensures b in fs.disk && OneBlockChanged(old(fs.T()), fs.T(), id, NUM_DIRECT + NUM_ADDRS * k + i, fs.disk[b])
      ensures Target(fs.T(), Slot(id, k, i)) == b
    {
      hide TreeOk, OneBlockChanged, Target, Space.Valid, SetWord;
      SlotPlace(fs.T(), id, k, i);
      AttachSlotOk(fs.T(), id, k, i, b);
      fs.disk := fs.disk[a := SetWord(fs.disk[a], 1 + i, b)];
      fs.owner := fs.owner[b := Slot(id, k, i)];
      assert fs.T() == AttachSlot(old(fs.T()), id, k, i, b);
    }

    /** The block in slot i of the k-th address block, allocated on demand. */
    method EnsureSlot(ghost k: nat, a: u32, i: nat) returns (ok: bool, b: u32, clear: bool)
      requires Ready() && k < |chain| && a == chain[k] && i < NUM_ADDRS
      modifies fs`disk, fs`owner, fs.space
      ensures Ready()
      ensures ok ==> b != NIL && b == Target(fs.T(), Slot(id, k, i))
      ensures clear ==> ok && Target(old(fs.T()), Slot(id, k, i)) == NIL
      ensures clear ==> b in fs.disk
      ensures clear ==> OneBlockChanged(old(fs.T()), fs.T(), id, NUM_DIRECT + NUM_ADDRS * k + i, fs.disk[b])
      ensures !clear ==> fs.T() == old(fs.T())
      ensures fs.space.room == old(fs.space.room) - (if clear then 1 else 0) && (!ok ==> fs.space.room == 0)
    {
      hide TreeOk, OneBlockChanged, Target, Space.Valid, SlotOf;
      SlotPlace(fs.T(), id, k, i);
      ok, b, clear := true, SlotOf(fs.disk[a], i), false;
      if b == NIL {
        ok, b := fs.AllocBlock();
        if ok {
          LinkSlot(k, a, i, b);
          clear := true;
        }
      }
    }

    /** data_block_rw: n bytes at d in the data block of slot i of the k-th address block. */
    method SlotRw(write: bool, ghost k: nat, a: u32, i: nat, d: nat, src: seq<byte>, n: nat)
      returns (ok: bool, data: seq<byte>)
      requires Ready() && k < |chain| && a == chain[k] && i < NUM_ADDRS
      requires d + n <= BLOCK_SIZE && (write ==> |src| == n)
      modifies fs`owner, fs`disk, fs.space
      ensures Ready()
      ensures ok ==> |data| == n && (write ==> data == src)
      ensures ok ==> Transferred(write, old(fs.T()), fs.T(), id, DIRECT_SPAN + ADDR_SPAN * k + i * BLOCK_SIZE + d, data)
      ensures !ok ==> fs.T() == old(fs.T()) && write && fs.space.room == old(fs.space.room) == 0
      ensures fs.space.room <= old(fs.space.room) <= fs.space.room + (if write then 1 else 0)
    {
      hide TreeOk, OneBlockChanged, Target, FileBlock, BytesWritten, Space.Valid, SlotOf, PlaceOf;
      ghost var t0 := fs.T();
      ghost var m := NUM_DIRECT + NUM_ADDRS * k + i;
      SlotPlace(t0, id, k, i);
      FileBlockOf(t0, id, m);
      if write {
        var b, clear;
        ok, b, clear := EnsureSlot(k, a, i);
        data := src;
        if ok {
          ghost var t1 := fs.T();
          fs.WriteBlock(id, m, b, d, src, clear);
          if clear { Overwritten(t0, t1, fs.T(), id, m, t1.disk[b], Patch(Filled(0), d, src)); }
          PatchWrites(t0, fs.T(), id, m, d, src);
        }
      } else {
        ok := true;
        var b := SlotOf(fs.disk[a], i);
        data := if b == NIL then Filled(0)[d..d + n] else fs.disk[b][d..d + n];
        BlockReads(t0, id, m, d, data);
      }
    }

    /** The first address block of an inode. */
    method LinkHead(b: u32)
      requires fs.ValidWith({b}) && id in fs.inodes && fs.inodes[id] == this
      requires nextAddrBlock == NIL && chain == [] && b in fs.disk
      modifies fs`disk, fs`owner, this`nextAddrBlock, this`chain, this`dirty
      ensures Ready() && SameFiles(old(fs.T()), fs.T())
      ensures chain == [b] && nextAddrBlock == b && dirty
    {
      hide TreeOk, SameFiles, Target, Space.Valid, Filled, FileSystem.T, FileSystem.Wired;
      fs.Parts();
      AttachLinkOk(fs.T(), id, b);
      nextAddrBlock := b;
      dirty := true;
      fs.disk := fs.disk[b := Filled(255)];
      chain := chain + [b];
      fs.owner := fs.owner[b := Link(id, 0)];
      fs.Repacked(this);
      assert fs.T() == AttachLink(old(fs.T()), id, b);
    }

    /** A further address block, linked behind the last one, a. */
    method LinkAfter(a: u32, b: u32)
      requires fs.ValidWith({b}) && id in fs.inodes && fs.inodes[id] == this
      requires chain != [] && a == chain[|chain| - 1] && b in fs.disk
      modifies fs`disk, fs`owner, this`chain
      ensures Ready() && SameFiles(old(fs.T()), fs.T()) && Appended(old(fs.T()), fs.T(), id)
      ensures chain == old(chain) + [b]
    {
      hide TreeOk, SameFiles, Target, Space.Valid, Filled, SetWord, Appended;
      ChainStep(fs.T(), id, |chain| - 1);
      AttachLinkOk(fs.T(), id, b);
      AppendedOne(fs.T(), id, b);
      fs.disk := fs.disk[b := Filled(255)];
      fs.disk := fs.disk[a := SetWord(fs.disk[a], 0, b)];
      chain := chain + [b];
      fs.owner := fs.owner[b := Link(id, |chain| - 1)];
      fs.Repacked(this);
      assert fs.T() == AttachLink(old(fs.T()), id, b);
    }

    // -------------------------------------------------------- walking the chain

    /** First loop of get_block_index: follow the chain while the offset lies beyond the
        current address block and there is a next one. */
    method FollowChain(ghost k: nat, start: u32, offset: nat) returns (a: u32, off: nat, ghost j: nat)
      requires Ready() && k < |chain| && start == chain[k]
      ensures k <= j < |chain| && a == chain[j] && j * ADDR_SPAN + off == k * ADDR_SPAN + offset
      ensures off < ADDR_SPAN || j == |chain| - 1
    {
      hide TreeOk, Target, Space.Valid, NextOf;
      a, off, j := start, offset, k;
      while off >= ADDR_SPAN
        invariant k <= j < |chain| && a == chain[j] && j * ADDR_SPAN + off == k * ADDR_SPAN + offset
      {
        ChainStep(fs.T(), id, j);
        if NextOf(fs.disk[a]) == NIL { break; }
        off := off - ADDR_SPAN;
        a := NextOf(fs.disk[a]);
        j := j + 1;
      }
    }

    /** One round of the second loop of get_block_index. */
    method ExtendOnce(last: u32) returns (ok: bool, b: u32)
      requires Ready() && chain != [] && last == chain[|chain| - 1]
      modifies fs`disk, fs`owner, fs.space, this`chain
      ensures Ready()
      ensures (ok ==> SameFiles(old(fs.T()), fs.T()) && Appended(old(fs.T()), fs.T(), id) && chain == old(chain) + [b])
      ensures !ok ==> fs.T() == old(fs.T()) && chain == old(chain)
      ensures fs.space.room + |chain| == old(fs.space.room + |chain|) && (!ok ==> fs.space.room == 0)
    {
      hide TreeOk, SameFiles, Target, Space.Valid, Appended;
      ok, b := fs.AllocBlock();
      if ok { LinkAfter(last, b); }
    }

    /** Second loop of get_block_index: append fresh address blocks until the offset falls
        into the last one. */
    method ExtendChain(last: u32, offset: nat) returns (ok: bool, a: u32, off: nat)
      requires Ready() && chain != [] && last == chain[|chain| - 1]
      modifies fs`disk, fs`owner, fs.space, this`chain
      ensures Ready() && SameFiles(old(fs.T()), fs.T()) && Appended(old(fs.T()), fs.T(), id)
      ensures old(chain) <= chain && a == chain[|chain| - 1]
      ensures |chain| * ADDR_SPAN + off == |old(chain)| * ADDR_SPAN + offset
      ensures if ok then off < ADDR_SPAN else off >= ADDR_SPAN && fs.space.room == 0
      ensures fs.space.room + |chain| == old(fs.space.room + |chain|)
    {
      hide TreeOk, SameFiles, Target, Space.Valid, Appended;
      ok, a, off := true, last, offset;
      SameFilesRefl(fs.T());
      AppendedRefl(fs.T(), id);
      while off >= ADDR_SPAN
        invariant Ready() && SameFiles(old(fs.T()), fs.T()) && Appended(old(fs.T()), fs.T(), id)
        invariant chain != [] && old(chain) <= chain && a == chain[|chain| - 1]
        invariant |chain| * ADDR_SPAN + off == |old(chain)| * ADDR_SPAN + offset
        invariant fs.space.room + |chain| == old(fs.space.room + |chain|)
      {
        var b;
        ghost var t := fs.T();
        ok, b := ExtendOnce(a);
        if !ok { return; }
        SameFilesTrans(old(fs.T()), t, fs.T());
        AppendedTrans(old(fs.T()), t, fs.T(), id);
        a := b;
        off := off - ADDR_SPAN;
      }
      ok := true;
    }

    /** get_block_index: reaches the address block floor(offset / ADDR_SPAN) hops after
        the k-th one, appending only fresh empty address blocks. */
    method GetBlockIndex(ghost k: nat, start: u32, offset: nat)
      returns (ok: bool, a: u32, slot: nat, d: nat, ghost j: nat)
      requires Ready() && k < |chain| && start == chain[k]
      modifies fs`disk, fs`owner, fs.space, this`chain
      ensures Ready() && SameFiles(old(fs.T()), fs.T()) && old(chain) <= chain && Appended(old(fs.T()), fs.T(), id)
      ensures ok ==> j == k + offset / ADDR_SPAN < |chain| && a == chain[j]
      ensures ok ==> |chain| == if j < |old(chain)| then |old(chain)| else j + 1
      ensures ok ==> slot == offset % ADDR_SPAN / BLOCK_SIZE < NUM_ADDRS && d == offset % BLOCK_SIZE
      ensures fs.space.room + |chain| == old(fs.space.room + |chain|)
      ensures !ok ==> fs.space.room == 0 && |chain| <= k + offset / ADDR_SPAN
    {
      hide TreeOk, SameFiles, Target, Space.Valid, Appended;
      var off;
      a, off, j := FollowChain(k, start, offset);
      SameFilesRefl(fs.T());
      AppendedRefl(fs.T(), id);
      ok, slot, d := true, 0, 0;
      if off >= ADDR_SPAN {
        ok, a, off := ExtendChain(a, off);
        j := |chain| - 1;
        if !ok {
          ChainTooShort(k, offset, j, off);
          return;
        }
      }
      slot := off / BLOCK_SIZE;
      d := off % BLOCK_SIZE;
      SpanDivision(k, offset, j, off);
    }

    // -------------------------------------------------------- data_rw

    /** The seek hint is empty, or it names a place in the current chain. */
    ghost predicate HintOk()
      reads this
    {
      cacheRaw != NIL ==>
        cachePos < |chain| && cacheBlock == chain[cachePos] &&
        cacheRaw == cachePos * ADDR_SPAN + cacheOffset
    }

    /** First loop of data_rw: the part below DIRECT_SPAN. */
    method DirectPhase(write: bool, src: seq<byte>, offset: nat, size: nat) returns (ok: bool, data: seq<byte>)
      requires Ready() && (write ==> |src| == size)
      modifies this`addrs, this`dirty, fs`owner, fs`disk, fs.space
      ensures Ready() && Transferred(write, old(fs.T()), fs.T(), id, offset, data)
      ensures |data| <= size && (write ==> data == src[..|data|])
      ensures ok ==> |data| == size || offset + |data| >= DIRECT_SPAN
      ensures data == [] || offset + |data| <= DIRECT_SPAN
      ensures (!write || size == 0 ==> addrs == old(addrs)) && Marked()
      ensures size == 0 ==> fs.T() == old(fs.T())
      ensures data == [] || |data| == size || (offset + |data|) % BLOCK_SIZE == 0
      ensures Spent(old(fs.space.room), fs.space.room, write, offset, |data|)
      ensures !ok ==> write && fs.space.room == 0 && old(fs.space.room) < Blocks(offset, size)
    {
      hide FileSystem.Valid, FileSystem.T, Transferred, Blocks;
      ok, data := true, [];
      TransferNil(write, fs.T(), id, offset);
      NoBlocks(offset);
      while offset + |data| < DIRECT_SPAN && |data| < size
        invariant Ready() && Transferred(write, old(fs.T()), fs.T(), id, offset, data)
        invariant |data| <= size && (write ==> data == src[..|data|])
        invariant data == [] || offset + |data| <= DIRECT_SPAN
        invariant (!write || size == 0 ==> addrs == old(addrs)) && Marked()
        invariant size == 0 ==> fs.T() == old(fs.T())
        invariant data == [] || |data| == size || (offset + |data|) % BLOCK_SIZE == 0
        invariant Spent(old(fs.space.room), fs.space.room, write, offset, |data|)
      {
        var pos := offset + |data|;
        var i, d := pos / BLOCK_SIZE, pos % BLOCK_SIZE;
        var n := if size - |data| < BLOCK_SIZE - d then size - |data| else BLOCK_SIZE - d;
        var chunk := if write then src[|data|..|data| + n] else [];
        ghost var t := fs.T();
        var piece;
        ok, piece := DirectRw(write, i, d, chunk, n);
        BlocksNext(offset, |data|, n, size);
        if !ok { return; }
        TransferCompose(write, old(fs.T()), t, fs.T(), id, offset, data, piece);
        data := data + piece;
      }
    }

    /** One round of the second loop of data_rw: locate, then transfer inside one block. */
    method IndirectStep(write: bool, ghost k: nat, a: u32, off: nat, src: seq<byte>, n: nat, d0: nat)
      returns (ok: bool, data: seq<byte>, a': u32, ghost k': nat)
      requires Ready() && k < |chain| && a == chain[k] && 0 < n <= BLOCK_SIZE - d0 && d0 == off % BLOCK_SIZE
      requires write ==> |src| == n
      modifies fs`owner, fs`disk, fs.space, this`chain
      ensures Ready() && old(chain) <= chain
      ensures ok ==> |data| == n && (write ==> data == src)
      ensures ok ==> k' < |chain| && a' == chain[k'] && k' == k + off / ADDR_SPAN
      ensures Transferred(write, old(fs.T()), fs.T(), id, DIRECT_SPAN + k * ADDR_SPAN + off, if ok then data else [])
      ensures StepCost(old(fs.space.room), |old(chain)|, fs.space.room, |chain|, k + off / ADDR_SPAN, write, ok)
    {
      hide TreeOk, Transferred, SameFiles, Target, Space.Valid, Appended;
      var slot, d;
      ghost var t0 := fs.T();
      data := [];
      ok, a', slot, d, k' := GetBlockIndex(k, a, off);
      ghost var t1 := fs.T();
      ghost var pos := DIRECT_SPAN + k * ADDR_SPAN + off;
      TransferNothing(write, t0, t1, id, pos);
      if ok {
        assert pos == DIRECT_SPAN + ADDR_SPAN * k' + slot * BLOCK_SIZE + d;
        ok, data := SlotRw(write, k', a', slot, d, src, n);
        if ok {
          TransferCompose(write, t0, t1, fs.T(), id, pos, [], data);
          assert [] + data == data;
        }
      }
    }

    /** Creates the first address block if there is none (data_rw, on a write). */
    method EnsureHead() returns (ok: bool)
      requires Ready()
      modifies fs`disk, fs`owner, fs.space, this`nextAddrBlock, this`chain, this`dirty
      ensures Ready() && SameFiles(old(fs.T()), fs.T()) && old(chain) <= chain
      ensures ok ==> chain != [] && nextAddrBlock == chain[0]
      ensures |chain| <= (if old(chain) == [] then 1 else |old(chain)|)
      ensures fs.space.room + |chain| == old(fs.space.room + |chain|) && Marked()
      ensures !ok ==> fs.space.room == 0 && chain == []
    {
      hide TreeOk, SameFiles, Target, Space.Valid;
      SameFilesRefl(fs.T());
      ChainHead(fs.T(), id);
      ok := true;
      if nextAddrBlock == NIL {
        var b;
        ok, b := fs.AllocBlock();
        if ok { LinkHead(b); }
      }
    }

    /** Where the second loop of data_rw stands: `data` has been moved, and position (k, off) of the
        chain comes next. */
    ghost predicate Moving(write: bool, src: seq<byte>, t0: Tree, room0: nat, chain0: seq<u32>, offset: nat, size: nat,
                           data: seq<byte>, k: nat, cur: u32, off: nat)
      reads this, fs, fs.space, fs.inodes.Values
    {
      && Ready() && chain0 <= chain && Transferred(write, t0, fs.T(), id, offset, data)
      && (write ==> |data| <= |src| == size && data == src[..|data|]) && k < |chain| && cur == chain[k]
      && Progress(write, room0, |chain0|, fs.space.room, |chain|, offset, size, |data|, k, off)
    }

    /** One round of the second loop of data_rw. */
    method Round(write: bool, src: seq<byte>, ghost t0: Tree, ghost room0: nat, ghost chain0: seq<u32>,
                 ghost offset: nat, size: nat, data: seq<byte>, ghost k: nat, cur: u32, off: nat)
      returns (ok: bool, data': seq<byte>, cur': u32, off': nat, ghost k': nat)
      requires Moving(write, src, t0, room0, chain0, offset, size, data, k, cur, off) && |data| < size
      modifies fs`owner, fs`disk, fs.space, this`chain
      ensures Moving(write, src, t0, room0, chain0, offset, size, data', k', cur', off')
      ensures ok ==> |data'| > |data|
      ensures !ok ==> fs.space.room == 0 && room0 < Cost(|chain0|, write, offset, size)
    {
      hide FileSystem.Valid, FileSystem.T, Transferred, Cost, StepCost, Progress;
      var d := off % BLOCK_SIZE;
      var n := if size - |data| < BLOCK_SIZE - d then size - |data| else BLOCK_SIZE - d;
      var chunk := if write then src[|data|..|data| + n] else [];
      ghost var t, room, len := fs.T(), fs.space.room, |chain|;
      var piece, a;
      ghost var j: nat;
      WhereIs(write, room0, |chain0|, room, len, offset, size, |data|, k, off);
      ok, piece, a, j := IndirectStep(write, k, cur, off, chunk, n, d);
      TransferCompose(write, t0, t, fs.T(), id, offset, data, if ok then piece else []);
      ProgressNext(write, room0, |chain0|, room, len, fs.space.room, |chain|, offset, size, |data|, k, off, n, ok);
      data', cur', off', k' := data, cur, off, k;
      if ok {
        assert write ==> src[..|data|] + chunk == src[..|data| + n];
        cur', k' := a, j;
        off' := off % ADDR_SPAN;
        data' := data + piece;
        off' := off' + n;
      } else {
        assert data + [] == data;
      }
    }

    /** Second loop of data_rw, from a known place (k, off) in the chain. */
    method ChainLoop(write: bool, src: seq<byte>, offset: nat, size: nat, ghost k: nat, cur: u32, off: nat)
      returns (ok: bool, data: seq<byte>, cur': u32, off': nat, ghost k': nat)
      requires Ready() && k < |chain| && cur == chain[k] && DIRECT_SPAN + k * ADDR_SPAN + off == offset
      requires write ==> |src| == size
      modifies fs`owner, fs`disk, fs.space, this`chain
      ensures Ready() && old(chain) <= chain
      ensures Transferred(write, old(fs.T()), fs.T(), id, offset, data)
      ensures |data| <= size && (write ==> data == src[..|data|]) && (ok ==> |data| == size)
      ensures k' < |chain| && cur' == chain[k'] && DIRECT_SPAN + k' * ADDR_SPAN + off' == offset + |data|
      ensures Spent(old(fs.space.room + |chain|), fs.space.room + |chain|, write, offset, |data|)
      ensures |chain| <= |old(chain)| || |chain| <= Hops(offset, size)
      ensures !ok ==> fs.space.room == 0 && old(fs.space.room) < Cost(|old(chain)|, write, offset, size)
    {
      hide TreeOk, Transferred, Target, Space.Valid, Blocks, Hops, Cost, Spent;
      ok, data, cur', off', k' := true, [], cur, off, k;
      TransferNil(write, fs.T(), id, offset);
      SpentNothing(fs.space.room + |chain|, write, offset);
      while |data| < size
        invariant Moving(write, src, old(fs.T()), old(fs.space.room), old(chain), offset, size, data, k', cur', off')
        decreases size - |data|
      {
        ok, data, cur', off', k' := Round(write, src, old(fs.T()), old(fs.space.room), old(chain), offset, size, data,
                                          k', cur', off');
        if !ok { return; }
      }
      ok := true;
    }

    method SetHint(raw: u32, off: u32, a: u32, ghost k: nat)
      requires Ready() && k < |chain| && a == chain[k] && raw == k * ADDR_SPAN + off
      modifies this`cacheRaw, this`cacheOffset, this`cacheBlock, this`cachePos
      ensures Ready() && HintOk() && fs.T() == old(fs.T()) && cacheRaw == raw
    {
      hide TreeOk, Target, Space.Valid;
      cacheRaw, cacheOffset, cacheBlock, cachePos := raw, off, a, k;
      fs.Repacked(this);
      assert fs.T().nodes == old(fs.T()).nodes;
    }

    /** data_rw beyond the direct blocks: start at the hint if it names this offset, else
        at the head of the chain, and leave a new hint behind. */
    method ChainPhase(write: bool, src: seq<byte>, offset: nat, size: nat) returns (ok: bool, data: seq<byte>)
      requires Ready() && HintOk() && chain != [] && nextAddrBlock == chain[0]
      requires DIRECT_SPAN <= offset && offset + size < TWO32 && (write ==> |src| == size)
      modifies fs`owner, fs`disk, fs.space, this`chain, this`cacheRaw, this`cacheOffset, this`cacheBlock, this`cachePos
      ensures Ready() && HintOk() && old(chain) <= chain
      ensures Transferred(write, old(fs.T()), fs.T(), id, offset, data)
      ensures |data| <= size && (write ==> data == src[..|data|])
      ensures ok ==> |data| == size && cacheRaw == offset + size - DIRECT_SPAN
      ensures Spent(old(fs.space.room + |chain|), fs.space.room + |chain|, write, offset, |data|)
      ensures |chain| <= |old(chain)| || |chain| <= Hops(offset, size)
      ensures !ok ==> fs.space.room == 0 && old(fs.space.room) < Cost(|old(chain)|, write, offset, size)
    {
      hide TreeOk, Transferred, Target, Space.Valid, Blocks, Hops;
      var cur, off := nextAddrBlock, offset - DIRECT_SPAN;
      ghost var k: nat := 0;
      var complete := off + size;
      if cacheRaw == off {
        cur, off, k := cacheBlock, cacheOffset, cachePos;
      }
      ok, data, cur, off, k := ChainLoop(write, src, offset, size, k, cur, off);
      if ok {
        SetHint(complete, off, cur, k);
      }
    }

    /** data_rw beyond the direct blocks, once there is (or has to be) a chain. */
    method ChainTransfer(write: bool, src: seq<byte>, offset: nat, size: nat) returns (ok: bool, data: seq<byte>)
      requires Ready() && HintOk() && DIRECT_SPAN <= offset && offset + size < TWO32 && (write ==> |src| == size)
      modifies this`nextAddrBlock, this`dirty, fs`owner, fs`disk, fs.space, this`chain
      modifies this`cacheRaw, this`cacheOffset, this`cacheBlock, this`cachePos
      ensures Ready() && HintOk() && Marked()
      ensures Transferred(write, old(fs.T()), fs.T(), id, offset, data)
      ensures |data| <= size && (write ==> data == src[..|data|])
      ensures ok ==> |data| == size && cacheRaw == offset + size - DIRECT_SPAN
      ensures Spent(old(fs.space.room + |chain|), fs.space.room + |chain|, write, offset, |data|)
      ensures size > 0 ==> |old(chain)| <= |chain| && (|chain| <= |old(chain)| || |chain| <= Hops(offset, size))
      ensures !ok && size > 0 ==> fs.space.room == 0 && old(fs.space.room) < Cost(|old(chain)|, write, offset, size)
    {
      hide FileSystem.Valid, FileSystem.T, Transferred, SameFiles, Blocks, Hops;
      data := [];
      NoBlocks(offset);
      if size > 0 { SomeHops(offset, size); }
      ok := EnsureHead();
      ghost var t1 := fs.T();
      TransferNothing(write, old(fs.T()), t1, id, offset);
      if !ok { return; }
      ok, data := ChainPhase(write, src, offset, size);
      TransferCompose(write, old(fs.T()), t1, fs.T(), id, offset, [], data);
      assert [] + data == data;
    }

    /** The part of data_rw after its first loop. */
    method IndirectPhase(write: bool, src: seq<byte>, offset: nat, size: nat) returns (ok: bool, data: seq<byte>)
      requires Ready() && HintOk() && DIRECT_SPAN <= offset && offset + size < TWO32 && (write ==> |src| == size)
      modifies this`nextAddrBlock, this`dirty, fs`owner, fs`disk, fs.space, this`chain
      modifies this`cacheRaw, this`cacheOffset, this`cacheBlock, this`cachePos
      ensures Ready() && HintOk() && Marked()
      ensures Transferred(write, old(fs.T()), fs.T(), id, offset, data)
      ensures |data| <= size && (write ==> data == src[..|data|]) && (ok ==> |data| == size)
      ensures ok && write ==> cacheRaw == offset + size - DIRECT_SPAN
      ensures !write && old(chain) == [] ==> ok && chain == []
      ensures Spent(old(fs.space.room + |chain|), fs.space.room + |chain|, write, offset, |data|)
      ensures size > 0 ==> |old(chain)| <= |chain| && (|chain| <= |old(chain)| || |chain| <= Hops(offset, size))
      ensures !ok && size > 0 ==> fs.space.room == 0 && old(fs.space.room) < Cost(|old(chain)|, write, offset, size)
    {
      hide TreeOk, Transferred, Target, Space.Valid, SameFiles, Blocks, Hops;
      ChainHead(fs.T(), id);
      if nextAddrBlock == NIL && !write {
        ok, data := true, seq(size, i => 0);
        NoChainZeros(write, fs.T(), id, offset, data);
      } else {
        ok, data := ChainTransfer(write, src, offset, size);
      }
    }

    /** data_rw: exactly the requested bytes of this file move, and nothing else changes,
        however many holes, address blocks or recycled blocks lie in the range. */
    method DataRw(write: bool, src: seq<byte>, offset: nat, size: nat) returns (ok: bool, data: seq<byte>)
      requires Ready() && HintOk() && offset + size < TWO32 && (write ==> |src| == size)
      modifies this`addrs, this`nextAddrBlock, this`dirty, fs`owner, fs`disk, fs.space, this`chain
      modifies this`cacheRaw, this`cacheOffset, this`cacheBlock, this`cachePos
      ensures Ready() && HintOk() && Marked()
      ensures Transferred(write, old(fs.T()), fs.T(), id, offset, data)
      ensures |data| <= size && (write ==> data == src[..|data|]) && (ok ==> |data| == size)
      ensures ok && write && size > 0 && offset + size > DIRECT_SPAN ==> cacheRaw == offset + size - DIRECT_SPAN
      ensures !write || size == 0 ==> addrs == old(addrs) && (old(chain) == [] ==> chain == [])
      ensures Spent(old(fs.space.room + |chain|), fs.space.room + |chain|, write, offset, |data|)
      ensures !ok ==> fs.space.room == 0 && old(fs.space.room) < Cost(|old(chain)|, write, offset, size)
      ensures !write && old(chain) == [] ==> ok
      ensures Took(old(fs.space.room), |old(chain)|, fs.space.room, |chain|, if write then Blocks(offset, size) else 0,
                   Hops(offset, size), ok)
    {
      hide FileSystem.Valid, FileSystem.T, Transferred, SameFiles, Blocks, Hops, Cost, Spent, Took;
      ok, data := DirectPhase(write, src, offset, size);
      ghost var t, room := fs.T(), fs.space.room;
      OnePhase(old(fs.space.room), room, |chain|, write, offset, size, |data|);
      if !ok || |data| == size {
        TookAll(old(fs.space.room), |chain|, room, |chain|, write, offset, |data|, size, ok);
        return;
      }
      var rest;
      ok, rest := IndirectPhase(write, if write then src[|data|..] else [], offset + |data|, size - |data|);
      TransferCompose(write, old(fs.T()), t, fs.T(), id, offset, data, rest);
      TwoPhases(old(fs.space.room), |old(chain)|, room, fs.space.room, |chain|, write, offset, size, |data|, |rest|,
                ok);
      HopsSplit(offset, |data|, size);
      TookAll(old(fs.space.room), |old(chain)|, fs.space.room, |chain|, write, offset, |data| + |rest|, size, ok);
      data := data + rest;
    }

    // -------------------------------------------------------- read, write, truncate

    ghost predicate OwnsNothing()
      reads this
    {
      addrs == Holes() && chain == []
    }

    /** A file of size zero owns no block. */
    ghost predicate EmptyOwnsNothing()
      reads this
    {
      size == 0 ==> OwnsNothing()
    }

    /** nfs_inode::read. */
    method Read(offset: nat, n: nat) returns (ok: bool, data: seq<byte>)
      requires Ready() && HintOk() && offset + n < TWO32
      modifies this`addrs, this`nextAddrBlock, this`dirty, fs`owner, fs`disk, fs.space, this`chain
      modifies this`cacheRaw, this`cacheOffset, this`cacheBlock, this`cachePos
      ensures Ready() && HintOk() && SameBytes(old(fs.T()), fs.T()) && Marked()
      ensures ok ==> |data| == n && forall j :: 0 <= j < n ==> data[j] == ByteAt(old(fs.T()), id, offset + j)
      ensures old(EmptyOwnsNothing()) ==> EmptyOwnsNothing()
      ensures old(chain) == [] || offset + n <= DIRECT_SPAN + |old(chain)| * ADDR_SPAN ==> ok
      ensures !ok ==> fs.space.room == 0 && old(fs.space.room) < Cost(|old(chain)|, false, offset, n)
      ensures Took(old(fs.space.room), |old(chain)|, fs.space.room, |chain|, 0, Hops(offset, n), ok)
    {
      hide TreeOk, SameBytes, ByteAt, Target, Space.Valid, Took;
      if offset + n <= DIRECT_SPAN + |chain| * ADDR_SPAN { WithinChain(|chain|, offset, n); }
      ok, data := DataRw(false, [], offset, n);
    }

    /** nfs_inode::write: on success all of src is in the file, on failure a prefix of it. */
    method Write(src: seq<byte>, offset: nat) returns (ok: bool, n: nat)
      requires Ready() && HintOk() && offset + |src| < TWO32
      modifies this`addrs, this`nextAddrBlock, this`dirty, this`size, fs`owner, fs`disk, fs.space, this`chain
      modifies this`cacheRaw, this`cacheOffset, this`cacheBlock, this`cachePos
      modifies this`nlinks, this`perm, this`kind, this`valid
      ensures Ready() && HintOk() && nlinks == old(nlinks) && perm == old(perm) && kind == old(kind)
      ensures valid == old(valid) && Marked()
      ensures n <= |src| && BytesWritten(old(fs.T()), fs.T(), id, offset, src[..n])
      ensures ok ==> n == |src| && size == if offset + n > old(size) then offset + n else old(size)
      ensures !ok ==> size == old(size)
      ensures ok && 0 < n && DIRECT_SPAN < offset + n ==> cacheRaw == offset + n - DIRECT_SPAN
      ensures ok && old(EmptyOwnsNothing()) ==> EmptyOwnsNothing()
      ensures !ok ==> fs.space.room == 0 && old(fs.space.room) < Cost(|old(chain)|, true, offset, |src|)
      ensures Took(old(fs.space.room), |old(chain)|, fs.space.room, |chain|, Blocks(offset, |src|),
                   Hops(offset, |src|), ok)
    {
      hide TreeOk, BytesWritten, Target, Space.Valid, Cost, Took, Blocks, Hops;
      var data;
      ok, data := DataRw(true, src, offset, |src|);
      n := |data|;
      if ok && offset + n > size { SetMetadata(offset + n, nlinks, perm, kind, valid, true); }
    }

    /** First loop of truncate. */
    method FreeDirect(ghost t: Tree)
      requires fs.Draining(t, {}) && id in t.nodes && addrs == t.nodes[id].addrs
      modifies this`addrs, fs`owner, fs.space
      ensures fs.Draining(t, DirectRefs(id, NUM_DIRECT)) && addrs == Holes() && fs.space.room >= old(fs.space.room)
    {
      hide TreeOk, Target, Remaining, Space.Valid;
      assert DirectRefs(id, 0) == {};
      DirectPlace(t, id, 0);
      for i := 0 to NUM_DIRECT
        invariant fs.Draining(t, DirectRefs(id, i)) && |addrs| == NUM_DIRECT && fs.space.room >= old(fs.space.room)
        invariant forall j :: 0 <= j < NUM_DIRECT ==> addrs[j] == if j < i then NIL else t.nodes[id].addrs[j]
      {
        DirectPlace(t, id, i);
        fs.Release(addrs[i], Direct(id, i), t, DirectRefs(id, i));
        addrs := addrs[i := NIL];
        assert DirectRefs(id, i) + {Direct(id, i)} == DirectRefs(id, i + 1);
      }
    }

    /** Inner loop of truncate: the data blocks of one address block. */
    method FreeSlots(a: u32, ghost k: nat, ghost t: Tree, ghost gone: set<Ref>)
      requires fs.Draining(t, gone) && id in t.nodes && k < |t.nodes[id].chain| && a == t.nodes[id].chain[k]
      requires gone !! SlotRefs(id, k, NUM_ADDRS)
      modifies fs`owner, fs.space
      ensures fs.Draining(t, gone + SlotRefs(id, k, NUM_ADDRS)) && fs.space.room >= old(fs.space.room)
    {
      hide TreeOk, Target, Remaining, Space.Valid, SlotOf;
      assert gone + SlotRefs(id, k, 0) == gone;
      for i := 0 to NUM_ADDRS
        invariant fs.Draining(t, gone + SlotRefs(id, k, i)) && fs.space.room >= old(fs.space.room)
      {
        SlotPlace(t, id, k, i);
        assert Slot(id, k, i) in SlotRefs(id, k, NUM_ADDRS);
        fs.Release(SlotOf(fs.disk[a], i), Slot(id, k, i), t, gone + SlotRefs(id, k, i));
        assert gone + SlotRefs(id, k, i) + {Slot(id, k, i)} == gone + SlotRefs(id, k, i + 1);
      }
    }

    /** Second loop of truncate: it follows the chain to its end and stops. */
    method FreeChain(ghost t: Tree, ghost gone0: set<Ref>) returns (ghost gone: set<Ref>)
      requires fs.Draining(t, gone0) && GoneUpTo(gone0, id, 0)
      requires id in t.nodes && nextAddrBlock == t.nodes[id].head
      modifies fs`owner, fs.space
      ensures fs.Draining(t, gone) && GoneUpTo(gone, id, |t.nodes[id].chain|) && fs.space.room >= old(fs.space.room)
    {
      hide TreeOk, Target, Remaining, Space.Valid, NextOf, GoneUpTo, SlotRefs;
      ghost var chain := t.nodes[id].chain;
      ghost var k := 0;
      gone := gone0;
      var a := nextAddrBlock;
      ChainHead(t, id);
      while a != NIL
        invariant 0 <= k <= |chain| && a == (if k < |chain| then chain[k] else NIL)
        invariant fs.Draining(t, gone) && GoneUpTo(gone, id, k) && fs.space.room >= old(fs.space.room)
        decreases |chain| - k
      {
        ChainStep(t, id, k);
        GoneStep(gone, id, k);
        FreeSlots(a, k, t, gone);
        var next := NextOf(fs.disk[a]);
        LinkPlace(t, id, k);
        fs.Release(a, Link(id, k), t, gone + SlotRefs(id, k, NUM_ADDRS));
        gone := gone + SlotRefs(id, k, NUM_ADDRS) + {Link(id, k)};
        a := next;
        k := k + 1;
      }
      if k < |chain| { ChainStep(t, id, k); }
    }

    /** The two loops of truncate: every block of the inode goes back to the bitmap. */
    method Drain(ghost t: Tree)
      requires Ready() && t == fs.T()
      modifies this`addrs, fs`owner, fs.space
      ensures fs.space.Valid() && fs.owner.Keys == fs.space.live && fs.owner == DetachAll(t, id).owner
      ensures addrs == Holes() && fs.space.room >= old(fs.space.room)
      ensures fs.space.used == old(fs.space.used) - |BlocksOf(t.owner, id)|
    {
      hide TreeOk, Target, Remaining, Space.Valid, GoneUpTo, BlocksOf, DetachAll, DirectRefs, Holes;
      fs.space.SetBitsCount();
      NothingGone(t);
      FreeDirect(t);
      GoneStart(id);
      ghost var gone := FreeChain(t, DirectRefs(id, NUM_DIRECT));
      AllReleased(t, id, gone);
      DetachedCount(t, id);
      fs.space.SetBitsCount();
    }

    /** The part of truncate that gives the blocks back. */
    method ReleaseAll()
      requires Ready()
      modifies this`addrs, this`nextAddrBlock, this`dirty, this`size, this`chain, fs`owner, fs.space
      ensures Ready() && fs.T() == DetachAll(old(fs.T()), id) && size == 0 && OwnsNothing() && dirty
      ensures fs.space.used == old(fs.space.used) - |BlocksOf(old(fs.owner), id)| && fs.space.room >= old(fs.space.room)
    {
      hide TreeOk, Target, Space.Valid, BlocksOf, Holes, FileSystem.T, FileSystem.Wired;
      ghost var t := fs.T();
      fs.Parts();
      DetachAllOk(t, id);
      Drain(t);
      nextAddrBlock, size, dirty, chain := NIL, 0, true, [];
      fs.Repacked(this);
    }

    /** truncate: only to zero, and only if the size is not zero already.  It gives back
        every block of this inode exactly once and no other, and leaves all other files
        alone.  The hint survives as a good one exactly when it was empty. */
    method Truncate(n: int) returns (r: int)
      requires Ready()
      modifies this`addrs, this`nextAddrBlock, this`dirty, this`size, this`chain, fs`owner, fs.space
      ensures Ready() && r == if n == 0 then 0 else -1
      ensures n != 0 || old(size) == 0 ==> fs.T() == old(fs.T()) && size == old(size) && chain == old(chain)
      ensures n == 0 && old(size) > 0 ==> fs.T() == DetachAll(old(fs.T()), id)
      ensures n == 0 && old(size) > 0 ==> fs.space.used == old(fs.space.used) - |BlocksOf(old(fs.owner), id)|
      ensures n == 0 ==> size == 0
      ensures n == 0 && old(EmptyOwnsNothing()) ==> EmptyOwnsNothing()
      ensures n == 0 && old(size) > 0 ==> (HintOk() <==> cacheRaw == NIL)
      ensures fs.space.room >= old(fs.space.room) && Marked()
    {
      hide TreeOk, Target, Space.Valid, DetachAll, BlocksOf, Holes;
      if n != 0 { return -1; }
      r := 0;
      if size == 0 { return; }
      ReleaseAll();
    }

    method ClearNode()
      requires Ready() && OwnsNothing()
      modifies this`addrs, this`nextAddrBlock, this`chain
      ensures Ready() && SameFiles(old(fs.T()), fs.T()) && addrs == Holes() && nextAddrBlock == NIL && chain == []
    {
      hide TreeOk, Target, Space.Valid, SameFiles, Holes;
      NewNodeOk(fs.T(), id);
      addrs, nextAddrBlock, chain := Holes(), NIL, [];
      fs.Repacked(this);
    }

    method SetMetadata(size: u32, nlinks: u16, perm: byte, kind: byte, valid: bool, dirty: bool)
      requires Ready()
      modifies this`size, this`nlinks, this`perm, this`kind, this`valid, this`dirty
      ensures Ready() && fs.T() == old(fs.T())
      ensures this.size == size && this.nlinks == nlinks && this.perm == perm && this.kind == kind
      ensures this.valid == valid && this.dirty == dirty
    {
      hide TreeOk, Target, Space.Valid;
      this.size, this.nlinks, this.perm, this.kind := size, nlinks, perm, kind;
      this.valid, this.dirty := valid, dirty;
      fs.Repacked(this);
      assert fs.T().nodes == old(fs.T()).nodes;
    }

    method SetFlags(valid: bool, dirty: bool)
      requires Ready()
      modifies this`valid, this`dirty
      ensures Ready() && fs.T() == old(fs.T()) && this.valid == valid && this.dirty == dirty
    {
      hide TreeOk, Target, Space.Valid;
      this.valid, this.dirty := valid, dirty;
      fs.Repacked(this);
      assert fs.T().nodes == old(fs.T()).nodes;
    }

    /** init_data on an inode that owns nothing.  It does not touch the hint. */
    method InitData()
      requires Ready() && OwnsNothing()
      modifies this`addrs, this`nextAddrBlock, this`valid, this`dirty, this`size, this`chain
      modifies this`nlinks, this`perm, this`kind
      ensures Ready() && SameFiles(old(fs.T()), fs.T()) && EmptyOwnsNothing()
      ensures size == 0 && nlinks == 0 && perm == 0 && kind == 0 && valid && dirty
      ensures HintOk() <==> cacheRaw == NIL
    {
      hide TreeOk, Target, Space.Valid, SameFiles, Holes;
      SetMetadata(0, 0, 0, 0, true, true);
      ClearNode();
    }

    /** The hint is not transparent across truncate: whenever two blocks can be allocated, a write
        just past the direct blocks followed by truncate(0) leaves it pointing at a block that
        has been given back. */
    method StaleHint(x: byte)
      requires Ready() && HintOk() && fs.space.room >= 2
      modifies this`addrs, this`nextAddrBlock, this`dirty, this`size, fs`owner, fs`disk, fs.space, this`chain
      modifies this`cacheRaw, this`cacheOffset, this`cacheBlock, this`cachePos
      modifies this`nlinks, this`perm, this`kind, this`valid
      ensures Ready() && !HintOk() && cacheRaw == 1 && cacheBlock !in fs.owner
    {
      hide TreeOk, Target, Space.Valid, BytesWritten, Cost;
      FirstIndirect(|chain|);
      var ok, n := Write([x], DIRECT_SPAN);
      ghost var t := fs.T();
      ChainStep(t, id, cachePos);
      LinkPlace(t, id, cachePos);
      TargetLive(t, Link(id, cachePos));
      var r := Truncate(0);
    }
  }

  // ------------------------------------------------------------ what a transfer costs

  /** The number of blocks that meet [offset, offset+n). */
  function Blocks(offset: nat, n: nat): (c: nat)
  {
    if n == 0 then 0 else (offset + n + BLOCK_SIZE - 1) / BLOCK_SIZE - offset / BLOCK_SIZE
  }

  /** The number of address blocks a file needs for [offset, offset+n). */
  function Hops(offset: nat, n: nat): (c: nat)
  {
    if n == 0 || offset + n <= DIRECT_SPAN then 0 else (offset + n - 1 - DIRECT_SPAN) / ADDR_SPAN + 1
  }

  /** The most blocks that a transfer can take from the bitmap, for a chain of len address blocks. */
  function Cost(len: nat, write: bool, offset: nat, n: nat): (c: nat)
  {
    (if len < Hops(offset, n) then Hops(offset, n) - len else 0) + (if write then Blocks(offset, n) else 0)
  }

  /** Starting with `room0` clear blocks and a chain of len0, at most k data blocks have been taken, and address
      blocks only until the chain had h of them; a failure means that there were too few at the start. */
  ghost predicate Took(room0: nat, len0: nat, room: nat, len: nat, k: nat, h: nat, ok: bool)
  {
    && len0 <= len && (len <= len0 || len <= h) && room0 + len0 <= room + len + k
    && (!ok ==> room0 < Need(len0, h, k))
  }

  /** What suffices for k data blocks and a chain of h address blocks, len of which exist. */
  function Need(len: nat, h: nat, k: nat): (n: nat) { (if len < h then h - len else 0) + k }

  lemma TookAll(room0: nat, len0: nat, room: nat, len: nat, write: bool, offset: nat, done: nat, size: nat, ok: bool)
    requires Spent(room0 + len0, room + len, write, offset, done) && done <= size
    requires len0 <= len && (len <= len0 || len <= Hops(offset, size))
    requires !ok ==> room0 < Cost(len0, write, offset, size)
    ensures Took(room0, len0, room, len, if write then Blocks(offset, size) else 0, Hops(offset, size), ok)
  {
    hide Hops, Blocks;
    BlocksMonotone(offset, done, size);
  }

  lemma BlocksMonotone(offset: nat, done: nat, size: nat)
    requires done <= size
    ensures Blocks(offset, done) <= Blocks(offset, size)
  {
  }

  /** Nothing has been taken, or blocks have been given back. */
  lemma TookNothing(room0: nat, room: nat, len: nat, h: nat)
    requires room0 <= room
    ensures Took(room0, len, room, len, 0, h, true)
  {
  }

  lemma TookTrans(room0: nat, len0: nat, room1: nat, len1: nat, room2: nat, len2: nat, k: nat, k': nat, h: nat,
                  ok: bool)
    requires Took(room0, len0, room1, len1, k, h, true) && Took(room1, len1, room2, len2, k', h, ok)
    ensures Took(room0, len0, room2, len2, k + k', h, ok)
  {
  }

  lemma TookMore(room0: nat, len0: nat, room: nat, len: nat, k: nat, h: nat, k': nat, h': nat, ok: bool)
    requires Took(room0, len0, room, len, k, h, ok) && k <= k' && h <= h'
    ensures Took(room0, len0, room, len, k', h', ok)
  {
  }

  /** Blocks taken by one file, seen from another. */
  lemma TookElsewhere(room0: nat, len0: nat, room: nat, len: nat, k: nat, h: nat, ok: bool, len': nat, h': nat)
    requires Took(room0, len0, room, len, k, h, ok)
    ensures Took(room0, len', room, len', Need(len0, h, k), h', ok)
  {
  }

  lemma TookRoom(room0: nat, len0: nat, room: nat, len: nat, k: nat, h: nat, ok: bool, more: nat)
    requires Took(room0, len0, room, len, k, h, ok)
    ensures room0 <= room + Need(len0, h, k + more) && (!ok ==> room0 < Need(len0, h, k + more))
  {
  }

  lemma NeedSum(len: nat, h: nat, k: nat)
    ensures Need(len, h, k + 1) == Need(len, h, 1) + k
  {
  }

  /** The address blocks for all bytes before `end`. */
  lemma HopsWithin(offset: nat, n: nat, end: nat)
    requires offset + n <= end
    ensures Hops(offset, n) <= Hops(0, end)
  {
  }

  /** A small aligned record lies in one block. */
  lemma OneBlock(i: nat, n: nat)
    requires n == 32 || n == 64
    ensures Blocks(n * i, n) == 1
  {
    if n == 32 {
      assert 32 * i == BLOCK_SIZE * (i / 32) + 32 * (i % 32);
      InOneBlock(i / 32, 32 * (i % 32), 32);
    } else {
      assert 64 * i == BLOCK_SIZE * (i / 16) + 64 * (i % 16);
      InOneBlock(i / 16, 64 * (i % 16), 64);
    }
  }

  lemma InOneBlock(q: nat, d: nat, n: nat)
    requires 0 < n && d + n <= BLOCK_SIZE
    ensures Blocks(BLOCK_SIZE * q + d, n) == 1
  {
  }

  /** At most one block has been taken for each block of the range, and none by a read. */
  ghost predicate Spent(before: nat, after: nat, write: bool, offset: nat, n: nat)
  {
    after <= before <= after + (if write then Blocks(offset, n) else 0)
  }

  /** One round that reaches address block j: at most one data block, and the missing address
      blocks; it fails only when the bitmap gives no more. */
  ghost predicate StepCost(room: nat, len: nat, room': nat, len': nat, j: nat, write: bool, ok: bool)
  {
    var most := if len <= j then j + 1 else len;
    && room' + len' <= room + len <= room' + len' + (if write then 1 else 0)
    && len <= len' <= most && (ok ==> len' == most)
    && (!ok ==> room' == 0 && room + len == len' && len' < most + (if write then 1 else 0))
  }

  /** The numbers of the second loop of data_rw: `done` bytes have been moved and (k, off) comes next. */
  ghost predicate Progress(write: bool, room0: nat, len0: nat, room: nat, len: nat, offset: nat, size: nat, done: nat,
                           k: nat, off: nat)
  {
    && done <= size && DIRECT_SPAN + k * ADDR_SPAN + off == offset + done
    && (done == 0 || done == size || (offset + done) % BLOCK_SIZE == 0)
    && Spent(room0 + len0, room + len, write, offset, done)
    && (len <= len0 || len <= Hops(offset, size))
  }

  lemma WhereIs(write: bool, room0: nat, len0: nat, room: nat, len: nat, offset: nat, size: nat, done: nat, k: nat,
                off: nat)
    requires Progress(write, room0, len0, room, len, offset, size, done, k, off)
    ensures done <= size && DIRECT_SPAN + k * ADDR_SPAN + off == offset + done
  {
  }

  lemma ProgressNext(write: bool, room0: nat, len0: nat, room: nat, len: nat, room': nat, len': nat, offset: nat,
                     size: nat, done: nat, k: nat, off: nat, n: nat, ok: bool)
    requires Progress(write, room0, len0, room, len, offset, size, done, k, off) && done < size
    requires var d := off % BLOCK_SIZE; n == if size - done < BLOCK_SIZE - d then size - done else BLOCK_SIZE - d
    requires StepCost(room, len, room', len', k + off / ADDR_SPAN, write, ok)
    ensures ok ==> Progress(write, room0, len0, room', len', offset, size, done + n, k + off / ADDR_SPAN,
            off % ADDR_SPAN + n)
    ensures !ok ==> Progress(write, room0, len0, room', len', offset, size, done, k, off)
    ensures !ok ==> room' == 0 && room0 < Cost(len0, write, offset, size)
  {
    hide Blocks, Hops, Cost, Spent, StepCost;
    HopsReach(offset, done, size, k, off);
    SpanStep(k, off);
    if ok {
      SpentNext(room0, len0, room, len, room', len', k + off / ADDR_SPAN, write, offset, done, n, size);
    } else {
      LoopFails(room0, len0, room, len, room', len', k + off / ADDR_SPAN, write, offset, done, size);
    }
  }

  lemma OnePhase(room0: nat, room1: nat, len: nat, write: bool, offset: nat, size: nat, d: nat)
    requires Spent(room0, room1, write, offset, d)
    ensures Spent(room0 + len, room1 + len, write, offset, d)
    ensures write && room0 < Blocks(offset, size) ==> room0 < Cost(len, write, offset, size)
  {
    hide Blocks, Hops;
  }

  /** The direct and the indirect part of a transfer together. */
  lemma TwoPhases(room0: nat, len0: nat, room1: nat, room2: nat, len2: nat, write: bool, offset: nat, size: nat, d: nat,
                  r: nat, ok: bool)
    requires d < size && (d == 0 || (offset + d) % BLOCK_SIZE == 0) && r <= size - d
    requires Spent(room0, room1, write, offset, d) && Spent(room1 + len0, room2 + len2, write, offset + d, r)
    requires !ok ==> room1 < Cost(len0, write, offset + d, size - d)
    ensures Spent(room0 + len0, room2 + len2, write, offset, d + r)
    ensures !ok ==> room0 < Cost(len0, write, offset, size)
  {
    hide Blocks, Hops;
    BlocksSplit(offset, d, size);
    HopsSplit(offset, d, size);
    NoBlocks(offset + d);
    if r > 0 { BlocksSplit(offset, d, d + r); }
  }

  lemma FirstIndirect(len: nat)
    ensures Cost(len, true, DIRECT_SPAN, 1) <= 2
  {
  }

  lemma SpentNothing(room: nat, write: bool, offset: nat)
    ensures Spent(room, room, write, offset, 0)
  {
  }

  lemma SpentNext(room0: nat, len0: nat, room: nat, len: nat, room': nat, len': nat, j: nat, write: bool, offset: nat,
                  done: nat, n: nat, size: nat)
    requires Spent(room0 + len0, room + len, write, offset, done) && StepCost(room, len, room', len', j, write, true)
    requires (len <= len0 || len <= Hops(offset, size)) && j + 1 <= Hops(offset, size)
    requires 0 < n && done + n <= size && n <= BLOCK_SIZE - (offset + done) % BLOCK_SIZE
    requires done == 0 || (offset + done) % BLOCK_SIZE == 0
    ensures Spent(room0 + len0, room' + len', write, offset, done + n)
    ensures len' <= len0 || len' <= Hops(offset, size)
    ensures n == BLOCK_SIZE - (offset + done) % BLOCK_SIZE ==> (offset + done + n) % BLOCK_SIZE == 0
  {
    hide Blocks, Hops;
    BlocksNext(offset, done, n, size);
  }

  lemma LoopFails(room0: nat, len0: nat, room: nat, len: nat, room': nat, len': nat, j: nat, write: bool, offset: nat,
                  done: nat, size: nat)
    requires Spent(room0 + len0, room + len, write, offset, done) && StepCost(room, len, room', len', j, write, false)
    requires done < size && (done == 0 || (offset + done) % BLOCK_SIZE == 0)
    requires len <= len0 || len <= Hops(offset, size)
    requires j + 1 <= Hops(offset, size)
    ensures room' == 0 && room0 < Cost(len0, write, offset, size)
    ensures Spent(room0 + len0, room' + len', write, offset, done)
    ensures len' <= len0 || len' <= Hops(offset, size)
  {
    hide Blocks, Hops;
    BlocksNext(offset, done, 1, size);
  }

  lemma NoBlocks(offset: nat)
    ensures Blocks(offset, 0) == 0
  {
  }

  lemma BlocksNext(offset: nat, done: nat, n: nat, size: nat)
    requires 0 < n && done + n <= size && n <= BLOCK_SIZE - (offset + done) % BLOCK_SIZE
    requires done == 0 || (offset + done) % BLOCK_SIZE == 0
    ensures Blocks(offset, done + n) == Blocks(offset, done) + 1 <= Blocks(offset, size)
  {
    var p := offset + done;
    assert (p + n + BLOCK_SIZE - 1) / BLOCK_SIZE == p / BLOCK_SIZE + 1;
    assert done > 0 ==> (p + BLOCK_SIZE - 1) / BLOCK_SIZE == p / BLOCK_SIZE;
  }

  lemma BlocksSplit(offset: nat, done: nat, size: nat)
    requires done < size && (done == 0 || (offset + done) % BLOCK_SIZE == 0)
    ensures Blocks(offset, size) == Blocks(offset, done) + Blocks(offset + done, size - done)
  {
    var p := offset + done;
    assert done > 0 ==> (p + BLOCK_SIZE - 1) / BLOCK_SIZE == p / BLOCK_SIZE;
  }

  lemma HopsSplit(offset: nat, done: nat, size: nat)
    requires done < size
    ensures Hops(offset + done, size - done) == Hops(offset, size)
  {
  }

  lemma SomeHops(offset: nat, size: nat)
    requires DIRECT_SPAN <= offset && 0 < size
    ensures Hops(offset, size) > 0
  {
  }

  lemma HopsReach(offset: nat, done: nat, size: nat, k: nat, off: nat)
    requires done < size && DIRECT_SPAN + k * ADDR_SPAN + off == offset + done
    ensures k + off / ADDR_SPAN + 1 <= Hops(offset, size) && off % BLOCK_SIZE == (offset + done) % BLOCK_SIZE
  {
    assert (offset + done - DIRECT_SPAN) / ADDR_SPAN == k + off / ADDR_SPAN;
    WholeBlocks(13 + 255 * k, off);
  }

  lemma SpanStep(k: nat, off: nat)
    ensures k * ADDR_SPAN + off == (k + off / ADDR_SPAN) * ADDR_SPAN + off % ADDR_SPAN
  {
  }

  lemma WholeBlocks(m: nat, off: nat)
    ensures (BLOCK_SIZE * m + off) % BLOCK_SIZE == off % BLOCK_SIZE
  {
    var q, r := off / BLOCK_SIZE, off % BLOCK_SIZE;
    assert BLOCK_SIZE * m + off == BLOCK_SIZE * (m + q) + r;
  }

  lemma WithinChain(len: nat, offset: nat, n: nat)
    requires offset + n <= DIRECT_SPAN + len * ADDR_SPAN
    ensures Cost(len, false, offset, n) == 0
  {
  }

  lemma ChainTooShort(k: nat, offset: nat, j: nat, off: nat)
    requires j * ADDR_SPAN + off == k * ADDR_SPAN + offset && off >= ADDR_SPAN
    ensures j + 1 <= k + offset / ADDR_SPAN
  {
    assert offset >= (j + 1 - k) * ADDR_SPAN;
  }

  lemma SpanDivision(k: nat, offset: nat, j: nat, off: nat)
    requires k <= j && j * ADDR_SPAN + off == k * ADDR_SPAN + offset && off < ADDR_SPAN
    ensures j == k + offset / ADDR_SPAN && off == offset % ADDR_SPAN
    ensures off % BLOCK_SIZE == offset % BLOCK_SIZE && off / BLOCK_SIZE < NUM_ADDRS
  {
    assert offset == (j - k) * ADDR_SPAN + off;
  }
}
