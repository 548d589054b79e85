/** The block map of every inode as one value: 13 direct slots and a linked chain of
    255-entry address blocks per inode, over a shared disk (os/fs/nfs/inode.cc).

    The separation invariant is stated with one ghost map: `owner` sends each live block
    to the single place that refers to it, and is the inverse of `Target`. */
module NfsTree {
  import opened Basics
  import opened NfsCommon

  /** A place that can hold a block number. */
  datatype Ref =
    | Direct(ino: nat, i: nat)          // addrs[i]
    | Link(ino: nat, k: nat)            // the k-th address block of the chain
    | Slot(ino: nat, k: nat, i: nat)    // entry i of the k-th address block

  /** The in-memory part of an inode's block map; `chain` lists its address blocks. */
  datatype Node = Node(addrs: seq<u32>, head: u32, chain: seq<u32>)

  datatype Tree = Tree(disk: map<u32, Block>, owner: map<u32, Ref>, nodes: map<nat, Node>)

  function Holes(): (s: seq<u32>)
    ensures |s| == NUM_DIRECT && forall i :: 0 <= i < NUM_DIRECT ==> s[i] == NIL
  {
    seq(NUM_DIRECT, i => NIL)
  }

  /** The block number stored at a place, NIL for a hole or for no such place. */
  ghost function Target(t: Tree, r: Ref): (b: u32)
  {
    if r.ino !in t.nodes then NIL
    else
      var v := t.nodes[r.ino];
      match r
      case Direct(_, i) => if i < |v.addrs| then v.addrs[i] else NIL
      case Link(_, k) => if k < |v.chain| then v.chain[k] else NIL
      case Slot(_, k, i) =>
        if k < |v.chain| && i < NUM_ADDRS && v.chain[k] in t.disk then SlotOf(t.disk[v.chain[k]], i) else NIL
  }

  /** Address block k of the chain points to the next one, the last one to nothing. */
  ghost predicate LinkOk(disk: map<u32, Block>, chain: seq<u32>, k: nat)
    requires k < |chain|
  {
    chain[k] in disk && NextOf(disk[chain[k]]) == if k + 1 < |chain| then chain[k + 1] else NIL
  }

  ghost predicate ChainOk(disk: map<u32, Block>, chain: seq<u32>)
  {
    forall k {:trigger chain[k]} {:trigger LinkOk(disk, chain, k)} :: 0 <= k < |chain| ==> LinkOk(disk, chain, k)
  }

  /** The chain field really is the linked list that starts at `head`. */
  ghost predicate Linked(disk: map<u32, Block>, v: Node)
  {
    && |v.addrs| == NUM_DIRECT
    && v.head == (if v.chain == [] then NIL else v.chain[0])
    && ChainOk(disk, v.chain)
  }

  ghost predicate AllLinked(t: Tree)
  {
    forall id :: id in t.nodes ==> Linked(t.disk, t.nodes[id])
  }

  /** Every block referred to is live and owned by that very reference. */
  ghost predicate Owned(t: Tree)
  {
    forall r :: Target(t, r) != NIL ==> Target(t, r) in t.owner && t.owner[Target(t, r)] == r
  }

  /** Every live block is referred to by its owner. */
  ghost predicate NoLeak(t: Tree)
  {
    forall b :: b in t.owner ==> Target(t, t.owner[b]) == b
  }

  ghost predicate TreeOk(t: Tree)
  {
    && NIL !in t.disk
    && t.owner.Keys <= t.disk.Keys
    && AllLinked(t) && Owned(t) && NoLeak(t)
  }

  /** Separation: two places never hold the same block. */
  lemma Separation(t: Tree, r: Ref, s: Ref)
    requires TreeOk(t) && Target(t, r) != NIL && Target(t, r) == Target(t, s)
    ensures r == s
  {
  }

  lemma TargetLive(t: Tree, r: Ref)
    requires TreeOk(t) && Target(t, r) != NIL
    ensures Target(t, r) in t.owner && Target(t, r) in t.disk && t.owner[Target(t, r)] == r
  {
  }

  // ------------------------------------------------------------ file contents

  /** The place that holds block n of a file. */
  function PlaceOf(id: nat, n: nat): (r: Ref)
  {
    if n < NUM_DIRECT then Direct(id, n)
    else Slot(id, (n - NUM_DIRECT) / NUM_ADDRS, (n - NUM_DIRECT) % NUM_ADDRS)
  }

  lemma PlaceInjective(id: nat, n: nat, id': nat, n': nat)
    requires PlaceOf(id, n) == PlaceOf(id', n')
    ensures id == id' && n == n'
  {
  }

  /** Block n of a file; a hole reads as zeros. */
  ghost function FileBlock(t: Tree, id: nat, n: nat): (blk: Block)
  {
    var b := Target(t, PlaceOf(id, n));
    if b in t.disk then t.disk[b] else Filled(0)
  }

  /** The flat byte map of a file. */
  ghost function ByteAt(t: Tree, id: nat, off: nat): (x: byte)
  {
    FileBlock(t, id, off / BLOCK_SIZE)[off % BLOCK_SIZE]
  }

  /** The k-th address block, by next pointers from `a` on. */
  ghost function Follow(disk: map<u32, Block>, a: u32, k: nat): (b: u32)
    decreases k
  {
    if a !in disk then NIL else if k == 0 then a else Follow(disk, Le32(disk[a], 0), k - 1)
  }

  /** Where byte `off` of a file lies, from the raw bytes of the disk: 13 direct blocks of 1024 bytes, then
      255 for each address block, whose entry i stands at byte 4 + 4 * i. */
  ghost function RawBlock(disk: map<u32, Block>, addrs: seq<u32>, head: u32, off: nat): (b: u32)
    requires |addrs| == 13
  {
    if off < 13 * 1024 then addrs[off / 1024]
    else
      var o := off - 13 * 1024;
      var a := Follow(disk, head, o / (255 * 1024));
      if a in disk then Le32(disk[a], 4 + 4 * (o % (255 * 1024) / 1024)) else NIL
  }

  lemma {:induction false} FollowChain(disk: map<u32, Block>, chain: seq<u32>, j: nat, k: nat)
    requires ChainOk(disk, chain) && j < |chain| && NIL !in disk
    ensures Follow(disk, chain[j], k) == if j + k < |chain| then chain[j + k] else NIL
    decreases k
  {
    hide NextOf;
    assert LinkOk(disk, chain, j);
    AddrBlockLayout(disk[chain[j]]);
    if k > 0 && j + 1 < |chain| { FollowChain(disk, chain, j + 1, k - 1); }
  }

  /** The byte map of a file is what the raw bytes on disk say, starting from the fields of its record. */
  lemma OnDisk(t: Tree, id: nat, off: nat)
    requires TreeOk(t) && id in t.nodes && |t.nodes[id].addrs| == 13
    ensures var b := RawBlock(t.disk, t.nodes[id].addrs, t.nodes[id].head, off);
            ByteAt(t, id, off) == if b in t.disk then t.disk[b][off % 1024] else 0
  {
    hide SlotOf, NextOf, Owned, NoLeak, Le32, Follow;
    var v := t.nodes[id];
    assert Linked(t.disk, v);
    if off >= 13 * 1024 {
      var k := (off - 13 * 1024) / (255 * 1024);
      SlotNumbers(off);
      if v.chain == [] { NoFollow(t.disk, k); } else { FollowChain(t.disk, v.chain, 0, k); }
      if k < |v.chain| {
        assert LinkOk(t.disk, v.chain, k);
        AddrBlockLayout(t.disk[v.chain[k]]);
      }
    }
  }

  lemma NoFollow(disk: map<u32, Block>, k: nat)
    requires NIL !in disk
    ensures Follow(disk, NIL, k) == NIL
  {
  }

  lemma SlotNumbers(off: nat)
    requires off >= 13 * 1024
    ensures var n, o := off / BLOCK_SIZE, off - 13 * 1024;
            && n >= NUM_DIRECT && (n - NUM_DIRECT) / NUM_ADDRS == o / (255 * 1024)
            && (n - NUM_DIRECT) % NUM_ADDRS == o % (255 * 1024) / 1024
  {
    var n, o := off / BLOCK_SIZE, off - 13 * 1024;
    assert n - 13 == o / 1024;
    var q, r := o / 1024 / 255, o / 1024 % 255;
    assert o == q * (255 * 1024) + (r * 1024 + o % 1024);
  }

  ghost predicate SameFiles(t: Tree, t': Tree)
  {
    forall id, n :: FileBlock(t', id, n) == FileBlock(t, id, n)
  }

  /** Only block n of file id has changed, to blk. */
  ghost predicate OneBlockChanged(t: Tree, t': Tree, id: nat, n: nat, blk: Block)
  {
    forall id', n' ::
      FileBlock(t', id', n') == if id' == id && n' == n then blk else FileBlock(t, id', n')
  }

  lemma DirectPlace(t: Tree, id: nat, i: nat)
    requires TreeOk(t) && id in t.nodes && i < NUM_DIRECT
    ensures |t.nodes[id].addrs| == NUM_DIRECT && Target(t, PlaceOf(id, i)) == t.nodes[id].addrs[i]
  {
  }

  lemma Overwritten(t0: Tree, t1: Tree, t2: Tree, id: nat, n: nat, a: Block, b: Block)
    requires OneBlockChanged(t0, t1, id, n, a) && OneBlockChanged(t1, t2, id, n, b)
    ensures OneBlockChanged(t0, t2, id, n, b)
  {
  }

  lemma FileBlockOf(t: Tree, id: nat, n: nat)
    requires TreeOk(t)
    ensures var b := Target(t, PlaceOf(id, n));
            if b == NIL then FileBlock(t, id, n) == Filled(0) else b in t.disk && FileBlock(t, id, n) == t.disk[b]
  {
  }

  // ------------------------------------------------------------ transitions

  /** memcpy into a data block. */
  function PutData(t: Tree, b: u32, blk: Block): (t': Tree)
  {
    t.(disk := t.disk[b := blk])
  }

  /** addrs[i] = b. */
  function AttachDirect(t: Tree, id: nat, i: nat, b: u32): (t': Tree)
    requires id in t.nodes && i < |t.nodes[id].addrs|
  {
    var v := t.nodes[id];
    t.(nodes := t.nodes[id := v.(addrs := v.addrs[i := b])], owner := t.owner[b := Direct(id, i)])
  }

  /** addr_block->addrs[i] = b in the k-th address block. */
  function AttachSlot(t: Tree, id: nat, k: nat, i: nat, b: u32): (t': Tree)
    requires id in t.nodes && k < |t.nodes[id].chain| && t.nodes[id].chain[k] in t.disk && i < NUM_ADDRS
  {
    var a := t.nodes[id].chain[k];
    t.(disk := t.disk[a := SetWord(t.disk[a], 1 + i, b)], owner := t.owner[b := Slot(id, k, i)])
  }

  /** A fresh 0xff-filled address block appended to the chain. */
  function AttachLink(t: Tree, id: nat, b: u32): (t': Tree)
    requires id in t.nodes
    requires t.nodes[id].chain != [] ==> t.nodes[id].chain[|t.nodes[id].chain| - 1] in t.disk
  {
    var v := t.nodes[id];
    var disk := t.disk[b := Filled(255)];
    var n := |v.chain|;
    t.(disk := if n == 0 then disk else disk[v.chain[n - 1] := SetWord(t.disk[v.chain[n - 1]], 0, b)],
       nodes := t.nodes[id := v.(head := if n == 0 then b else v.head, chain := v.chain + [b])],
       owner := t.owner[b := Link(id, n)])
  }

  /** If the places of t' are those of t with b added at r, the inverse is kept. */
  lemma AttachKeeps(t: Tree, t': Tree, r: Ref, b: u32)
    requires TreeOk(t) && b in t.disk && b !in t.owner && Target(t, r) == NIL
    requires t'.owner == t.owner[b := r] && t'.disk.Keys == t.disk.Keys
    requires forall s :: Target(t', s) == if s == r then b else Target(t, s)
    requires AllLinked(t')
    ensures TreeOk(t')
  {
    hide Word, SetWord, SlotOf, NextOf, Filled, AllLinked;
  }

  /** Address blocks are never data blocks. */
  lemma DataIsNoLink(t: Tree, b: u32, id: nat, k: nat)
    requires TreeOk(t) && (b in t.owner ==> !t.owner[b].Link?)
    requires id in t.nodes && k < |t.nodes[id].chain|
    ensures t.nodes[id].chain[k] != b
  {
    assert Target(t, Link(id, k)) == t.nodes[id].chain[k];
  }

  lemma PutDataTargets(t: Tree, b: u32, blk: Block)
    requires TreeOk(t) && b in t.disk && (b in t.owner ==> !t.owner[b].Link?)
    ensures forall r :: Target(PutData(t, b, blk), r) == Target(t, r)
    ensures AllLinked(PutData(t, b, blk))
  {
    var t' := PutData(t, b, blk);
    forall id, k | id in t.nodes && 0 <= k < |t.nodes[id].chain| ensures t.nodes[id].chain[k] != b {
      DataIsNoLink(t, b, id, k);
    }
  }

  /** Writing a data block changes one block of one file. */
  lemma PutDataOk(t: Tree, id: nat, n: nat, blk: Block)
    requires TreeOk(t) && Target(t, PlaceOf(id, n)) != NIL
    ensures var t' := PutData(t, Target(t, PlaceOf(id, n)), blk);
            TreeOk(t') && OneBlockChanged(t, t', id, n, blk)
  {
    hide Word, SetWord, SlotOf, NextOf, Filled, AllLinked;
    var b := Target(t, PlaceOf(id, n));
    PutDataTargets(t, b, blk);
    var t' := PutData(t, b, blk);
    forall id', n' ensures FileBlock(t', id', n') == if id' == id && n' == n then blk else FileBlock(t, id', n') {
      if Target(t, PlaceOf(id', n')) == b {
        Separation(t, PlaceOf(id, n), PlaceOf(id', n'));
        PlaceInjective(id, n, id', n');
      }
    }
  }

  /** Filling a direct hole with a live block exposes that block's bytes there. */
  lemma AttachDirectOk(t: Tree, id: nat, i: nat, b: u32)
    requires TreeOk(t) && id in t.nodes && i < NUM_DIRECT && t.nodes[id].addrs[i] == NIL
    requires b in t.disk && b !in t.owner
    ensures var t' := AttachDirect(t, id, i, b);
            TreeOk(t') && OneBlockChanged(t, t', id, i, t.disk[b])
  {
    hide Word, SetWord, SlotOf, NextOf, Filled;
    var t' := AttachDirect(t, id, i, b);
    forall id' | id' in t'.nodes ensures Linked(t'.disk, t'.nodes[id']) {
      assert Linked(t.disk, t.nodes[id']);
    }
    forall s ensures Target(t', s) == if s == Direct(id, i) then b else Target(t, s) {
    }
    AttachKeeps(t, t', Direct(id, i), b);
    forall id', n' | !(id' == id && n' == i) ensures FileBlock(t', id', n') == FileBlock(t, id', n') {
      if PlaceOf(id', n') == PlaceOf(id, i) { PlaceInjective(id, i, id', n'); }
    }
  }

  /** The address block written by AttachSlot and AttachLink is no file block. */
  lemma LinkIsNoFileBlock(t: Tree, id: nat, k: nat, id': nat, n': nat)
    requires TreeOk(t) && id in t.nodes && k < |t.nodes[id].chain|
    ensures Target(t, PlaceOf(id', n')) != t.nodes[id].chain[k]
  {
    assert Target(t, Link(id, k)) == t.nodes[id].chain[k];
  }

  lemma AttachSlotTargets(t: Tree, id: nat, k: nat, i: nat, b: u32)
    requires TreeOk(t) && id in t.nodes && k < |t.nodes[id].chain| && i < NUM_ADDRS
    ensures forall s :: Target(AttachSlot(t, id, k, i, b), s) == if s == Slot(id, k, i) then b else Target(t, s)
    ensures AllLinked(AttachSlot(t, id, k, i, b))
  {
    hide Word, SetWord, SlotOf, NextOf, Filled;
    var t' := AttachSlot(t, id, k, i, b);
    var a := t.nodes[id].chain[k];
    SetSlot(t.disk[a], i, b);
    forall id', k' | id' in t.nodes && 0 <= k' < |t.nodes[id'].chain| && t.nodes[id'].chain[k'] == a
      ensures id' == id && k' == k
    {
      Separation(t, Link(id, k), Link(id', k'));
    }
  }

  lemma AttachSlotOk(t: Tree, id: nat, k: nat, i: nat, b: u32)
    requires TreeOk(t) && id in t.nodes && k < |t.nodes[id].chain| && i < NUM_ADDRS
    requires Target(t, Slot(id, k, i)) == NIL && b in t.disk && b !in t.owner
    ensures var t' := AttachSlot(t, id, k, i, b);
            TreeOk(t') && OneBlockChanged(t, t', id, NUM_DIRECT + NUM_ADDRS * k + i, t.disk[b]) &&
            Target(t', Slot(id, k, i)) == b && t'.disk[b] == t.disk[b]
  {
    hide Word, SetWord, SlotOf, NextOf, Filled, PlaceOf, FileBlock;
    var t' := AttachSlot(t, id, k, i, b);
    var n := NUM_DIRECT + NUM_ADDRS * k + i;
    AttachSlotTargets(t, id, k, i, b);
    AttachKeeps(t, t', Slot(id, k, i), b);
    assert t.nodes[id].chain[k] != b by { assert Target(t, Link(id, k)) in t.owner; }
    forall id', n' ensures FileBlock(t', id', n') == if id' == id && n' == n then t.disk[b] else FileBlock(t, id', n') {
      AttachSlotBlock(t, t', id, k, i, b, id', n');
    }
  }

  lemma AttachSlotBlock(t: Tree, t': Tree, id: nat, k: nat, i: nat, b: u32, id': nat, n': nat)
    requires TreeOk(t) && id in t.nodes && k < |t.nodes[id].chain| && i < NUM_ADDRS && b in t.disk && b !in t.owner
    requires t' == AttachSlot(t, id, k, i, b)
    requires forall s :: Target(t', s) == if s == Slot(id, k, i) then b else Target(t, s)
    ensures FileBlock(t', id', n')
            == if id' == id && n' == NUM_DIRECT + NUM_ADDRS * k + i then t.disk[b] else FileBlock(t, id', n')
  {
    hide Word, SetWord, SlotOf, NextOf, Filled, TreeOk, Target;
    var n := NUM_DIRECT + NUM_ADDRS * k + i;
    PlaceOfSlot(id, k, i);
    LinkPlace(t, id, k);
    LinkOwned(t, id, k);
    if PlaceOf(id', n') == PlaceOf(id, n) {
      PlaceInjective(id, n, id', n');
    } else {
      LinkIsNoFileBlock(t, id, k, id', n');
    }
  }

  lemma LinkOwned(t: Tree, id: nat, k: nat)
    requires TreeOk(t) && id in t.nodes && k < |t.nodes[id].chain|
    ensures t.nodes[id].chain[k] in t.owner
  {
    assert Target(t, Link(id, k)) in t.owner;
  }

  lemma AttachLinkTargets(t: Tree, id: nat, b: u32)
    requires TreeOk(t) && id in t.nodes && b in t.disk && b !in t.owner
    ensures var n := |t.nodes[id].chain|;
            forall s :: Target(AttachLink(t, id, b), s) == if s == Link(id, n) then b else Target(t, s)
  {
    hide Target;
    var n := |t.nodes[id].chain|;
    forall s ensures Target(AttachLink(t, id, b), s) == if s == Link(id, n) then b else Target(t, s) {
      AttachLinkTarget(t, id, b, s);
    }
  }

  lemma AttachLinkTarget(t: Tree, id: nat, b: u32, s: Ref)
    requires TreeOk(t) && id in t.nodes && b in t.disk && b !in t.owner
    ensures Target(AttachLink(t, id, b), s) == if s == Link(id, |t.nodes[id].chain|) then b else Target(t, s)
  {
    hide Word, SetWord, SlotOf, NextOf, Filled, TreeOk;
    var n := |t.nodes[id].chain|;
    FreshAddrBlock();
    if n > 0 {
      ChainStep(t, id, n - 1);
      SetNext(t.disk[t.nodes[id].chain[n - 1]], b);
    }
    if s.Slot? && s.ino in t.nodes && s.k < |t.nodes[s.ino].chain| {
      ChainStep(t, s.ino, s.k);
    }
  }

  /** t' is t with address blocks appended to the chain of id: they were owned by nobody and have
      no entries, and every entry there was is unchanged. */
  ghost predicate Appended(t: Tree, t': Tree, id: nat)
  {
    && id in t.nodes && id in t'.nodes && t.nodes[id].chain <= t'.nodes[id].chain
    && (forall r: Ref :: !r.Link? ==> Target(t', r) == Target(t, r))
    && (forall b :: b in t.owner ==> b in t'.owner)
    && (forall j :: |t.nodes[id].chain| <= j < |t'.nodes[id].chain| ==> t'.nodes[id].chain[j] !in t.owner)
  }

  lemma AppendedRefl(t: Tree, id: nat)
    requires id in t.nodes
    ensures Appended(t, t, id)
  {
    hide Target;
  }

  lemma AppendedOne(t: Tree, id: nat, b: u32)
    requires TreeOk(t) && id in t.nodes && b in t.disk && b !in t.owner
    ensures t.nodes[id].chain != [] ==> t.nodes[id].chain[|t.nodes[id].chain| - 1] in t.disk
    ensures Appended(t, AttachLink(t, id, b), id)
  {
    hide Target;
    LastIsOnDisk(t, id);
    AttachLinkTargets(t, id, b);
  }

  lemma LastIsOnDisk(t: Tree, id: nat)
    requires TreeOk(t) && id in t.nodes
    ensures t.nodes[id].chain != [] ==> t.nodes[id].chain[|t.nodes[id].chain| - 1] in t.disk
  {
    if t.nodes[id].chain != [] { assert Target(t, Link(id, |t.nodes[id].chain| - 1)) in t.owner; }
  }

  lemma AppendedTrans(t: Tree, t1: Tree, t2: Tree, id: nat)
    requires Appended(t, t1, id) && Appended(t1, t2, id)
    ensures Appended(t, t2, id)
  {
    hide Target;
  }

  lemma AttachLinkLink(t: Tree, id: nat, b: u32, id': nat, k: nat)
    requires TreeOk(t) && id in t.nodes && b in t.disk && b !in t.owner
    requires id' in t.nodes && k < |AttachLink(t, id, b).nodes[id'].chain|
    ensures var t' := AttachLink(t, id, b); LinkOk(t'.disk, t'.nodes[id'].chain, k)
  {
    hide Word, SetWord, SlotOf, NextOf, Filled, TreeOk, Target;
    var c, c' := t.nodes[id].chain, t.nodes[id'].chain;
    var n := |c|;
    FreshAddrBlock();
    if n > 0 {
      ChainStep(t, id, n - 1);
      SetNext(t.disk[c[n - 1]], b);
    }
    if k < |c'| {
      ChainStep(t, id', k);
      if n > 0 { LinksDiffer(t, id', k, id, n - 1); }
    }
  }

  lemma LinksDiffer(t: Tree, id: nat, k: nat, id': nat, k': nat)
    requires TreeOk(t) && id in t.nodes && id' in t.nodes && k < |t.nodes[id].chain| && k' < |t.nodes[id'].chain|
    ensures t.nodes[id].chain[k] == t.nodes[id'].chain[k'] ==> id == id' && k == k'
  {
    hide Word, SetWord, SlotOf, NextOf, Filled;
    if t.nodes[id].chain[k] == t.nodes[id'].chain[k'] { Separation(t, Link(id, k), Link(id', k')); }
  }

  lemma AttachLinkLinked(t: Tree, id: nat, b: u32)
    requires TreeOk(t) && id in t.nodes && b in t.disk && b !in t.owner
    ensures AllLinked(AttachLink(t, id, b))
  {
    hide Word, SetWord, SlotOf, NextOf, Filled, Target;
    var t' := AttachLink(t, id, b);
    forall id', k | id' in t'.nodes && 0 <= k < |t'.nodes[id'].chain|
      ensures LinkOk(t'.disk, t'.nodes[id'].chain, k)
    {
      AttachLinkLink(t, id, b, id', k);
    }
  }

  /** Extending the chain changes no byte of any file, whatever b held before. */
  lemma AttachLinkOk(t: Tree, id: nat, b: u32)
    requires TreeOk(t) && id in t.nodes && b in t.disk && b !in t.owner
    ensures var t' := AttachLink(t, id, b); TreeOk(t') && SameFiles(t, t')
  {
    hide Word, SetWord, SlotOf, NextOf, Filled, FileBlock, PlaceOf;
    var t' := AttachLink(t, id, b);
    var n := |t.nodes[id].chain|;
    AttachLinkTargets(t, id, b);
    AttachLinkLinked(t, id, b);
    AttachKeeps(t, t', Link(id, n), b);
    forall id', n' ensures FileBlock(t', id', n') == FileBlock(t, id', n') {
      AttachLinkBlock(t, t', id, b, id', n');
    }
  }

  lemma AttachLinkBlock(t: Tree, t': Tree, id: nat, b: u32, id': nat, n': nat)
    requires TreeOk(t) && id in t.nodes && b in t.disk && b !in t.owner && t' == AttachLink(t, id, b)
    requires forall s :: Target(t', s) == if s == Link(id, |t.nodes[id].chain|) then b else Target(t, s)
    ensures FileBlock(t', id', n') == FileBlock(t, id', n')
  {
    hide Word, SetWord, SlotOf, NextOf, Filled, TreeOk, Target;
    var n, r := |t.nodes[id].chain|, PlaceOf(id', n');
    NilIsNoBlock(t);
    if n > 0 {
      ChainStep(t, id, n - 1);
      LinkIsNoFileBlock(t, id, n - 1, id', n');
    }
    if Target(t, r) != NIL { TargetLive(t, r); }
  }

  lemma NilIsNoBlock(t: Tree)
    requires TreeOk(t)
    ensures NIL !in t.disk
  {
  }

  /** A new inode of holes reads as zeros, like an inode that is not there. */
  lemma NewNodeOk(t: Tree, id: nat)
    requires TreeOk(t) && (id in t.nodes ==> t.nodes[id].addrs == Holes() && t.nodes[id].chain == [])
    ensures var t' := t.(nodes := t.nodes[id := Node(Holes(), NIL, [])]);
            TreeOk(t') && SameFiles(t, t')
  {
    var t' := t.(nodes := t.nodes[id := Node(Holes(), NIL, [])]);
    forall s ensures Target(t', s) == Target(t, s) {
    }
    assert AllLinked(t');
  }

  lemma NewDiskZeros(t: Tree)
    requires TreeOk(t) && t.owner == map[]
    ensures forall id, n :: FileBlock(t, id, n) == Filled(0)
  {
  }

  lemma StillZeros(t: Tree, t': Tree)
    requires SameFiles(t, t') && forall id, n :: FileBlock(t, id, n) == Filled(0)
    ensures forall id, n :: FileBlock(t', id, n) == Filled(0)
  {
  }

  // ------------------------------------------------------------ truncation

  /** All blocks of one inode given back at once. */
  ghost function DetachAll(t: Tree, id: nat): (t': Tree)
    requires id in t.nodes
  {
    t.(nodes := t.nodes[id := Node(Holes(), NIL, [])],
       owner := map b | b in t.owner && t.owner[b].ino != id :: t.owner[b])
  }

  lemma DetachedCount(t: Tree, id: nat)
    requires id in t.nodes
    ensures |DetachAll(t, id).owner.Keys| == |t.owner.Keys| - |BlocksOf(t.owner, id)|
  {
    assert DetachAll(t, id).owner.Keys == t.owner.Keys - BlocksOf(t.owner, id);
    assert BlocksOf(t.owner, id) <= t.owner.Keys;
  }

  /** Truncation empties one file and leaves every other alone. */
  lemma DetachAllOk(t: Tree, id: nat)
    requires TreeOk(t) && id in t.nodes
    ensures var t' := DetachAll(t, id);
            && TreeOk(t')
            && forall id', n :: FileBlock(t', id', n) == if id' == id then Filled(0) else FileBlock(t, id', n)
  {
    var t' := DetachAll(t, id);
    forall s ensures Target(t', s) == if s.ino == id then NIL else Target(t, s) {
    }
    assert AllLinked(t');
    forall id', n ensures FileBlock(t', id', n) == if id' == id then Filled(0) else FileBlock(t, id', n) {
      assert PlaceOf(id', n).ino == id';
    }
  }

  /** What is left of the owners once the places in `gone` have been given back. */
  ghost function Remaining(owner: map<u32, Ref>, gone: set<Ref>): (m: map<u32, Ref>)
  {
    map b | b in owner && owner[b] !in gone :: owner[b]
  }

  ghost function BlocksOf(owner: map<u32, Ref>, id: nat): (s: set<u32>)
  {
    set b | b in owner && owner[b].ino == id
  }

  lemma NothingGone(t: Tree)
    ensures Remaining(t.owner, {}) == t.owner
  {
  }

  /** Giving back the block of one more place. */
  lemma ReleaseOne(t: Tree, gone: set<Ref>, r: Ref)
    requires TreeOk(t) && r !in gone
    ensures var b := Target(t, r); var m := Remaining(t.owner, gone);
            if b == NIL then Remaining(t.owner, gone + {r}) == m
            else b in m && b in t.disk && Remaining(t.owner, gone + {r}) == m - {b}
  {
    hide Target;
    var b := Target(t, r);
    forall c | c in t.owner && t.owner[c] == r ensures c == b {
      assert Target(t, t.owner[c]) == c;
    }
    if b == NIL {
      assert Remaining(t.owner, gone + {r}) == Remaining(t.owner, gone);
    } else {
      assert Remaining(t.owner, gone + {r}) == Remaining(t.owner, gone) - {b};
    }
  }

  ghost function DirectRefs(id: nat, n: nat): (s: set<Ref>)
  {
    set i: nat | i < n :: Direct(id, i)
  }

  ghost function SlotRefs(id: nat, k: nat, n: nat): (s: set<Ref>)
  {
    set i: nat | i < n :: Slot(id, k, i)
  }

  /** The places given back after the direct slots and the first k address blocks. */
  ghost predicate GoneUpTo(gone: set<Ref>, id: nat, k: nat)
  {
    forall r: Ref :: r in gone <==>
      r.ino == id && match r
                     case Direct(_, i) => i < NUM_DIRECT
                     case Link(_, j) => j < k
                     case Slot(_, j, i) => j < k && i < NUM_ADDRS
  }

  lemma GoneStart(id: nat)
    ensures GoneUpTo(DirectRefs(id, NUM_DIRECT), id, 0)
  {
  }

  lemma GoneStep(gone: set<Ref>, id: nat, k: nat)
    requires GoneUpTo(gone, id, k)
    ensures GoneUpTo(gone + SlotRefs(id, k, NUM_ADDRS) + {Link(id, k)}, id, k + 1)
    ensures Link(id, k) !in gone + SlotRefs(id, k, NUM_ADDRS)
    ensures gone !! SlotRefs(id, k, NUM_ADDRS)
  {
  }

  /** Once all places of id are gone, what remains is DetachAll. */
  lemma AllReleased(t: Tree, id: nat, gone: set<Ref>)
    requires TreeOk(t) && id in t.nodes && GoneUpTo(gone, id, |t.nodes[id].chain|)
    ensures Remaining(t.owner, gone) == DetachAll(t, id).owner
  {
    forall b | b in t.owner ensures t.owner[b] in gone <==> t.owner[b].ino == id {
      assert Target(t, t.owner[b]) == b;
    }
  }

  // ------------------------------------------------------------ bytes

  /** memset before and after the copied bytes leaves them in a block of zeros. */
  lemma ClearAround(blk: Block, d: nat, src: seq<byte>)
    requires d + |src| <= BLOCK_SIZE && blk[d..d + |src|] == src
    ensures var head := Filled(0)[..d] + blk[d..];
            head[..d + |src|] + Filled(0)[d + |src|..] == Patch(Filled(0), d, src)
  {
  }

  /** Only bytes [off, off + |src|) of file id have changed, to src. */
  ghost predicate BytesWritten(t: Tree, t': Tree, id: nat, off: nat, src: seq<byte>)
  {
    forall id', o: nat :: ByteAt(t', id', o) ==
      if id' == id && off <= o < off + |src| then src[o - off] else ByteAt(t, id', o)
  }

  /** Patching one block of a file is writing those bytes of the file. */
  lemma PatchWrites(t: Tree, t': Tree, id: nat, n: nat, d: nat, src: seq<byte>)
    requires d + |src| <= BLOCK_SIZE
    requires OneBlockChanged(t, t', id, n, Patch(FileBlock(t, id, n), d, src))
    ensures BytesWritten(t, t', id, n * BLOCK_SIZE + d, src)
  {
    hide Word, SetWord, FileBlock;
    var off := n * BLOCK_SIZE + d;
    forall id', o: nat ensures ByteAt(t', id', o) ==
      if id' == id && off <= o < off + |src| then src[o - off] else ByteAt(t, id', o)
    {
      var q, r := o / BLOCK_SIZE, o % BLOCK_SIZE;
      if id' == id && q == n {
        assert o == n * BLOCK_SIZE + r;
      }
    }
  }

  ghost predicate SameBytes(t: Tree, t': Tree)
  {
    forall id, o: nat :: ByteAt(t', id, o) == ByteAt(t, id, o)
  }

  lemma SameBytesTrans(t0: Tree, t1: Tree, t2: Tree)
    requires SameBytes(t0, t1) && SameBytes(t1, t2)
    ensures SameBytes(t0, t2)
  {
  }

  /** `data` has been written to file id at off, or read from there with no file changed. */
  ghost predicate Transferred(write: bool, t: Tree, t': Tree, id: nat, off: nat, data: seq<byte>)
  {
    if write then BytesWritten(t, t', id, off, data)
    else SameBytes(t, t') && forall j :: 0 <= j < |data| ==> data[j] == ByteAt(t, id, off + j)
  }

  lemma TransferNothing(write: bool, t: Tree, t': Tree, id: nat, off: nat)
    requires SameFiles(t, t')
    ensures Transferred(write, t, t', id, off, [])
  {
  }

  lemma TransferNil(write: bool, t: Tree, id: nat, off: nat)
    ensures Transferred(write, t, t, id, off, [])
  {
  }

  lemma TransferCompose(write: bool, t0: Tree, t1: Tree, t2: Tree, id: nat, off: nat, a: seq<byte>, b: seq<byte>)
    requires Transferred(write, t0, t1, id, off, a) && Transferred(write, t1, t2, id, off + |a|, b)
    ensures Transferred(write, t0, t2, id, off, a + b)
  {
    if !write {
      forall j | 0 <= j < |a + b| ensures (a + b)[j] == ByteAt(t0, id, off + j) {
        if j >= |a| { assert b[j - |a|] == ByteAt(t1, id, off + |a| + (j - |a|)); }
      }
    }
  }

  /** Reading part of one block of a file is reading those bytes of the file. */
  lemma BlockReads(t: Tree, id: nat, n: nat, d: nat, data: seq<byte>)
    requires d + |data| <= BLOCK_SIZE && data == FileBlock(t, id, n)[d..d + |data|]
    ensures Transferred(false, t, t, id, n * BLOCK_SIZE + d, data)
  {
    forall j | 0 <= j < |data| ensures data[j] == ByteAt(t, id, n * BLOCK_SIZE + d + j) {
      var o := n * BLOCK_SIZE + d + j;
      assert o / BLOCK_SIZE == n && o % BLOCK_SIZE == d + j;
    }
  }

  /** Past the end of the chain a file is all zeros. */
  lemma NoChainZeros(write: bool, t: Tree, id: nat, off: nat, data: seq<byte>)
    requires TreeOk(t) && id in t.nodes && t.nodes[id].chain == [] && DIRECT_SPAN <= off && !write
    requires forall j :: 0 <= j < |data| ==> data[j] == 0
    ensures Transferred(write, t, t, id, off, data)
  {
    forall j | 0 <= j < |data| ensures data[j] == ByteAt(t, id, off + j) {
      var n := (off + j) / BLOCK_SIZE;
      assert n >= NUM_DIRECT;
      assert Target(t, PlaceOf(id, n)) == NIL;
    }
  }

  // ------------------------------------------------------------ positions in the chain

  lemma PlaceOfSlot(id: nat, k: nat, i: nat)
    requires i < NUM_ADDRS
    ensures PlaceOf(id, NUM_DIRECT + NUM_ADDRS * k + i) == Slot(id, k, i)
  {
  }

  lemma SlotPlace(t: Tree, id: nat, k: nat, i: nat)
    requires TreeOk(t) && id in t.nodes && k < |t.nodes[id].chain| && i < NUM_ADDRS
    ensures t.nodes[id].chain[k] in t.disk
    ensures PlaceOf(id, NUM_DIRECT + NUM_ADDRS * k + i) == Slot(id, k, i)
    ensures Target(t, Slot(id, k, i)) == SlotOf(t.disk[t.nodes[id].chain[k]], i)
  {
    hide PlaceOf, SlotOf;
    PlaceOfSlot(id, k, i);
    assert Target(t, Link(id, k)) == t.nodes[id].chain[k];
  }

  lemma LinkPlace(t: Tree, id: nat, k: nat)
    requires id in t.nodes && k < |t.nodes[id].chain|
    ensures Target(t, Link(id, k)) == t.nodes[id].chain[k]
  {
  }

  lemma ChainStep(t: Tree, id: nat, k: nat)
    requires TreeOk(t) && id in t.nodes && k < |t.nodes[id].chain|
    ensures var c := t.nodes[id].chain;
            c[k] in t.disk && c[k] != NIL && c[k] in t.owner &&
            if k + 1 < |c| then NextOf(t.disk[c[k]]) == c[k + 1] != NIL else NextOf(t.disk[c[k]]) == NIL
  {
    var c := t.nodes[id].chain;
    assert LinkOk(t.disk, c, k);
    assert Target(t, Link(id, k)) == c[k];
    if k + 1 < |c| { assert LinkOk(t.disk, c, k + 1); }
  }

  lemma ChainHead(t: Tree, id: nat)
    requires TreeOk(t) && id in t.nodes
    ensures var v := t.nodes[id];
            if v.chain == [] then v.head == NIL else v.head == v.chain[0] != NIL
  {
    if t.nodes[id].chain != [] { ChainStep(t, id, 0); }
  }

  lemma SameFilesRefl(t: Tree)
    ensures SameFiles(t, t)
  {
  }

  lemma SameFilesTrans(t0: Tree, t1: Tree, t2: Tree)
    requires SameFiles(t0, t1) && SameFiles(t1, t2)
    ensures SameFiles(t0, t2)
  {
  }
}
