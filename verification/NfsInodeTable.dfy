/** Inode numbers (os/fs/nfs/nfs.cc): a free list threaded through the records of the
    inode-table file, and the loading and flushing of inodes (os/fs/nfs/inode.cc). */
module NfsInodeTable {
  import opened Basics
  import opened NfsCommon
  import opened NfsSpace
  import opened NfsTree
  import opened Nfs
  import opened NfsCodec

  // ------------------------------------------------------------ the list as a value

  /** Element i of the list; past its end, the first number never used. */
  function Entry(free: seq<nat>, frontier: nat, i: nat): (n: nat)
  {
    if i < |free| then free[i] else frontier
  }

  /** Record n is a link to `next`. */
  ghost predicate LinksTo(d: Dinode, next: nat)
  {
    d.kind == ITYPE_NEXT_FREE_INODE && d.size == next
  }

  /** Record 0 heads a duplicate-free chain of freed numbers that ends at the frontier, and
      no record at or beyond the frontier looks like a link. */
  ghost predicate ListOk(t: Tree, free: seq<nat>, frontier: nat)
  {
    && 0 < frontier
    && LinksTo(Rec(t, 0), Entry(free, frontier, 0))
    && NoDup(free)
    && (forall i :: 0 <= i < |free| ==>
          0 < free[i] < frontier && LinksTo(Rec(t, free[i]), Entry(free, frontier, i + 1)))
    && (forall n :: frontier <= n ==> Rec(t, n).kind != ITYPE_NEXT_FREE_INODE)
  }

  lemma ListFrame(t: Tree, t': Tree, free: seq<nat>, frontier: nat)
    requires ListOk(t, free, frontier)
    requires forall i :: Rec(t', i) == Rec(t, i)
    ensures ListOk(t', free, frontier)
  {
    hide Rec;
  }

  /** alloc_inode takes the first freed number ... */
  lemma PopListed(t: Tree, t': Tree, free: seq<nat>, frontier: nat, d: Dinode)
    requires ListOk(t, free, frontier) && free != [] && LinksTo(d, Entry(free, frontier, 1))
    requires forall j :: Rec(t', j) == if j == 0 then d else Rec(t, j)
    ensures ListOk(t', free[1..], frontier)
  {
    hide Rec;
    var f := free[1..];
    forall i | 0 <= i < |f| ensures 0 < f[i] < frontier && LinksTo(Rec(t', f[i]), Entry(f, frontier, i + 1)) {
      assert f[i] == free[i + 1] && Entry(f, frontier, i + 1) == Entry(free, frontier, i + 2);
    }
  }

  /** ... or the frontier if there is none. */
  lemma PopFrontier(t: Tree, t': Tree, frontier: nat, d: Dinode)
    requires ListOk(t, [], frontier) && LinksTo(d, frontier + 1)
    requires forall j :: Rec(t', j) == if j == 0 then d else Rec(t, j)
    ensures ListOk(t', [], frontier + 1)
  {
    hide Rec;
  }

  /** free_inode puts a number back in front. */
  lemma PushOk(t: Tree, t': Tree, free: seq<nat>, frontier: nat, n: nat, d0: Dinode, dn: Dinode)
    requires ListOk(t, free, frontier) && 0 < n < frontier && n !in free
    requires LinksTo(d0, n) && LinksTo(dn, Entry(free, frontier, 0))
    requires forall j :: Rec(t', j) == if j == n then dn else if j == 0 then d0 else Rec(t, j)
    ensures ListOk(t', [n] + free, frontier)
  {
    hide Rec;
    var f := [n] + free;
    forall i | 0 <= i < |f| ensures 0 < f[i] < frontier && LinksTo(Rec(t', f[i]), Entry(f, frontier, i + 1)) {
      if i > 0 { assert f[i] == free[i - 1]; }
    }
  }

  /** A record of a number in use can be rewritten. */
  lemma RewriteOk(t: Tree, t': Tree, free: seq<nat>, frontier: nat, n: nat, d: Dinode)
    requires ListOk(t, free, frontier) && 0 < n < frontier && n !in free
    requires forall j :: Rec(t', j) == if j == n then d else Rec(t, j)
    ensures ListOk(t', free, frontier)
  {
    hide Rec;
  }

  /** What alloc_inode reads: record 0 names the next number, whose own record is a link
      exactly when it comes from the list. */
  lemma ListHead(t: Tree, free: seq<nat>, frontier: nat)
    requires ListOk(t, free, frontier)
    ensures LinksTo(Rec(t, 0), Entry(free, frontier, 0)) && Entry(free, frontier, 0) <= frontier
    ensures var d := Rec(t, Entry(free, frontier, 0));
            if free == [] then d.kind != ITYPE_NEXT_FREE_INODE else LinksTo(d, Entry(free, frontier, 1))
  {
    hide Rec;
  }

  lemma FrontierPositive(t: Tree, free: seq<nat>, frontier: nat)
    requires ListOk(t, free, frontier)
    ensures 0 < frontier
  {
  }

  /** Every number below the frontier is either in use or on the list, and the counter
      counts the numbers in use and the table itself. */
  ghost predicate Numbers(inUse: set<nat>, free: seq<nat>, frontier: nat, count: nat)
  {
    && NoDup(free)
    && (forall n :: n in inUse ==> 0 < n < frontier && n !in free)
    && (forall n :: 0 < n < frontier && n !in inUse ==> n in free)
    && (forall n :: n in free ==> 0 < n < frontier)
    && count == |inUse| + 1
  }

  lemma TakeListed(inUse: set<nat>, free: seq<nat>, frontier: nat, count: nat)
    requires Numbers(inUse, free, frontier, count) && free != []
    ensures free[0] !in inUse && free[0] != 0 && Numbers(inUse + {free[0]}, free[1..], frontier, count + 1)
  {
    var n := free[0];
    assert n in free;
    forall m | m in free && m != n ensures m in free[1..] {
      var i :| 0 <= i < |free| && free[i] == m;
      assert free[1..][i - 1] == m;
    }
    forall m | m in free[1..] ensures m in free && m != n {
      var i :| 0 <= i < |free[1..]| && free[1..][i] == m;
      assert free[i + 1] == m;
    }
  }

  lemma TakeFrontier(inUse: set<nat>, frontier: nat, count: nat)
    requires Numbers(inUse, [], frontier, count) && 0 < frontier
    ensures frontier !in inUse && Numbers(inUse + {frontier}, [], frontier + 1, count + 1)
  {
  }

  /** The list and the numbers after the next number has been taken. */
  lemma TakeOne(t: Tree, t': Tree, free: seq<nat>, frontier: nat, inUse: set<nat>, count: nat, n: nat, head: Dinode)
    requires Numbers(inUse, free, frontier, count) && ListOk(t, free, frontier) && n == Entry(free, frontier, 0)
    requires LinksTo(head, if free == [] then frontier + 1 else Entry(free, frontier, 1))
    requires forall j :: Rec(t', j) == if j == 0 then head else Rec(t, j)
    ensures var free', frontier' := if free == [] then [] else free[1..], if free == [] then frontier + 1 else frontier;
            ListOk(t', free', frontier') && Numbers(inUse + {n}, free', frontier', count + 1)
    ensures n !in inUse && n != 0 && n == (if free == [] then frontier else free[0])
  {
    hide Rec, ListOk, Numbers, LinksTo;
    if free == [] {
      FrontierPositive(t, free, frontier);
      PopFrontier(t, t', frontier, head);
      TakeFrontier(inUse, frontier, count);
    } else {
      PopListed(t, t', free, frontier, head);
      TakeListed(inUse, free, frontier, count);
    }
  }

  lemma GiveBack(inUse: set<nat>, free: seq<nat>, frontier: nat, count: nat, n: nat)
    requires Numbers(inUse, free, frontier, count) && n in inUse
    ensures 0 < n < frontier && n !in free && Numbers(inUse - {n}, [n] + free, frontier, count - 1)
  {
  }

  lemma NumbersPositive(inUse: set<nat>, free: seq<nat>, frontier: nat, count: nat)
    requires Numbers(inUse, free, frontier, count)
    ensures 0 !in inUse
  {
  }

  lemma InUseNotFree(inUse: set<nat>, free: seq<nat>, frontier: nat, count: nat, n: nat)
    requires Numbers(inUse, free, frontier, count) && n in inUse
    ensures 0 < n < frontier && n !in free
  {
  }

  // ------------------------------------------------------------ the allocator

  /** `metadata` and block addresses of an in-memory inode as a record. */
  ghost function Meta(n: Inode): (d: Dinode)
    reads n
  {
    Dinode(n.size, n.nlinks, n.perm, n.kind, n.nextAddrBlock, n.addrs)
  }

  /** The address blocks that the table file needs for its records up to the frontier. */
  function TableHops(frontier: nat): (h: nat) { Hops(0, DINODE_SIZE * (frontier + 1)) }

  lemma RecordHops(i: nat, frontier: nat)
    requires i <= frontier
    ensures Hops(DINODE_SIZE * i, DINODE_SIZE) <= TableHops(frontier) && Blocks(DINODE_SIZE * i, DINODE_SIZE) == 1
  {
    hide Hops, Blocks;
    HopsWithin(DINODE_SIZE * i, DINODE_SIZE, DINODE_SIZE * (frontier + 1));
    OneBlock(i, DINODE_SIZE);
  }

  class InodeTable {
    const fs: FileSystem
    const file: Inode           // fs->inode_table
    var ninodes: nat            // sb.ninodes
    ghost var free: seq<nat>
    ghost var frontier: nat
    ghost var inUse: set<nat>

    /** An in-memory inode that could still be flushed has a number in use; an inode whose
        number is not in use owns no block. */
    ghost predicate MemoryOk()
      reads this, fs, fs.inodes.Values
    {
      forall k :: k in fs.inodes && k != 0 && k !in inUse ==>
        !(fs.inodes[k].valid && fs.inodes[k].dirty) && fs.inodes[k].OwnsNothing()
    }

    ghost predicate Core()
      reads this, fs, fs.space, fs.inodes.Values
    {
      && fs.Valid() && 0 in fs.inodes && fs.inodes[0] == file && file.id == 0 && file.fs == fs
      && file.HintOk()
      && MemoryOk()
      && (frontier + 2) * DINODE_SIZE < TWO32
    }

    ghost predicate Listed()
      reads this, fs, fs.space, fs.inodes.Values
    {
      Core() && Numbers(inUse, free, frontier, ninodes) && ListOk(fs.T(), free, frontier)
    }

    /** The record of every valid inode in use, but one, holds its fields, unless it is marked dirty. */
    ghost predicate SyncedBut(id: nat)
      reads this, fs, fs.inodes.Values
    {
      forall k :: k in inUse && k in fs.inodes && k != id && fs.inodes[k].valid && !fs.inodes[k].dirty ==>
        Rec(fs.T(), k) == Meta(fs.inodes[k])
    }

    /** No inode has the number 0 but the table, so this excepts none. */
    ghost predicate Valid()
      reads this, fs, fs.space, fs.inodes.Values
    {
      Listed() && SyncedBut(0)
    }

    /** The table of a file system whose record 0 has just been written. */
    constructor (fs: FileSystem, file: Inode)
      requires fs.Valid() && fs.inodes.Keys == {0, 1} && fs.inodes[0] == file && file.HintOk()
      requires ListOk(fs.T(), [], 2) && fs.inodes[1].dirty
      ensures Valid() && this.fs == fs && this.file == file
      ensures free == [] && frontier == 2 && inUse == {1}
    {
      hide TreeOk, Target, Space.Valid, ListOk;
      this.fs := fs;
      this.file := file;
      ninodes := 2;
      free, frontier, inUse := [], 2, {1};
    }

    method ReadRecord(i: nat) returns (ok: bool, d: Dinode)
      requires Listed() && i <= frontier
      modifies fs`owner, fs`disk, fs.space, file
      ensures Listed() && SameBytes(old(fs.T()), fs.T())
      ensures ok ==> WellFormed(d) && d == Rec(fs.T(), i)
      ensures !ok ==> fs.space.room == 0
      ensures Took(old(fs.space.room), |old(file.chain)|, fs.space.room, |file.chain|, 0, TableHops(frontier), ok)
    {
      hide TreeOk, Target, Space.Valid, SameBytes, ListOk, ByteAt, Decode, Took, TableHops, Hops, Cost;
      RecordHops(i, frontier);
      var data;
      d := Dinode(0, 0, 0, 0, 0, Holes());
      ok, data := file.Read(DINODE_SIZE * i, DINODE_SIZE);
      TookMore(old(fs.space.room), |old(file.chain)|, fs.space.room, |file.chain|, 0,
               Hops(DINODE_SIZE * i, DINODE_SIZE), 0, TableHops(frontier), ok);
      SameRecords(old(fs.T()), fs.T());
      ListFrame(old(fs.T()), fs.T(), free, frontier);
      if ok {
        assert data == RecordBytes(old(fs.T()), i);
        assert Rec(fs.T(), i) == Rec(old(fs.T()), i);
        d := Decode(data);
      }
    }

    method WriteRecord(i: nat, d: Dinode) returns (ok: bool)
      requires Core() && i <= frontier && WellFormed(d)
      modifies fs`owner, fs`disk, fs.space, file
      ensures Core()
      ensures ok ==> forall j :: Rec(fs.T(), j) == if j == i then d else Rec(old(fs.T()), j)
      ensures OtherFilesSame(old(fs.T()), fs.T()) && (!ok ==> fs.space.room == 0)
      ensures Took(old(fs.space.room), |old(file.chain)|, fs.space.room, |file.chain|, 1, TableHops(frontier), ok)
    {
      hide TreeOk, Target, Space.Valid, BytesWritten, Rec, Encode, Took, TableHops, Hops, Blocks, Cost;
      RecordHops(i, frontier);
      var n;
      ok, n := file.Write(Encode(d), DINODE_SIZE * i);
      TookMore(old(fs.space.room), |old(file.chain)|, fs.space.room, |file.chain|, 1,
               Hops(DINODE_SIZE * i, DINODE_SIZE), 1, TableHops(frontier), ok);
      TableWritten(old(fs.T()), fs.T(), DINODE_SIZE * i, Encode(d)[..n]);
      if ok {
        assert Encode(d)[..n] == Encode(d);
        RecordWritten(old(fs.T()), fs.T(), i, d);
      }
    }

    /** The two reads of alloc_inode: the next number, and what record 0 will become. */
    method PeekList() returns (ok: bool, n: nat, head: Dinode)
      requires Listed()
      modifies fs`owner, fs`disk, fs.space, file
      ensures Listed() && SameBytes(old(fs.T()), fs.T())
      ensures ok ==> n == Entry(free, frontier, 0) && WellFormed(head)
      ensures ok ==> LinksTo(head, if free == [] then frontier + 1 else Entry(free, frontier, 1))
      ensures !ok ==> fs.space.room == 0
      ensures Took(old(fs.space.room), |old(file.chain)|, fs.space.room, |file.chain|, 0, TableHops(frontier), ok)
    {
      hide FileSystem.Valid, Rec, ListOk, Numbers, SameBytes, Took, TableHops;
      n := 0;
      ok, head := ReadRecord(0);
      if !ok { return; }
      ListHead(fs.T(), free, frontier);
      if head.kind != ITYPE_NEXT_FREE_INODE { assert false; }
      n := head.size;
      ghost var t, room, len := fs.T(), fs.space.room, |file.chain|;
      var d;
      ok, d := ReadRecord(n);
      TookTrans(old(fs.space.room), |old(file.chain)|, room, len, fs.space.room, |file.chain|, 0, 0,
                TableHops(frontier), ok);
      SameBytesTrans(old(fs.T()), t, fs.T());
      ListHead(fs.T(), free, frontier);
      head := head.(size := if ok && d.kind != ITYPE_NEXT_FREE_INODE then n + 1 else d.size);
    }

    /** alloc_inode up to get_inode: the number comes off the list, last freed first, and
        the frontier moves only when the list is empty. */
    method TakeNumber() returns (ok: bool, n: nat)
      requires Listed() && (frontier + 3) * DINODE_SIZE < TWO32
      modifies this, fs`owner, fs`disk, fs.space, file
      ensures ok ==> RecordsKept(old(fs.T()), fs.T(), {0})
      ensures ok ==> Listed() && n !in old(inUse) && n != 0 && inUse == old(inUse) + {n} && ninodes == old(ninodes) + 1
      ensures ok && old(free) != [] ==> n == old(free)[0] && free == old(free)[1..] && frontier == old(frontier)
      ensures ok && old(free) == [] ==> n == old(frontier) && free == [] && frontier == old(frontier) + 1
      ensures OtherFilesSame(old(fs.T()), fs.T()) && (!ok ==> fs.space.room == 0)
      ensures Took(old(fs.space.room), |old(file.chain)|, fs.space.room, |file.chain|, 1, TableHops(old(frontier)), ok)
    {
      hide FileSystem.Valid, FileSystem.T, InodeTable.MemoryOk, Inode.HintOk, Rec, ListOk, Numbers, SameBytes;
      hide OtherFilesSame, LinksTo, Took, TableHops;
      ghost var h := TableHops(frontier);
      var head;
      ok, n, head := PeekList();
      ghost var t, room, len := fs.T(), fs.space.room, |file.chain|;
      TookMore(old(fs.space.room), |old(file.chain)|, room, len, 0, h, 1, h, ok);
      SameOthers(old(fs.T()), t);
      KeptBySame(old(fs.T()), t);
      if !ok { return; }
      ok := WriteRecord(0, head);
      TookTrans(old(fs.space.room), |old(file.chain)|, room, len, fs.space.room, |file.chain|, 0, 1, h, ok);
      OthersTrans(old(fs.T()), t, fs.T());
      if !ok { return; }
      KeptByWrite(old(fs.T()), t, fs.T(), {}, 0, head);
      Advance(n, head, t);
    }

    /** The bookkeeping of TakeNumber. */
    method Advance(n: nat, head: Dinode, ghost t: Tree)
      requires Core() && Numbers(inUse, free, frontier, ninodes) && ListOk(t, free, frontier)
      requires n == Entry(free, frontier, 0)
      requires LinksTo(head, if free == [] then frontier + 1 else Entry(free, frontier, 1))
      requires forall j :: Rec(fs.T(), j) == if j == 0 then head else Rec(t, j)
      requires (frontier + 3) * DINODE_SIZE < TWO32
      modifies this
      ensures Listed() && n !in old(inUse) && n != 0 && inUse == old(inUse) + {n} && ninodes == old(ninodes) + 1
      ensures old(free) != [] ==> n == old(free)[0] && free == old(free)[1..] && frontier == old(frontier)
      ensures old(free) == [] ==> n == old(frontier) && free == [] && frontier == old(frontier) + 1
    {
      hide FileSystem.Valid, FileSystem.T, Rec, ListOk, Numbers, LinksTo, Inode.HintOk, Inode.OwnsNothing;
      hide InodeTable.MemoryOk;
      TakeOne(t, fs.T(), free, frontier, inUse, ninodes, n, head);
      if free == [] {
        frontier := frontier + 1;
      } else {
        free := free[1..];
      }
      inUse := inUse + {n};
      ninodes := ninodes + 1;
      MoreInUse();
    }

    /** With more numbers in use there is less to say about the others. */
    twostate lemma MoreInUse()
      requires old(MemoryOk()) && old(inUse) <= inUse && fs.inodes == old(fs.inodes)
      requires forall k :: k in fs.inodes ==> unchanged(fs.inodes[k])
      ensures MemoryOk()
    {
      hide Inode.OwnsNothing;
    }

    /** get_inode and init_data on a number that has just been taken. */
    method Acquire(num: nat) returns (n: Inode)
      requires Listed() && num in inUse && num != 0 && (num in fs.inodes ==> fs.inodes[num].OwnsNothing())
      modifies fs`inodes, fs.inodes.Values
      ensures Listed() && n.Ready() && n.fs == fs && n.id == num
      ensures fs.inodes == old(fs.inodes)[num := n]
      ensures (if num in old(fs.inodes) then n == old(fs.inodes)[num] else fresh(n))
      ensures n.size == 0 && n.nlinks == 0 && n.perm == 0 && n.kind == 0 && n.valid && n.dirty && n.OwnsNothing()
      ensures n.HintOk() <==> n.cacheRaw == NIL
      ensures n.cacheRaw == if num in old(fs.inodes) then old(fs.inodes[num].cacheRaw) else NIL
      ensures OtherFilesSame(old(fs.T()), fs.T()) && RecordsKept(old(fs.T()), fs.T(), {})
      ensures forall k :: k in old(fs.inodes) && k != num ==> unchanged(old(fs.inodes)[k])
    {
      hide TreeOk, Target, Space.Valid, ListOk, Numbers, OtherFilesSame, SameBytes, SameFiles;
      if num in fs.inodes {
        n := fs.inodes[num];
        n.InitData();
      } else {
        n := fs.Open(num);
      }
      FilesFrame(old(fs.T()), fs.T(), free, frontier);
      KeptBySame(old(fs.T()), fs.T());
    }

    /** alloc_inode: the inode under a number that was not in use, initialised; a reused
        in-memory inode keeps its seek hint. */
    method AllocInode() returns (ok: bool, n: Inode)
      requires Valid() && (frontier + 3) * DINODE_SIZE < TWO32
      modifies this, fs, fs.space, fs.inodes.Values
      ensures ok ==> Valid() && n.Ready() && n.fs == fs && n.id !in old(inUse) && n.id != 0
      ensures ok ==> inUse == old(inUse) + {n.id} && ninodes == old(ninodes) + 1
      ensures ok ==> n.id == Entry(old(free), old(frontier), 0)
      ensures ok ==> fs.inodes == old(fs.inodes)[n.id := n]
      ensures ok ==> if n.id in old(fs.inodes) then n == old(fs.inodes)[n.id] else fresh(n)
      ensures ok ==> n.size == 0 && n.nlinks == 0 && n.perm == 0 && n.kind == 0 && n.valid && n.dirty
      ensures ok ==> n.OwnsNothing()
      ensures ok ==> (n.HintOk() <==> n.cacheRaw == NIL)
      ensures ok ==> n.cacheRaw == if n.id in old(fs.inodes) then old(fs.inodes[n.id].cacheRaw) else NIL
      ensures ok ==> frontier <= old(frontier) + 1
      ensures ok ==> OtherFilesSame(old(fs.T()), fs.T())
      ensures ok ==> forall k :: k in old(fs.inodes) && k != 0 && k != n.id ==> unchanged(old(fs.inodes)[k])
      ensures !ok ==> fs.space.room == 0
      ensures Took(old(fs.space.room), |old(file.chain)|, fs.space.room, |file.chain|, 1, TableHops(old(frontier)), ok)
    {
      hide FileSystem.Valid, FileSystem.T, Inode.HintOk, Inode.OwnsNothing, Inode.EmptyOwnsNothing, InodeTable.MemoryOk;
      hide InodeTable.SyncedBut, ListOk, Numbers, OtherFilesSame, RecordsKept, Took, TableHops;
      n := file;
      NotInUse();
      NotFiles();
      NumbersPositive(inUse, free, frontier, ninodes);
      SyncMinus(Entry(free, frontier, 0));
      var num;
      ok, num := TakeNumber();
      if !ok { return; }
      ghost var t := fs.T();
      n := Acquire(num);
      OthersTrans(old(fs.T()), t, fs.T());
      KeptTrans(old(fs.T()), t, fs.T(), {0}, {});
      NumbersPositive(inUse, free, frontier, ninodes);
      SyncKept({0} + {}, num);
      SyncDirty(num);
    }

    lemma NotInUse()
      requires Core()
      ensures forall k :: k in fs.inodes && k != 0 && k !in inUse ==> fs.inodes[k].OwnsNothing()
    {
      hide FileSystem.Valid, Inode.HintOk, Inode.OwnsNothing;
    }

    lemma NotFiles()
      requires Core()
      ensures forall k :: k in fs.inodes && k != 0 ==> fs.inodes[k] != file
    {
      hide TreeOk, Target, Space.Valid, InodeTable.MemoryOk, Inode.HintOk;
    }

    /** Records and inodes in use, but for some, are as they were, and so is their agreement. */
    twostate lemma SyncKept(new touched: set<nat>, new id: nat)
      requires old(SyncedBut(id)) && RecordsKept(old(fs.T()), fs.T(), touched) && touched <= {0, id} && 0 !in inUse
      requires forall k :: k in inUse && k in fs.inodes && k != id ==>
                 k in old(inUse) && k in old(fs.inodes) && fs.inodes[k] == old(fs.inodes)[k] && unchanged(fs.inodes[k])
      ensures SyncedBut(id)
    {
      hide FileSystem.T, Rec;
    }

    /** An operation on one inode in use leaves it marked, if its record no longer holds its fields. */
    twostate lemma SyncMarked(n: Inode)
      requires old(SyncedBut(0)) && SyncedBut(n.id) && RecordsKept(old(fs.T()), fs.T(), {})
      requires n.id in fs.inodes && fs.inodes[n.id] == n && n.id in old(inUse) && fs.inodes == old(fs.inodes)
      requires n.Marked() && (n.valid ==> old(n.valid)) && n.id != 0
      ensures SyncedBut(0)
    {
      hide FileSystem.T, Rec;
    }

    /** Nothing is said about a dirty inode, or about a number not in use. */
    lemma SyncDirty(id: nat)
      requires SyncedBut(id)
      requires id in inUse && id in fs.inodes && fs.inodes[id].valid && !fs.inodes[id].dirty ==>
                 Rec(fs.T(), id) == Meta(fs.inodes[id])
      ensures SyncedBut(0)
    {
      hide FileSystem.T, Rec;
    }

    /** The writes of free_inode.  `garbage` stands for the fields of the new record that
        the code leaves uninitialised. */
    method PushRecords(num: nat, garbage: Dinode) returns (ok: bool)
      requires Listed() && 0 < num < frontier && num !in free && WellFormed(garbage)
      modifies fs`owner, fs`disk, fs.space, file
      ensures ok ==> RecordsKept(old(fs.T()), fs.T(), {0, num})
      ensures Core() && OtherFilesSame(old(fs.T()), fs.T())
      ensures ok ==> ListOk(fs.T(), [num] + free, frontier)
      ensures !ok ==> fs.space.room == 0
      ensures Took(old(fs.space.room), |old(file.chain)|, fs.space.room, |file.chain|, 2, TableHops(frontier), ok)
    {
      hide FileSystem.Valid, MemoryOk, Rec, ListOk, Numbers, SameBytes, OtherFilesSame, Took, TableHops;
      ghost var h, room0, len0 := TableHops(frontier), fs.space.room, |file.chain|;
      var head;
      ok, head := ReadRecord(0);
      ghost var t, room, len := fs.T(), fs.space.room, |file.chain|;
      TookMore(room0, len0, room, len, 0, h, 2, h, ok);
      SameOthers(old(fs.T()), t);
      KeptBySame(old(fs.T()), t);
      if !ok { return; }
      ListHead(t, free, frontier);
      if head.kind != ITYPE_NEXT_FREE_INODE { assert false; }
      var link := garbage.(size := head.size, kind := ITYPE_NEXT_FREE_INODE);
      head := head.(size := num);
      ok := WriteRecord(0, head);
      ghost var t1, room1, len1 := fs.T(), fs.space.room, |file.chain|;
      TookTrans(room0, len0, room, len, room1, len1, 0, 1, h, ok);
      TookMore(room0, len0, room1, len1, 1, h, 2, h, ok);
      OthersTrans(old(fs.T()), t, t1);
      if !ok { return; }
      ok := WriteRecord(num, link);
      TookTrans(room0, len0, room1, len1, fs.space.room, |file.chain|, 1, 1, h, ok);
      OthersTrans(old(fs.T()), t1, fs.T());
      if !ok { return; }
      PushOk(t, fs.T(), free, frontier, num, head, link);
      KeptByWrite(old(fs.T()), t, t1, {}, 0, head);
      KeptByWrite(old(fs.T()), t1, fs.T(), {0}, num, link);
    }

    /** The bookkeeping of FreeInode. */
    method Retreat(num: nat)
      requires Core() && Numbers(inUse, free, frontier, ninodes) && ListOk(fs.T(), [num] + free, frontier)
      requires num in inUse
      requires num in fs.inodes ==> !(fs.inodes[num].valid && fs.inodes[num].dirty) && fs.inodes[num].OwnsNothing()
      modifies this
      ensures Listed() && inUse == old(inUse) - {num} && free == [num] + old(free) && frontier == old(frontier)
      ensures ninodes == old(ninodes) - 1
    {
      hide FileSystem.Valid, FileSystem.T, ListOk, Numbers, Inode.HintOk, Inode.OwnsNothing;
      GiveBack(inUse, free, frontier, ninodes, num);
      free := [num] + free;
      inUse := inUse - {num};
      ninodes := ninodes - 1;
    }

    lemma NotFile(k: nat)
      requires Core() && k in fs.inodes && k != 0
      ensures fs.inodes[k] != file && fs.inodes[k].id == k
    {
      hide TreeOk, Target, Space.Valid, InodeTable.MemoryOk, Inode.HintOk;
    }

    /** free_inode: the number goes to the front of the list. */
    method FreeInode(num: nat, garbage: Dinode) returns (ok: bool)
      requires Listed() && SyncedBut(num) && num in inUse && WellFormed(garbage)
      requires num in fs.inodes ==> !(fs.inodes[num].valid && fs.inodes[num].dirty) && fs.inodes[num].OwnsNothing()
      modifies this, fs`owner, fs`disk, fs.space, file
      ensures ok ==> Valid() && inUse == old(inUse) - {num} && free == [num] + old(free) && frontier == old(frontier)
      ensures ok ==> ninodes == old(ninodes) - 1
      ensures OtherFilesSame(old(fs.T()), fs.T()) && (!ok ==> fs.space.room == 0)
      ensures Took(old(fs.space.room), |old(file.chain)|, fs.space.room, |file.chain|, 2, TableHops(old(frontier)), ok)
    {
      hide FileSystem.Valid, FileSystem.T, InodeTable.MemoryOk, Inode.HintOk, ListOk, Numbers, OtherFilesSame;
      hide Took, TableHops, InodeTable.SyncedBut, RecordsKept, Inode.OwnsNothing;
      GiveBack(inUse, free, frontier, ninodes, num);
      if num in fs.inodes { NotFile(num); }
      NotFiles();
      ok := PushRecords(num, garbage);
      if !ok { return; }
      Retreat(num);
      NumbersPositive(inUse, free, frontier, ninodes);
      SyncKept({0, num}, num);
      SyncDirty(num);
    }

    /** The record of an in-memory inode goes to the table file. */
    method WriteMeta(n: Inode) returns (ok: bool)
      requires Listed() && n.id in fs.inodes && fs.inodes[n.id] == n && n.id != 0 && n.valid && n.dirty
      modifies fs`owner, fs`disk, fs.space, file
      ensures ok ==> Listed() && Rec(fs.T(), n.id) == Meta(n) && RecordsKept(old(fs.T()), fs.T(), {n.id})
      ensures OtherFilesSame(old(fs.T()), fs.T()) && (!ok ==> fs.space.room == 0)
      ensures Took(old(fs.space.room), |old(file.chain)|, fs.space.room, |file.chain|, 1, TableHops(frontier), ok)
    {
      hide TreeOk, Target, Space.Valid, Rec, ListOk, Numbers, OtherFilesSame, Inode.OwnsNothing, Inode.HintOk;
      hide Inode.EmptyOwnsNothing, Took, TableHops;
      DirectPlace(fs.T(), n.id, 0);
      InUseNotFree(inUse, free, frontier, ninodes, n.id);
      ok := WriteRecord(n.id, Dinode(n.size, n.nlinks, n.perm, n.kind, n.nextAddrBlock, n.addrs));
      if !ok { return; }
      RewriteOk(old(fs.T()), fs.T(), free, frontier, n.id, Meta(n));
      KeptBySame(old(fs.T()), old(fs.T()));
      KeptByWrite(old(fs.T()), old(fs.T()), fs.T(), {}, n.id, Meta(n));
    }

    /** flush of any in-memory inode other than the table: it writes at most the record of a
        number in use, so the free list survives it. */
    method Flush(n: Inode) returns (ok: bool)
      requires Listed() && SyncedBut(n.id) && n.id in fs.inodes && fs.inodes[n.id] == n && n.id != 0
      modifies n`valid, n`dirty, fs`owner, fs`disk, fs.space, file
      ensures ok ==> Listed() && SyncedBut(n.id) && !(n.valid && n.dirty) && n.valid == old(n.valid)
      ensures ok && old(Valid()) ==> Valid()
      ensures ok && old(n.valid && n.dirty) ==> Rec(fs.T(), n.id) == Meta(n)
      ensures ok && !old(n.valid && n.dirty) ==> fs.T() == old(fs.T())
      ensures OtherFilesSame(old(fs.T()), fs.T()) && (!ok ==> fs.space.room == 0)
      ensures Took(old(fs.space.room), |old(file.chain)|, fs.space.room, |file.chain|, 1, TableHops(frontier), ok)
    {
      hide TreeOk, Target, Space.Valid, Rec, ListOk, Numbers, OtherFilesSame, Inode.OwnsNothing, Inode.HintOk;
      hide Inode.EmptyOwnsNothing, Took, TableHops, InodeTable.SyncedBut, RecordsKept, FileSystem.T;
      ok := true;
      NotFiles();
      NumbersPositive(inUse, free, frontier, ninodes);
      SameOthersRefl(fs.T());
      ghost var h := TableHops(frontier);
      TookNothing(fs.space.room, fs.space.room, |file.chain|, h);
      TookMore(fs.space.room, |file.chain|, fs.space.room, |file.chain|, 0, h, 1, h, ok);
      if n.valid && n.dirty {
        ok := WriteMeta(n);
        if !ok { return; }
        MarkClean(n);
        SyncKept({n.id}, n.id);
        SyncDirty(n.id);
      }
    }

    /** mark_clean */
    method MarkClean(n: Inode)
      requires Listed() && n.id in fs.inodes && fs.inodes[n.id] == n && n.id != 0
      modifies n`valid, n`dirty
      ensures Listed() && fs.T() == old(fs.T()) && !n.dirty && n.valid == old(n.valid)
    {
      hide TreeOk, Target, Space.Valid, ListOk, Numbers, Inode.HintOk;
      NotFile(n.id);
      n.SetFlags(n.valid, false);
    }

    /** truncate(0) inside unlink. */
    method Empty(n: Inode)
      requires Listed() && SyncedBut(n.id) && n.id in inUse && n.id in fs.inodes && fs.inodes[n.id] == n
      requires n.EmptyOwnsNothing()
      modifies n, fs`owner, fs.space
      ensures Listed() && SyncedBut(n.id) && (old(Valid()) ==> Valid()) && n.size == 0
      ensures n.OwnsNothing() && n.nlinks == old(n.nlinks) && n.cacheRaw == old(n.cacheRaw)
      ensures AllButSame(old(fs.T()), fs.T(), n.id) && fs.space.room >= old(fs.space.room)
    {
      hide FileSystem.Valid, FileSystem.T, InodeTable.MemoryOk, ListOk, Numbers, DetachAll, AllButSame, BlocksOf;
      hide InodeTable.SyncedBut, RecordsKept;
      InUseNotFree(inUse, free, frontier, ninodes, n.id);
      NumbersPositive(inUse, free, frontier, ninodes);
      NotFile(n.id);
      InMemory(n);
      ghost var t := fs.T();
      AllButRefl(t, n.id);
      var r := n.Truncate(0);
      KeptBySame(t, t);
      if fs.T() != t { DetachFrame(t, n.id, free, frontier); }
      InUseMayChange(n);
      SyncKept({}, n.id);
      if old(Valid()) { SyncMarked(n); }
    }

    lemma InMemory(n: Inode)
      requires Core() && n.id in fs.inodes && fs.inodes[n.id] == n
      ensures n.Ready() && n.fs == fs && TreeOk(fs.T()) && n.id in fs.T().nodes
      ensures forall k :: k in fs.inodes && k != n.id ==> fs.inodes[k] != n
    {
      hide TreeOk, Target, Space.Valid, InodeTable.MemoryOk, Inode.HintOk;
    }

    /** What is said about numbers not in use does not depend on inode n. */
    twostate lemma InUseMayChange(n: Inode)
      requires old(MemoryOk()) && inUse == old(inUse) && n.id in inUse && fs.inodes == old(fs.inodes)
      requires forall k :: k in fs.inodes && k != n.id ==> unchanged(fs.inodes[k])
      ensures MemoryOk()
    {
      hide Inode.OwnsNothing;
    }

    /** What unlink does with the last link: it sets the count to 0 without marking the inode, truncates,
        flushes, frees the number, then invalidates.  The number is on the list, the inode owns nothing,
        and no later flush of it can overwrite the link, because Valid() holds. */
    method Drop(n: Inode, garbage: Dinode) returns (ok: bool)
      requires Valid() && n.id in inUse && n.id in fs.inodes && fs.inodes[n.id] == n
      requires n.EmptyOwnsNothing() && WellFormed(garbage) && n.nlinks == 1
      modifies this, n, fs`owner, fs`disk, fs.space, file
      ensures ok ==> Valid() && inUse == old(inUse) - {n.id} && free == [n.id] + old(free) && frontier == old(frontier)
      ensures ok ==> ninodes == old(ninodes) - 1 && n.OwnsNothing() && !n.valid && !n.dirty
      ensures ok ==> n.nlinks == 0 && n.size == 0 && n.cacheRaw == old(n.cacheRaw)
      ensures ok ==> AllButSame(old(fs.T()), fs.T(), n.id)
      ensures !ok ==> fs.space.room == 0
      ensures Took(old(fs.space.room), |old(file.chain)|, fs.space.room, |file.chain|, 3, TableHops(old(frontier)), ok)
    {
      hide FileSystem.Valid, FileSystem.T, InodeTable.MemoryOk, Inode.HintOk, ListOk, Numbers, AllButSame;
      hide OtherFilesSame, Took, TableHops, InodeTable.SyncedBut;
      ghost var h, room0, len0 := TableHops(frontier), fs.space.room, |file.chain|;
      InUseNotFree(inUse, free, frontier, ninodes, n.id);
      NotFile(n.id);
      Touch(n, n.nlinks - 1, n.kind, n.dirty);
      Empty(n);
      ghost var t, room := fs.T(), fs.space.room;
      TookNothing(room0, room, len0, h);
      ok := Flush(n);
      ghost var room1, len1 := fs.space.room, |file.chain|;
      TookTrans(room0, len0, room, len0, room1, len1, 0, 1, h, ok);
      TookMore(room0, len0, room1, len1, 1, h, 3, h, ok);
      if !ok { return; }
      AllButTrans(old(fs.T()), t, fs.T(), n.id);
      t := fs.T();
      ok := FreeInode(n.id, garbage);
      TookTrans(room0, len0, room1, len1, fs.space.room, |file.chain|, 1, 2, h, ok);
      if !ok { return; }
      AllButTrans(old(fs.T()), t, fs.T(), n.id);
      Invalidate(n);
    }

    /** mark_invalid of an inode whose number has been given back. */
    method Invalidate(n: Inode)
      requires Valid() && n.id in fs.inodes && fs.inodes[n.id] == n && n.id != 0
      modifies n`valid, n`dirty
      ensures Valid() && !n.valid && !n.dirty && fs.T() == old(fs.T())
    {
      hide TreeOk, Target, Space.Valid, ListOk, Numbers, Inode.HintOk, Rec;
      NotFile(n.id);
      n.SetFlags(false, false);
    }

    /** Dropping a flushed inode from memory and loading it again (__load) gives the same
        inode back, with an empty hint, and changes no file. */
    method Reload(num: nat) returns (ok: bool, n: Inode)
      requires Valid() && num in inUse && num in fs.inodes && fs.inodes[num].valid && !fs.inodes[num].dirty
      modifies fs, fs.space, file
      ensures ok ==> Valid() && fresh(n) && fs.inodes == old(fs.inodes)[num := n]
      ensures ok ==> n.HintOk() && n.valid && !n.dirty && n.id == num && n.fs == fs
      ensures ok ==> Meta(n) == Meta(old(fs.inodes)[num]) && n.chain == old(fs.inodes)[num].chain
      ensures ok ==> SameBytes(old(fs.T()), fs.T())
      ensures !ok ==> fs.space.room == 0
    {
      hide TreeOk, Target, Space.Valid, ListOk, Numbers, SameBytes, Rec, InodeTable.SyncedBut, RecordsKept;
      hide FileSystem.T, Inode.OwnsNothing;
      n := file;
      InUseNotFree(inUse, free, frontier, ninodes, num);
      NumbersPositive(inUse, free, frontier, ninodes);
      NotFiles();
      ghost var m := fs.inodes[num];
      InSync(num);
      SyncMinus(num);
      var d;
      ok, d := ReadRecord(num);
      if !ok { return; }
      SameRecords(old(fs.T()), fs.T());
      KeptBySame(old(fs.T()), fs.T());
      assert d == Meta(m);
      n := fs.Replace(num, d.size, d.nlinks, d.perm, d.kind, d.addrs, d.next);
      SyncKept({}, num);
      SyncDirty(num);
    }

    lemma SyncMinus(id: nat)
      requires SyncedBut(0) && 0 !in inUse
      ensures SyncedBut(id)
    {
      hide FileSystem.T, Rec;
    }

    lemma InSync(k: nat)
      requires SyncedBut(0) && k in inUse && k != 0 && k in fs.inodes && fs.inodes[k].valid && !fs.inodes[k].dirty
      ensures Rec(fs.T(), k) == Meta(fs.inodes[k])
    {
      hide FileSystem.T, Rec;
    }

    /** A write, a flush, and a reload into a new in-memory inode: size and bytes are what the write made
        them, everything else is as before. */
    method Persist(n: Inode, src: seq<byte>, off: nat) returns (ok: bool, m: Inode)
      requires Valid() && n.id in inUse && n.id in fs.inodes && fs.inodes[n.id] == n && n.HintOk() && n.valid
      requires off + |src| < TWO32
      modifies n, fs, fs.space, file
      ensures ok ==> Valid() && fresh(m) && fs.inodes == old(fs.inodes)[n.id := m]
      ensures ok ==> m.size == if off + |src| > old(n.size) then off + |src| else old(n.size)
      ensures ok ==> m.nlinks == old(n.nlinks) && m.perm == old(n.perm) && m.kind == old(n.kind)
      ensures ok ==> forall k, o: nat :: k != 0 ==>
                ByteAt(fs.T(), k, o) == if k == n.id && off <= o < off + |src| then src[o - off]
                                        else ByteAt(old(fs.T()), k, o)
      ensures !ok ==> fs.space.room == 0
    {
      hide FileSystem.Valid, FileSystem.T, InodeTable.MemoryOk, Inode.HintOk, ListOk, Numbers, InodeTable.SyncedBut;
      hide ByteAt, Took, TableHops, Hops, Blocks, Rec;
      m := n;
      NumbersPositive(inUse, free, frontier, ninodes);
      NotFile(n.id);
      ok := WriteFile(n, src, off);
      if !ok { return; }
      NumbersPositive(inUse, free, frontier, ninodes);
      SyncMinus(n.id);
      ok := Flush(n);
      if !ok { return; }
      ok, m := Reload(n.id);
    }

    /** Reading a file whose number is in use. */
    method ReadFile(n: Inode, off: nat, len: nat) returns (ok: bool, data: seq<byte>)
      requires Valid() && n.id in inUse && n.id in fs.inodes && fs.inodes[n.id] == n && n.HintOk() && off + len < TWO32
      modifies n`addrs, n`nextAddrBlock, n`dirty, fs`owner, fs`disk, fs.space, n`chain
      modifies n`cacheRaw, n`cacheOffset, n`cacheBlock, n`cachePos
      ensures Valid() && n.HintOk() && SameBytes(old(fs.T()), fs.T())
      ensures ok ==> |data| == len && forall j :: 0 <= j < len ==> data[j] == ByteAt(old(fs.T()), n.id, off + j)
      ensures old(n.EmptyOwnsNothing()) ==> n.EmptyOwnsNothing()
      ensures !ok ==> fs.space.room == 0
      ensures Took(old(fs.space.room), |old(n.chain)|, fs.space.room, |n.chain|, 0, Hops(off, len), ok)
    {
      hide FileSystem.Valid, FileSystem.T, InodeTable.MemoryOk, ListOk, Numbers, SameBytes, ByteAt, Took, Hops, Cost;
      hide InodeTable.SyncedBut, RecordsKept;
      InUseNotFree(inUse, free, frontier, ninodes, n.id);
      NumbersPositive(inUse, free, frontier, ninodes);
      InMemory(n);
      SyncMinus(n.id);
      ok, data := n.Read(off, len);
      SameRecords(old(fs.T()), fs.T());
      KeptBySame(old(fs.T()), fs.T());
      ListFrame(old(fs.T()), fs.T(), free, frontier);
      InUseMayChange(n);
      SyncKept({}, n.id);
      SyncMarked(n);
    }

    /** Writing a file whose number is in use. */
    method WriteFile(n: Inode, src: seq<byte>, off: nat) returns (ok: bool)
      requires Valid() && n.id in inUse && n.id in fs.inodes && fs.inodes[n.id] == n && n.HintOk()
      requires off + |src| < TWO32
      modifies n, fs`owner, fs`disk, fs.space
      ensures Valid() && n.HintOk()
      ensures n.nlinks == old(n.nlinks) && n.perm == old(n.perm) && n.kind == old(n.kind) && n.valid == old(n.valid)
      ensures ok ==> BytesWritten(old(fs.T()), fs.T(), n.id, off, src)
      ensures ok ==> n.size == if off + |src| > old(n.size) then off + |src| else old(n.size)
      ensures ok && old(n.EmptyOwnsNothing()) ==> n.EmptyOwnsNothing()
      ensures !ok ==> fs.space.room == 0
      ensures Took(old(fs.space.room), |old(n.chain)|, fs.space.room, |n.chain|, Blocks(off, |src|),
                   Hops(off, |src|), ok)
    {
      hide FileSystem.Valid, FileSystem.T, InodeTable.MemoryOk, ListOk, Numbers, BytesWritten, Took, Hops, Blocks, Cost;
      hide InodeTable.SyncedBut, RecordsKept;
      InUseNotFree(inUse, free, frontier, ninodes, n.id);
      NumbersPositive(inUse, free, frontier, ninodes);
      InMemory(n);
      SyncMinus(n.id);
      var count;
      ok, count := n.Write(src, off);
      OtherFileWritten(old(fs.T()), fs.T(), n.id, off, src[..count]);
      ListFrame(old(fs.T()), fs.T(), free, frontier);
      assert ok ==> src[..count] == src;
      KeptByOther(old(fs.T()), fs.T());
      InUseMayChange(n);
      SyncKept({}, n.id);
      SyncMarked(n);
    }

    /** Changing the metadata of an inode whose number is in use. */
    method Touch(n: Inode, nlinks: u16, kind: byte, dirty: bool)
      requires Valid() && n.id in inUse && n.id in fs.inodes && fs.inodes[n.id] == n
      modifies n`size, n`nlinks, n`perm, n`kind, n`valid, n`dirty
      ensures Listed() && SyncedBut(n.id) && (dirty ==> Valid())
      ensures fs.T() == old(fs.T()) && n.nlinks == nlinks && n.kind == kind && n.dirty == dirty
      ensures n.size == old(n.size) && n.perm == old(n.perm) && n.valid == old(n.valid)
    {
      hide FileSystem.Valid, FileSystem.T, InodeTable.MemoryOk, ListOk, Numbers, Inode.OwnsNothing;
      hide InodeTable.SyncedBut, RecordsKept;
      InUseNotFree(inUse, free, frontier, ninodes, n.id);
      NumbersPositive(inUse, free, frontier, ninodes);
      NotFile(n.id);
      InMemory(n);
      SyncMinus(n.id);
      n.SetMetadata(n.size, nlinks, n.perm, kind, n.valid, dirty);
      InUseMayChange(n);
      KeptBySame(fs.T(), fs.T());
      SyncKept({}, n.id);
      if dirty { SyncDirty(n.id); }
    }
  }

  lemma FilesFrame(t: Tree, t': Tree, free: seq<nat>, frontier: nat)
    requires SameFiles(t, t') && ListOk(t, free, frontier)
    ensures ListOk(t', free, frontier) && OtherFilesSame(t, t') && SameBytes(t, t')
  {
    hide ListOk, Rec;
    assert SameBytes(t, t');
    SameRecords(t, t');
    ListFrame(t, t', free, frontier);
  }

  /** No byte has changed, except in the table file and in file id. */
  ghost predicate AllButSame(t: Tree, t': Tree, id: nat)
  {
    forall k, o: nat :: k != 0 && k != id ==> ByteAt(t', k, o) == ByteAt(t, k, o)
  }

  lemma AllButRefl(t: Tree, id: nat)
    ensures AllButSame(t, t, id)
  {
  }

  lemma AllButTrans(t0: Tree, t1: Tree, t2: Tree, id: nat)
    requires AllButSame(t0, t1, id) && OtherFilesSame(t1, t2)
    ensures AllButSame(t0, t2, id)
  {
  }

  lemma DetachFrame(t: Tree, id: nat, free: seq<nat>, frontier: nat)
    requires TreeOk(t) && id in t.nodes && id != 0 && ListOk(t, free, frontier)
    ensures ListOk(DetachAll(t, id), free, frontier) && AllButSame(t, DetachAll(t, id), id)
    ensures RecordsKept(t, DetachAll(t, id), {})
  {
    hide ListOk, Rec, TreeOk, Target, DetachAll, FileBlock;
    var t' := DetachAll(t, id);
    DetachAllOk(t, id);
    OnlyTableMatters(t, t', free, frontier);
  }

  lemma OnlyTableMatters(t: Tree, t': Tree, free: seq<nat>, frontier: nat)
    requires ListOk(t, free, frontier) && forall o: nat :: ByteAt(t', 0, o) == ByteAt(t, 0, o)
    ensures ListOk(t', free, frontier) && RecordsKept(t, t', {})
  {
    hide ListOk, ByteAt, Decode;
    forall i ensures Rec(t', i) == Rec(t, i) {
      assert RecordBytes(t', i) == RecordBytes(t, i);
    }
    ListFrame(t, t', free, frontier);
  }

  lemma ZeroRecords(t: Tree, i: nat)
    requires forall o: nat :: ByteAt(t, 0, o) == 0
    ensures Rec(t, i).kind == 0
  {
    hide ByteAt;
    var s := RecordBytes(t, i);
    assert WordAt(s, 1) == 0;
  }

  lemma InitialList(t: Tree, t': Tree, d: Dinode)
    requires forall o: nat :: ByteAt(t, 0, o) == 0
    requires WellFormed(d) && LinksTo(d, 2) && BytesWritten(t, t', 0, 0, Encode(d))
    ensures ListOk(t', [], 2)
  {
    hide ByteAt, BytesWritten, Encode, Rec;
    RecordWritten(t, t', 0, d);
    forall n | 2 <= n ensures Rec(t', n).kind != ITYPE_NEXT_FREE_INODE {
      ZeroRecords(t, n);
    }
  }

  /** The first write of make_fs: record 0 of the inode table. */
  method Format(fs: FileSystem, file: Inode, garbage: Dinode) returns (ok: bool)
    requires file.Ready() && file.fs == fs && file.id == 0 && file.HintOk() && WellFormed(garbage)
    requires forall id, n :: FileBlock(fs.T(), id, n) == Filled(0)
    modifies fs`owner, fs`disk, fs.space, file
    ensures file.Ready() && file.HintOk() && (ok ==> ListOk(fs.T(), [], 2))
    ensures file.nlinks == old(file.nlinks) && file.perm == old(file.perm) && file.kind == old(file.kind)
    ensures file.valid == old(file.valid) && (old(file.dirty) ==> file.dirty)
    ensures ok && old(file.size) == 0 ==> file.size == DINODE_SIZE
    ensures old(fs.space.room) > 0 ==> ok && fs.space.room >= old(fs.space.room) - 1
  {
    hide TreeOk, Target, Space.Valid, ListOk, BytesWritten, Encode, FileBlock, Cost;
    FirstRecord(|file.chain|);
    var d := garbage.(kind := ITYPE_NEXT_FREE_INODE, nlinks := 1, size := 2);
    assert forall o: nat :: ByteAt(fs.T(), 0, o) == 0;
    var n;
    ok, n := file.Write(Encode(d), 0);
    if ok {
      assert Encode(d)[..n] == Encode(d);
      InitialList(old(fs.T()), fs.T(), d);
    }
  }

  lemma FirstRecord(len: nat)
    ensures Cost(len, true, 0, DINODE_SIZE) == 1 && Hops(0, DINODE_SIZE) == 0 && Blocks(0, DINODE_SIZE) == 1
  {
  }

  /** make_fs, up to unmount: it refuses a disk of fewer than 1024 blocks; otherwise, whatever
      the disk held, the new file system is consistent, with the root inode in use and all
      later numbers free. */
  method MakeFs(nblocks: u32, raw: map<u32, Block>, garbage: Dinode) returns (ok: bool, table: InodeTable?)
    requires nblocks >= MIN_CAPACITY ==>
               NoOverflow(nblocks) && forall b :: b in raw <==> GenericStart(nblocks) <= b < nblocks
    requires WellFormed(garbage)
    ensures ok <==> nblocks >= MIN_CAPACITY
    ensures ok ==> table != null && fresh(table) && table.Valid() && table.inUse == {1} && table.free == []
    ensures ok ==> table.frontier == 2 && table.ninodes == 2 && table.fs.inodes.Keys == {0, 1}
    ensures ok ==> table.fs.space.room >= 999
    ensures ok ==> var file := table.file;
                   file.size == 64 && file.nlinks == 1 && file.perm == 0 && file.kind == 1 && file.valid && file.dirty
    ensures ok ==> fresh(table.fs) && fresh(table.fs.space) && fresh(table.fs.inodes[0]) && fresh(table.fs.inodes[1])
    ensures ok ==> var root := table.fs.inodes[1];
                   root.size == 0 && root.perm == 0 && root.nlinks == 1 && root.kind == 2 && root.OwnsNothing()
                       && root.valid && root.dirty && root.HintOk()
  {
    hide FileSystem.Valid, FileSystem.T, ListOk, FileBlock, Inode.HintOk, Inode.OwnsNothing;
    ok, table := false, null;
    if nblocks < MIN_CAPACITY { return; }
    var fs, file := NewTable(nblocks, raw);
    ok := Format(fs, file, garbage);
    if !ok { return; }
    AddRoot(fs, file);
    table := new InodeTable(fs, file);
  }

  /** The root inode of make_fs. */
  method AddRoot(fs: FileSystem, file: Inode)
    requires file.Ready() && file.fs == fs && fs.inodes == map[0 := file] && file.HintOk() && ListOk(fs.T(), [], 2)
    modifies fs`inodes
    ensures fs.Valid() && fs.inodes.Keys == {0, 1} && fs.inodes[0] == file && file.HintOk() && ListOk(fs.T(), [], 2)
    ensures fresh(fs.inodes[1])
    ensures var root := fs.inodes[1];
            root.size == 0 && root.perm == 0 && root.nlinks == 1 && root.kind == 2 && root.OwnsNothing()
                && root.valid && root.dirty && root.HintOk()
  {
    hide TreeOk, Target, Space.Valid, ListOk, SameFiles, Holes;
    var root := fs.Open(1);
    FilesFrame(old(fs.T()), fs.T(), [], 2);
    root.SetMetadata(0, 1, 0, 2, true, true);
  }

  /** make_fs up to the first write: an empty disk with the inode table in memory. */
  method NewTable(nblocks: u32, raw: map<u32, Block>) returns (fs: FileSystem, file: Inode)
    requires nblocks >= MIN_CAPACITY && NoOverflow(nblocks)
    requires forall b :: b in raw <==> GenericStart(nblocks) <= b < nblocks
    ensures fresh(fs) && fresh(fs.space) && fresh(file) && fs.inodes == map[0 := file]
    ensures file.Ready() && file.fs == fs && file.id == 0 && file.HintOk()
    ensures forall id, n :: FileBlock(fs.T(), id, n) == Filled(0)
    ensures file.size == 0 && file.nlinks == 1 && file.perm == 0 && file.kind == 1 && file.valid && file.dirty
    ensures fs.space.room >= 1000
  {
    hide TreeOk, Target, Space.Valid, SameFiles, FileBlock, Holes;
    LayoutRoom(nblocks);
    fs := new FileSystem(nblocks, raw);
    ghost var t := fs.T();
    NewDiskZeros(t);
    file := fs.Open(0);
    StillZeros(t, fs.T());
    file.SetMetadata(0, 1, 0, 1, true, true);
  }

  /** On a new disk the hint of the very first file can be made stale. */
  method StaleHintOnNewDisk(nblocks: u32, raw: map<u32, Block>, x: byte) returns (file: Inode)
    requires nblocks >= MIN_CAPACITY && NoOverflow(nblocks)
    requires forall b :: b in raw <==> GenericStart(nblocks) <= b < nblocks
    ensures fresh(file) && file.Ready() && !file.HintOk() && file.cacheBlock !in file.fs.owner
  {
    hide FileSystem.Valid, FileBlock;
    var fs;
    fs, file := NewTable(nblocks, raw);
    file.StaleHint(x);
  }
}
