/** Directory operations (os/fs/nfs/inode.cc): __link, create, mkdir, link, unlink, and the
    conservation of link counts. */
module NfsDirectory {
  import opened Basics
  import opened NfsCommon
  import opened NfsSpace
  import opened NfsTree
  import opened Nfs
  import opened NfsCodec
  import opened NfsInodeTable
  import opened NfsNames

  const ROOT := 1
  const ITYPE_FILE: byte := 1
  const ITYPE_DIR: byte := 2
  const EINVAL := 22

  /** Entries name only inodes in use. */
  ghost predicate EntriesOk(dirs: Dirs, inUse: set<nat>)
  {
    forall d, j :: d in dirs && 0 <= j < |dirs[d]| && dirs[d][j].num != 0 ==> dirs[d][j].num in inUse
  }

  /** The link that make_fs gives the root, in no slot. */
  function Own(i: nat): (n: nat) { if i == ROOT then 1 else 0 }

  /** The link count of every inode is the number of slots naming it, and one more for the root. */
  ghost predicate CountsOk(nl: map<nat, nat>, dirs: Dirs)
  {
    forall i :: i in nl ==> nl[i] == |Refs(dirs, i)| + Own(i)
  }

  /** Type, permissions and size of an inode. */
  datatype Attr = Attr(kind: byte, perm: byte, size: nat)

  /** Directories, and no other inodes, have the type of one. */
  ghost predicate KindsOk(attrs: map<nat, Attr>, dirs: Dirs)
  {
    forall k :: k in attrs ==> attrs[k].perm == 0 && attrs[k].kind == if k in dirs then ITYPE_DIR else ITYPE_FILE
  }

  /** One inode has another size. */
  function Resized(attrs: map<nat, Attr>, d: nat, size: nat): (r: map<nat, Attr>)
  {
    if d in attrs then attrs[d := attrs[d].(size := size)] else attrs
  }

  /** A new inode of its type, empty; its directory may have grown by an entry. */
  function MadeAttrs(attrs: map<nat, Attr>, n: nat, isDir: bool, d: nat, dirs: Dirs): (r: map<nat, Attr>)
  {
    Resized(attrs[n := Attr(if isDir then ITYPE_DIR else ITYPE_FILE, 0, 0)], d,
            if d in dirs then DIRENT_SIZE * |dirs[d]| else 0)
  }

  lemma SizeStays(attrs: map<nat, Attr>, d: nat, size: nat)
    requires d in attrs ==> attrs[d].size == size
    ensures Resized(attrs, d, size) == attrs
  {
    if d in attrs { assert attrs[d] == attrs[d].(size := size); }
  }

  lemma KindsResized(attrs: map<nat, Attr>, dirs: Dirs, d: nat, size: nat, j: nat, e: Dirent)
    requires KindsOk(attrs, dirs) && d in dirs && j <= |dirs[d]|
    ensures KindsOk(Resized(attrs, d, size), dirs[d := PutEntry(dirs[d], j, e)])
  {
  }

  lemma KindsGrown(attrs: map<nat, Attr>, dirs: Dirs, k: nat, size: nat)
    requires KindsOk(attrs, dirs)
    ensures KindsOk(Resized(attrs, k, size), dirs)
  {
  }

  function Larger(a: nat, b: nat): (m: nat) { if a > b then a else b }

  lemma KindsNew(attrs: map<nat, Attr>, dirs: Dirs, n: nat, isDir: bool)
    requires KindsOk(attrs, dirs) && n !in dirs
    ensures var a := Attr(if isDir then ITYPE_DIR else ITYPE_FILE, 0, 0);
            var zeroed: map<nat, Attr> := attrs[n := Attr(0, 0, 0)];
            zeroed[n := a] == attrs[n := a] && KindsOk(attrs[n := a], if isDir then dirs[n := []] else dirs)
  {
  }

  lemma KindsGone(attrs: map<nat, Attr>, dirs: Dirs, d: nat, j: nat, gone: set<nat>)
    requires KindsOk(attrs, dirs)
    ensures KindsOk(attrs - gone, Emptied(dirs, d, j) - gone)
  {
  }

  /** In a new file system no slot names anything. */
  lemma NoSlots()
    ensures forall i: nat :: Refs(map[ROOT := []], i) == {}
  {
  }

  lemma LinkCounts(nl: map<nat, nat>, dirs: Dirs, d: nat, j: nat, e: Dirent)
    requires CountsOk(nl, dirs) && e.num in nl && 0 !in nl
    requires d in dirs && j <= |dirs[d]| && (j < |dirs[d]| ==> dirs[d][j].num == 0)
    ensures CountsOk(nl[e.num := nl[e.num] + 1], dirs[d := PutEntry(dirs[d], j, e)])
  {
    hide Refs, PutEntry;
    forall i | i in nl
      ensures nl[e.num := nl[e.num] + 1][i] == |Refs(dirs[d := PutEntry(dirs[d], j, e)], i)| + Own(i)
    {
      RefAdded(dirs, d, j, e, i);
    }
  }

  lemma UnlinkCounts(nl: map<nat, nat>, dirs: Dirs, d: nat, j: nat, e: Dirent)
    requires CountsOk(nl, dirs) && d in dirs && j < |dirs[d]| && e.num == 0 && 0 !in nl
    requires dirs[d][j].num in nl
    ensures var num := dirs[d][j].num;
            nl[num] > Own(num) && CountsOk(nl[num := nl[num] - 1], dirs[d := PutEntry(dirs[d], j, e)])
  {
    hide Refs, PutEntry;
    var num := dirs[d][j].num;
    RefRemoved(dirs, d, j, e, num);
    forall i | i in nl
      ensures nl[num := nl[num] - 1][i] == |Refs(dirs[d := PutEntry(dirs[d], j, e)], i)| + Own(i)
    {
      RefRemoved(dirs, d, j, e, i);
    }
  }

  /** Slot j is the first empty one, or the end if there is none. */
  ghost predicate FirstEmpty(s: seq<Dirent>, j: nat)
  {
    j <= |s| && (j < |s| ==> s[j].num == 0) && forall i :: 0 <= i < j ==> s[i].num != 0
  }

  /** The entry has been put into the first empty slot of directory d, and nothing else changed. */
  ghost predicate EntryPut(dirs: Dirs, dirs': Dirs, d: nat, j: nat, e: Dirent)
  {
    && d in dirs && FirstEmpty(dirs[d], j) && dirs' == dirs[d := PutEntry(dirs[d], j, e)]
  }

  lemma EntriesPut(dirs: Dirs, inUse: set<nat>, d: nat, j: nat, e: Dirent)
    requires EntriesOk(dirs, inUse) && d in dirs && j <= |dirs[d]| && (e.num == 0 || e.num in inUse)
    ensures EntriesOk(dirs[d := PutEntry(dirs[d], j, e)], inUse)
  {
  }

  /** With its last reference gone, no entry names the inode any more. */
  lemma LastLink(nl: map<nat, nat>, dirs: Dirs, inUse: set<nat>, num: nat)
    requires CountsOk(nl, dirs) && EntriesOk(dirs, inUse) && num in nl && nl[num] == 0
    ensures EntriesOk(dirs, inUse - {num}) && CountsOk(nl - {num}, dirs)
  {
    assert Refs(dirs, num) == {};
    forall d, j | d in dirs && 0 <= j < |dirs[d]| ensures dirs[d][j].num != num {
      InRefs(dirs, num, d, j);
    }
  }

  lemma SetTwice(nl: map<nat, nat>, num: nat, c: nat)
    ensures var once: map<nat, nat> := nl[num := 0];
            once[num := c] == nl[num := c]
  {
  }

  lemma NewInodeCounts(nl: map<nat, nat>, dirs: Dirs, inUse: set<nat>, num: nat)
    requires CountsOk(nl, dirs) && EntriesOk(dirs, inUse) && num !in inUse && num != 0 && num != ROOT
    ensures CountsOk(nl[num := 0], dirs)
  {
    NoRefs(dirs, num);
  }

  /** strcmp(_dirent.name, name) == 0 on an occupied slot. */
  predicate Names(e: Dirent, name: seq<byte>)
  {
    e.num != 0 && CString(e.name) == name
  }

  lemma NewDirOk(nl: map<nat, nat>, dirs: Dirs, inUse: set<nat>, d: nat)
    requires CountsOk(nl, dirs) && EntriesOk(dirs, inUse) && d !in dirs
    ensures CountsOk(nl, dirs[d := []]) && EntriesOk(dirs[d := []], inUse)
  {
    hide Refs;
    forall i ensures Refs(dirs[d := []], i) == Refs(dirs, i) { NewDirRefs(dirs, d, i); }
  }

  lemma EntriesGrow(dirs: Dirs, inUse: set<nat>, more: set<nat>)
    requires EntriesOk(dirs, inUse) && inUse <= more
    ensures EntriesOk(dirs, more)
  {
  }

  /** The 28 bytes __link stores for a name of at most 27 bytes. */
  function NameField(name: seq<byte>, rest: seq<byte>): (f: RawName)
    requires |name| + 1 + |rest| == MAX_NAME_LENGTH
  {
    name + [0] + rest
  }

  ghost predicate FirstMatch(s: seq<Dirent>, j: nat, name: seq<byte>)
  {
    && j < |s| && s[j].num != 0 && CString(s[j].name) == name
    && forall i :: 0 <= i < j && s[i].num != 0 ==> CString(s[i].name) != name
  }

  ghost predicate NoSuchName(dirs: Dirs, d: nat, name: seq<byte>)
  {
    d in dirs ==> forall i :: 0 <= i < |dirs[d]| && dirs[d][i].num != 0 ==> CString(dirs[d][i].name) != name
  }

  /** Slot j holds the first entry of that name, and it names inode num. */
  ghost predicate MatchedEntry(dirs: Dirs, d: nat, j: nat, name: seq<byte>, num: nat)
  {
    d in dirs && FirstMatch(dirs[d], j, name) && dirs[d][j].num == num
  }

  /** The directories after slot j of d has been emptied. */
  ghost function Emptied(dirs: Dirs, d: nat, j: nat): (r: Dirs)
  {
    if d in dirs && j < |dirs[d]| then dirs[d := PutEntry(dirs[d], j, Dirent(0, dirs[d][j].name))] else dirs
  }

  /** The inode is no directory, or one without entries. */
  predicate Childless(dirs: Dirs, d: nat)
  {
    d in dirs ==> forall j :: 0 <= j < |dirs[d]| ==> dirs[d][j].num == 0
  }

  /** With directory n gone, the counts of the others are right exactly if it had no entries. */
  lemma GoneDirectory(nl: map<nat, nat>, dirs: Dirs, inUse: set<nat>, d: nat, j: nat, n: nat)
    requires d in dirs && j < |dirs[d]| && d != n && n !in nl && n !in inUse && nl.Keys == inUse && 0 !in inUse
    requires CountsOk(nl, Emptied(dirs, d, j)) && EntriesOk(Emptied(dirs, d, j), inUse)
    ensures EntriesOk(Emptied(dirs, d, j) - {n}, inUse)
    ensures CountsOk(nl, Emptied(dirs, d, j) - {n}) <==> Childless(dirs, n)
  {
    hide Refs, PutEntry;
    var dirs' := Emptied(dirs, d, j);
    assert n in dirs ==> dirs'[n] == dirs[n];
    if Childless(dirs, n) {
      forall i | i in nl ensures |Refs(dirs' - {n}, i)| == |Refs(dirs', i)| {
        GoneRefs(dirs', n, i);
      }
    } else {
      var k :| 0 <= k < |dirs'[n]| && dirs'[n][k].num != 0;
      FewerRefs(dirs', n, k);
    }
  }

  lemma EmptiedIs(dirs: Dirs, d: nat, j: nat)
    requires d in dirs && j < |dirs[d]|
    ensures Emptied(dirs, d, j) == dirs[d := PutEntry(dirs[d], j, Dirent(0, dirs[d][j].name))]
    ensures Emptied(dirs, d, j) - {} == Emptied(dirs, d, j)
    ensures |PutEntry(dirs[d], j, Dirent(0, dirs[d][j].name))| == |dirs[d]|
  {
  }

  /** The last link of inode n is gone, and with it the inode. */
  lemma LastGone(nl: map<nat, nat>, dirs: Dirs, inUse: set<nat>, d: nat, j: nat, n: nat)
    requires d in dirs && j < |dirs[d]| && d != n && n in nl && nl[n] == 0
    requires nl.Keys == inUse && 0 !in inUse
    requires CountsOk(nl, Emptied(dirs, d, j)) && EntriesOk(Emptied(dirs, d, j), inUse)
    ensures d in dirs - {n} && j <= |(dirs - {n})[d]|
    ensures var left: Dirs := dirs - {n};
            left[d := PutEntry(left[d], j, Dirent(0, dirs[d][j].name))] == Emptied(dirs, d, j) - {n}
    ensures EntriesOk(Emptied(dirs, d, j) - {n}, inUse - {n})
    ensures CountsOk(nl - {n}, Emptied(dirs, d, j) - {n}) <==> Childless(dirs, n)
  {
    hide PutEntry, EntriesOk, CountsOk, Childless;
    LastLink(nl, Emptied(dirs, d, j), inUse, n);
    GoneDirectory(nl - {n}, dirs, inUse - {n}, d, j, n);
    var left: Dirs := dirs - {n};
    assert left[d := PutEntry(left[d], j, Dirent(0, dirs[d][j].name))] == Emptied(dirs, d, j) - {n};
  }

  lemma GoneRefs(dirs: Dirs, n: nat, i: nat)
    requires Childless(dirs, n) && i != 0
    ensures Refs(dirs - {n}, i) == Refs(dirs, i)
  {
    forall d: nat, j: nat ensures (d, j) in Refs(dirs - {n}, i) <==> (d, j) in Refs(dirs, i) { }
  }

  lemma FewerRefs(dirs: Dirs, n: nat, k: nat)
    requires n in dirs && k < |dirs[n]|
    ensures |Refs(dirs - {n}, dirs[n][k].num)| < |Refs(dirs, dirs[n][k].num)|
  {
    var i := dirs[n][k].num;
    InRefs(dirs, i, n, k);
    assert Refs(dirs - {n}, i) <= Refs(dirs, i) - {(n, k)};
    SubsetSize(Refs(dirs - {n}, i), Refs(dirs, i) - {(n, k)});
  }

  /** The address blocks that a directory of n slots needs for one slot more. */
  function DirHops(n: nat): (h: nat) { Hops(0, DIRENT_SIZE * (n + 1)) }

  lemma SlotHops(j: nat, n: nat)
    requires j <= n
    ensures Hops(DIRENT_SIZE * j, DIRENT_SIZE) <= DirHops(n) && Blocks(DIRENT_SIZE * j, DIRENT_SIZE) == 1
  {
    hide Hops, Blocks;
    HopsWithin(DIRENT_SIZE * j, DIRENT_SIZE, DIRENT_SIZE * (n + 1));
    OneBlock(j, DIRENT_SIZE);
  }

  class Namespace {
    const table: InodeTable
    var dirs: Dirs              // what the directory files contain

    /** Every inode in use is in memory. */
    ghost predicate Loaded()
      reads this, table, table.fs, table.fs.inodes.Values
    {
      forall k :: k in table.inUse ==>
        k in table.fs.inodes && table.fs.inodes[k].EmptyOwnsNothing() && table.fs.inodes[k].valid
    }

    /** `dirs` is what the directory files contain. */
    ghost predicate DirsOk()
      reads this, table, table.fs, table.fs.inodes.Values
    {
      forall d :: d in dirs ==>
        d in table.inUse && d in table.fs.inodes && table.fs.inodes[d].size == DIRENT_SIZE * |dirs[d]| &&
        dirs[d] == Slots(table.fs.T(), d, |dirs[d]|)
    }

    ghost predicate Base()
      reads this, table, table.fs, table.fs.space, table.fs.inodes.Values
    {
      table.Valid() && Loaded() && DirsOk()
    }

    ghost function NLinks(): (nl: map<nat, nat>)
      reads this, table, table.fs, table.fs.inodes.Values
    {
      map k | k in table.inUse && k in table.fs.inodes :: table.fs.inodes[k].nlinks as nat
    }

    ghost function Attrs(): (m: map<nat, Attr>)
      reads this, table, table.fs, table.fs.inodes.Values
    {
      map k | k in table.inUse && k in table.fs.inodes ::
        Attr(table.fs.inodes[k].kind, table.fs.inodes[k].perm, table.fs.inodes[k].size)
    }

    ghost predicate Valid()
      reads this, table, table.fs, table.fs.space, table.fs.inodes.Values
    {
      && Base() && ROOT in table.inUse && EntriesOk(dirs, table.inUse) && CountsOk(NLinks(), dirs)
      && KindsOk(Attrs(), dirs)
    }

    ghost predicate IsDir(dir: Inode)
      reads this, table, table.fs, dir
    {
      dir.id in dirs && dir.id in table.fs.inodes && table.fs.inodes[dir.id] == dir && dir.HintOk()
          && dir.fs == table.fs
    }

    /** The seek hint of every inode in use is usable. */
    ghost predicate HintsOk()
      reads this, table, table.fs, table.fs.inodes.Values
    {
      forall k :: k in table.inUse ==> k in table.fs.inodes && table.fs.inodes[k].HintOk()
    }

    /** The hints in memory. */
    ghost function Raws(): (m: map<nat, u32>)
      reads this, table, table.fs, table.fs.inodes.Values
    {
      map k | k in table.fs.inodes :: table.fs.inodes[k].cacheRaw
    }

    /** The numbers not in use whose in-memory inode still carries a hint. */
    ghost function Stale(): (s: set<nat>)
      reads this, table, table.fs, table.fs.inodes.Values
    {
      set k | k in table.fs.inodes && k != 0 && k !in table.inUse && table.fs.inodes[k].cacheRaw != NIL
    }

    /** One more entry still fits below 2^32 bytes. */
    ghost predicate RoomFor(dir: Inode)
      reads this
    {
      dir.id in dirs ==> DIRENT_SIZE * (|dirs[dir.id]| + 1) < TWO32
    }

    /** A new file system has one directory, the root, and it is empty. */
    constructor (table: InodeTable)
      requires table.Valid() && table.inUse == {ROOT} && ROOT in table.fs.inodes
      requires table.fs.inodes[ROOT].size == 0 && table.fs.inodes[ROOT].OwnsNothing() && table.fs.inodes[ROOT].valid
      requires table.fs.inodes.Keys == {0, ROOT} && table.fs.inodes[ROOT].HintOk() && table.fs.inodes[ROOT].nlinks == 1
      requires table.fs.inodes[ROOT].kind == ITYPE_DIR && table.fs.inodes[ROOT].perm == 0
      ensures Valid() && this.table == table && dirs == map[ROOT := []] && HintsOk() && Stale() == {}
    {
      hide InodeTable.Valid, FileSystem.T, Slots, Refs;
      NoSlots();
      this.table := table;
      dirs := map[ROOT := []];
    }

    lemma DirFacts(dir: Inode)
      requires Base() && IsDir(dir)
      ensures dir.id in dirs && dir.size == DIRENT_SIZE * |dirs[dir.id]| && dir.id in table.inUse && dir.id != 0
      ensures dir.EmptyOwnsNothing() && dir.valid && 0 !in dirs
      ensures dir.id in Attrs() && Attrs()[dir.id].size == DIRENT_SIZE * |dirs[dir.id]|
      ensures forall k :: k in table.fs.inodes && k != dir.id ==> table.fs.inodes[k] != dir
    {
      hide TreeOk, Target, Space.Valid, ListOk, Slots;
    }

    /** Between two states, no in-memory inode but n has changed. */
    twostate predicate OnlyInode(n: Inode)
      reads this, table, table.fs, table.fs.inodes.Values
    {
      && table.fs.inodes == old(table.fs.inodes) && table.inUse == old(table.inUse)
      && forall k :: k in table.fs.inodes && k != n.id ==> unchanged(table.fs.inodes[k])
    }

    twostate lemma LoadedKept(n: Inode)
      requires old(Loaded()) && OnlyInode(n) && n.EmptyOwnsNothing() && n.valid
      requires n.id in table.fs.inodes && table.fs.inodes[n.id] == n
      ensures Loaded()
    {
      hide Inode.OwnsNothing;
    }

    /** Only the hint of inode n, which is in use, may have changed. */
    twostate lemma HintsKept(n: Inode)
      requires table.fs.inodes == old(table.fs.inodes) && table.inUse == old(table.inUse) && 0 !in table.inUse
      requires forall k :: k in table.fs.inodes && k != 0 && k != n.id ==> SameHint(table.fs.inodes[k])
      requires n.id in table.inUse && n.id in table.fs.inodes && table.fs.inodes[n.id] == n
      requires n.HintOk() && old(n.HintOk())
      ensures HintsOk() == old(HintsOk()) && Stale() == old(Stale())
    {
      forall k | k in table.fs.inodes && k != 0 && k != n.id
        ensures table.fs.inodes[k].HintOk() == old(table.fs.inodes[k].HintOk())
        ensures table.fs.inodes[k].cacheRaw == old(table.fs.inodes[k].cacheRaw)
      {
        assert SameHint(table.fs.inodes[k]);
      }
    }

    twostate predicate SameHint(n: Inode)
      reads n
    {
      && n.cacheRaw == old(n.cacheRaw) && n.cacheOffset == old(n.cacheOffset) && n.cacheBlock == old(n.cacheBlock)
      && n.cachePos == old(n.cachePos) && n.chain == old(n.chain)
    }

    twostate lemma MetaSet(n: Inode)
      requires OnlyInode(n) && n.id in table.fs.inodes && table.fs.inodes[n.id] == n && n.id in table.inUse
      requires n.size == old(n.size) && n.perm == old(n.perm)
      ensures NLinks() == old(NLinks())[n.id := n.nlinks as nat]
      ensures Attrs() == old(Attrs())[n.id := Attr(n.kind, n.perm, n.size)]
      ensures n.kind == old(n.kind) ==> Attrs() == old(Attrs())
    {
    }

    /** No hint has changed. */
    twostate lemma HintsSet(n: Inode)
      requires OnlyInode(n) && n.id in table.fs.inodes && table.fs.inodes[n.id] == n && SameHint(n)
      ensures HintsOk() == old(HintsOk()) && Stale() == old(Stale())
    {
    }

    twostate lemma LinksKept(n: Inode)
      requires OnlyInode(n) && n.id in table.fs.inodes && table.fs.inodes[n.id] == n && n.nlinks == old(n.nlinks)
      requires n.kind == old(n.kind) && n.perm == old(n.perm)
      ensures NLinks() == old(NLinks()) && Attrs() == Resized(old(Attrs()), n.id, n.size)
      ensures n.size == old(n.size) ==> Attrs() == old(Attrs())
    {
    }

    twostate lemma DirsKept(n: Inode)
      requires old(DirsOk()) && OnlyInode(n) && n.id in table.fs.inodes && table.fs.inodes[n.id] == n
      requires dirs == old(dirs) && n.size == old(n.size) && SameBytes(old(table.fs.T()), table.fs.T())
      ensures DirsOk()
    {
      hide Slots, SameBytes, FileSystem.T;
      SlotsSame(old(table.fs.T()), table.fs.T());
    }

    twostate lemma DirsPut(n: Inode, new j: nat, new e: Dirent)
      requires old(DirsOk()) && OnlyInode(n) && n.id in table.fs.inodes && table.fs.inodes[n.id] == n
      requires n.id in old(dirs) && j <= |old(dirs)[n.id]|
      requires dirs == old(dirs)[n.id := PutEntry(old(dirs)[n.id], j, e)] && n.size == DIRENT_SIZE * |dirs[n.id]|
      requires BytesWritten(old(table.fs.T()), table.fs.T(), n.id, DIRENT_SIZE * j, EncodeDirent(e))
      ensures DirsOk()
    {
      hide Slots, BytesWritten, FileSystem.T, EncodeDirent;
      EntryWritten(old(table.fs.T()), table.fs.T(), n.id, |old(dirs)[n.id]|, j, e);
      OtherDirsSame(old(table.fs.T()), table.fs.T(), n.id, DIRENT_SIZE * j, EncodeDirent(e));
    }

    method ReadEntry(dir: Inode, j: nat) returns (ok: bool, e: Dirent)
      requires Base() && IsDir(dir) && j < |dirs[dir.id]| && DIRENT_SIZE * |dirs[dir.id]| < TWO32
      modifies dir`addrs, dir`nextAddrBlock, dir`dirty, dir`chain, dir`cacheRaw, dir`cacheOffset, dir`cacheBlock
      modifies dir`cachePos
      modifies table.fs`owner, table.fs`disk, table.fs.space
      ensures Base() && IsDir(dir) && NLinks() == old(NLinks()) && Attrs() == old(Attrs())
      ensures ok ==> e == dirs[dir.id][j]
      ensures HintsOk() == old(HintsOk()) && Stale() == old(Stale()) && (!ok ==> table.fs.space.room == 0)
      ensures Untouched(old(table.fs.T()), table.fs.T(), {})
      ensures Took(old(table.fs.space.room), |old(dir.chain)|, table.fs.space.room, |dir.chain|, 0,
                   DirHops(|old(dirs)[dir.id]|), ok)
    {
      hide InodeTable.Valid, SameBytes, ByteAt, DecodeDirent, Slots, FileSystem.T, Untouched, Took, Hops, DirHops;
      hide Namespace.Loaded, Namespace.DirsOk, Namespace.NLinks, Namespace.Attrs, Namespace.HintsOk, Namespace.Stale;
      DirFacts(dir);
      InUsePositive();
      e := Dirent(0, seq(28, i => 0));
      var data;
      ok, data := table.ReadFile(dir, DIRENT_SIZE * j, DIRENT_SIZE);
      SlotHops(j, |dirs[dir.id]|);
      TookMore(old(table.fs.space.room), |old(dir.chain)|, table.fs.space.room, |dir.chain|, 0,
               Hops(DIRENT_SIZE * j, DIRENT_SIZE), 0, DirHops(|dirs[dir.id]|), ok);
      LoadedKept(dir);
      DirsKept(dir);
      LinksKept(dir);
      HintsKept(dir);
      SameUntouched(old(table.fs.T()), table.fs.T());
      if ok {
        DirSlot(dir, j, old(table.fs.T()));
        assert data == DirentBytes(old(table.fs.T()), dir.id, j);
        e := DecodeDirent(data);
      }
    }

    lemma DirSlot(dir: Inode, j: nat, t: Tree)
      requires DirsOk() && dir.id in dirs && j < |dirs[dir.id]| && SameBytes(t, table.fs.T())
      ensures dirs[dir.id][j] == DecodeDirent(DirentBytes(t, dir.id, j))
    {
      hide DecodeDirent, SameBytes, FileSystem.T, DirentBytes;
      SlotsSame(t, table.fs.T());
      assert dirs[dir.id][j] == Slots(t, dir.id, |dirs[dir.id]|)[j];
    }

    /** The search loop of __link: the first empty slot, or the end of the directory. */
    method FindEmpty(dir: Inode) returns (ok: bool, j: nat)
      requires Base() && IsDir(dir) && DIRENT_SIZE * |dirs[dir.id]| < TWO32
      modifies dir`addrs, dir`nextAddrBlock, dir`dirty, dir`chain, dir`cacheRaw, dir`cacheOffset, dir`cacheBlock
      modifies dir`cachePos
      modifies table.fs`owner, table.fs`disk, table.fs.space
      ensures Base() && IsDir(dir) && NLinks() == old(NLinks()) && Attrs() == old(Attrs())
      ensures ok ==> FirstEmpty(dirs[dir.id], j)
      ensures HintsOk() == old(HintsOk()) && Stale() == old(Stale()) && (!ok ==> table.fs.space.room == 0)
      ensures Untouched(old(table.fs.T()), table.fs.T(), {})
      ensures Took(old(table.fs.space.room), |old(dir.chain)|, table.fs.space.room, |dir.chain|, 0,
                   DirHops(|old(dirs)[dir.id]|), ok)
    {
      hide Namespace.Base, Namespace.IsDir, Namespace.NLinks, Namespace.Attrs, Namespace.HintsOk, Namespace.Stale;
      hide Untouched, FileSystem.T, Took, DirHops;
      DirFacts(dir);
      UntouchedRefl(table.fs.T(), {});
      ghost var h := DirHops(|dirs[dir.id]|);
      TookNothing(table.fs.space.room, table.fs.space.room, |dir.chain|, h);
      ok, j := true, 0;
      while DIRENT_SIZE * j < dir.size
        invariant Base() && IsDir(dir) && j <= |dirs[dir.id]| && NLinks() == old(NLinks())
        invariant Attrs() == old(Attrs())
        invariant forall i :: 0 <= i < j ==> dirs[dir.id][i].num != 0
        invariant ok && HintsOk() == old(HintsOk()) && Stale() == old(Stale())
        invariant Untouched(old(table.fs.T()), table.fs.T(), {})
        invariant Took(old(table.fs.space.room), |old(dir.chain)|, table.fs.space.room, |dir.chain|, 0, h, true)
      {
        var e;
        ghost var t, room, len := table.fs.T(), table.fs.space.room, |dir.chain|;
        ok, e := ReadEntry(dir, j);
        TookTrans(old(table.fs.space.room), |old(dir.chain)|, room, len, table.fs.space.room, |dir.chain|, 0, 0, h, ok);
        UntouchedTrans(old(table.fs.T()), t, table.fs.T(), {}, {});
        if !ok || e.num == 0 { return; }
        j := j + 1;
      }
    }

    /** The search loop of unlink: the first occupied slot with this name. */
    method FindName(dir: Inode, name: seq<byte>) returns (ok: bool, found: bool, j: nat, e: Dirent)
      requires Base() && IsDir(dir) && DIRENT_SIZE * |dirs[dir.id]| < TWO32
      modifies dir`addrs, dir`nextAddrBlock, dir`dirty, dir`chain, dir`cacheRaw, dir`cacheOffset, dir`cacheBlock
      modifies dir`cachePos
      modifies table.fs`owner, table.fs`disk, table.fs.space
      ensures Base() && IsDir(dir) && NLinks() == old(NLinks()) && Attrs() == old(Attrs())
      ensures ok && found ==> FirstMatch(dirs[dir.id], j, name) && e == dirs[dir.id][j]
      ensures ok && !found ==> NoSuchName(dirs, dir.id, name)
      ensures HintsOk() == old(HintsOk()) && Stale() == old(Stale()) && (!ok ==> table.fs.space.room == 0)
      ensures Untouched(old(table.fs.T()), table.fs.T(), {})
      ensures Took(old(table.fs.space.room), |old(dir.chain)|, table.fs.space.room, |dir.chain|, 0,
                   DirHops(|old(dirs)[dir.id]|), ok)
    {
      hide Namespace.Base, Namespace.IsDir, Namespace.NLinks, Namespace.Attrs, CString, Namespace.HintsOk;
      hide Namespace.Stale, Untouched, FileSystem.T, Took, DirHops;
      DirFacts(dir);
      UntouchedRefl(table.fs.T(), {});
      ghost var h := DirHops(|dirs[dir.id]|);
      TookNothing(table.fs.space.room, table.fs.space.room, |dir.chain|, h);
      ok, found, j, e := true, false, 0, Dirent(0, seq(28, i => 0));
      while DIRENT_SIZE * j < dir.size
        invariant Base() && IsDir(dir) && j <= |dirs[dir.id]| && NLinks() == old(NLinks())
        invariant Attrs() == old(Attrs())
        invariant forall i :: 0 <= i < j && dirs[dir.id][i].num != 0 ==> CString(dirs[dir.id][i].name) != name
        invariant ok && HintsOk() == old(HintsOk()) && Stale() == old(Stale())
        invariant Untouched(old(table.fs.T()), table.fs.T(), {})
        invariant Took(old(table.fs.space.room), |old(dir.chain)|, table.fs.space.room, |dir.chain|, 0, h, true)
      {
        ghost var t, room, len := table.fs.T(), table.fs.space.room, |dir.chain|;
        ok, e := ReadEntry(dir, j);
        TookTrans(old(table.fs.space.room), |old(dir.chain)|, room, len, table.fs.space.room, |dir.chain|, 0, 0, h, ok);
        UntouchedTrans(old(table.fs.T()), t, table.fs.T(), {}, {});
        if !ok { return; }
        if Names(e, name) {
          found := true;
          return;
        }
        j := j + 1;
      }
    }

    /** write(&dirent, offset, sizeof(dirent)). */
    method WriteEntry(dir: Inode, j: nat, e: Dirent) returns (ok: bool)
      requires Base() && IsDir(dir) && j <= |dirs[dir.id]| && DIRENT_SIZE * (|dirs[dir.id]| + 1) < TWO32
      modifies this, dir, table.fs`owner, table.fs`disk, table.fs.space
      ensures ok ==> Base() && IsDir(dir) && NLinks() == old(NLinks())
      ensures ok ==> dirs == old(dirs)[dir.id := PutEntry(old(dirs)[dir.id], j, e)]
      ensures ok ==> Attrs() == Resized(old(Attrs()), dir.id, DIRENT_SIZE * |dirs[dir.id]|)
      ensures dir.kind == old(dir.kind)
      ensures ok ==> HintsOk() == old(HintsOk()) && Stale() == old(Stale())
      ensures ok ==> Untouched(old(table.fs.T()), table.fs.T(), {dir.id})
      ensures !ok ==> table.fs.space.room == 0
      ensures Took(old(table.fs.space.room), |old(dir.chain)|, table.fs.space.room, |dir.chain|, 1,
                   DirHops(|old(dirs)[dir.id]|), ok)
    {
      hide InodeTable.Valid, BytesWritten, EncodeDirent, Inode.HintOk, Inode.OwnsNothing, FileSystem.T, Untouched;
      hide Took, Hops, Blocks, DirHops;
      hide Namespace.Loaded, Namespace.DirsOk, Namespace.NLinks, Namespace.Attrs, Namespace.HintsOk, Namespace.Stale;
      DirFacts(dir);
      ok := table.WriteFile(dir, EncodeDirent(e), DIRENT_SIZE * j);
      SlotHops(j, |dirs[dir.id]|);
      TookMore(old(table.fs.space.room), |old(dir.chain)|, table.fs.space.room, |dir.chain|, 1,
               Hops(DIRENT_SIZE * j, DIRENT_SIZE), 1, DirHops(|dirs[dir.id]|), ok);
      if !ok { return; }
      dirs := dirs[dir.id := PutEntry(dirs[dir.id], j, e)];
      LoadedKept(dir);
      DirsPut(dir, j, e);
      LinksKept(dir);
      InUsePositive();
      HintsKept(dir);
      WrittenUntouched(old(table.fs.T()), table.fs.T(), dir.id, DIRENT_SIZE * j, EncodeDirent(e));
    }

    ghost predicate InUse(n: Inode)
      reads this, table, table.fs
    {
      n.id in table.inUse && n.id in table.fs.inodes && table.fs.inodes[n.id] == n
    }

    lemma Distinct(n: Inode)
      requires Base() && InUse(n)
      ensures forall k :: k in table.fs.inodes && k != n.id ==> table.fs.inodes[k] != n
      ensures n.id != 0
    {
      hide TreeOk, Target, Space.Valid, ListOk, Slots;
    }

    /** metadata.nlinks and type of an inode in use, which is marked dirty. */
    method SetLinks(n: Inode, nlinks: u16, kind: byte)
      requires Base() && InUse(n)
      modifies n`size, n`nlinks, n`perm, n`kind, n`valid, n`dirty
      ensures Attrs() == old(Attrs())[n.id := Attr(kind, old(n.perm), old(n.size))]
      ensures kind == old(n.kind) ==> Attrs() == old(Attrs())
      ensures Base() && InUse(n) && NLinks() == old(NLinks())[n.id := nlinks as nat]
      ensures n.kind == kind && n.size == old(n.size) && n.nlinks == nlinks && table.fs.T() == old(table.fs.T())
      ensures HintsOk() == old(HintsOk()) && Stale() == old(Stale())
    {
      hide InodeTable.Valid, Slots, FileSystem.T, Namespace.Loaded, Namespace.DirsOk, Namespace.NLinks, Namespace.Attrs;
      hide Namespace.HintsOk, Namespace.Stale, Inode.HintOk, SameBytes, ByteAt, Holes, InodeTable.Listed;
      Distinct(n);
      FileFacts(n);
      InUsePositive();
      SameBytesRefl(table.fs.T());
      table.Touch(n, nlinks, kind, true);
      LoadedKept(n);
      DirsKept(n);
      MetaSet(n);
      HintsSet(n);
    }

    /** __link: one more link, in the first empty slot or at the end. */
    method Link(dir: Inode, n: Inode, field: RawName) returns (ok: bool, j: nat)
      requires Valid() && IsDir(dir) && InUse(n) && n.nlinks < 0xFFFF && n.id < TWO32 && RoomFor(dir)
      modifies this, dir, n, table.fs`owner, table.fs`disk, table.fs.space
      ensures ok ==> Valid() && NLinks() == old(NLinks())[n.id := old(n.nlinks) as nat + 1]
      ensures ok ==> EntryPut(old(dirs), dirs, dir.id, j, Dirent(n.id, field)) && IsDir(dir)
      ensures ok ==> Attrs() == Resized(old(Attrs()), dir.id, DIRENT_SIZE * |dirs[dir.id]|) && n.kind == old(n.kind)
      ensures n != dir ==> n.cacheRaw == old(n.cacheRaw)
      ensures ok ==> HintsOk() == old(HintsOk()) && Stale() == old(Stale())
      ensures ok ==> Untouched(old(table.fs.T()), table.fs.T(), {dir.id})
      ensures !ok ==> table.fs.space.room == 0
      ensures Took(old(table.fs.space.room), |old(dir.chain)|, table.fs.space.room, |dir.chain|, 1,
                   DirHops(|old(dirs)[dir.id]|), ok)
    {
      hide Namespace.Base, Namespace.NLinks, Namespace.Attrs, EntriesOk, CountsOk, PutEntry, Namespace.HintsOk;
      hide Namespace.Stale, Untouched, FileSystem.T, Took, DirHops, KindsOk, Resized;
      ghost var h, room0, len0 := DirHops(|dirs[dir.id]|), table.fs.space.room, |dir.chain|;
      ghost var nl := NLinks();
      ghost var before := dirs;
      LinkFacts(n);
      var e := Dirent(n.id, field);
      ghost var attrs: map<nat, Attr> := Attrs();
      SetLinks(n, n.nlinks + 1, n.kind);
      ok, j := FindEmpty(dir);
      ghost var t, room, len := table.fs.T(), table.fs.space.room, |dir.chain|;
      TookMore(room0, len0, room, len, 0, h, 1, h, ok);
      if !ok { return; }
      ok := WriteEntry(dir, j, e);
      TookTrans(room0, len0, room, len, table.fs.space.room, |dir.chain|, 0, 1, h, ok);
      if !ok { return; }
      UntouchedTrans(old(table.fs.T()), t, table.fs.T(), {}, {dir.id});
      LinkCounts(nl, before, dir.id, j, e);
      KindsResized(attrs, before, dir.id, DIRENT_SIZE * |dirs[dir.id]|, j, e);
      EntriesPut(before, table.inUse, dir.id, j, e);
    }

    lemma LinkFacts(n: Inode)
      requires Base() && InUse(n)
      ensures n.id in NLinks() && NLinks()[n.id] == n.nlinks && 0 !in NLinks() && NLinks().Keys == table.inUse
    {
      hide TreeOk, Target, Space.Valid, ListOk, Slots;
    }

    /** Between two states, only the table file and inode n have changed, n being new. */
    twostate predicate OnlyNew(new n: Inode)
      reads this, table, table.fs, table.fs.inodes.Values
    {
      && table.fs.inodes == old(table.fs.inodes)[n.id := n] && dirs == old(dirs)
      && table.inUse == old(table.inUse) + {n.id} && n.id !in old(table.inUse)
      && 0 !in old(table.inUse)
      && forall k :: k in old(table.fs.inodes) && k != 0 && k != n.id ==> unchanged(table.fs.inodes[k])
    }

    twostate lemma StillLoaded(new n: Inode)
      requires old(Loaded()) && OnlyNew(n) && n.EmptyOwnsNothing() && n.valid
      ensures Loaded()
    {
      hide Inode.OwnsNothing;
    }

    twostate lemma SameDirs(new n: Inode)
      requires old(Loaded()) && old(DirsOk()) && OnlyNew(n) && OtherFilesSame(old(table.fs.T()), table.fs.T())
      ensures DirsOk()
    {
      hide Slots, OtherFilesSame, FileSystem.T, Inode.OwnsNothing;
      OthersSlots(old(table.fs.T()), table.fs.T());
    }

    twostate lemma SameLinks(new n: Inode)
      requires old(Loaded()) && OnlyNew(n)
      ensures NLinks() == old(NLinks())[n.id := n.nlinks as nat]
      ensures Attrs() == old(Attrs())[n.id := Attr(n.kind, n.perm, n.size)]
    {
      hide Inode.OwnsNothing;
    }

    /** The hint of a reused in-memory inode is the one it had. */
    twostate lemma SameHints(new n: Inode)
      requires OnlyNew(n) && n.id != 0 && (n.HintOk() <==> n.cacheRaw == NIL)
      requires n.cacheRaw == if n.id in old(Raws()) then old(Raws())[n.id] else NIL
      ensures old(HintsOk()) ==> (HintsOk() <==> n.id !in old(Stale()))
      ensures Stale() == old(Stale()) - {n.id} && (n.cacheRaw != NIL <==> n.id in old(Stale()))
    {
    }

    /** alloc_inode, seen from the name space: only the table and the new inode change. */
    method TakeInode() returns (ok: bool, n: Inode)
      requires table.Valid() && 0 !in table.inUse && (table.frontier + 3) * DINODE_SIZE < TWO32
      modifies table, table.fs, table.fs.space, table.fs.inodes.Values
      ensures ok ==> table.Valid() && OnlyNew(n) && OtherFilesSame(old(table.fs.T()), table.fs.T()) && InUse(n)
      ensures ok ==> n.id != 0
      ensures ok ==> n.size == 0 && n.nlinks == 0 && n.perm == 0 && n.kind == 0
      ensures ok ==> n.valid && n.OwnsNothing() && n.fs == table.fs
      ensures ok ==> (n in old(table.fs.inodes.Values) || fresh(n)) && table.frontier <= old(table.frontier) + 1
      ensures ok ==> (n.HintOk() <==> n.cacheRaw == NIL)
      ensures ok ==> n.cacheRaw == if n.id in old(Raws()) then old(Raws())[n.id] else NIL
      ensures !ok ==> table.fs.space.room == 0
      ensures Took(old(table.fs.space.room), |old(table.file.chain)|, table.fs.space.room, |table.file.chain|, 1,
                   TableHops(old(table.frontier)), ok)
    {
      hide InodeTable.Valid, OtherFilesSame, FileSystem.T, FileSystem.Valid, Inode.OwnsNothing, Entry, Inode.HintOk;
      hide Took, TableHops;
      ok, n := table.AllocInode();
    }

    /** alloc_inode, in create and mkdir. */
    method FreshInode(dir: Inode) returns (ok: bool, n: Inode)
      requires Base() && IsDir(dir) && (table.frontier + 3) * DINODE_SIZE < TWO32
      modifies table, table.fs, table.fs.space, table.fs.inodes.Values
      ensures ok ==> Base() && InUse(n) && n.id !in old(table.inUse) && n.size == 0 && n.nlinks == 0 && n.perm == 0
      ensures ok ==> table.inUse == old(table.inUse) + {n.id} && NLinks() == old(NLinks())[n.id := 0]
      ensures ok ==> Attrs() == old(Attrs())[n.id := Attr(0, 0, 0)]
      ensures ok ==> IsDir(dir) && (n in old(table.fs.inodes.Values) || fresh(n))
      ensures ok ==> table.frontier <= old(table.frontier) + 1
      ensures ok ==> Stale() == old(Stale()) - {n.id} && (old(HintsOk()) ==> (HintsOk() <==> n.id !in old(Stale())))
      ensures ok ==> (n.cacheRaw != NIL <==> n.id in old(Stale()))
      ensures ok ==> table.fs.inodes == old(table.fs.inodes)[n.id := n]
      ensures ok ==> Untouched(old(table.fs.T()), table.fs.T(), {0}) && n.OwnsNothing() && dir.chain == old(dir.chain)
      ensures !ok ==> table.fs.space.room == 0
      ensures Took(old(table.fs.space.room), |old(table.file.chain)|, table.fs.space.room, |table.file.chain|, 1,
                   TableHops(old(table.frontier)), ok)
    {
      hide InodeTable.Valid, OtherFilesSame, FileSystem.T, Namespace.Loaded, Namespace.DirsOk, Inode.OwnsNothing;
      hide Namespace.NLinks, Namespace.Attrs, Untouched, Took, TableHops;
      hide Namespace.HintsOk, Namespace.Stale, Inode.HintOk, Namespace.Raws;
      DirsInUse();
      InUsePositive();
      DirFacts(dir);
      ok, n := TakeInode();
      if !ok { return; }
      StillLoaded(n);
      SameDirs(n);
      SameLinks(n);
      SameHints(n);
      OthersUntouched(old(table.fs.T()), table.fs.T());
    }

    /** The new inode of create and mkdir, not yet linked. */
    method NewInode(dir: Inode, isDir: bool) returns (ok: bool, n: Inode)
      requires Valid() && IsDir(dir) && (table.frontier + 3) * DINODE_SIZE < TWO32
      modifies this, table, table.fs, table.fs.space, table.fs.inodes.Values
      ensures ok ==> Valid() && IsDir(dir) && InUse(n) && n.id !in old(table.inUse) && n.nlinks == 0 && n.id < TWO32
      ensures ok ==> table.inUse == old(table.inUse) + {n.id} && NLinks() == old(NLinks())[n.id := 0]
      ensures ok ==> dirs == if isDir then old(dirs)[n.id := []] else old(dirs)
      ensures ok ==> n.kind == (if isDir then ITYPE_DIR else ITYPE_FILE)
      ensures ok ==> Attrs() == old(Attrs())[n.id := Attr(if isDir then ITYPE_DIR else ITYPE_FILE, 0, 0)]
      ensures ok ==> (n in old(table.fs.inodes.Values) || fresh(n))
      ensures ok ==> table.frontier <= old(table.frontier) + 1
      ensures ok ==> table.fs.inodes == old(table.fs.inodes)[n.id := n]
      ensures ok ==> Stale() == old(Stale()) - {n.id} && (old(HintsOk()) ==> (HintsOk() <==> n.id !in old(Stale())))
      ensures ok ==> (n.cacheRaw != NIL <==> n.id in old(Stale()))
      ensures ok ==> Untouched(old(table.fs.T()), table.fs.T(), {0}) && n.OwnsNothing() && dir.chain == old(dir.chain)
      ensures !ok ==> table.fs.space.room == 0
      ensures Took(old(table.fs.space.room), |old(table.file.chain)|, table.fs.space.room, |table.file.chain|, 1,
                   TableHops(old(table.frontier)), ok)
    {
      hide Namespace.Base, Namespace.NLinks, Namespace.Attrs, CountsOk, EntriesOk, Inode.HintOk, Namespace.HintsOk;
      hide Namespace.Stale, Untouched, FileSystem.T, Took, TableHops;
      hide KindsOk;
      hide InodeTable.Valid, FileSystem.Valid, Holes, Namespace.Raws;
      ghost var nl, inUse := NLinks(), table.inUse;
      ghost var attrs: map<nat, Attr> := Attrs();
      DirsInUse();
      ok, n := FreshInode(dir);
      if !ok { return; }
      NumberBound();
      NewInodeCounts(nl, dirs, inUse, n.id);
      if isDir {
        NewDirOk(NLinks(), dirs, inUse, n.id);
        AddDir(n);
      }
      EntriesGrow(dirs, inUse, table.inUse);
      Distinct(n);
      SetLinks(n, 0, if isDir then ITYPE_DIR else ITYPE_FILE);
      SetTwice(nl, n.id, 0);
      KindsNew(attrs, old(dirs), n.id, isDir);
    }

    lemma DirsInUse()
      requires Base()
      ensures forall d :: d in dirs ==> d in table.inUse
    {
      hide InodeTable.Valid, Slots;
    }

    lemma InUsePositive()
      requires Base()
      ensures 0 !in table.inUse
    {
      hide TreeOk, Target, Space.Valid, ListOk, Slots;
    }

    lemma NumberBound()
      requires Base()
      ensures forall k :: k in table.inUse ==> 0 < k < TWO32
    {
      hide TreeOk, Target, Space.Valid, ListOk, Slots;
    }

    method AddDir(n: Inode)
      requires Base() && InUse(n) && n.id !in dirs && n.size == 0
      modifies this
      ensures Base() && InUse(n) && dirs == old(dirs)[n.id := []] && NLinks() == old(NLinks())
      ensures Attrs() == old(Attrs())
      ensures HintsOk() == old(HintsOk()) && Stale() == old(Stale())
    {
      hide InodeTable.Valid, Slots, FileSystem.T;
      dirs := dirs[n.id := []];
    }

    /** The clear blocks that suffice for a new entry in a directory, and for a new inode. */
    ghost function LinkNeed(dir: Inode): (n: nat)
      reads this, dir
    {
      if dir.id in dirs then Need(|dir.chain|, DirHops(|dirs[dir.id]|), 1) else 0
    }

    ghost function CreateNeed(dir: Inode): (n: nat)
      reads this, dir, table, table.file
    {
      LinkNeed(dir) + Need(|table.file.chain|, TableHops(table.frontier), 1)
    }

    /** The clear blocks that suffice to remove an entry, and the inode with it. */
    ghost function UnlinkNeed(dir: Inode): (n: nat)
      reads this, dir, table, table.file
    {
      LinkNeed(dir) + Need(|table.file.chain|, TableHops(table.frontier), 3)
    }

    /** create and mkdir: a name that is too long is refused; otherwise a number that was
        not in use gets exactly one link, under the given name. */
    method Create(dir: Inode, name: seq<byte>, rest: seq<byte>, isDir: bool)
      returns (ok: bool, r: int, n: Inode, j: nat)
      requires Valid() && IsDir(dir) && RoomFor(dir) && (table.frontier + 3) * DINODE_SIZE < TWO32
      requires |name| <= MAX_NAME_LENGTH ==> |name| + 1 + |rest| == MAX_NAME_LENGTH && 0 !in name
      modifies this, table, table.fs, table.fs.space, table.fs.inodes.Values
      ensures |name| > MAX_NAME_LENGTH ==> ok && r == -EINVAL && Valid() && dirs == old(dirs)
      ensures |name| > MAX_NAME_LENGTH ==> NLinks() == old(NLinks()) && Attrs() == old(Attrs())
      ensures ok && |name| <= MAX_NAME_LENGTH ==> n.kind == (if isDir then ITYPE_DIR else ITYPE_FILE)
      ensures ok && |name| <= MAX_NAME_LENGTH ==> Attrs() == MadeAttrs(old(Attrs()), n.id, isDir, dir.id, dirs)
      ensures ok && |name| <= MAX_NAME_LENGTH ==> Valid() && r == 0 && n.id !in old(table.inUse)
      ensures ok && |name| <= MAX_NAME_LENGTH ==> table.inUse == old(table.inUse) + {n.id}
      ensures ok && |name| <= MAX_NAME_LENGTH ==> NLinks() == old(NLinks())[n.id := 1]
      ensures ok && |name| <= MAX_NAME_LENGTH ==>
                var before := if isDir then old(dirs)[n.id := []] else old(dirs);
                EntryPut(before, dirs, dir.id, j, Dirent(n.id, NameField(name, rest)))
                    && CString(NameField(name, rest)) == name
      ensures ok ==> IsDir(dir) && table.frontier <= old(table.frontier) + 1
      ensures ok && |name| <= MAX_NAME_LENGTH ==> table.fs.inodes == old(table.fs.inodes)[n.id := n]
      ensures ok && |name| <= MAX_NAME_LENGTH ==> (n in old(table.fs.inodes.Values) || fresh(n))
      ensures |name| > MAX_NAME_LENGTH ==> table.fs.inodes == old(table.fs.inodes)
      ensures |name| > MAX_NAME_LENGTH ==> HintsOk() == old(HintsOk()) && Stale() == old(Stale())
      ensures |name| > MAX_NAME_LENGTH ==> table.inUse == old(table.inUse)
      ensures ok && |name| <= MAX_NAME_LENGTH && old(HintsOk()) ==> (HintsOk() <==> n.id !in old(Stale()))
      ensures ok && |name| <= MAX_NAME_LENGTH ==> Stale() == old(Stale()) - {n.id}
      ensures ok && |name| <= MAX_NAME_LENGTH ==> (n.cacheRaw != NIL <==> n.id in old(Stale()))
      ensures |name| > MAX_NAME_LENGTH ==> Stale() == old(Stale())
      ensures ok ==> Untouched(old(table.fs.T()), table.fs.T(), {0, dir.id})
      ensures ok && |name| <= MAX_NAME_LENGTH ==> n.id != dir.id && forall o: nat :: ByteAt(table.fs.T(), n.id, o) == 0
      ensures !ok ==> table.fs.space.room == 0 && old(table.fs.space.room) < old(CreateNeed(dir))
      ensures ok ==> old(table.fs.space.room) <= table.fs.space.room + old(CreateNeed(dir))
    {
      hide Namespace.Valid, Namespace.NLinks, Namespace.Attrs, EntryPut, Inode.HintOk, CString, Namespace.HintsOk;
      hide Namespace.Stale, Untouched, FileSystem.T, ByteAt, Namespace.CreateNeed;
      UntouchedRefl(table.fs.T(), {0, dir.id});
      ok, r, n, j := true, -EINVAL, dir, 0;
      if |name| > MAX_NAME_LENGTH { return; }
      CStringOfName(name, rest);
      ok, n, j := MakeEntry(dir, NameField(name, rest), isDir);
      r := 0;
    }

    /** create and mkdir after the test of the name. */
    method MakeEntry(dir: Inode, field: RawName, isDir: bool) returns (ok: bool, n: Inode, j: nat)
      requires Valid() && IsDir(dir) && RoomFor(dir) && (table.frontier + 3) * DINODE_SIZE < TWO32
      modifies this, table, table.fs, table.fs.space, table.fs.inodes.Values
      ensures ok ==> Valid() && IsDir(dir) && n.id !in old(table.inUse) && n.id != dir.id && n.id < TWO32
      ensures ok ==> table.inUse == old(table.inUse) + {n.id} && NLinks() == old(NLinks())[n.id := 1]
      ensures ok ==> EntryPut(if isDir then old(dirs)[n.id := []] else old(dirs), dirs, dir.id, j, Dirent(n.id, field))
      ensures ok ==> n.kind == (if isDir then ITYPE_DIR else ITYPE_FILE)
      ensures ok ==> Attrs() == MadeAttrs(old(Attrs()), n.id, isDir, dir.id, dirs)
      ensures ok ==> table.frontier <= old(table.frontier) + 1 && table.fs.inodes == old(table.fs.inodes)[n.id := n]
      ensures ok ==> (n in old(table.fs.inodes.Values) || fresh(n))
      ensures ok ==> Stale() == old(Stale()) - {n.id} && (old(HintsOk()) ==> (HintsOk() <==> n.id !in old(Stale())))
      ensures ok ==> (n.cacheRaw != NIL <==> n.id in old(Stale()))
      ensures ok ==> Untouched(old(table.fs.T()), table.fs.T(), {0, dir.id})
      ensures ok ==> forall o: nat :: ByteAt(table.fs.T(), n.id, o) == 0
      ensures !ok ==> table.fs.space.room == 0 && old(table.fs.space.room) < old(CreateNeed(dir))
      ensures ok ==> old(table.fs.space.room) <= table.fs.space.room + old(CreateNeed(dir))
    {
      hide Namespace.Valid, Namespace.NLinks, Namespace.Attrs, EntryPut, Inode.HintOk, Namespace.HintsOk;
      hide Namespace.Stale, Untouched, FileSystem.T, Inode.OwnsNothing, ByteAt, Took, TableHops, DirHops, Need;
      hide Resized, Inode.EmptyOwnsNothing, Holes, FirstEmpty, PutEntry;
      ghost var room0, k := table.fs.space.room, Need(|table.file.chain|, TableHops(table.frontier), 1);
      ghost var len0, h := |dir.chain|, DirHops(|dirs[dir.id]|);
      NeedSum(len0, h, k);
      j := 0;
      ghost var nl: map<nat, nat> := NLinks();
      NewIsNoDir();
      ok, n := NewInode(dir, isDir);
      ghost var room1 := table.fs.space.room;
      TookElsewhere(room0, |old(table.file.chain)|, room1, |table.file.chain|, 1, TableHops(old(table.frontier)), ok,
                    len0, h);
      TookRoom(room0, len0, room1, len0, k, h, ok, 1);
      if !ok { return; }
      ghost var t := table.fs.T();
      HoleFile(n);
      ok, j := Link(dir, n, field);
      TookTrans(room0, len0, room1, len0, table.fs.space.room, |dir.chain|, k, 1, h, ok);
      TookRoom(room0, len0, table.fs.space.room, |dir.chain|, k + 1, h, ok, 0);
      if !ok { return; }
      UntouchedTrans(old(table.fs.T()), t, table.fs.T(), {0}, {dir.id});
      UntouchedFile(t, table.fs.T(), {dir.id}, n.id);
      SetTwice(nl, n.id, 1);
    }

    /** A file that owns nothing reads as zeros. */
    lemma HoleFile(n: Inode)
      requires Valid() && InUse(n) && n.OwnsNothing()
      ensures forall o: nat :: ByteAt(table.fs.T(), n.id, o) == 0
    {
      hide TreeOk, Space.Valid, ListOk, Slots, CountsOk, EntriesOk, Numbers;
    }

    lemma NewIsNoDir()
      requires Valid()
      ensures forall d :: d in dirs ==> d in table.inUse
    {
      hide Namespace.Base;
      DirsInUse();
    }

    /** Between two states, inode n has been released and only it and the table file changed. */
    twostate predicate OnlyReleased(n: Inode)
      reads this, table, table.fs, table.fs.inodes.Values
    {
      && table.fs.inodes == old(table.fs.inodes) && dirs == old(dirs) - {n.id}
      && table.inUse == old(table.inUse) - {n.id} && 0 !in table.inUse
      && forall k :: k in table.fs.inodes && k != 0 && k != n.id ==> unchanged(table.fs.inodes[k])
    }

    twostate lemma LoadedReleased(n: Inode)
      requires old(Loaded()) && OnlyReleased(n)
      ensures Loaded() && NLinks() == old(NLinks()) - {n.id} && Attrs() == old(Attrs()) - {n.id}
    {
      hide Inode.OwnsNothing;
    }

    twostate lemma DirsReleased(n: Inode)
      requires old(DirsOk()) && OnlyReleased(n) && AllButSame(old(table.fs.T()), table.fs.T(), n.id)
      ensures DirsOk()
    {
      hide Slots, AllButSame, FileSystem.T;
      AllButSlots(old(table.fs.T()), table.fs.T(), n.id);
    }

    twostate lemma HintsReleased(n: Inode)
      requires OnlyReleased(n) && n.id in table.fs.inodes && table.fs.inodes[n.id] == n && n.id != 0
      requires n.cacheRaw == old(n.cacheRaw)
      ensures old(HintsOk()) ==> HintsOk()
      ensures Stale() == old(Stale()) + (if n.cacheRaw != NIL then {n.id} else {})
    {
    }

    /** The part of unlink that runs when the last link is gone. */
    method Release(n: Inode, dir: Inode, garbage: Dinode) returns (ok: bool)
      requires Base() && InUse(n) && n != dir && IsDir(dir) && WellFormed(garbage) && n.nlinks == 1
      modifies this, table, n, table.file, table.fs`owner, table.fs`disk, table.fs.space
      ensures ok ==> Base() && IsDir(dir) && table.inUse == old(table.inUse) - {n.id}
      ensures ok ==> NLinks() == old(NLinks()) - {n.id} && dirs == old(dirs) - {n.id}
      ensures ok ==> Attrs() == old(Attrs()) - {n.id}
      ensures ok ==> n.OwnsNothing() && table.free == [n.id] + old(table.free) && table.frontier == old(table.frontier)
      ensures ok ==> n.cacheRaw == old(n.cacheRaw) && (old(HintsOk()) ==> HintsOk())
      ensures ok ==> Stale() == old(Stale()) + (if n.cacheRaw != NIL then {n.id} else {})
      ensures ok ==> Untouched(old(table.fs.T()), table.fs.T(), {0, n.id})
      ensures !ok ==> table.fs.space.room == 0
      ensures Took(old(table.fs.space.room), |old(table.file.chain)|, table.fs.space.room, |table.file.chain|, 3,
                   TableHops(old(table.frontier)), ok)
    {
      hide Namespace.HintsOk, Namespace.Stale, Untouched, Took, TableHops;
      hide InodeTable.Valid, AllButSame, FileSystem.T, Inode.OwnsNothing, Namespace.Loaded, Namespace.DirsOk;
      hide Namespace.NLinks, Namespace.Attrs;
      InUsePositive();
      DirFacts(dir);
      ReleaseFacts(n);
      ok := table.Drop(n, garbage);
      if !ok { return; }
      dirs := dirs - {n.id};
      LoadedReleased(n);
      DirsReleased(n);
      HintsReleased(n);
      AllButUntouched(old(table.fs.T()), table.fs.T(), n.id);
    }

    lemma ReleaseFacts(n: Inode)
      requires Base() && InUse(n)
      ensures n.EmptyOwnsNothing() && table.file.id == 0 && 0 in table.fs.inodes && table.fs.inodes[0] == table.file
      ensures forall k :: k in table.fs.inodes ==> table.fs.inodes[k].id == k
    {
      hide TreeOk, Target, Space.Valid, ListOk, Slots;
    }

    lemma NotZero(n: Inode)
      requires Base() && InUse(n)
      ensures n.id != 0
    {
      hide InodeTable.Valid, Slots;
      InUsePositive();
    }

    /** unlink from the moment the entry has been found.  The counts stay right unless the last link of
        a directory goes while entries are left in it. */
    method RemoveEntry(dir: Inode, j: nat, found: Dirent, n: Inode, garbage: Dinode) returns (ok: bool)
      requires Valid() && IsDir(dir) && RoomFor(dir) && InUse(n) && n != dir && n.id != 0
      requires WellFormed(garbage) && j < |dirs[dir.id]| && dirs[dir.id][j] == found && found.num == n.id
      modifies this, table, dir, n, table.file, table.fs`owner, table.fs`disk, table.fs.space
      ensures old(n.nlinks) > 0
      ensures ok ==> (Valid() <==> old(n.nlinks) > 1 || Childless(old(dirs), n.id))
      ensures ok ==> dirs == Emptied(old(dirs), dir.id, j) - (if old(n.nlinks) > 1 then {} else {n.id})
      ensures ok ==> Attrs() == old(Attrs()) - (if old(n.nlinks) > 1 then {} else {n.id})
      ensures ok && old(n.nlinks) > 1 ==>
                table.inUse == old(table.inUse) && NLinks() == old(NLinks())[n.id := old(n.nlinks) as nat - 1]
      ensures ok && old(n.nlinks) == 1 ==>
                table.inUse == old(table.inUse) - {n.id} && NLinks() == old(NLinks()) - {n.id} && n.OwnsNothing()
      ensures ok ==> IsDir(dir) && table.frontier == old(table.frontier)
      ensures ok ==> (old(HintsOk()) ==> HintsOk())
      ensures ok ==> Stale() == old(Stale()) + (if old(n.nlinks) == 1 && old(n.cacheRaw) != NIL then {n.id} else {})
      ensures ok ==>
                Untouched(old(table.fs.T()), table.fs.T(), if old(n.nlinks) > 1 then {dir.id} else {0, dir.id, n.id})
      ensures !ok ==> table.fs.space.room == 0
      ensures Took(old(table.fs.space.room), |old(dir.chain)|, table.fs.space.room, |dir.chain|,
                   1 + Need(|old(table.file.chain)|, TableHops(old(table.frontier)), 3),
                   DirHops(|old(dirs)[dir.id]|), ok)
    {
      hide Namespace.Base, Namespace.NLinks, Namespace.Attrs, EntriesOk, CountsOk, PutEntry, Inode.HintOk;
      hide Inode.OwnsNothing, Namespace.HintsOk, Namespace.Stale, Untouched, FileSystem.T, Childless, Emptied, Took;
      hide TableHops, DirHops, Need;
      hide KindsOk, Resized;
      ghost var room0, k := table.fs.space.room, Need(|table.file.chain|, TableHops(table.frontier), 3);
      ghost var len0, h := |dir.chain|, DirHops(|dirs[dir.id]|);
      ghost var nl: map<nat, nat> := NLinks();
      ghost var inUse, before := table.inUse, dirs;
      ghost var attrs: map<nat, Attr> := Attrs();
      DirFacts(dir);
      var e := Dirent(0, found.name);
      LinkFacts(n);
      UnlinkCounts(nl, before, dir.id, j, e);
      EntriesPut(before, inUse, dir.id, j, e);
      EmptiedIs(before, dir.id, j);
      ghost var t, last := table.fs.T(), n.nlinks == 1;
      if last { LastGone(nl[n.id := 0], before, inUse, dir.id, j, n.id); }
      ghost var gone := if last then {n.id} else {};
      KindsGone(attrs, before, dir.id, j, gone);
      SizeStays(attrs - gone, dir.id, DIRENT_SIZE * |before[dir.id]|);
      ok := DropLink(dir, n, garbage, h);
      TookMore(room0, len0, table.fs.space.room, len0, k, h, 1 + k, h, ok);
      if !ok { return; }
      assert last ==> nl[n.id := 0] - {n.id} == nl - {n.id};
      ghost var t1, room1 := table.fs.T(), table.fs.space.room;
      ok := WriteEntry(dir, j, e);
      TookTrans(room0, len0, room1, len0, table.fs.space.room, |dir.chain|, k, 1, h, ok);
      if ok { UntouchedTrans(t, t1, table.fs.T(), if last then {0, n.id} else {}, {dir.id}); }
    }

    /** --nlinks, and the release of the inode when that was the last one. */
    method DropLink(dir: Inode, n: Inode, garbage: Dinode, ghost h: nat) returns (ok: bool)
      requires Base() && IsDir(dir) && InUse(n) && n != dir && n.nlinks > 0 && WellFormed(garbage)
      modifies this, table, n, table.file, table.fs`owner, table.fs`disk, table.fs.space
      ensures ok ==> Base() && IsDir(dir) && table.frontier == old(table.frontier)
      ensures ok && old(n.nlinks) > 1 ==> dirs == old(dirs) && table.inUse == old(table.inUse)
      ensures ok && old(n.nlinks) > 1 ==> NLinks() == old(NLinks())[n.id := old(n.nlinks) as nat - 1]
      ensures ok ==> Attrs() == old(Attrs()) - (if old(n.nlinks) > 1 then {} else {n.id})
      ensures ok && old(n.nlinks) == 1 ==> dirs == old(dirs) - {n.id} && table.inUse == old(table.inUse) - {n.id}
      ensures ok && old(n.nlinks) == 1 ==> NLinks() == old(NLinks()) - {n.id} && n.OwnsNothing()
      ensures ok ==> (old(HintsOk()) ==> HintsOk())
      ensures ok ==> Stale() == old(Stale()) + (if old(n.nlinks) == 1 && old(n.cacheRaw) != NIL then {n.id} else {})
      ensures ok ==> Untouched(old(table.fs.T()), table.fs.T(), if old(n.nlinks) > 1 then {} else {0, n.id})
      ensures !ok ==> table.fs.space.room == 0
      ensures dir.chain == old(dir.chain)
      ensures Took(old(table.fs.space.room), |dir.chain|, table.fs.space.room, |dir.chain|,
                   Need(|old(table.file.chain)|, TableHops(old(table.frontier)), 3), h, ok)
    {
      hide Namespace.Base, Namespace.NLinks, Namespace.Attrs, Inode.HintOk, Inode.OwnsNothing;
      hide Namespace.HintsOk, Namespace.Stale, Untouched, FileSystem.T, Took, TableHops, Need;
      ghost var room0, len0 := table.fs.space.room, |table.file.chain|;
      DirIsNoTable(dir);
      TookNothing(room0, room0, len0, TableHops(table.frontier));
      TookMore(room0, len0, room0, len0, 0, TableHops(table.frontier), 3, TableHops(table.frontier), true);
      TookElsewhere(room0, len0, room0, len0, 3, TableHops(table.frontier), true, |dir.chain|, h);
      ok := true;
      UntouchedRefl(table.fs.T(), {});
      if n.nlinks == 1 {
        ok := Release(n, dir, garbage);
        TookElsewhere(room0, len0, table.fs.space.room, |table.file.chain|, 3, TableHops(old(table.frontier)), ok,
                      |dir.chain|, h);
      } else {
        SetLinks(n, n.nlinks - 1, n.kind);
      }
    }

    lemma DirIsNoTable(dir: Inode)
      requires Base() && IsDir(dir)
      ensures dir != table.file
    {
      hide TreeOk, Target, Space.Valid, ListOk, Slots;
      DirFacts(dir);
      assert table.fs.inodes[0] == table.file;
    }

    /** The dentry passed to unlink carries the inode of the entry that unlink will find. */
    ghost predicate Agrees(dir: Inode, name: seq<byte>, n: Inode)
      reads this
    {
      dir.id in dirs ==>
        forall j :: 0 <= j < |dirs[dir.id]| && FirstMatch(dirs[dir.id], j, name) ==> dirs[dir.id][j].num == n.id
    }

    /** unlink: the first entry with this name is emptied, its inode loses one link, and its blocks and
        number are released exactly when that was the last one.  A directory is treated like a file:
        if entries are left in it, the inodes they name keep counts that are too high. */
    method Unlink(dir: Inode, name: seq<byte>, n: Inode, garbage: Dinode) returns (ok: bool, r: int, j: nat)
      requires Valid() && IsDir(dir) && RoomFor(dir) && InUse(n) && n != dir
      requires Agrees(dir, name, n) && WellFormed(garbage)
      modifies this, table, dir, n, table.file, table.fs`owner, table.fs`disk, table.fs.space
      ensures ok ==> (r == 0 || r == -1 || r == -EINVAL) && (r == -EINVAL <==> |name| > MAX_NAME_LENGTH)
      ensures ok && r != 0 ==> Valid() && dirs == old(dirs) && table.inUse == old(table.inUse)
      ensures ok && r != 0 ==> Attrs() == old(Attrs())
      ensures ok && r != 0 ==> NLinks() == old(NLinks()) && HintsOk() == old(HintsOk()) && Stale() == old(Stale())
      ensures ok && r != 0 ==> Untouched(old(table.fs.T()), table.fs.T(), {dir.id})
      ensures ok && r == -1 ==> NoSuchName(dirs, dir.id, name)
      ensures ok && r == 0 ==> (Valid() <==> old(n.nlinks) > 1 || Childless(old(dirs), n.id)) && old(n.nlinks) > 0
      ensures ok && r == 0 ==> MatchedEntry(old(dirs), dir.id, j, name, n.id)
      ensures ok && r == 0 ==> dirs == Emptied(old(dirs), dir.id, j) - (if old(n.nlinks) > 1 then {} else {n.id})
      ensures ok && r == 0 ==> Attrs() == old(Attrs()) - (if old(n.nlinks) > 1 then {} else {n.id})
      ensures ok && r == 0 && old(n.nlinks) > 1 ==>
                table.inUse == old(table.inUse) && NLinks() == old(NLinks())[n.id := old(n.nlinks) as nat - 1]
      ensures ok && r == 0 && old(n.nlinks) == 1 ==>
                table.inUse == old(table.inUse) - {n.id} && NLinks() == old(NLinks()) - {n.id} && n.OwnsNothing()
      ensures ok ==> IsDir(dir) && table.frontier == old(table.frontier) && (old(HintsOk()) ==> HintsOk())
      ensures ok && r == 0 ==>
                Stale() == old(Stale()) + (if old(n.nlinks) == 1 && old(n.cacheRaw) != NIL then {n.id} else {})
      ensures ok && r == 0 ==>
                Untouched(old(table.fs.T()), table.fs.T(), if old(n.nlinks) > 1 then {dir.id} else {0, dir.id, n.id})
      ensures !ok ==> table.fs.space.room == 0 && old(table.fs.space.room) < old(UnlinkNeed(dir))
      ensures ok ==> old(table.fs.space.room) <= table.fs.space.room + old(UnlinkNeed(dir))
    {
      hide Namespace.Base, Namespace.NLinks, Namespace.Attrs, EntriesOk, CountsOk, PutEntry, CString, Inode.HintOk;
      hide Inode.OwnsNothing, Namespace.HintsOk, Namespace.Stale, Untouched, FileSystem.T, Childless, Emptied, Took;
      hide TableHops, DirHops, Need;
      ghost var room0, k := table.fs.space.room, Need(|table.file.chain|, TableHops(table.frontier), 3);
      ghost var len0, h := |dir.chain|, DirHops(|dirs[dir.id]|);
      NeedSum(len0, h, k);
      DirIsNoTable(dir);
      ok, r, j := true, -EINVAL, 0;
      UntouchedRefl(table.fs.T(), {dir.id});
      if |name| > MAX_NAME_LENGTH { return; }
      r := -1;
      var found, e;
      ok, found, j, e := FindName(dir, name);
      ghost var t, room1, len1 := table.fs.T(), table.fs.space.room, |dir.chain|;
      TookRoom(room0, len0, room1, len1, 0, h, ok, k + 1);
      UntouchedMore(old(table.fs.T()), t, {}, {dir.id});
      if !ok || !found { return; }
      r := 0;
      NotZero(n);
      ok := RemoveEntry(dir, j, e, n, garbage);
      TookTrans(room0, len0, room1, len1, table.fs.space.room, |dir.chain|, 0, 1 + k, h, ok);
      TookRoom(room0, len0, table.fs.space.room, |dir.chain|, 1 + k, h, ok, 0);
      ghost var touched := if old(n.nlinks) > 1 then {dir.id} else {0, dir.id, n.id};
      if ok { UntouchedTrans(old(table.fs.T()), t, table.fs.T(), {}, touched); }
    }

    // -------------------------------------------------------- file contents

    twostate lemma DirsUntouched(n: Inode, new off: nat, new src: seq<byte>)
      requires old(DirsOk()) && OnlyInode(n) && n.id !in dirs && dirs == old(dirs)
      requires BytesWritten(old(table.fs.T()), table.fs.T(), n.id, off, src)
      ensures DirsOk()
    {
      hide Slots, BytesWritten, FileSystem.T;
      OtherDirsSame(old(table.fs.T()), table.fs.T(), n.id, off, src);
    }

    lemma FileFacts(n: Inode)
      requires Base() && InUse(n)
      ensures n.EmptyOwnsNothing() && n.valid
    {
      hide InodeTable.Valid, Slots;
    }

    /** read of a file, seen from the name space. */
    method ReadData(n: Inode, off: nat, len: nat) returns (ok: bool, data: seq<byte>)
      requires Valid() && InUse(n) && n.id !in dirs && n.HintOk() && off + len < TWO32
      modifies n, table.fs`owner, table.fs`disk, table.fs.space
      ensures Valid() && NLinks() == old(NLinks()) && HintsOk() == old(HintsOk()) && Stale() == old(Stale())
      ensures Attrs() == old(Attrs())
      ensures Untouched(old(table.fs.T()), table.fs.T(), {}) && (!ok ==> table.fs.space.room == 0)
      ensures ok ==> |data| == len && forall x :: 0 <= x < len ==> data[x] == ByteAt(old(table.fs.T()), n.id, off + x)
    {
      hide InodeTable.Valid, SameBytes, ByteAt, Slots, FileSystem.T, Untouched, CountsOk, EntriesOk, Inode.OwnsNothing;
      hide Namespace.Loaded, Namespace.DirsOk, Namespace.NLinks, Namespace.Attrs, Namespace.HintsOk, Namespace.Stale;
      hide Inode.HintOk;
      Distinct(n);
      InUsePositive();
      FileFacts(n);
      ok, data := table.ReadFile(n, off, len);
      LoadedKept(n);
      DirsKept(n);
      LinksKept(n);
      HintsKept(n);
      SameUntouched(old(table.fs.T()), table.fs.T());
    }

    /** write of a file, seen from the name space. */
    method WriteData(n: Inode, off: nat, src: seq<byte>) returns (ok: bool)
      requires Valid() && InUse(n) && n.id !in dirs && n.HintOk() && off + |src| < TWO32
      modifies n, table.fs`owner, table.fs`disk, table.fs.space
      ensures ok ==> Valid() && NLinks() == old(NLinks()) && HintsOk() == old(HintsOk()) && Stale() == old(Stale())
      ensures ok ==> BytesWritten(old(table.fs.T()), table.fs.T(), n.id, off, src)
      ensures ok ==> Attrs() == Resized(old(Attrs()), n.id, Larger(off + |src|, old(n.size)))
      ensures !ok ==> table.fs.space.room == 0
    {
      hide InodeTable.Valid, BytesWritten, Slots, FileSystem.T, CountsOk, EntriesOk, Inode.OwnsNothing;
      hide Namespace.Loaded, Namespace.DirsOk, Namespace.NLinks, Namespace.Attrs, Namespace.HintsOk, Namespace.Stale;
      hide Inode.HintOk;
      Distinct(n);
      InUsePositive();
      FileFacts(n);
      ok := table.WriteFile(n, src, off);
      if !ok { return; }
      LoadedKept(n);
      DirsUntouched(n, off, src);
      LinksKept(n);
      HintsKept(n);
      KindsGrown(old(Attrs()), dirs, n.id, n.size);
    }
  }

  lemma SameBytesRefl(t: Tree)
    ensures SameBytes(t, t)
  {
  }

  lemma SlotsSame(t: Tree, t': Tree)
    requires SameBytes(t, t')
    ensures forall d, n :: Slots(t', d, n) == Slots(t, d, n)
  {
    hide Slots, ByteAt;
    forall d, n ensures Slots(t', d, n) == Slots(t, d, n) {
      SlotsFrame(t, t', d, n);
    }
  }

  lemma OtherDirsSame(t: Tree, t': Tree, id: nat, off: nat, src: seq<byte>)
    requires BytesWritten(t, t', id, off, src)
    ensures forall d, n :: d != id ==> Slots(t', d, n) == Slots(t, d, n)
  {
    hide Slots, BytesWritten;
    forall d, n | d != id ensures Slots(t', d, n) == Slots(t, d, n) {
      OtherDirWritten(t, t', id, off, src, d, n);
    }
  }

  lemma OthersSlots(t: Tree, t': Tree)
    requires OtherFilesSame(t, t')
    ensures forall d, n :: d != 0 ==> Slots(t', d, n) == Slots(t, d, n)
  {
    hide Slots, ByteAt;
    forall d, n | d != 0 ensures Slots(t', d, n) == Slots(t, d, n) {
      SlotsFrame(t, t', d, n);
    }
  }

  lemma OthersUntouched(t: Tree, t': Tree)
    requires OtherFilesSame(t, t')
    ensures Untouched(t, t', {0})
  {
    hide ByteAt;
  }

  lemma AllButUntouched(t: Tree, t': Tree, id: nat)
    requires AllButSame(t, t', id)
    ensures Untouched(t, t', {0, id})
  {
    hide ByteAt;
  }

  lemma AllButSlots(t: Tree, t': Tree, id: nat)
    requires AllButSame(t, t', id)
    ensures forall d, n :: d != 0 && d != id ==> Slots(t', d, n) == Slots(t, d, n)
  {
    hide Slots, ByteAt;
    forall d, n | d != 0 && d != id ensures Slots(t', d, n) == Slots(t, d, n) {
      SlotsFrame(t, t', d, n);
    }
  }

  /** make_fs gives a name space in order: one empty directory, the root. */
  method NewNamespace(nblocks: u32, raw: map<u32, Block>, garbage: Dinode) returns (ok: bool, ns: Namespace?)
    requires nblocks >= MIN_CAPACITY ==>
               NoOverflow(nblocks) && forall b :: b in raw <==> GenericStart(nblocks) <= b < nblocks
    requires WellFormed(garbage)
    ensures ok <==> nblocks >= MIN_CAPACITY
    ensures ok ==> ns != null && fresh(ns) && ns.Valid() && ns.dirs == map[ROOT := []] && ns.table.inUse == {ROOT}
    ensures ok ==> ns.HintsOk() && ns.Stale() == {} && ns.table.frontier == 2 && ns.table.fs.space.room >= 999
    ensures ok ==>
            fresh(ns.table) && fresh(ns.table.fs) && fresh(ns.table.fs.space)
            && forall n :: n in ns.table.fs.inodes.Values ==> fresh(n)
  {
    hide InodeTable.Valid, Namespace.Valid;
    ns := null;
    var table;
    ok, table := MakeFs(nblocks, raw, garbage);
    if ok { ns := new Namespace(table); }
  }
}
