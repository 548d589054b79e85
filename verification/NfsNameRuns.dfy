/** Whole runs of the file system: create, mkdir, link, unlink, read and write over any directories and
    files (os/fs/nfs/inode.cc). */
module NfsNameRuns {
  import opened Basics
  import opened NfsCommon
  import opened NfsSpace
  import opened NfsTree
  import opened Nfs
  import opened NfsCodec
  import opened NfsInodeTable
  import opened NfsNames
  import opened NfsDirectory

  /** An operation on directory d or file num; `rest` is what __link leaves behind the terminator. */
  datatype NameOp =
    | MakeOp(d: nat, name: seq<byte>, rest: seq<byte>, isDir: bool)
    | LinkOp(d: nat, num: nat, name: seq<byte>, rest: seq<byte>)
    | UnlinkOp(d: nat, name: seq<byte>)
    | ReadOp(num: nat, off: nat, n: nat)
    | WriteOp(num: nat, off: nat, src: seq<byte>)

  predicate OpOk(op: NameOp)
  {
    (op.MakeOp? || op.LinkOp?) && |op.name| <= MAX_NAME_LENGTH ==>
      |op.name| + 1 + |op.rest| == MAX_NAME_LENGTH && 0 !in op.name
  }

  /** How a run ends: at its end; without a block; with an inode that carries the hint of its predecessor;
      with the last name of a directory gone that still has entries. */
  datatype Outcome = Done | NoRoom | StaleHint | Orphans

  // ------------------------------------------------------------ what the operations do

  /** The slots of every directory, the link count, type and size of every inode in use, the numbers not in
      use whose in-memory inode carries a hint, and the bytes of the files. */
  datatype View = View(dirs: Dirs, links: map<nat, nat>, attrs: map<nat, Attr>, stale: set<nat>,
                       bytes: (nat, nat) -> byte)

  ghost predicate IsFile(a: View, k: nat) { k in a.links && k !in a.dirs }

  /** No file has changed but those in a set. */
  ghost predicate FilesKept(a: View, b: View, except: set<nat>)
  {
    forall k: nat, o: nat :: IsFile(a, k) && k !in except ==> b.bytes(k, o) == a.bytes(k, o)
  }

  ghost predicate Same(a: View, b: View)
  {
    b.dirs == a.dirs && b.links == a.links && b.attrs == a.attrs && b.stale == a.stale && FilesKept(a, b, {})
  }

  /** One more entry of 32 bytes does not fit below 2^32 bytes. */
  ghost predicate Full(a: View, d: nat)
  {
    d in a.dirs && DIRENT_SIZE * (|a.dirs[d]| + 1) >= TWO32
  }

  /** create and mkdir: a number not in use gets one link and one entry; a new file reads as zeros. */
  ghost predicate Made(a: View, op: NameOp, b: View, num: nat, j: nat)
    requires op.MakeOp?
  {
    && |op.name| + 1 + |op.rest| == MAX_NAME_LENGTH
    && 0 < num < TWO32 && num !in a.links && num !in a.stale
    && b.links == a.links[num := 1] && b.stale == a.stale && FilesKept(a, b, {})
    && EntryPut(if op.isDir then a.dirs[num := []] else a.dirs, b.dirs, op.d, j,
         Dirent(num, NameField(op.name, op.rest)))
    && b.attrs == MadeAttrs(a.attrs, num, op.isDir, op.d, b.dirs)
    && (forall o: nat :: b.bytes(num, o) == 0)
  }

  /** The size of a directory after an entry has been put into it. */
  ghost function DirSize(b: View, d: nat): (n: nat) { if d in b.dirs then DIRENT_SIZE * |b.dirs[d]| else 0 }

  /** link: one more entry and one more link. */
  ghost predicate Linked(a: View, op: NameOp, b: View, j: nat)
    requires op.LinkOp?
  {
    && |op.name| + 1 + |op.rest| == MAX_NAME_LENGTH
    && op.num in a.links && b.links == a.links[op.num := a.links[op.num] + 1] && b.stale == a.stale
    && op.num < TWO32 && EntryPut(a.dirs, b.dirs, op.d, j, Dirent(op.num, NameField(op.name, op.rest)))
    && b.attrs == Resized(a.attrs, op.d, DirSize(b, op.d)) && FilesKept(a, b, {})
  }

  /** unlink: the first entry of the name goes, and with the last one the inode. */
  ghost predicate Unlinked(a: View, op: NameOp, b: View, num: nat, j: nat)
    requires op.UnlinkOp?
  {
    && num in a.links && MatchedEntry(a.dirs, op.d, j, op.name, num)
    && (if a.links[num] > 1 then
          && b.links == a.links[num := a.links[num] - 1] && b.dirs == Emptied(a.dirs, op.d, j)
          && b.attrs == a.attrs && b.stale == a.stale && FilesKept(a, b, {})
        else
          && b.links == a.links - {num} && b.dirs == Emptied(a.dirs, op.d, j) - {num} && b.attrs == a.attrs - {num}
          && (b.stale == a.stale || b.stale == a.stale + {num}) && FilesKept(a, b, {num}))
  }

  /** write: exactly these bytes of this file change, and the file grows to hold them. */
  ghost predicate Wrote(a: View, op: NameOp, b: View)
    requires op.WriteOp?
  {
    && b.dirs == a.dirs && b.links == a.links && b.stale == a.stale && FilesKept(a, b, {op.num})
    && op.num in a.attrs && b.attrs == Resized(a.attrs, op.num, Larger(op.off + |op.src|, a.attrs[op.num].size))
    && forall o: nat :: b.bytes(op.num, o)
                        == if op.off <= o < op.off + |op.src| then op.src[o - op.off] else a.bytes(op.num, o)
  }

  /** The first entry of this name is there, and names inode num. */
  ghost predicate NamesInode(a: View, d: nat, name: seq<byte>, num: nat)
  {
    exists j: nat :: MatchedEntry(a.dirs, d, j, name, num)
  }

  /** The name is that of the directory it is in, which unlink would lock twice. */
  ghost predicate Untouchable(a: View, d: nat, name: seq<byte>)
  {
    NamesInode(a, d, name, d)
  }

  /** The name is the last one of a directory that has entries. */
  ghost predicate Orphaning(a: View, d: nat, name: seq<byte>)
  {
    exists num: nat :: NamesInode(a, d, name, num) && num in a.links && a.links[num] <= 1 && !Childless(a.dirs, num)
  }

  /** What an operation does, refusals included; `out` is what a read returns. */
  ghost predicate Does(a: View, op: NameOp, b: View, out: seq<byte>)
  {
    match op
    case ReadOp(num, off, n) =>
      && Same(a, b)
      && (IsFile(a, num) && off + n < TWO32 ==>
            |out| == n && forall x :: 0 <= x < n ==> out[x] == a.bytes(num, off + x))
    case WriteOp(num, off, src) => if IsFile(a, num) && off + |src| < TWO32 then Wrote(a, op, b) else Same(a, b)
    case _ =>
      if op.d !in a.dirs || |op.name| > MAX_NAME_LENGTH || Full(a, op.d) then Same(a, b) else NameDoes(a, op, b)
  }

  ghost predicate NameDoes(a: View, op: NameOp, b: View)
    requires !op.ReadOp? && !op.WriteOp?
  {
    match op
    case MakeOp(_, _, _, _) => exists num: nat, j: nat :: Made(a, op, b, num, j)
    case LinkOp(_, num, _, _) =>
      if num !in a.links || a.links[num] == 0xFFFF then Same(a, b) else exists j: nat :: Linked(a, op, b, j)
    case UnlinkOp(d, name) =>
      if NoSuchName(a.dirs, d, name) || Untouchable(a, d, name) then Same(a, b)
      else !Orphaning(a, d, name) && exists num: nat, j: nat :: Unlinked(a, op, b, num, j)
  }

  /** A run: one step for each operation that was carried out. */
  ghost predicate Steps(trace: seq<View>, ops: seq<NameOp>, outs: seq<seq<byte>>)
  {
    && |trace| == |outs| + 1 && |outs| <= |ops|
    && forall i :: 0 <= i < |outs| ==> Does(trace[i], ops[i], trace[i + 1], outs[i])
  }

  // ------------------------------------------------------------ the name space in order

  /** Every inode has a link. */
  ghost predicate AllNamed(nl: map<nat, nat>)
  {
    forall i :: i in nl ==> nl[i] > 0
  }

  /** The name space is in order; dirs and nums are the directories and the numbers in use. */
  ghost predicate Good(ns: Namespace, dirs: set<nat>, nums: set<nat>)
    reads ns, ns.table, ns.table.fs, ns.table.fs.space, ns.table.fs.inodes.Values
  {
    && ns.Valid() && ns.HintsOk() && AllNamed(ns.NLinks())
    && dirs == ns.dirs.Keys && nums == ns.table.inUse && ROOT in dirs
  }

  ghost function ViewOf(ns: Namespace): (v: View)
    reads ns, ns.table, ns.table.fs, ns.table.fs.inodes.Values
  {
    var t := ns.table.fs.T();
    View(ns.dirs, ns.NLinks(), ns.Attrs(), ns.Stale(), (k: nat, o: nat) => ByteAt(t, k, o))
  }

  /** A number is in use exactly as long as some directory slot names it. */
  ghost predicate NamedMeansUsed(ns: Namespace)
    reads ns, ns.table
  {
    forall k :: k != ROOT && k > 0 ==> (k in ns.table.inUse <==> Refs(ns.dirs, k) != {})
  }

  /** A run has stopped at an operation, for a reason known before it. */
  ghost predicate Stopped(ns: Namespace, a: View, op: NameOp, r: Outcome)
    reads ns, ns.table, ns.table.fs, ns.table.fs.space, ns.table.fs.inodes.Values
  {
    match r
    case Done => false
    case NoRoom => ns.table.fs.space.room == 0
    case StaleHint => op.MakeOp? && a.stale != {} && !ns.HintsOk()
    case Orphans => op.UnlinkOp? && Orphaning(a, op.d, op.name) && !ns.Valid()
  }

  lemma GoodMeans(ns: Namespace, dirs: set<nat>, nums: set<nat>)
    requires Good(ns, dirs, nums)
    ensures NamedMeansUsed(ns)
  {
    hide InodeTable.Valid, Refs, Namespace.HintsOk, Namespace.DirsOk;
    forall k | k != ROOT && k > 0 ensures k in ns.table.inUse <==> Refs(ns.dirs, k) != {} {
      UsedIsNamed(ns.NLinks(), ns.dirs, ns.table.inUse, k);
    }
  }

  lemma UsedIsNamed(nl: map<nat, nat>, dirs: Dirs, inUse: set<nat>, k: nat)
    requires CountsOk(nl, dirs) && EntriesOk(dirs, inUse) && AllNamed(nl) && nl.Keys == inUse && k != ROOT && k > 0
    ensures k in inUse <==> Refs(dirs, k) != {}
  {
    if k !in inUse {
      NoRefs(dirs, k);
    }
  }

  lemma DirOf(ns: Namespace, dirs: set<nat>, nums: set<nat>, d: nat)
    requires Good(ns, dirs, nums) && d in dirs
    ensures d in ns.table.fs.inodes && ns.IsDir(ns.table.fs.inodes[d]) && ns.table.fs.inodes[d].id == d
    ensures ns.table.fs.inodes[d].size == DIRENT_SIZE * |ns.dirs[d]|
    ensures Full(ViewOf(ns), d) <==> ns.table.fs.inodes[d].size + DIRENT_SIZE >= TWO32
  {
    hide TreeOk, Target, Space.Valid, ListOk, Slots, Refs, CountsOk, Numbers, Namespace.Stale;
  }

  lemma InodeOf(ns: Namespace, dirs: set<nat>, nums: set<nat>, k: nat)
    requires Good(ns, dirs, nums) && k in nums
    ensures k in ns.table.fs.inodes && ns.InUse(ns.table.fs.inodes[k]) && ns.table.fs.inodes[k].id == k && 0 < k < TWO32
    ensures k in ns.NLinks() && ns.NLinks()[k] == ns.table.fs.inodes[k].nlinks && ns.table.fs.inodes[k].HintOk()
    ensures k in ns.Attrs() && ns.Attrs()[k].size == ns.table.fs.inodes[k].size
  {
    hide TreeOk, Target, Space.Valid, ListOk, Slots, Refs, CountsOk;
  }

  lemma LinksOf(ns: Namespace, dirs: set<nat>, nums: set<nat>)
    requires Good(ns, dirs, nums)
    ensures ViewOf(ns).links == ns.NLinks() && ViewOf(ns).links.Keys == nums && ViewOf(ns).dirs.Keys == dirs
    ensures dirs <= nums && ROOT in nums && 0 !in nums
  {
    hide TreeOk, Target, Space.Valid, ListOk, Slots, Refs, CountsOk, Namespace.Stale, ByteAt;
    ns.NewIsNoDir();
  }

  /** Inodes in memory are the old ones and new ones. */
  twostate predicate NewOrOld(ns: Namespace)
    reads ns, ns.table, ns.table.fs
  {
    forall n :: n in ns.table.fs.inodes.Values ==> n in old(ns.table.fs.inodes.Values) || fresh(n)
  }

  lemma TableFile(ns: Namespace, dirs: set<nat>, nums: set<nat>)
    requires Good(ns, dirs, nums)
    ensures ns.table.file in ns.table.fs.inodes.Values
  {
    hide TreeOk, Target, Space.Valid, ListOk, Slots, Refs, CountsOk;
    assert ns.table.fs.inodes[0] == ns.table.file;
  }

  /** Files outside the set keep their bytes; the directory and the table are no files. */
  lemma Untouching(a: View, b: View, t: Tree, t': Tree, except: set<nat>, files: set<nat>)
    requires Untouched(t, t', except) && except <= files + a.dirs.Keys + {0} && 0 !in a.links
    requires forall k: nat, o: nat :: a.bytes(k, o) == ByteAt(t, k, o)
    requires forall k: nat, o: nat :: b.bytes(k, o) == ByteAt(t', k, o)
    ensures FilesKept(a, b, files)
  {
    hide ByteAt;
  }

  lemma BytesOf(ns: Namespace)
    ensures forall k: nat, o: nat :: ViewOf(ns).bytes(k, o) == ByteAt(ns.table.fs.T(), k, o)
  {
    hide ByteAt, FileSystem.T;
  }

  // ------------------------------------------------------------ the operations

  method DoMake(ns: Namespace, dirs: set<nat>, nums: set<nat>, op: NameOp)
    returns (r: Outcome, dirs': set<nat>, nums': set<nat>)
    requires Good(ns, dirs, nums) && op.MakeOp? && OpOk(op) && op.d in dirs
    requires (ns.table.frontier + 3) * DINODE_SIZE < TWO32
    modifies ns, ns.table, ns.table.fs, ns.table.fs.space, ns.table.fs.inodes.Values
    ensures r.Done? ==> Good(ns, dirs', nums') && ns.table.frontier <= old(ns.table.frontier) + 1 && NewOrOld(ns)
    ensures r.Done? ==> Does(old(ViewOf(ns)), op, ViewOf(ns), [])
    ensures !r.Done? ==> Stopped(ns, old(ViewOf(ns)), op, r)
  {
    hide Namespace.Valid, Namespace.HintsOk, Namespace.NLinks, Namespace.Attrs, Inode.HintOk, CString, Namespace.Stale;
    hide ByteAt, FileSystem.T, Untouched, EntryPut, Resized, MadeAttrs;
    r, dirs', nums' := Done, dirs, nums;
    ghost var a, t := ViewOf(ns), ns.table.fs.T();
    BytesOf(ns);
    DirOf(ns, dirs, nums, op.d);
    LinksOf(ns, dirs, nums);
    var dir := ns.table.fs.inodes[op.d];
    if dir.size + DIRENT_SIZE >= TWO32 { return; }
    var ok, code, n, j;
    ok, code, n, j := ns.Create(dir, op.name, op.rest, op.isDir);
    if !ok { return NoRoom, dirs', nums'; }
    BytesOf(ns);
    Untouching(a, ViewOf(ns), t, ns.table.fs.T(), {0, op.d}, {});
    if code != 0 { return; }
    var hinted := n.cacheRaw != NIL;
    if hinted { return StaleHint, dirs', nums'; }
    nums' := nums + {n.id};
    if op.isDir { dirs' := dirs + {n.id}; }
    UsedBound(ns, n.id);
    PutKeys(a, op, ns.dirs, n.id, j);
    InodeOf(ns, dirs', nums', n.id);
    assert Made(a, op, ViewOf(ns), n.id, j);
  }

  lemma UsedBound(ns: Namespace, k: nat)
    requires ns.Valid() && k in ns.table.inUse
    ensures 0 < k < TWO32
  {
    hide Namespace.Base, EntriesOk, CountsOk;
    ns.NumberBound();
  }

  lemma PutKeys(a: View, op: NameOp, dirs': Dirs, num: nat, j: nat)
    requires op.MakeOp? && |op.name| + 1 + |op.rest| == MAX_NAME_LENGTH && num < TWO32
    requires EntryPut(if op.isDir then a.dirs[num := []] else a.dirs, dirs', op.d, j,
               Dirent(num, NameField(op.name, op.rest)))
    ensures dirs'.Keys == a.dirs.Keys + (if op.isDir then {num} else {})
  {
  }

  method DoLink(ns: Namespace, dirs: set<nat>, nums: set<nat>, op: NameOp) returns (r: Outcome)
    requires Good(ns, dirs, nums) && op.LinkOp? && OpOk(op) && op.d in dirs && op.num in nums
    modifies ns, ns.table, ns.table.fs, ns.table.fs.space, ns.table.fs.inodes.Values
    ensures r.Done? ==> Good(ns, dirs, nums) && ns.table.frontier == old(ns.table.frontier) && NewOrOld(ns)
    ensures r.Done? ==> Does(old(ViewOf(ns)), op, ViewOf(ns), [])
    ensures !r.Done? ==> Stopped(ns, old(ViewOf(ns)), op, r)
  {
    hide Namespace.Valid, Namespace.HintsOk, Namespace.NLinks, Namespace.Attrs, Inode.HintOk, Namespace.Stale, ByteAt;
    hide FileSystem.T, Untouched, Resized;
    r := Done;
    ghost var a, t := ViewOf(ns), ns.table.fs.T();
    BytesOf(ns);
    DirOf(ns, dirs, nums, op.d);
    LinksOf(ns, dirs, nums);
    InodeOf(ns, dirs, nums, op.num);
    var dir, n := ns.table.fs.inodes[op.d], ns.table.fs.inodes[op.num];
    if |op.name| > MAX_NAME_LENGTH || dir.size + DIRENT_SIZE >= TWO32 || n.nlinks == 0xFFFF { return; }
    var ok, j;
    ok, j := ns.Link(dir, n, NameField(op.name, op.rest));
    if !ok { return NoRoom; }
    BytesOf(ns);
    Untouching(a, ViewOf(ns), t, ns.table.fs.T(), {op.d}, {});
    assert Linked(a, op, ViewOf(ns), j);
  }

  /** The numbers in use after an unlink: the inode goes if that was its last link. */
  lemma NamedAfterUnlink(nl: map<nat, nat>, nl': map<nat, nat>, num: nat)
    requires AllNamed(nl) && num in nl
    requires nl' == (if nl[num] > 1 then nl[num := nl[num] - 1] else nl - {num})
    ensures AllNamed(nl')
  {
  }

  /** There is at most one first entry of a name. */
  lemma OneMatch(a: View, d: nat, name: seq<byte>, j: nat, num: nat)
    requires MatchedEntry(a.dirs, d, j, name, num)
    ensures NamesInode(a, d, name, num) && !NoSuchName(a.dirs, d, name)
    ensures forall k: nat :: NamesInode(a, d, name, k) ==> k == num
  {
    hide CString;
    forall k: nat | NamesInode(a, d, name, k) ensures k == num {
      var i: nat :| MatchedEntry(a.dirs, d, i, name, k);
      assert i == j;
    }
  }

  lemma MatchOf(a: View, d: nat, name: seq<byte>, j: nat)
    requires d in a.dirs && FirstMatch(a.dirs[d], j, name)
    ensures j < |a.dirs[d]| && MatchedEntry(a.dirs, d, j, name, a.dirs[d][j].num) && a.dirs[d][j].num != 0
  {
  }

  lemma UnlinkDoes(a: View, op: NameOp, b: View, num: nat, j: nat)
    requires op.UnlinkOp? && op.d in a.dirs && |op.name| <= MAX_NAME_LENGTH && !Full(a, op.d)
    requires num != op.d && Unlinked(a, op, b, num, j)
    requires a.links[num] > 1 || Childless(a.dirs, num)
    ensures Does(a, op, b, [])
  {
    hide CString, PutEntry, Emptied, MatchedEntry, FirstMatch, Childless, NoSuchName;
    OneMatch(a, op.d, op.name, j, num);
  }

  lemma RefuseDoes(a: View, op: NameOp, b: View)
    requires op.UnlinkOp? && Same(a, b)
    requires op.d in a.dirs ==> NoSuchName(a.dirs, op.d, op.name) || Untouchable(a, op.d, op.name)
    ensures Does(a, op, b, [])
  {
    hide CString, NoSuchName, Untouchable, Same;
  }

  lemma EmptiedKeys(dirs: Dirs, d: nat, j: nat)
    ensures Emptied(dirs, d, j).Keys == dirs.Keys
  {
  }

  /** unlink, as the caller does it: look the name up, then remove the entry of the inode found. */
  method DoUnlink(ns: Namespace, dirs: set<nat>, nums: set<nat>, op: NameOp, garbage: Dinode)
    returns (r: Outcome, dirs': set<nat>, nums': set<nat>)
    requires Good(ns, dirs, nums) && op.UnlinkOp? && OpOk(op) && op.d in dirs && WellFormed(garbage)
    modifies ns, ns.table, ns.table.fs, ns.table.fs.space, ns.table.fs.inodes.Values
    ensures r.Done? ==> Good(ns, dirs', nums') && ns.table.frontier == old(ns.table.frontier) && NewOrOld(ns)
    ensures r.Done? ==> Does(old(ViewOf(ns)), op, ViewOf(ns), [])
    ensures !r.Done? ==> Stopped(ns, old(ViewOf(ns)), op, r)
  {
    hide Namespace.Base, Namespace.HintsOk, Namespace.NLinks, Namespace.Attrs, Inode.HintOk, CString, CountsOk;
    hide Namespace.Stale, ByteAt, FileSystem.T, Untouched, EntriesOk, MatchedEntry, NoSuchName, FirstMatch, Childless;
    hide Does;
    r, dirs', nums' := Done, dirs, nums;
    ghost var a, t := ViewOf(ns), ns.table.fs.T();
    BytesOf(ns);
    LinksOf(ns, dirs, nums);
    DirOf(ns, dirs, nums, op.d);
    var dir := ns.table.fs.inodes[op.d];
    if dir.size + DIRENT_SIZE >= TWO32 || |op.name| > MAX_NAME_LENGTH {
      SameDoes(a, op);
      return;
    }
    var ok, found, j, e;
    ok, found, j, e := ns.FindName(dir, op.name);
    if !ok { return NoRoom, dirs', nums'; }
    BytesOf(ns);
    ghost var t1 := ns.table.fs.T();
    Untouching(a, ViewOf(ns), t, t1, {}, {});
    if found { MatchOf(a, op.d, op.name, j); }
    if !found || e.num == op.d {
      if found { OneMatch(a, op.d, op.name, j, e.num); }
      RefuseDoes(a, op, ViewOf(ns));
      return;
    }
    EntryUsed(ns, op.d, j);
    InodeOf(ns, dirs, nums, e.num);
    r, dirs', nums' := RemoveFound(ns, dirs, nums, op, garbage, j, e.num, a, t);
  }

  lemma SameDoes(a: View, op: NameOp)
    requires OpOk(op) && !op.ReadOp? && !op.WriteOp?
    requires op.d !in a.dirs || |op.name| > MAX_NAME_LENGTH || Full(a, op.d)
    ensures Does(a, op, a, [])
  {
  }

  lemma EntryUsed(ns: Namespace, d: nat, j: nat)
    requires ns.Valid() && d in ns.dirs && j < |ns.dirs[d]| && ns.dirs[d][j].num != 0
    ensures ns.dirs[d][j].num in ns.table.inUse
  {
    hide Namespace.Base, CountsOk;
  }

  /** unlink of an entry that has been found. */
  method RemoveFound(ns: Namespace, dirs: set<nat>, nums: set<nat>, op: NameOp, garbage: Dinode, ghost j0: nat,
                     num: nat, ghost a: View, ghost t: Tree)
    returns (r: Outcome, dirs': set<nat>, nums': set<nat>)
    requires Good(ns, dirs, nums) && op.UnlinkOp? && OpOk(op) && op.d in dirs && WellFormed(garbage)
    requires |op.name| <= MAX_NAME_LENGTH
    requires num in nums && num != op.d && MatchedEntry(ns.dirs, op.d, j0, op.name, num)
    requires a.dirs == ns.dirs && a.links == ns.NLinks() && a.attrs == ns.Attrs() && a.stale == ns.Stale()
    requires !Full(a, op.d)
    requires Untouched(t, ns.table.fs.T(), {}) && forall k: nat, o: nat :: a.bytes(k, o) == ByteAt(t, k, o)
    modifies ns, ns.table, ns.table.fs, ns.table.fs.space, ns.table.fs.inodes.Values
    ensures r.Done? ==> Good(ns, dirs', nums') && ns.table.frontier == old(ns.table.frontier) && NewOrOld(ns)
    ensures r.Done? ==> Does(a, op, ViewOf(ns), [])
    ensures !r.Done? ==> Stopped(ns, a, op, r)
  {
    hide Namespace.Valid, Namespace.HintsOk, Namespace.NLinks, Namespace.Attrs, Inode.HintOk, Namespace.Stale, ByteAt;
    hide FileSystem.T, Untouched, MatchedEntry, NoSuchName, FirstMatch, Childless, Does, Emptied, AllNamed, Full;
    hide FilesKept, Resized;
    r, dirs', nums' := Done, dirs, nums;
    DirOf(ns, dirs, nums, op.d);
    LinksOf(ns, dirs, nums);
    InodeOf(ns, dirs, nums, num);
    TableFile(ns, dirs, nums);
    AgreesOn(ns, op.d, op.name, j0, num);
    FullMeans(ns, a, op.d);
    var dir, n := ns.table.fs.inodes[op.d], ns.table.fs.inodes[num];
    var last := n.nlinks <= 1;
    var orphans := last && !Childless(ns.dirs, num);
    ghost var t1, nl := ns.table.fs.T(), ns.NLinks();
    OneMatch(a, op.d, op.name, j0, num);
    var ok, code, j;
    ok, code, j := ns.Unlink(dir, op.name, n, garbage);
    if !ok { return NoRoom, dirs', nums'; }
    if orphans { return Orphans, dirs', nums'; }
    BytesOf(ns);
    ghost var except := if last then {0, op.d, num} else {op.d};
    UntouchedTrans(t, t1, ns.table.fs.T(), {}, except);
    Untouching(a, ViewOf(ns), t, ns.table.fs.T(), except, if last then {num} else {});
    NamedAfterUnlink(nl, ns.NLinks(), num);
    EmptiedKeys(a.dirs, op.d, j);
    RootUsed(ns);
    if last { nums', dirs' := nums - {num}, dirs - {num}; }
    UnlinkDoes(a, op, ViewOf(ns), num, j);
  }

  lemma RootUsed(ns: Namespace)
    requires ns.Valid()
    ensures ROOT in ns.table.inUse
  {
  }

  lemma AgreesOn(ns: Namespace, d: nat, name: seq<byte>, j: nat, num: nat)
    requires d in ns.table.fs.inodes && ns.table.fs.inodes[d].id == d && MatchedEntry(ns.dirs, d, j, name, num)
    ensures forall i: nat :: d in ns.dirs && i < |ns.dirs[d]| && FirstMatch(ns.dirs[d], i, name) ==>
              ns.dirs[d][i].num == num
    ensures !NoSuchName(ns.dirs, d, name)
  {
    hide CString;
  }

  lemma FullMeans(ns: Namespace, a: View, d: nat)
    requires a.dirs == ns.dirs && d in ns.table.fs.inodes && ns.table.fs.inodes[d].id == d
    ensures !Full(a, d) ==> ns.RoomFor(ns.table.fs.inodes[d])
  {
  }

  /** read and write of a file. */
  method DoData(ns: Namespace, dirs: set<nat>, nums: set<nat>, op: NameOp) returns (r: Outcome, out: seq<byte>)
    requires Good(ns, dirs, nums) && (op.ReadOp? || op.WriteOp?) && OpOk(op)
    modifies ns, ns.table, ns.table.fs, ns.table.fs.space, ns.table.fs.inodes.Values
    ensures r.Done? ==> Good(ns, dirs, nums) && ns.table.frontier == old(ns.table.frontier) && NewOrOld(ns)
    ensures r.Done? ==> Does(old(ViewOf(ns)), op, ViewOf(ns), out)
    ensures !r.Done? ==> Stopped(ns, old(ViewOf(ns)), op, r)
  {
    hide Namespace.Valid, Namespace.HintsOk, Namespace.NLinks, Namespace.Attrs, Inode.HintOk, Namespace.Stale, ByteAt;
    hide FileSystem.T, Untouched, BytesWritten;
    r, out := Done, [];
    ghost var a, t := ViewOf(ns), ns.table.fs.T();
    BytesOf(ns);
    LinksOf(ns, dirs, nums);
    if op.num !in nums || op.num in dirs { return; }
    if op.off + (if op.ReadOp? then op.n else |op.src|) >= TWO32 { return; }
    InodeOf(ns, dirs, nums, op.num);
    var n := ns.table.fs.inodes[op.num];
    var ok;
    if op.ReadOp? {
      ok, out := ns.ReadData(n, op.off, op.n);
      if !ok { return NoRoom, []; }
      BytesOf(ns);
      Untouching(a, ViewOf(ns), t, ns.table.fs.T(), {}, {});
    } else {
      ok := ns.WriteData(n, op.off, op.src);
      if !ok { return NoRoom, []; }
      BytesOf(ns);
      WrittenView(a, op, ViewOf(ns), t, ns.table.fs.T());
    }
  }

  lemma WrittenView(a: View, op: NameOp, b: View, t: Tree, t': Tree)
    requires op.WriteOp? && BytesWritten(t, t', op.num, op.off, op.src)
    requires b.dirs == a.dirs && b.links == a.links && b.stale == a.stale
    requires op.num in a.attrs && b.attrs == Resized(a.attrs, op.num, Larger(op.off + |op.src|, a.attrs[op.num].size))
    requires forall k: nat, o: nat :: a.bytes(k, o) == ByteAt(t, k, o)
    requires forall k: nat, o: nat :: b.bytes(k, o) == ByteAt(t', k, o)
    ensures Wrote(a, op, b)
  {
    hide ByteAt;
  }

  method Do(ns: Namespace, dirs: set<nat>, nums: set<nat>, op: NameOp, garbage: Dinode)
    returns (r: Outcome, dirs': set<nat>, nums': set<nat>, out: seq<byte>)
    requires Good(ns, dirs, nums) && OpOk(op) && WellFormed(garbage) && (ns.table.frontier + 3) * DINODE_SIZE < TWO32
    modifies ns, ns.table, ns.table.fs, ns.table.fs.space, ns.table.fs.inodes.Values
    ensures r.Done? ==> Good(ns, dirs', nums') && ns.table.frontier <= old(ns.table.frontier) + 1 && NewOrOld(ns)
    ensures r.Done? ==> Does(old(ViewOf(ns)), op, ViewOf(ns), out)
    ensures !r.Done? ==> Stopped(ns, old(ViewOf(ns)), op, r)
  {
    hide Good, NameDoes, Orphaning, FilesKept;
    r, dirs', nums', out := Done, dirs, nums, [];
    LinksOf(ns, dirs, nums);
    match op {
      case ReadOp(_, _, _) => r, out := DoData(ns, dirs, nums, op);
      case WriteOp(_, _, _) => r, out := DoData(ns, dirs, nums, op);
      case MakeOp(_, _, _, _) =>
        if op.d in dirs { r, dirs', nums' := DoMake(ns, dirs, nums, op); } else { Unchanged(ViewOf(ns), op); }
      case LinkOp(_, _, _, _) =>
        if op.d in dirs && op.num in nums { r := DoLink(ns, dirs, nums, op); } else { Unchanged(ViewOf(ns), op); }
      case UnlinkOp(_, _) =>
        if op.d !in dirs { Unchanged(ViewOf(ns), op); return; }
        r, dirs', nums' := DoUnlink(ns, dirs, nums, op, garbage);
    }
  }

  lemma Unchanged(a: View, op: NameOp)
    requires OpOk(op) && !op.ReadOp? && !op.WriteOp? && (op.d !in a.dirs || (op.LinkOp? && op.num !in a.links))
    ensures Does(a, op, a, [])
  {
  }

  /** Over every run: each operation does what it should or is refused; link counts are the numbers of
      slots naming the inodes, and a number is released exactly when the last slot naming it is
      emptied.  The run stops early only when no block can be allocated any more, when a new
      inode comes with the hint of its predecessor, or when the last name of a directory with
      entries is removed. */
  method Run(ns: Namespace, ops: seq<NameOp>, garbage: Dinode, dirs0: set<nat>, nums0: set<nat>)
    returns (r: Outcome, dirs: set<nat>, nums: set<nat>, outs: seq<seq<byte>>, ghost trace: seq<View>)
    requires Good(ns, dirs0, nums0) && WellFormed(garbage) && forall i :: 0 <= i < |ops| ==> OpOk(ops[i])
    requires (ns.table.frontier + |ops| + 3) * DINODE_SIZE < TWO32
    modifies ns, ns.table, ns.table.fs, ns.table.fs.space, ns.table.fs.inodes.Values
    ensures Steps(trace, ops, outs) && trace[0] == old(ViewOf(ns))
    ensures r.Done? ==> Good(ns, dirs, nums) && CountsOk(ns.NLinks(), ns.dirs) && NamedMeansUsed(ns)
    ensures r.Done? ==> |outs| == |ops| && trace[|ops|] == ViewOf(ns)
    ensures !r.Done? ==> |outs| < |ops| && Stopped(ns, trace[|outs|], ops[|outs|], r)
  {
    hide Good, OpOk, WellFormed, CountsOk, NamedMeansUsed, Does, Stopped, Namespace.HintsOk, Namespace.Valid;
    r, dirs, nums, outs, trace := Done, dirs0, nums0, [], [ViewOf(ns)];
    for i := 0 to |ops|
      invariant Good(ns, dirs, nums) && ns.table.frontier <= old(ns.table.frontier) + i && NewOrOld(ns)
      invariant |outs| == i && Steps(trace, ops, outs) && trace[0] == old(ViewOf(ns)) && trace[i] == ViewOf(ns)
    {
      var out;
      r, dirs, nums, out := Do(ns, dirs, nums, ops[i], garbage);
      if !r.Done? { return; }
      outs, trace := outs + [out], trace + [ViewOf(ns)];
    }
    r := Done;
    GoodMeans(ns, dirs, nums);
    GoodCounts(ns, dirs, nums);
  }

  lemma GoodCounts(ns: Namespace, dirs: set<nat>, nums: set<nat>)
    requires Good(ns, dirs, nums)
    ensures CountsOk(ns.NLinks(), ns.dirs)
  {
    hide InodeTable.Valid, Refs;
  }

  /** From make_fs on. */
  method RunFromNew(nblocks: u32, raw: map<u32, Block>, garbage: Dinode, ops: seq<NameOp>)
    returns (r: Outcome, ns: Namespace, outs: seq<seq<byte>>, ghost trace: seq<View>)
    requires nblocks >= MIN_CAPACITY && NoOverflow(nblocks)
    requires forall b :: b in raw <==> GenericStart(nblocks) <= b < nblocks
    requires WellFormed(garbage) && (|ops| + 5) * DINODE_SIZE < TWO32 && forall i :: 0 <= i < |ops| ==> OpOk(ops[i])
    ensures Steps(trace, ops, outs)
    ensures trace[0].dirs == map[ROOT := []] && trace[0].links.Keys == {ROOT} && trace[0].stale == {}
    ensures trace[0].attrs == map[ROOT := Attr(ITYPE_DIR, 0, 0)]
    ensures r.Done? ==> ns.Valid() && CountsOk(ns.NLinks(), ns.dirs) && NamedMeansUsed(ns)
    ensures r.Done? ==> |outs| == |ops| && trace[|ops|] == ViewOf(ns)
    ensures !r.Done? ==> |outs| < |ops| && Stopped(ns, trace[|outs|], ops[|outs|], r)
  {
    hide OpOk, WellFormed, CountsOk, NamedMeansUsed, Namespace.Valid, Namespace.HintsOk, Namespace.Stale, Steps;
    hide Stopped;
    var made, new_ns := NewNamespace(nblocks, raw, garbage);
    ns := new_ns;
    OnlyRoot(ns);
    LinksOf(ns, {ROOT}, {ROOT});
    var dirs, nums;
    r, dirs, nums, outs, trace := Run(ns, ops, garbage, {ROOT}, {ROOT});
  }

  lemma OnlyRoot(ns: Namespace)
    requires ns.Valid() && ns.table.inUse == {ROOT} && ns.dirs == map[ROOT := []]
    ensures AllNamed(ns.NLinks()) && ns.Attrs() == map[ROOT := Attr(ITYPE_DIR, 0, 0)]
  {
    hide InodeTable.Valid, Refs, Slots;
  }

  // ------------------------------------------------------------ a run that orphans a file

  const LETTER_D: byte := 100
  const LETTER_F: byte := 102

  function Rest(): (rest: seq<byte>) { seq(26, i => 0) }

  function Field(c: byte): (f: RawName) { NameField([c], Rest()) }

  lemma FieldReads(c: byte)
    requires c != 0
    ensures CString(Field(c)) == [c]
  {
    CStringOfName([c], Rest());
  }

  /** While directory and table are small, no address block is needed. */
  lemma SmallNeeds(ns: Namespace, dir: Inode)
    requires dir.id in ns.dirs && |ns.dirs[dir.id]| <= 1 && ns.table.frontier <= 4
    ensures ns.CreateNeed(dir) == 2 && ns.UnlinkNeed(dir) == 4
  {
  }

  lemma PutFirst(e: Dirent, j: nat)
    requires FirstEmpty([], j)
    ensures j == 0 && PutEntry([], j, e) == [e]
  {
  }

  lemma NewDirAt(ns: Namespace, dir: Inode)
    requires ns.Valid() && ns.HintsOk() && dir.id in ns.dirs && dir.id in ns.table.fs.inodes
    requires ns.table.fs.inodes[dir.id] == dir
    ensures ns.IsDir(dir) && ns.InUse(dir) && 0 < dir.id && dir.id in ns.NLinks() && ns.NLinks()[dir.id] == dir.nlinks
  {
    hide TreeOk, Target, Space.Valid, ListOk, Slots, Refs, CountsOk;
  }

  /** mkdir of a first directory, or create of a first file, in an empty directory. */
  method MakeFirst(ns: Namespace, dir: Inode, c: byte, isDir: bool) returns (n: Inode)
    requires ns.Valid() && ns.HintsOk() && ns.Stale() == {} && ns.IsDir(dir) && ns.dirs[dir.id] == [] && c != 0
    requires ns.table.fs.space.room >= 2 && ns.table.frontier <= 3
    modifies ns, ns.table, ns.table.fs, ns.table.fs.space, ns.table.fs.inodes.Values
    ensures ns.Valid() && ns.HintsOk() && ns.Stale() == {} && ns.table.frontier <= old(ns.table.frontier) + 1
    ensures n.id !in old(ns.table.inUse) && 0 < n.id < TWO32 && ns.table.inUse == old(ns.table.inUse) + {n.id}
    ensures ns.table.fs.inodes == old(ns.table.fs.inodes)[n.id := n] && NewOrOld(ns)
    ensures ns.NLinks() == old(ns.NLinks())[n.id := 1]
    ensures ns.dirs == (if isDir then old(ns.dirs)[n.id := []] else old(ns.dirs))[dir.id := [Dirent(n.id, Field(c))]]
    ensures ns.table.fs.space.room >= old(ns.table.fs.space.room) - 2
  {
    hide Namespace.Valid, Namespace.HintsOk, Namespace.Stale, Namespace.NLinks, Namespace.Attrs, Inode.HintOk, CString;
    hide Untouched, FileSystem.T, ByteAt, PutEntry, Namespace.CreateNeed, FirstEmpty, EntryPut;
    SmallNeeds(ns, dir);
    ghost var before := ns.dirs;
    UsedDirs(ns);
    var ok, r, j;
    ok, r, n, j := ns.Create(dir, [c], Rest(), isDir);
    UsedBound(ns, n.id);
    FirstPut(if isDir then before[n.id := []] else before, ns.dirs, dir.id, j, Dirent(n.id, Field(c)));
  }

  lemma UsedDirs(ns: Namespace)
    requires ns.Valid()
    ensures forall d :: d in ns.dirs ==> d in ns.table.inUse
  {
    ns.NewIsNoDir();
  }

  lemma FirstPut(dirs: Dirs, dirs': Dirs, d: nat, j: nat, e: Dirent)
    requires d in dirs && dirs[d] == [] && EntryPut(dirs, dirs', d, j, e)
    ensures dirs' == dirs[d := [e]]
  {
    PutFirst(e, j);
  }

  /** mkdir d; create d/f on a new file system. */
  method DirWithFile(ns: Namespace) returns (root: Inode, d: Inode, f: nat)
    requires ns.Valid() && ns.HintsOk() && ns.Stale() == {} && ns.dirs == map[ROOT := []] && ns.table.frontier == 2
    requires ns.table.inUse == {ROOT} && ns.table.fs.space.room >= 8
    modifies ns, ns.table, ns.table.fs, ns.table.fs.space, ns.table.fs.inodes.Values
    ensures NewOrOld(ns) && ns.Valid() && ns.IsDir(root) && ns.InUse(d) && root.id == ROOT && d.id != ROOT
    ensures 0 < d.id < TWO32 && 0 < f < TWO32 && f in ns.table.inUse && f != d.id && f != ROOT && d.nlinks == 1
    ensures f in ns.NLinks() && ns.NLinks()[f] == 1 && ns.table.fs.space.room >= 4 && ns.table.frontier <= 4
    ensures ns.dirs == map[ROOT := [Dirent(d.id, Field(LETTER_D))], d.id := [Dirent(f, Field(LETTER_F))]]
  {
    hide Namespace.Valid, Namespace.HintsOk, Namespace.Stale, Namespace.NLinks, Namespace.Attrs, Inode.HintOk, Field;
    RootIsDir(ns);
    root := ns.table.fs.inodes[ROOT];
    d := MakeFirst(ns, root, LETTER_D, true);
    NewDirAt(ns, d);
    var n := MakeFirst(ns, d, LETTER_F, false);
    f := n.id;
    TwoDirs(Dirent(d.id, Field(LETTER_D)), Dirent(f, Field(LETTER_F)), d.id);
    NewDirAt(ns, root);
    NewDirAt(ns, d);
  }

  lemma TwoDirs(e: Dirent, e': Dirent, d: nat)
    requires d != ROOT
    ensures var dirs: Dirs := map[ROOT := []];
            dirs[d := []][ROOT := [e]][d := [e']] == map[ROOT := [e], d := [e']]
  {
  }

  /** mkdir d; create d/f; unlink d, on any new file system: all three succeed, and inode f is left with
      one link and no name. */
  method OrphanRun(nblocks: u32, raw: map<u32, Block>, garbage: Dinode) returns (ns: Namespace, f: nat)
    requires nblocks >= MIN_CAPACITY && NoOverflow(nblocks)
    requires (forall b :: b in raw <==> GenericStart(nblocks) <= b < nblocks) && WellFormed(garbage)
    ensures f in ns.table.inUse && f in ns.NLinks() && ns.NLinks()[f] == 1 && Refs(ns.dirs, f) == {} && !ns.Valid()
  {
    hide Namespace.Valid, Namespace.HintsOk, Namespace.Stale, Namespace.NLinks, Namespace.Attrs, Inode.HintOk;
    hide WellFormed, Refs, Field, Namespace.UnlinkNeed, Untouched, FileSystem.T, CString, PutEntry, Emptied, Childless;
    hide NoSuchName, FirstMatch;
    var made, new_ns := NewNamespace(nblocks, raw, garbage);
    ns := new_ns;
    var root, d;
    root, d, f := DirWithFile(ns);
    TableIsNone(ns);
    ghost var e, e' := Dirent(d.id, Field(LETTER_D)), Dirent(f, Field(LETTER_F));
    FieldReads(LETTER_D);
    OnlyEntry(ns.dirs, e, [LETTER_D]);
    SmallNeeds(ns, root);
    NothingLeft(e, e', d.id, f, 0);
    var ok, r, j;
    ok, r, j := ns.Unlink(root, [LETTER_D], d, garbage);
  }

  lemma RootIsDir(ns: Namespace)
    requires ns.Valid() && ns.HintsOk() && ns.dirs == map[ROOT := []]
    ensures ROOT in ns.table.fs.inodes && ns.IsDir(ns.table.fs.inodes[ROOT]) && ns.table.fs.inodes[ROOT].id == ROOT
  {
    hide TreeOk, Target, Space.Valid, ListOk, Slots, Refs, CountsOk;
  }

  lemma TableIsNone(ns: Namespace)
    requires ns.Valid()
    ensures ns.table.file in ns.table.fs.inodes.Values
  {
    hide TreeOk, Target, Space.Valid, ListOk, Slots, Refs, CountsOk;
    assert ns.table.fs.inodes[0] == ns.table.file;
  }

  lemma OnlyEntry(dirs: Dirs, e: Dirent, name: seq<byte>)
    requires ROOT in dirs && dirs[ROOT] == [e] && e.num != 0 && CString(e.name) == name
    ensures !NoSuchName(dirs, ROOT, name) && FirstMatch(dirs[ROOT], 0, name)
    ensures forall j: nat :: FirstMatch(dirs[ROOT], j, name) ==> j == 0
  {
    assert dirs[ROOT][0].num != 0;
  }

  lemma NothingLeft(e: Dirent, e': Dirent, d: nat, f: nat, j: nat)
    requires d != ROOT && f != 0 && e'.num == f && j == 0
    ensures var dirs: Dirs := map[ROOT := [e], d := [e']];
            Refs(Emptied(dirs, ROOT, j) - {d}, f) == {} && !Childless(dirs, d)
  {
    var dirs: Dirs := map[ROOT := [e], d := [e']];
    assert dirs[d][0].num == f;
    assert PutEntry([e], 0, Dirent(0, e.name)) == [Dirent(0, e.name)];
    assert Emptied(dirs, ROOT, j) - {d} == map[ROOT := [Dirent(0, e.name)]];
  }
}
