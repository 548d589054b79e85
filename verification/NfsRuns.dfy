/** Whole runs of reads and writes over any set of files. */
module NfsRuns {
  import opened Basics
  import opened NfsCommon
  import opened NfsSpace
  import opened NfsTree
  import opened Nfs

  datatype Op = ReadOp(id: nat, off: nat, n: nat) | WriteOp(id: nat, off: nat, src: seq<byte>)

  /** The abstract file system: one unbounded byte map per inode number. */
  type Flat = (nat, nat) -> byte

  ghost function Apply(f: Flat, op: Op): (g: Flat)
  {
    match op
    case ReadOp(_, _, _) => f
    case WriteOp(id, off, src) =>
      (id': nat, o: nat) => if id' == id && off <= o < off + |src| then src[o - off] else f(id', o)
  }

  /** The abstract state after the first j operations. */
  ghost function After(f: Flat, ops: seq<Op>, j: nat): (g: Flat)
    requires j <= |ops|
  {
    if j == 0 then f else Apply(After(f, ops, j - 1), ops[j - 1])
  }

  ghost predicate Represents(t: Tree, f: Flat)
  {
    forall id, o: nat :: ByteAt(t, id, o) == f(id, o)
  }

  /** Every read in the run returned the bytes of the abstract state at that moment. */
  ghost predicate ReadsAgree(f: Flat, ops: seq<Op>, outs: seq<seq<byte>>, n: nat)
    requires n <= |ops| && n <= |outs|
  {
    forall j :: 0 <= j < n && ops[j].ReadOp? ==>
      |outs[j]| == ops[j].n && forall x :: 0 <= x < ops[j].n ==>
          outs[j][x] == After(f, ops, j)(ops[j].id, ops[j].off + x)
  }

  ghost predicate OpsOk(ops: seq<Op>, ids: set<nat>)
  {
    forall j :: 0 <= j < |ops| ==>
      ops[j].id in ids && ops[j].off + (if ops[j].ReadOp? then ops[j].n else |ops[j].src|) < TWO32
  }

  /** All files are in order, hints included. */
  ghost predicate Ready(fs: FileSystem)
    reads fs, fs.space, fs.inodes.Values
  {
    fs.Valid() && forall k :: k in fs.inodes ==> fs.inodes[k].HintOk()
  }

  lemma ReadKeeps(t: Tree, t': Tree, f: Flat)
    requires Represents(t, f) && SameBytes(t, t')
    ensures Represents(t', f)
  {
  }

  lemma WriteApplies(t: Tree, t': Tree, f: Flat, op: Op)
    requires Represents(t, f) && op.WriteOp? && BytesWritten(t, t', op.id, op.off, op.src)
    ensures Represents(t', Apply(f, op))
  {
  }

  /** One operation against the abstract state f. */
  method Step(fs: FileSystem, op: Op, ghost f: Flat) returns (ok: bool, out: seq<byte>)
    requires Ready(fs) && OpsOk([op], fs.inodes.Keys) && Represents(fs.T(), f)
    modifies fs`owner, fs`disk, fs.space, fs.inodes.Values
    ensures Ready(fs) && fs.inodes == old(fs.inodes)
    ensures ok ==> Represents(fs.T(), Apply(f, op))
    ensures ok && op.ReadOp? ==> |out| == op.n && forall x :: 0 <= x < op.n ==> out[x] == f(op.id, op.off + x)
    ensures !ok ==> fs.space.room == 0
  {
    hide TreeOk, Target, Space.Valid, BytesWritten, SameBytes, ByteAt;
    assert [op][0] == op;
    ghost var t := fs.T();
    var n := fs.inodes[op.id];
    out := [];
    match op {
      case ReadOp(id, off, size) =>
        ok, out := n.Read(off, size);
        ReadKeeps(t, fs.T(), f);
      case WriteOp(id, off, src) =>
        var count;
        ok, count := n.Write(src, off);
        if ok {
          assert src[..count] == src;
          WriteApplies(t, fs.T(), f, op);
        }
    }
  }

  lemma OneOp(ops: seq<Op>, ids: set<nat>, i: nat)
    requires OpsOk(ops, ids) && i < |ops|
    ensures OpsOk([ops[i]], ids)
  {
  }

  lemma NoReads(f: Flat, ops: seq<Op>)
    ensures ReadsAgree(f, ops, [], 0)
  {
  }

  lemma ReadsNext(f: Flat, ops: seq<Op>, outs: seq<seq<byte>>, out: seq<byte>, i: nat)
    requires i < |ops| && |outs| == i && ReadsAgree(f, ops, outs, i)
    requires ops[i].ReadOp? ==> |out| == ops[i].n
    requires ops[i].ReadOp? ==>
               forall x :: 0 <= x < ops[i].n && x < |out| ==> out[x] == After(f, ops, i)(ops[i].id, ops[i].off + x)
    ensures ReadsAgree(f, ops, outs + [out], i + 1)
  {
    hide After;
  }

  /** Every run of reads and writes, over any files and offsets, behaves like the flat
      zero-filled byte maps: each read returns exactly the map's bytes at that moment,
      and each write changes exactly its own range of its own file.  A run ends early only
      when no block can be allocated any more. */
  method Run(fs: FileSystem, ops: seq<Op>, ghost f: Flat) returns (ok: bool, outs: seq<seq<byte>>)
    requires Ready(fs) && OpsOk(ops, fs.inodes.Keys) && Represents(fs.T(), f)
    modifies fs`owner, fs`disk, fs.space, fs.inodes.Values
    ensures Ready(fs) && fs.inodes == old(fs.inodes)
    ensures ok ==> |outs| == |ops| && ReadsAgree(f, ops, outs, |ops|)
    ensures ok ==> Represents(fs.T(), After(f, ops, |ops|))
    ensures !ok ==> fs.space.room == 0
  {
    hide Represents, FileSystem.Valid, FileSystem.T, Ready, OpsOk, ReadsAgree, Apply;
    ok, outs := true, [];
    assert ReadsAgree(f, ops, outs, 0) by { NoReads(f, ops); }
    for i := 0 to |ops|
      invariant Ready(fs) && fs.inodes == old(fs.inodes)
      invariant Represents(fs.T(), After(f, ops, i))
      invariant |outs| == i && ReadsAgree(f, ops, outs, i)
    {
      var out;
      OneOp(ops, fs.inodes.Keys, i);
      ok, out := Step(fs, ops[i], After(f, ops, i));
      if !ok { return; }
      ReadsNext(f, ops, outs, out, i);
      outs := outs + [out];
    }
    ok := true;
  }
}
