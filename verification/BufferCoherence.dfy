/** The buffer cache refines a plain map from block number to contents. */
module BufferCoherence {
  import opened Basics
  import opened BufferCache

  type Disk = map<Key, Data>

  /** Node n has been written back and only waits for its session to notice. */
  ghost predicate Spent(s: State, n: nat)
  {
    exists t :: t in s.pcs && s.pcs[t].Flushing? && s.pcs[t].n == n && s.pcs[t].written
  }

  /** Node n stands for block k. */
  ghost predicate Current(s: State, n: nat, k: Key)
  {
    Has(s.nodes, n, k) && !Spent(s, n)
  }

  /** No two nodes, in the buffer list or on their way to the disk, stand for the same block. */
  ghost predicate OneNode(s: State)
  {
    forall m, n, k :: Current(s, m, k) && Current(s, n, k) ==> m == n
  }

  /** A valid copy is the block's logical content. */
  ghost predicate ValidOk(s: State, l: Disk)
  {
    forall n, k :: Current(s, n, k) && s.nodes[n].valid ==> k in l && s.nodes[n].data == l[k]
  }

  ghost predicate Clean(s: State, k: Key)
  {
    forall n :: Current(s, n, k) ==> !s.nodes[n].dirty
  }

  /** Without a dirty copy the disk holds the logical content. */
  ghost predicate DiskOk(s: State, l: Disk)
  {
    forall k :: k in s.disk && Clean(s, k) ==> k in l && s.disk[k] == l[k]
  }

  /** What the device has read is current. */
  ghost predicate LoadingOk(s: State, l: Disk)
  {
    forall t, n, k :: t in s.pcs && s.pcs[t] == Loading(n) && Has(s.nodes, n, k) && k in l ==> s.nodes[n].data == l[k]
  }

  ghost predicate Coherent(s: State, l: Disk)
  {
    s.disk.Keys == l.Keys && OneNode(s) && ValidOk(s, l) && DiskOk(s, l) && LoadingOk(s, l)
  }

  /** A node in the buffer list is not spent. */
  lemma NotSpent(s: State, n: nat)
    requires Inv(s) && n !in s.flush
    ensures !Spent(s, n)
  {
    hide KeysUnique, UsersOk, LocksOk, NoDup;
  }

  /** A session that may look at a buffer sees the block's logical content. */
  lemma HolderSees(s: State, l: Disk, t: nat, n: nat)
    requires Inv(s) && Coherent(s, l) && t in s.pcs && s.pcs[t] == Locked(n) && s.nodes[n].valid
    ensures s.nodes[n].key.Some? && s.nodes[n].key.value in l && s.nodes[n].data == l[s.nodes[n].key.value]
  {
    hide LocksOk, FlushersOk, DiskOk, LoadingOk, OneNode, KeysUnique;
    assert Uses(s.pcs[t], n);
    NotSpent(s, n);
    assert Current(s, n, s.nodes[n].key.value);
  }

  // ------------------------------------------------------------ steps

  /** Nothing but owners, locks, list places and idle program counters has changed. */
  ghost predicate Quiet(s: State, s': State)
  {
    && s'.disk == s.disk && s'.nodes.Keys == s.nodes.Keys
    && (forall n :: n in s.nodes ==>
          s'.nodes[n].key == s.nodes[n].key && s'.nodes[n].valid == s.nodes[n].valid &&
          s'.nodes[n].dirty == s.nodes[n].dirty && s'.nodes[n].data == s.nodes[n].data)
    && (forall t :: t in s'.pcs && Busy(s'.pcs[t]) ==> t in s.pcs && s'.pcs[t] == s.pcs[t])
    && (forall t :: t in s.pcs && Busy(s.pcs[t]) ==> t in s'.pcs && s'.pcs[t] == s.pcs[t])
  }

  ghost predicate Busy(pc: Pc) { pc.Loading? || (pc.Flushing? && pc.written) }

  lemma QuietKeeps(s: State, s': State, l: Disk)
    requires Coherent(s, l) && Quiet(s, s')
    ensures Coherent(s', l)
  {
    hide LoadingOk, ValidOk, DiskOk;
    QuietCurrent(s, s');
    QuietValid(s, s', l);
    QuietDisk(s, s', l);
    QuietLoading(s, s', l);
  }

  lemma QuietCurrent(s: State, s': State)
    requires Quiet(s, s')
    ensures forall n, k :: Current(s', n, k) <==> Current(s, n, k)
  {
    forall n ensures Spent(s', n) <==> Spent(s, n) {
      if Spent(s', n) {
        var t :| t in s'.pcs && s'.pcs[t].Flushing? && s'.pcs[t].n == n && s'.pcs[t].written;
        assert Busy(s'.pcs[t]);
      }
      if Spent(s, n) {
        var t :| t in s.pcs && s.pcs[t].Flushing? && s.pcs[t].n == n && s.pcs[t].written;
        assert Busy(s.pcs[t]);
      }
    }
  }

  lemma QuietValid(s: State, s': State, l: Disk)
    requires ValidOk(s, l) && Quiet(s, s') && forall n, k :: Current(s', n, k) <==> Current(s, n, k)
    ensures ValidOk(s', l)
  {
    hide Spent;
  }

  lemma QuietDisk(s: State, s': State, l: Disk)
    requires DiskOk(s, l) && Quiet(s, s') && forall n, k :: Current(s', n, k) <==> Current(s, n, k)
    ensures DiskOk(s', l)
  {
    hide Spent;
    forall k | Clean(s', k) ensures Clean(s, k) {
      assert forall n :: Current(s, n, k) ==> Current(s', n, k);
    }
  }

  lemma QuietLoading(s: State, s': State, l: Disk)
    requires LoadingOk(s, l) && Quiet(s, s')
    ensures LoadingOk(s', l)
  {
    forall t, n | t in s'.pcs && s'.pcs[t] == Loading(n)
      ensures t in s.pcs && s.pcs[t] == Loading(n)
    { assert Busy(s'.pcs[t]); }
  }

  /** Node n, new, clean or spent, takes over a key that no node stands for, without a valid copy. */
  ghost predicate Rekeyed(s: State, s': State, t: nat, n: nat, key: Option<Key>)
  {
    && n in s'.nodes && s'.nodes == s.nodes[n := s'.nodes[n]]
    && s'.nodes[n].key == key && !s'.nodes[n].valid && !s'.nodes[n].dirty && s'.disk == s.disk
    && t in s.pcs && t in s'.pcs && s'.pcs == s.pcs[t := s'.pcs[t]] && (s'.pcs[t].Holding? || s'.pcs[t].Idle?)
    && !s.pcs[t].Loading? && (s.pcs[t].Flushing? ==> s.pcs[t].n == n)
    && (forall u :: u in s.pcs && u != t && (s.pcs[u].Loading? || s.pcs[u].Flushing?) ==> s.pcs[u].n != n)
  }

  lemma RekeyedCurrent(s: State, s': State, t: nat, n: nat, key: Option<Key>)
    requires Rekeyed(s, s', t, n, key)
    ensures forall m, k :: m != n ==> (Current(s', m, k) <==> Current(s, m, k))
    ensures forall k: Key :: Current(s', n, k) ==> key == Some(k)
  {
    forall m | m != n ensures Spent(s', m) <==> Spent(s, m) {
      if Spent(s', m) {
        var u :| u in s'.pcs && s'.pcs[u].Flushing? && s'.pcs[u].n == m && s'.pcs[u].written;
        assert u in s.pcs && s.pcs[u] == s'.pcs[u];
      }
      if Spent(s, m) {
        var u :| u in s.pcs && s.pcs[u].Flushing? && s.pcs[u].n == m && s.pcs[u].written;
        assert u != t && s'.pcs[u] == s.pcs[u];
      }
    }
  }

  lemma RekeyedKeeps(s: State, s': State, t: nat, n: nat, key: Option<Key>, l: Disk)
    requires Coherent(s, l) && Rekeyed(s, s', t, n, key)
    requires key.Some? ==> key.value in s.disk && forall m :: m != n ==> !Current(s, m, key.value)
    requires n in s.nodes && !Spent(s, n) ==> !s.nodes[n].dirty
    ensures Coherent(s', l)
  {
    hide DiskOk, LoadingOk, ValidOk, Spent;
    RekeyedCurrent(s, s', t, n, key);
    RekeyedValid(s, s', t, n, key, l);
    RekeyedDisk(s, s', t, n, key, l);
    RekeyedLoading(s, s', t, n, key, l);
  }

  lemma RekeyedValid(s: State, s': State, t: nat, n: nat, key: Option<Key>, l: Disk)
    requires ValidOk(s, l) && Rekeyed(s, s', t, n, key)
    ensures ValidOk(s', l)
  {
    hide Spent;
    RekeyedCurrent(s, s', t, n, key);
  }

  lemma RekeyedDisk(s: State, s': State, t: nat, n: nat, key: Option<Key>, l: Disk)
    requires DiskOk(s, l) && Rekeyed(s, s', t, n, key)
    requires n in s.nodes && !Spent(s, n) ==> !s.nodes[n].dirty
    ensures DiskOk(s', l)
  {
    hide Spent;
    RekeyedCurrent(s, s', t, n, key);
    forall k | Clean(s', k) ensures Clean(s, k) {
      forall m | Current(s, m, k) ensures !s.nodes[m].dirty { assert m != n ==> Current(s', m, k); }
    }
  }

  lemma RekeyedLoading(s: State, s': State, t: nat, n: nat, key: Option<Key>, l: Disk)
    requires LoadingOk(s, l) && Rekeyed(s, s', t, n, key)
    ensures LoadingOk(s', l)
  {
  }

  lemma CleanNode(s: State, l: Disk, n: nat, k: Key)
    requires Coherent(s, l) && Current(s, n, k) && !s.nodes[n].dirty && k in s.disk
    ensures k in l && s.disk[k] == l[k]
  {
    hide Spent;
    assert Clean(s, k);
  }

  lemma NoNodeHas(s: State, k: Key)
    requires Inv(s) && IndexOf(s.nodes, s.buffer, k) == |s.buffer| && IndexOf(s.nodes, s.flush, k) == |s.flush|
    ensures forall m :: !Has(s.nodes, m, k)
  {
    hide KeysUnique, UsersOk, LocksOk, FlushersOk, NoDup, IndexOf;
    NoneHas(s.nodes, s.buffer, k);
    NoneHas(s.nodes, s.flush, k);
  }

  lemma EvictCleanCoherent(s: State, t: nat, k: Key, v: nat, l: Disk)
    requires Inv(s) && Coherent(s, l) && t in s.pcs && (s.pcs[t].Idle? || s.pcs[t].Waiting?) && k in s.disk
    requires v < |s.buffer| && s.buffer[v] in s.nodes && s.nodes[s.buffer[v]].owners == {}
    requires !s.nodes[s.buffer[v]].dirty
    requires forall m :: !Has(s.nodes, m, k)
    ensures Coherent(EvictClean(s, t, k, v), l)
  {
    hide Coherent, Without, NoDup, KeysUnique;
    var n, s' := s.buffer[v], EvictClean(s, t, k, v);
    forall u | u in s.pcs && s.pcs[u].Loading? ensures s.pcs[u].n != n { assert Uses(s.pcs[u], s.pcs[u].n); }
    RekeyedKeeps(s, s', t, n, Some(k), l);
  }

  lemma InsertCoherent(s: State, t: nat, k: Key, n: nat, l: Disk)
    requires Inv(s) && Coherent(s, l) && t in s.pcs && (s.pcs[t].Idle? || s.pcs[t].Waiting?) && k in s.disk
    requires n !in s.nodes
    requires forall m :: !Has(s.nodes, m, k)
    ensures Coherent(Insert(s, t, k, n), l)
  {
    hide Coherent, NoDup, KeysUnique;
    forall u | u in s.pcs && s.pcs[u].Loading? ensures s.pcs[u].n != n { assert Uses(s.pcs[u], s.pcs[u].n); }
    RekeyedKeeps(s, Insert(s, t, k, n), t, n, Some(k), l);
  }

  lemma PcCoherent(s: State, t: nat, pc: Pc, l: Disk)
    requires Coherent(s, l) && t in s.pcs && !Busy(s.pcs[t]) && !Busy(pc)
    ensures Coherent(SetPc(s, t, pc), l)
  {
    hide Coherent;
    QuietKeeps(s, SetPc(s, t, pc), l);
  }

  lemma HitCoherent(s: State, t: nat, i: nat, l: Disk)
    requires Coherent(s, l) && t in s.pcs && !Busy(s.pcs[t]) && i < |s.buffer| && s.buffer[i] in s.nodes
    ensures Coherent(Hit(s, t, i), l)
  {
    hide Coherent, Without;
    QuietKeeps(s, Hit(s, t, i), l);
  }

  lemma EvictDirtyCoherent(s: State, t: nat, k: Key, v: nat, l: Disk)
    requires Coherent(s, l) && t in s.pcs && !Busy(s.pcs[t]) && v < |s.buffer| && s.buffer[v] in s.nodes
    ensures Coherent(EvictDirty(s, t, k, v), l)
  {
    hide Coherent, Without;
    QuietKeeps(s, EvictDirty(s, t, k, v), l);
  }

  lemma InNodes(s: State)
    requires Inv(s)
    ensures forall i :: 0 <= i < |s.buffer| ==> s.buffer[i] in s.nodes
  {
    hide UsersOk, LocksOk, KeysUnique, FlushersOk, FlagsOk, NoDup;
  }

  lemma BeginCoherent(c: Config, s: State, t: nat, k: Key, id: nat, l: Disk)
    requires Inv(s) && Coherent(s, l) && Enabled(s, Get(t, k, id))
    ensures Coherent(Begin(c, s, t, k, id), l)
  {
    hide Inv, Coherent, Insert, EvictClean, EvictDirty, Hit, SetPc, IndexOf, Unused, Without;
    InNodes(s);
    var i := IndexOf(s.nodes, s.buffer, k);
    if IndexOf(s.nodes, s.flush, k) < |s.flush| {
      PcCoherent(s, t, Waiting(k), l);
    } else if i < |s.buffer| {
      HitCoherent(s, t, i, l);
    } else {
      NoNodeHas(s, k);
      var v := if |s.buffer| >= c.min then Unused(s.nodes, s.buffer) else |s.buffer|;
      if v < |s.buffer| {
        if s.nodes[s.buffer[v]].dirty {
          EvictDirtyCoherent(s, t, k, v, l);
        } else {
          EvictCleanCoherent(s, t, k, v, l);
        }
      } else if |s.buffer| >= c.max {
        PcCoherent(s, t, Failed, l);
      } else {
        InsertCoherent(s, t, k, id, l);
      }
    }
  }

  /** The device has written node n, which stood for k0 and is spent now. */
  ghost predicate JustWritten(s: State, s': State, t: nat, n: nat, k0: Key, l: Disk)
  {
    && Current(s, n, k0) && k0 in s.disk && k0 in l && s'.nodes == s.nodes && s'.disk == s.disk[k0 := l[k0]]
    && t in s.pcs && t in s'.pcs && s'.pcs == s.pcs[t := s'.pcs[t]]
    && s.pcs[t].Flushing? && s'.pcs[t] == s.pcs[t].(written := true) && s.pcs[t].n == n
  }

  lemma WrittenCurrent(s: State, s': State, t: nat, n: nat, k0: Key, l: Disk)
    requires JustWritten(s, s', t, n, k0, l)
    ensures forall m, k :: Current(s', m, k) <==> m != n && Current(s, m, k)
  {
    forall m | m != n ensures Spent(s', m) <==> Spent(s, m) {
      if Spent(s', m) {
        var u :| u in s'.pcs && s'.pcs[u].Flushing? && s'.pcs[u].n == m && s'.pcs[u].written;
        assert u in s.pcs && s.pcs[u] == s'.pcs[u];
      }
      if Spent(s, m) {
        var u :| u in s.pcs && s.pcs[u].Flushing? && s.pcs[u].n == m && s.pcs[u].written;
        assert u != t && s'.pcs[u] == s.pcs[u];
      }
    }
    assert Spent(s', n);
  }

  lemma DiskWritten(s: State, s': State, t: nat, n: nat, k0: Key, l: Disk)
    requires Coherent(s, l) && JustWritten(s, s', t, n, k0, l)
    ensures Coherent(s', l)
  {
    hide Spent, DiskOk;
    WrittenCurrent(s, s', t, n, k0, l);
    WrittenDisk(s, s', t, n, k0, l);
  }

  lemma WrittenDisk(s: State, s': State, t: nat, n: nat, k0: Key, l: Disk)
    requires DiskOk(s, l) && JustWritten(s, s', t, n, k0, l)
    ensures DiskOk(s', l)
  {
    hide Spent;
    WrittenCurrent(s, s', t, n, k0, l);
    forall k | k != k0 && Clean(s', k) ensures Clean(s, k) {
      forall m | Current(s, m, k) ensures !s.nodes[m].dirty { assert Current(s', m, k); }
    }
  }

  /** The device writes a valid copy: the disk becomes the logical content there. */
  lemma DeviceWriteCoherent(s: State, t: nat, l: Disk)
    requires Inv(s) && Coherent(s, l) && Enabled(s, Written(t))
    ensures Coherent(DeviceWrite(s, t), l)
  {
    hide KeysUnique, UsersOk, LocksOk, NoDup, OneNode, DiskOk, LoadingOk;
    var n := s.pcs[t].n;
    var k0 := s.nodes[n].key.value;
    assert Current(s, n, k0);
    DiskWritten(s, DeviceWrite(s, t), t, n, k0, l);
  }

  /** No other session still has to write this session's block back. */
  ghost predicate Settled(s: State, t: nat)
    requires t in s.pcs && s.pcs[t].Flushing?
  {
    forall m :: m in s.flush && m != s.pcs[t].n ==> !Current(s, m, s.pcs[t].k)
  }

  /** At most one eviction flush in flight. */
  lemma OneFlushIsSettled(s: State, t: nat)
    requires Inv(s) && t in s.pcs && s.pcs[t].Flushing? && |s.flush| <= 1
    ensures Settled(s, t)
  {
    assert s.pcs[t].n in s.flush;
  }

  lemma FlushedFacts(s: State, t: nat)
    requires Inv(s) && Enabled(s, Flushed(t))
    ensures s.pcs[t].k in s.disk && s.pcs[t].n in s.flush && s.pcs[t].n !in s.buffer && Spent(s, s.pcs[t].n)
    ensures forall u :: u in s.pcs && u != t && (s.pcs[u].Loading? || s.pcs[u].Flushing?) ==> s.pcs[u].n != s.pcs[t].n
  {
    hide KeysUnique, LocksOk, NoDup;
    var n := s.pcs[t].n;
    forall u | u in s.pcs && s.pcs[u].Loading? ensures s.pcs[u].n != n { assert Uses(s.pcs[u], s.pcs[u].n); }
  }

  lemma FinishNullCoherent(s: State, t: nat, l: Disk)
    requires Inv(s) && Coherent(s, l) && Enabled(s, Flushed(t))
    ensures Coherent(FinishNull(s, t), l)
  {
    hide Inv, Coherent, Remove, Spent;
    FlushedFacts(s, t);
    RekeyedKeeps(s, FinishNull(s, t), t, s.pcs[t].n, None, l);
  }

  lemma FinishOwnCoherent(s: State, t: nat, l: Disk)
    requires Inv(s) && Coherent(s, l) && Enabled(s, Flushed(t)) && Settled(s, t)
    requires IndexOf(s.nodes, s.buffer, s.pcs[t].k) == |s.buffer|
    ensures Coherent(Finish(s, t), l)
  {
    hide Inv, Coherent, Remove, IndexOf, Spent;
    var n, k := s.pcs[t].n, s.pcs[t].k;
    FlushedFacts(s, t);
    NoneHas(s.nodes, s.buffer, k);
    Everywhere(s);
    RekeyedKeeps(s, Finish(s, t), t, n, Some(k), l);
  }

  lemma Everywhere(s: State)
    requires Inv(s)
    ensures forall m :: m in s.nodes ==> m in s.buffer || m in s.flush
  {
  }

  lemma FinishCoherent(s: State, t: nat, l: Disk)
    requires Inv(s) && Coherent(s, l) && Enabled(s, Flushed(t)) && Settled(s, t)
    ensures Coherent(Finish(s, t), l)
  {
    hide Inv, Coherent, IndexOf, Settled, Spent;
    var k := s.pcs[t].k;
    var i := IndexOf(s.nodes, s.buffer, k);
    if i < |s.buffer| {
      var s1, m := FinishNull(s, t), s.buffer[i];
      FinishNullCoherent(s, t, l);
      FlushedFacts(s, t);
      QuietKeeps(s1, Join(s1, t, m), l);
      assert Finish(s, t) == Join(s1, t, m);
    } else {
      FinishOwnCoherent(s, t, l);
    }
  }

  /** The session inside node n, of key k, changes its contents or flags. */
  ghost predicate DataChange(s: State, s': State, t: nat, n: nat, k: Key)
  {
    && Current(s, n, k) && Has(s'.nodes, n, k) && s'.nodes == s.nodes[n := s'.nodes[n]] && s'.disk == s.disk
    && t in s.pcs && t in s'.pcs && s'.pcs == s.pcs[t := s'.pcs[t]] && !s.pcs[t].Flushing?
    && (s'.pcs[t] == Locked(n) || s'.pcs[t] == Loading(n))
    && (forall u :: u in s.pcs && u != t && (s.pcs[u].Loading? || s.pcs[u].Flushing?) ==> s.pcs[u].n != n)
  }

  lemma SameCurrent(s: State, s': State, t: nat, n: nat, k: Key)
    requires DataChange(s, s', t, n, k)
    ensures forall m, j :: Current(s', m, j) <==> Current(s, m, j)
  {
    forall m ensures Spent(s', m) <==> Spent(s, m) {
      if Spent(s', m) {
        var u :| u in s'.pcs && s'.pcs[u].Flushing? && s'.pcs[u].n == m && s'.pcs[u].written;
        assert u in s.pcs && s.pcs[u] == s'.pcs[u];
      }
      if Spent(s, m) {
        var u :| u in s.pcs && s.pcs[u].Flushing? && s.pcs[u].n == m && s.pcs[u].written;
        assert u != t && s'.pcs[u] == s.pcs[u];
      }
    }
  }

  ghost predicate DataOk(s: State, s': State, t: nat, n: nat, k: Key, l: Disk, l': Disk)
    requires DataChange(s, s', t, n, k)
  {
    && k in l && k in l' && l' == l[k := l'[k]]
    && (l' == l || s'.nodes[n].dirty)
    && (s'.nodes[n].valid || s'.pcs[t].Loading? ==> s'.nodes[n].data == l'[k])
    && (!s'.nodes[n].dirty ==> !s.nodes[n].dirty)
  }

  lemma DataValid(s: State, s': State, t: nat, n: nat, k: Key, l: Disk, l': Disk)
    requires OneNode(s) && ValidOk(s, l) && DataChange(s, s', t, n, k) && DataOk(s, s', t, n, k, l, l')
    ensures OneNode(s') && ValidOk(s', l')
  {
    hide Spent;
    SameCurrent(s, s', t, n, k);
  }

  lemma DataDisk(s: State, s': State, t: nat, n: nat, k: Key, l: Disk, l': Disk)
    requires DiskOk(s, l) && DataChange(s, s', t, n, k) && DataOk(s, s', t, n, k, l, l')
    ensures DiskOk(s', l')
  {
    hide Spent;
    SameCurrent(s, s', t, n, k);
    forall j | j in s'.disk && Clean(s', j) ensures j in l' && s'.disk[j] == l'[j] {
      forall m | Current(s, m, j) ensures !s.nodes[m].dirty { assert Current(s', m, j); }
      assert Clean(s, j);
      assert j == k ==> !s'.nodes[n].dirty;
    }
  }

  lemma DataLoading(s: State, s': State, t: nat, n: nat, k: Key, l: Disk, l': Disk)
    requires OneNode(s) && LoadingOk(s, l) && DataChange(s, s', t, n, k) && DataOk(s, s', t, n, k, l, l')
    requires forall u, m :: u in s.pcs && s.pcs[u] == Loading(m) ==> !Spent(s, m)
    ensures LoadingOk(s', l')
  {
    hide Spent;
    forall u, m, j | u in s'.pcs && s'.pcs[u] == Loading(m) && Has(s'.nodes, m, j) && j in l'
      ensures s'.nodes[m].data == l'[j]
    {
      if u != t {
        assert m != n && Has(s.nodes, m, j);
        assert j == k ==> Current(s, m, k);
      }
    }
  }

  lemma DataKeeps(s: State, s': State, t: nat, n: nat, k: Key, l: Disk, l': Disk)
    requires Coherent(s, l) && DataChange(s, s', t, n, k) && DataOk(s, s', t, n, k, l, l')
    requires forall u, m :: u in s.pcs && s.pcs[u] == Loading(m) ==> !Spent(s, m)
    ensures Coherent(s', l')
  {
    hide OneNode, ValidOk, DiskOk, LoadingOk, Spent;
    DataValid(s, s', t, n, k, l, l');
    DataDisk(s, s', t, n, k, l, l');
    DataLoading(s, s', t, n, k, l, l');
  }

  lemma InsideFacts(s: State, t: nat, n: nat)
    requires Inv(s) && t in s.pcs && Inside(s.pcs[t], n)
    ensures n in s.nodes && s.nodes[n].key.Some? && Current(s, n, s.nodes[n].key.value)
    ensures s.nodes[n].key.value in s.disk
    ensures forall u, m :: u in s.pcs && s.pcs[u] == Loading(m) ==> !Spent(s, m)
    ensures s.pcs[t].Loading? ==> !s.nodes[n].valid
    ensures !s.nodes[n].valid ==> !s.nodes[n].dirty
    ensures forall u :: u in s.pcs && u != t && (s.pcs[u].Loading? || s.pcs[u].Flushing?) ==> s.pcs[u].n != n
  {
    hide KeysUnique, NoDup;
    assert Uses(s.pcs[t], n) && s.nodes[n].lock == Some(t);
    NotSpent(s, n);
    forall u, m | u in s.pcs && s.pcs[u] == Loading(m)
      ensures !Spent(s, m)
    { assert Uses(s.pcs[u], m); NotSpent(s, m); }
    forall u | u in s.pcs && u != t && s.pcs[u].Loading?
      ensures s.pcs[u].n != n
    { assert Inside(s.pcs[u], s.pcs[u].n); }
  }

  /** The device reads a block nobody has a dirty copy of. */
  lemma ReadCoherent(c: Config, s: State, t: nat, l: Disk)
    requires Inv(s) && Coherent(s, l) && Enabled(s, Read(t))
    ensures Coherent(Next(c, s, Read(t)), l)
  {
    hide Inv, Coherent, Spent;
    var n := s.pcs[t].n;
    InsideFacts(s, t, n);
    CleanNode(s, l, n, s.nodes[n].key.value);
    DataKeeps(s, Next(c, s, Read(t)), t, n, s.nodes[n].key.value, l, l);
  }

  lemma LoadedCoherent(c: Config, s: State, t: nat, l: Disk)
    requires Inv(s) && Coherent(s, l) && Enabled(s, Loaded(t))
    ensures Coherent(Next(c, s, Loaded(t)), l)
  {
    hide Inv, OneNode, ValidOk, DiskOk, Spent;
    var n := s.pcs[t].n;
    InsideFacts(s, t, n);
    DataKeeps(s, Next(c, s, Loaded(t)), t, n, s.nodes[n].key.value, l, l);
  }

  lemma WriteCoherent(c: Config, s: State, t: nat, v: Data, l: Disk)
    requires Inv(s) && Coherent(s, l) && Enabled(s, Write(t, v))
    ensures Coherent(Next(c, s, Write(t, v)), NextLogical(s, Write(t, v), l))
  {
    hide Inv, OneNode, ValidOk, DiskOk, LoadingOk;
    var n := s.pcs[t].n;
    InsideFacts(s, t, n);
    DataKeeps(s, Next(c, s, Write(t, v)), t, n, s.nodes[n].key.value, l, NextLogical(s, Write(t, v), l));
  }

  lemma HolderQuiet(c: Config, s: State, e: Event, l: Disk)
    requires Inv(s) && Coherent(s, l) && Enabled(s, e) && (e.Lock? || e.Unlock? || e.Drop?)
    ensures Coherent(Next(c, s, e), l)
  {
    hide Inv, Coherent;
    QuietKeeps(s, Next(c, s, e), l);
  }

  /** Refinement: a step changes the logical contents only if it is a holder's write, and
      then only the holder's block; load, flush, eviction and reuse change nothing.  A
      session coming back from a flush must find its block not still to be written by another. */
  lemma StepCoherent(c: Config, s: State, e: Event, l: Disk)
    requires Inv(s) && Coherent(s, l) && Enabled(s, e) && (e.Flushed? ==> Settled(s, e.t))
    ensures Coherent(Next(c, s, e), NextLogical(s, e, l))
  {
    hide Inv, Coherent, Begin, Finish, DeviceWrite, Settled, HolderStep;
    match e {
      case Get(t, k, id) => BeginCoherent(c, s, t, k, id, l);
      case Written(t) => DeviceWriteCoherent(s, t, l);
      case Flushed(t) => FinishCoherent(s, t, l);
      case Read(t) => ReadCoherent(c, s, t, l);
      case Loaded(t) => LoadedCoherent(c, s, t, l);
      case Write(t, v) => WriteCoherent(c, s, t, v, l);
      case _ => HolderQuiet(c, s, e, l);
    }
  }

  /** Another session still has to write contents of this session's block that the disk lacks. */
  ghost predicate Lagging(s: State, t: nat)
    requires t in s.pcs && s.pcs[t].Flushing? && s.pcs[t].k in s.disk
  {
    exists m :: m in s.flush && m != s.pcs[t].n && Current(s, m, s.pcs[t].k) && s.nodes[m].data != s.disk[s.pcs[t].k]
  }

  /** The disk is behind exactly when another session still has to write different contents. */
  lemma LaggingDisk(s: State, t: nat, l: Disk)
    requires Inv(s) && Coherent(s, l) && Enabled(s, Flushed(t)) && IndexOf(s.nodes, s.buffer, s.pcs[t].k) == |s.buffer|
    ensures s.pcs[t].k in s.disk && s.pcs[t].k in l
    ensures s.disk[s.pcs[t].k] == l[s.pcs[t].k] <==> !Lagging(s, t)
  {
    hide UsersOk, LocksOk, KeysUnique, NoDup, OneNode, LoadingOk, Spent, IndexOf;
    var n, k := s.pcs[t].n, s.pcs[t].k;
    FlushedFacts(s, t);
    NoneHas(s.nodes, s.buffer, k);
    if s.disk[k] != l[k] {
      assert !Clean(s, k);
      var m :| Current(s, m, k) && s.nodes[m].dirty;
      assert m in s.flush && m != n;
    }
  }

  /** What a session sees that comes back from its flush and finds its block in no buffer: it
      becomes the holder, loads, and has the block's logical content exactly when no other
      session still has to write different contents of that block. */
  lemma ReaderSees(c: Config, s: State, t: nat, l: Disk)
    requires Inv(s) && Coherent(s, l) && Enabled(s, Flushed(t)) && IndexOf(s.nodes, s.buffer, s.pcs[t].k) == |s.buffer|
    ensures IsPath(c, s, [Flushed(t), Lock(t), Read(t), Loaded(t)])
    ensures var n, k, s' := s.pcs[t].n, s.pcs[t].k, PathEnd(c, s, [Flushed(t), Lock(t), Read(t), Loaded(t)]);
            && t in s'.pcs && s'.pcs[t] == Locked(n) && n in s'.nodes && s'.nodes[n].valid && s'.nodes[n].key == Some(k)
            && k in s.disk && k in l && (s'.nodes[n].data == l[k] <==> !Lagging(s, t))
  {
    hide Inv, Coherent, Lagging, IndexOf, IsPath, PathEnd, Remove;
    LaggingDisk(s, t, l);
    FlushedLock(s, t);
    var n, k := s.pcs[t].n, s.pcs[t].k;
    var s1 := Next(c, s, Flushed(t));
    var s2 := Next(c, s1, Lock(t));
    var s3 := Next(c, s2, Read(t));
    var s4 := Next(c, s3, Loaded(t));
    FourSteps(c, s, Flushed(t), Lock(t), Read(t), Loaded(t));
  }

  lemma FlushedLock(s: State, t: nat)
    requires Inv(s) && Enabled(s, Flushed(t))
    ensures s.nodes[s.pcs[t].n].lock == None
  {
    hide UsersOk, LocksOk, KeysUnique, NoDup;
  }

  // ------------------------------------------------------------ runs

  lemma {:induction false} PathJoin(c: Config, s: State, p: seq<Event>, q: seq<Event>)
    requires IsPath(c, s, p) && IsPath(c, PathEnd(c, s, p), q)
    ensures IsPath(c, s, p + q) && PathEnd(c, s, p + q) == PathEnd(c, PathEnd(c, s, p), q)
    decreases |p|
  {
    hide Enabled, Next;
    if p == [] {
      assert p + q == q;
    } else {
      PathJoin(c, Next(c, s, p[0]), p[1..], q);
      assert (p + q)[1..] == p[1..] + q;
    }
  }

  lemma OneStep(c: Config, s: State, e: Event)
    requires Enabled(s, e)
    ensures IsPath(c, s, [e]) && PathEnd(c, s, [e]) == Next(c, s, e)
  {
    hide Enabled, Next;
    assert [e][1..] == [];
  }

  lemma TwoSteps(c: Config, s: State, e: Event, f: Event)
    requires Enabled(s, e) && Enabled(Next(c, s, e), f)
    ensures IsPath(c, s, [e, f]) && PathEnd(c, s, [e, f]) == Next(c, Next(c, s, e), f)
  {
    hide Enabled, Next, IsPath, PathEnd;
    OneStep(c, s, e);
    OneStep(c, Next(c, s, e), f);
    PathJoin(c, s, [e], [f]);
    assert [e] + [f] == [e, f];
  }

  lemma FourSteps(c: Config, s: State, e: Event, f: Event, g: Event, h: Event)
    requires Enabled(s, e) && Enabled(Next(c, s, e), f) && Enabled(Next(c, Next(c, s, e), f), g)
    requires Enabled(Next(c, Next(c, Next(c, s, e), f), g), h)
    ensures IsPath(c, s, [e, f, g, h])
    ensures PathEnd(c, s, [e, f, g, h]) == Next(c, Next(c, Next(c, Next(c, s, e), f), g), h)
  {
    hide Enabled, Next, IsPath, PathEnd;
    TwoSteps(c, s, e, f);
    TwoSteps(c, Next(c, Next(c, s, e), f), g, h);
    PathJoin(c, s, [e, f], [g, h]);
    assert [e, f] + [g, h] == [e, f, g, h];
  }

  /** A run from s in which every session that comes back from a flush finds its block not still
      to be written by another. */
  ghost predicate IsRun(c: Config, s: State, events: seq<Event>)
    decreases |events|
  {
    events == [] ||
    (Enabled(s, events[0]) && (events[0].Flushed? ==> Settled(s, events[0].t))
        && IsRun(c, Next(c, s, events[0]), events[1..]))
  }

  ghost function Final(c: Config, s: State, events: seq<Event>): (r: State)
    requires IsRun(c, s, events)
    decreases |events|
  {
    if events == [] then s else Final(c, Next(c, s, events[0]), events[1..])
  }

  /** The plain disk map after the same run: only the writes of holders count. */
  ghost function FinalLogical(c: Config, s: State, events: seq<Event>, l: Disk): (r: Disk)
    requires IsRun(c, s, events)
    decreases |events|
  {
    if events == [] then l
    else FinalLogical(c, Next(c, s, events[0]), events[1..], NextLogical(s, events[0], l))
  }

  /** Over every run, every session that holds a loaded buffer sees exactly what the plain
      disk map holds. */
  lemma {:induction false} RunRefines(c: Config, s: State, events: seq<Event>, l: Disk)
    requires Inv(s) && Coherent(s, l) && IsRun(c, s, events)
    ensures Inv(Final(c, s, events)) && Coherent(Final(c, s, events), FinalLogical(c, s, events, l))
    decreases |events|
  {
    hide Inv, Coherent, Next, NextLogical, Settled, Enabled;
    if events != [] {
      StepKeeps(c, s, events[0]);
      StepCoherent(c, s, events[0], l);
      RunRefines(c, Next(c, s, events[0]), events[1..], NextLogical(s, events[0], l));
    }
  }

  /** At most one eviction flush is in flight at any time. */
  ghost predicate OneAtATime(c: Config, s: State, events: seq<Event>)
    requires IsPath(c, s, events)
    decreases |events|
  {
    |s.flush| <= 1 && (events == [] || OneAtATime(c, Next(c, s, events[0]), events[1..]))
  }

  /** With one flush at a time every path meets the condition of runs, and so refines the plain disk map. */
  lemma {:induction false} OneFlushRuns(c: Config, s: State, events: seq<Event>)
    requires Inv(s) && IsPath(c, s, events) && OneAtATime(c, s, events)
    ensures IsRun(c, s, events) && Final(c, s, events) == PathEnd(c, s, events)
    decreases |events|
  {
    hide Inv, Next, Settled;
    if events != [] {
      if events[0].Flushed? { OneFlushIsSettled(s, events[0].t); }
      StepKeeps(c, s, events[0]);
      OneFlushRuns(c, Next(c, s, events[0]), events[1..]);
    }
  }

  /** The empty cache agrees with the disk. */
  lemma InitiallyCoherent(disk: Disk, sessions: set<nat>)
    ensures var s := State([], [], map[], disk, map t | t in sessions :: Idle);
            Inv(s) && Coherent(s, disk)
  {
  }
}
