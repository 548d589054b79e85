/** The write-back buffer cache (os/utils/buffer_manager.h, os/utils/buffer.h,
    os/device/block/buf.h) as a machine whose steps are the stretches of code between two
    suspension points.  A session is one call of `get` together with the use of the buffer
    it returns.

    The cache is shown to refine a plain map from block number to contents. */
module BufferCache {
  import opened Basics

  type Key = nat      // block number
  type Data = int     // contents of a block; only equality matters

  /** block_buffer_node: key, valid and dirty flags, contents; the sessions that hold a
      shared_ptr to it besides the manager; the session that holds its mutex. */
  datatype Node = Node(key: Option<Key>, valid: bool, dirty: bool, data: Data, owners: set<nat>, lock: Option<nat>)

  datatype Pc =
    | Idle
    | Failed                                      // task_fail
    | Waiting(k: Key)                             // asleep in flush_queue
    | Flushing(k: Key, n: nat, written: bool)     // in buf->flush(); has the device written?
    | Holding(n: nat)                             // get has returned n
    | Locked(n: nat)                              // inside get_ref or later
    | Loading(n: nat)                             // the device has read, valid not set yet

  datatype State = State(buffer: seq<nat>, flush: seq<nat>, nodes: map<nat, Node>,
                         disk: map<Key, Data>, pcs: map<nat, Pc>)

  datatype Config = Config(min: nat, max: nat)    // min_buffer_count, max_buffer_count

  predicate Has(nodes: map<nat, Node>, n: nat, k: Key)
  {
    n in nodes && nodes[n].key == Some(k)
  }

  /** Position of the first node with this key, or the length of the list. */
  function IndexOf(nodes: map<nat, Node>, list: seq<nat>, k: Key): (r: nat)
    ensures r <= |list| && (r < |list| ==> Has(nodes, list[r], k))
    ensures forall i :: 0 <= i < r ==> !Has(nodes, list[i], k)
  {
    if list == [] then 0
    else if Has(nodes, list[0], k) then 0
    else 1 + IndexOf(nodes, list[1..], k)
  }

  /** try_detach_weak succeeds: the manager holds the only shared_ptr. */
  predicate Free(nodes: map<nat, Node>, n: nat)
  {
    n in nodes && nodes[n].owners == {}
  }

  /** Position of the last node nobody else holds, or the length of the list. */
  function Unused(nodes: map<nat, Node>, list: seq<nat>): (r: nat)
    ensures r <= |list| && (r < |list| ==> Free(nodes, list[r]))
    ensures forall i :: 0 <= i < |list| && (r < i || r == |list|) ==> !Free(nodes, list[i])
  {
    if list == [] then 0
    else
      var last := |list| - 1;
      if Free(nodes, list[last]) then last
      else
        var r := Unused(nodes, list[..last]);
        if r < last then r else |list|
  }

  function Without(list: seq<nat>, i: nat): (r: seq<nat>)
    requires i < |list|
  {
    list[..i] + list[i + 1..]
  }

  // ------------------------------------------------------------ steps

  function SetPc(s: State, t: nat, pc: Pc): (s': State) { s.(pcs := s.pcs[t := pc]) }

  function SetNode(s: State, n: nat, x: Node): (s': State) { s.(nodes := s.nodes[n := x]) }

  /** get_derived up to its first suspension or return. */
  function Begin(c: Config, s: State, t: nat, k: Key, id: nat): (s': State)
  {
    if IndexOf(s.nodes, s.flush, k) < |s.flush| then SetPc(s, t, Waiting(k))
    else
      var i := IndexOf(s.nodes, s.buffer, k);
      if i < |s.buffer| then Hit(s, t, i)
      else
        var v := if |s.buffer| >= c.min then Unused(s.nodes, s.buffer) else |s.buffer|;
        if v < |s.buffer| then
          if s.nodes[s.buffer[v]].dirty then EvictDirty(s, t, k, v) else EvictClean(s, t, k, v)
        else if |s.buffer| >= c.max then SetPc(s, t, Failed)
        else Insert(s, t, k, id)
  }

  /** Found: move to the front and return it. */
  function Hit(s: State, t: nat, i: nat): (s': State)
    requires i < |s.buffer| && s.buffer[i] in s.nodes
  {
    var n := s.buffer[i];
    var x := s.nodes[n];
    SetPc(SetNode(s.(buffer := [n] + Without(s.buffer, i)), n, x.(owners := x.owners + {t})), t, Holding(n))
  }

  /** A new node. */
  function Insert(s: State, t: nat, k: Key, n: nat): (s': State)
  {
    SetPc(SetNode(s.(buffer := [n] + s.buffer), n, Node(Some(k), false, false, 0, {t}, None)), t, Holding(n))
  }

  /** A clean node nobody holds, reused under the new key. */
  function EvictClean(s: State, t: nat, k: Key, v: nat): (s': State)
    requires v < |s.buffer| && s.buffer[v] in s.nodes
  {
    var n := s.buffer[v];
    var x := s.nodes[n];
    SetPc(SetNode(s.(buffer := [n] + Without(s.buffer, v)), n, x.(key := Some(k), valid := false, owners := {t})),
          t, Holding(n))
  }

  /** A dirty node nobody holds: off the list and into the flush list. */
  function EvictDirty(s: State, t: nat, k: Key, v: nat): (s': State)
    requires v < |s.buffer|
  {
    var n := s.buffer[v];
    SetPc(s.(buffer := Without(s.buffer, v), flush := s.flush + [n]), t, Flushing(k, n, false))
  }

  /** The device has written the block that is being flushed. */
  function DeviceWrite(s: State, t: nat): (s': State)
    requires t in s.pcs && s.pcs[t].Flushing? && s.pcs[t].n in s.nodes && s.nodes[s.pcs[t].n].key.Some?
  {
    var x := s.nodes[s.pcs[t].n];
    SetPc(s.(disk := s.disk[x.key.value := x.data]), t, s.pcs[t].(written := true))
  }

  function Remove(list: seq<nat>, n: nat): (r: seq<nat>)
  {
    if list == [] then [] else if list[0] == n then list[1..] else [list[0]] + Remove(list[1..], n)
  }

  /** get_derived after co_await buf->flush(). */
  function Finish(s: State, t: nat): (s': State)
    requires t in s.pcs && s.pcs[t].Flushing? && s.pcs[t].n in s.nodes
  {
    var n, k := s.pcs[t].n, s.pcs[t].k;
    var x := s.nodes[n].(dirty := false, valid := false);
    var s1 := s.(flush := Remove(s.flush, n));
    var i := IndexOf(s.nodes, s.buffer, k);
    if i < |s.buffer| then
      var m := s.buffer[i];
      var y := s.nodes[m];
      SetPc(SetNode(SetNode(s1.(buffer := s.buffer + [n]), n, x.(key := None)), m, y.(owners := y.owners + {t})),
            t, Holding(m))
    else
      SetPc(SetNode(s1.(buffer := [n] + s.buffer), n, x.(key := Some(k), owners := {t})), t, Holding(n))
  }

  datatype Event =
    | Get(t: nat, k: Key, id: nat)   // get, or a waiter that looks again
    | Written(t: nat)
    | Flushed(t: nat)
    | Lock(t: nat)                      // coro_mutex::lock of get
    | Read(t: nat)                      // the device has read into data
    | Loaded(t: nat)                    // _valid = true
    | Write(t: nat, v: Data)            // the holder changes data and marks it dirty
    | Unlock(t: nat)                    // put
    | Drop(t: nat)                      // the shared_ptr goes away

  ghost predicate Enabled(s: State, e: Event)
  {
    e.t in s.pcs && var pc := s.pcs[e.t];
    match e
    case Get(_, k, id) => (pc == Idle || pc == Waiting(k)) && k in s.disk && id !in s.nodes
    case Written(_) => pc.Flushing? && !pc.written && pc.n in s.nodes && s.nodes[pc.n].key.Some?
    case Flushed(_) => pc.Flushing? && pc.written && pc.n in s.nodes
    case Lock(_) => pc.Holding? && pc.n in s.nodes && s.nodes[pc.n].lock == None
    case Read(_) => pc.Locked? && pc.n in s.nodes && !s.nodes[pc.n].valid && s.nodes[pc.n].key.Some?
        && s.nodes[pc.n].key.value in s.disk
    case Loaded(_) => pc.Loading? && pc.n in s.nodes
    case Write(_, _) => pc.Locked? && pc.n in s.nodes && s.nodes[pc.n].valid
    case Unlock(_) => pc.Locked? && pc.n in s.nodes && s.nodes[pc.n].valid
    case Drop(_) => pc.Holding? && pc.n in s.nodes
  }

  /** What a step of the session that holds node n does to it. */
  ghost function HolderStep(s: State, e: Event, x: Node): (r: (Node, Pc))
    requires Enabled(s, e) && !e.Get? && !e.Written? && !e.Flushed? && x == s.nodes[s.pcs[e.t].n]
  {
    var n := s.pcs[e.t].n;
    match e
    case Lock(t) => (x.(lock := Some(t)), Locked(n))
    case Read(_) => (x.(data := s.disk[x.key.value]), Loading(n))
    case Loaded(_) => (x.(valid := true, dirty := false), Locked(n))
    case Write(_, v) => (x.(data := v, dirty := true), Locked(n))
    case Unlock(_) => (x.(lock := None), Holding(n))
    case Drop(t) => (x.(owners := x.owners - {t}), Idle)
  }

  ghost function Next(c: Config, s: State, e: Event): (s': State)
    requires Enabled(s, e)
  {
    match e
    case Get(t, k, id) => Begin(c, s, t, k, id)
    case Written(t) => DeviceWrite(s, t)
    case Flushed(t) => Finish(s, t)
    case _ =>
      var n := s.pcs[e.t].n;
      var (x, pc) := HolderStep(s, e, s.nodes[n]);
      SetPc(SetNode(s, n, x), e.t, pc)
  }

  /** The abstract disk: only a holder's write changes it. */
  ghost function NextLogical(s: State, e: Event, logical: map<Key, Data>): (l: map<Key, Data>)
    requires Enabled(s, e)
  {
    match e
    case Write(t, v) =>
      var x := s.nodes[s.pcs[t].n];
      if x.key.Some? then logical[x.key.value := v] else logical
    case _ => logical
  }

  // ------------------------------------------------------------ what every step keeps

  /** The two lists are duplicate-free, disjoint, and hold existing nodes. */
  ghost predicate ListsOk(s: State)
  {
    && NoDup(s.buffer) && NoDup(s.flush)
    && (forall n :: n in s.buffer ==> n in s.nodes && n !in s.flush)
    && (forall n :: n in s.flush ==> n in s.nodes)
  }

  /** At most one node per key in the buffer list. */
  ghost predicate KeysUnique(s: State)
  {
    forall m, n, k :: m in s.buffer && n in s.buffer && Has(s.nodes, m, k) && Has(s.nodes, n, k) ==> m == n
  }

  ghost predicate Uses(pc: Pc, n: nat)
  {
    (pc.Holding? || pc.Locked? || pc.Loading?) && pc.n == n
  }

  ghost predicate Inside(pc: Pc, n: nat)
  {
    (pc.Locked? || pc.Loading?) && pc.n == n
  }

  /** A session that uses a node is among its owners, and the node stays in the buffer list
      with a key. */
  ghost predicate UsersOk(s: State)
  {
    && (forall t, n :: t in s.pcs && Uses(s.pcs[t], n) ==>
          n in s.buffer && n in s.nodes && t in s.nodes[n].owners && s.nodes[n].key.Some?
              && s.nodes[n].key.value in s.disk)
    && (forall n, t :: n in s.nodes && t in s.nodes[n].owners ==> t in s.pcs && Uses(s.pcs[t], n))
  }

  /** The mutex of a node is held by exactly the session that is inside. */
  ghost predicate LocksOk(s: State)
  {
    && (forall t, n :: t in s.pcs && Inside(s.pcs[t], n) ==>
          n in s.nodes && s.nodes[n].lock == Some(t) && (s.pcs[t].Loading? ==> !s.nodes[n].valid))
    && (forall n :: n in s.nodes && s.nodes[n].lock.Some? ==>
          s.nodes[n].lock.value in s.pcs && Inside(s.pcs[s.nodes[n].lock.value], n))
  }

  /** Every node in the flush list is being flushed by one session and is used by nobody. */
  ghost predicate FlushersOk(s: State)
  {
    && (forall t :: t in s.pcs && s.pcs[t].Flushing? ==> s.pcs[t].n in s.flush && s.pcs[t].k in s.disk)
    && (forall t, u :: t in s.pcs && u in s.pcs && s.pcs[t].Flushing? && s.pcs[u].Flushing? ==>
          s.pcs[t].n == s.pcs[u].n ==> t == u)
    && (forall n :: n in s.flush && n in s.nodes ==>
          s.nodes[n].owners == {} && s.nodes[n].valid && s.nodes[n].dirty && s.nodes[n].key.Some?
              && s.nodes[n].lock == None)
  }

  /** A dirty node is valid, a valid one has a key, and keys name blocks of the disk. */
  ghost predicate NodeOk(disk: map<Key, Data>, x: Node)
  {
    (x.dirty ==> x.valid) && (x.valid ==> x.key.Some?) && (x.key.Some? ==> x.key.value in disk)
  }

  ghost predicate FlagsOk(s: State)
  {
    forall n :: n in s.nodes ==>
      NodeOk(s.disk, s.nodes[n]) && (n in s.buffer || n in s.flush)
  }

  ghost predicate Inv(s: State)
  {
    ListsOk(s) && KeysUnique(s) && UsersOk(s) && LocksOk(s) && FlushersOk(s) && FlagsOk(s)
  }

  lemma WithoutMembers(list: seq<nat>, i: nat)
    requires i < |list| && NoDup(list)
    ensures NoDup(Without(list, i)) && list[i] !in Without(list, i)
    ensures forall n :: n in Without(list, i) <==> n in list && n != list[i]
  {
    var r := Without(list, i);
    forall n | n in list && n != list[i] ensures n in r {
      var j :| 0 <= j < |list| && list[j] == n;
      assert r[if j < i then j else j - 1] == n;
    }
  }

  lemma FrontMembers(list: seq<nat>, n: nat)
    requires NoDup(list) && n !in list
    ensures NoDup([n] + list) && NoDup(list + [n])
    ensures forall m :: m in [n] + list <==> m in list || m == n
    ensures forall m :: m in list + [n] <==> m in list || m == n
  {
  }

  lemma {:induction false} RemoveMembers(list: seq<nat>, n: nat)
    requires NoDup(list)
    ensures NoDup(Remove(list, n)) && forall m :: m in Remove(list, n) <==> m in list && m != n
  {
    if list != [] {
      assert list == [list[0]] + list[1..];
      if list[0] != n {
        RemoveMembers(list[1..], n);
        FrontMembers(Remove(list[1..], n), list[0]);
      }
    }
  }

  // ------------------------------------------------------------ one session, one node

  /** From s to s' one session t and one node n have changed, and the lists only in n. */
  ghost predicate Change(s: State, s': State, t: nat, n: nat)
  {
    && t in s.pcs && t in s'.pcs && n in s'.nodes
    && s'.pcs == s.pcs[t := s'.pcs[t]] && s'.nodes == s.nodes[n := s'.nodes[n]] && s'.disk.Keys == s.disk.Keys
    && (forall m :: m != n ==> (m in s'.buffer <==> m in s.buffer))
    && (forall m :: m != n ==> (m in s'.flush <==> m in s.flush))
  }

  /** The new key of n is no other node's. */
  ghost predicate NewKeyOk(s: State, s': State, n: nat)
    requires n in s'.nodes
  {
    forall m, k :: n in s'.buffer && s'.nodes[n].key == Some(k) && m in s.buffer && m != n ==> !Has(s.nodes, m, k)
  }

  /** What session t, and the other sessions at n, need of the new n. */
  ghost predicate NewUsersOk(s: State, s': State, t: nat, n: nat)
    requires t in s.pcs && t in s'.pcs && n in s'.nodes
  {
    var x, pc := s'.nodes[n], s'.pcs[t];
    && (forall m :: Uses(s.pcs[t], m) ==> m == n)
    && (forall m :: Uses(pc, m) ==> m == n && t in x.owners)
    && (forall u :: u in x.owners ==> u in s'.pcs && Uses(s'.pcs[u], n))
    && (forall u :: u in s.pcs && u != t && Uses(s.pcs[u], n) ==> u in x.owners)
    && (x.owners != {} ==> n in s'.buffer && x.key.Some? && x.key.value in s.disk)
  }

  ghost predicate NewLocksOk(s: State, s': State, t: nat, n: nat)
    requires t in s.pcs && t in s'.pcs && n in s'.nodes
  {
    var x := s'.nodes[n];
    && (forall m :: Inside(s.pcs[t], m) ==> m == n)
    && (forall m :: Inside(s'.pcs[t], m) ==> m == n)
    && (forall u :: u in s'.pcs && Inside(s'.pcs[u], n) ==> x.lock == Some(u) && (s'.pcs[u].Loading? ==> !x.valid))
    && (x.lock.Some? ==> x.lock.value in s'.pcs && Inside(s'.pcs[x.lock.value], n))
  }

  ghost predicate NewFlusherOk(s: State, s': State, t: nat, n: nat)
    requires t in s.pcs && t in s'.pcs && n in s'.nodes
  {
    var x, pc := s'.nodes[n], s'.pcs[t];
    && (pc.Flushing? ==> pc.n == n && pc.k in s.disk)
    && (pc.Flushing? <==> n in s'.flush)
    && (forall u :: u in s.pcs && u != t && s.pcs[u].Flushing? ==> s.pcs[u].n != n)
    && (s.pcs[t].Flushing? ==> s.pcs[t].n == n)
    && (n in s'.flush ==> x.owners == {} && x.valid && x.dirty && x.key.Some? && x.lock == None)
  }

  lemma ChangeKeys(s: State, s': State, t: nat, n: nat)
    requires KeysUnique(s) && Change(s, s', t, n) && NewKeyOk(s, s', n)
    ensures KeysUnique(s')
  {
    forall a, b, k | a in s'.buffer && b in s'.buffer && Has(s'.nodes, a, k) && Has(s'.nodes, b, k) ensures a == b {
      assert a != n ==> Has(s.nodes, a, k);
      assert b != n ==> Has(s.nodes, b, k);
    }
  }

  lemma ChangeUsers(s: State, s': State, t: nat, n: nat)
    requires UsersOk(s) && Change(s, s', t, n) && NewUsersOk(s, s', t, n)
    ensures UsersOk(s')
  {
    hide Uses;
    forall u, m | u in s'.pcs && Uses(s'.pcs[u], m)
      ensures m in s'.buffer && m in s'.nodes && u in s'.nodes[m].owners
      ensures s'.nodes[m].key.Some? && s'.nodes[m].key.value in s'.disk
    {
      ChangeUser(s, s', t, n, u, m);
    }
    forall m, u | m in s'.nodes && u in s'.nodes[m].owners ensures u in s'.pcs && Uses(s'.pcs[u], m) {
      ChangeOwner(s, s', t, n, u, m);
    }
  }

  lemma ChangeUser(s: State, s': State, t: nat, n: nat, u: nat, m: nat)
    requires UsersOk(s) && Change(s, s', t, n) && NewUsersOk(s, s', t, n) && u in s'.pcs && Uses(s'.pcs[u], m)
    ensures m in s'.buffer && m in s'.nodes && u in s'.nodes[m].owners
    ensures s'.nodes[m].key.Some? && s'.nodes[m].key.value in s'.disk
  {
    hide Uses;
    assert u != t ==> Uses(s.pcs[u], m);
  }

  lemma ChangeOwner(s: State, s': State, t: nat, n: nat, u: nat, m: nat)
    requires UsersOk(s) && Change(s, s', t, n) && NewUsersOk(s, s', t, n) && m in s'.nodes && u in s'.nodes[m].owners
    ensures u in s'.pcs && Uses(s'.pcs[u], m)
  {
    hide Uses;
    assert m != n ==> Uses(s.pcs[u], m);
  }

  lemma ChangeLocks(s: State, s': State, t: nat, n: nat)
    requires LocksOk(s) && Change(s, s', t, n) && NewLocksOk(s, s', t, n)
    ensures LocksOk(s')
  {
    forall u, m | u in s'.pcs && Inside(s'.pcs[u], m)
      ensures m in s'.nodes && s'.nodes[m].lock == Some(u) && (s'.pcs[u].Loading? ==> !s'.nodes[m].valid)
    {
      assert u != t ==> Inside(s.pcs[u], m);
    }
  }

  lemma ChangeFlushers(s: State, s': State, t: nat, n: nat)
    requires FlushersOk(s) && Change(s, s', t, n) && NewFlusherOk(s, s', t, n)
    ensures FlushersOk(s')
  {
  }

  lemma ChangeFlags(s: State, s': State, t: nat, n: nat)
    requires FlagsOk(s) && Change(s, s', t, n) && NodeOk(s.disk, s'.nodes[n]) && (n in s'.buffer || n in s'.flush)
    ensures FlagsOk(s')
  {
  }

  lemma ChangeKeeps(s: State, s': State, t: nat, n: nat)
    requires Inv(s) && Change(s, s', t, n) && ListsOk(s')
    requires NewKeyOk(s, s', n) && NewUsersOk(s, s', t, n) && NewLocksOk(s, s', t, n) && NewFlusherOk(s, s', t, n)
    requires NodeOk(s.disk, s'.nodes[n]) && (n in s'.buffer || n in s'.flush)
    ensures Inv(s')
  {
    hide KeysUnique, UsersOk, LocksOk, FlushersOk, FlagsOk, ListsOk, Change, NewKeyOk, NewUsersOk, NewLocksOk;
    hide NewFlusherOk, NodeOk;
    ChangeKeys(s, s', t, n);
    ChangeUsers(s, s', t, n);
    ChangeLocks(s, s', t, n);
    ChangeFlushers(s, s', t, n);
    ChangeFlags(s, s', t, n);
  }

  // ------------------------------------------------------------ the steps keep the invariant

  /** Node n moves to the front of the buffer list, from position i of it or from nowhere. */
  lemma ToFront(s: State, s': State, n: nat, rest: seq<nat>)
    requires ListsOk(s) && NoDup(rest) && n !in rest && n !in s'.flush && s'.flush == s.flush
    requires forall m :: m in rest <==> m in s.buffer && m != n
    requires s'.buffer == [n] + rest && s'.nodes.Keys == s.nodes.Keys + {n}
    ensures ListsOk(s') && n in s'.buffer && forall m :: m != n ==> (m in s'.buffer <==> m in s.buffer)
  {
    FrontMembers(rest, n);
  }

  lemma SameKeyOk(s: State, s': State, n: nat)
    requires KeysUnique(s) && n in s.nodes && n in s'.nodes && s'.nodes[n].key == s.nodes[n].key && n in s.buffer
    ensures NewKeyOk(s, s', n)
  {
    forall m, k | n in s'.buffer && s'.nodes[n].key == Some(k) && m in s.buffer && m != n ensures !Has(s.nodes, m, k) {
      assert Has(s.nodes, n, k);
    }
  }

  lemma HitUsers(s: State, t: nat, i: nat)
    requires ListsOk(s) && UsersOk(s) && t in s.pcs && (s.pcs[t].Idle? || s.pcs[t].Waiting?)
    requires i < |s.buffer| && s.buffer[i] in s.nodes && s.nodes[s.buffer[i]].key.Some?
    requires s.nodes[s.buffer[i]].key.value in s.disk
    ensures NewUsersOk(s, Hit(s, t, i), t, s.buffer[i])
  {
    hide Without, NoDup;
  }

  lemma HitLocks(s: State, t: nat, i: nat)
    requires LocksOk(s) && t in s.pcs && (s.pcs[t].Idle? || s.pcs[t].Waiting?) && i < |s.buffer|
    requires s.buffer[i] in s.nodes
    ensures NewLocksOk(s, Hit(s, t, i), t, s.buffer[i])
  {
    hide Without;
  }

  lemma HitKeeps(s: State, t: nat, i: nat)
    requires Inv(s) && t in s.pcs && (s.pcs[t].Idle? || s.pcs[t].Waiting?)
    requires i < |s.buffer| && s.buffer[i] in s.nodes && s.nodes[s.buffer[i]].key.Some?
    requires s.nodes[s.buffer[i]].key.value in s.disk
    ensures Inv(Hit(s, t, i))
  {
    hide Without, NoDup, KeysUnique, NewKeyOk, UsersOk, LocksOk, NewUsersOk, NewLocksOk;
    var n, s' := s.buffer[i], Hit(s, t, i);
    WithoutMembers(s.buffer, i);
    ToFront(s, s', n, Without(s.buffer, i));
    SameKeyOk(s, s', n);
    HitUsers(s, t, i);
    HitLocks(s, t, i);
    assert n !in s'.flush;
    ChangeKeeps(s, s', t, n);
  }

  lemma InsertKeeps(s: State, t: nat, k: Key, n: nat)
    requires Inv(s) && t in s.pcs && (s.pcs[t].Idle? || s.pcs[t].Waiting?) && n !in s.nodes && k in s.disk
    requires forall m :: m in s.buffer ==> !Has(s.nodes, m, k)
    ensures Inv(Insert(s, t, k, n))
  {
    hide NoDup, KeysUnique;
    var s' := Insert(s, t, k, n);
    ToFront(s, s', n, s.buffer);
    ChangeKeeps(s, s', t, n);
  }

  lemma EvictCleanUsers(s: State, t: nat, k: Key, v: nat)
    requires ListsOk(s) && UsersOk(s) && t in s.pcs && (s.pcs[t].Idle? || s.pcs[t].Waiting?) && k in s.disk
    requires v < |s.buffer| && s.buffer[v] in s.nodes && s.nodes[s.buffer[v]].owners == {}
    ensures NewUsersOk(s, EvictClean(s, t, k, v), t, s.buffer[v])
  {
    hide Without, NoDup;
  }

  lemma EvictCleanLocks(s: State, t: nat, k: Key, v: nat)
    requires LocksOk(s) && UsersOk(s) && t in s.pcs && (s.pcs[t].Idle? || s.pcs[t].Waiting?) && k in s.disk
    requires v < |s.buffer| && s.buffer[v] in s.nodes && s.nodes[s.buffer[v]].owners == {}
    ensures NewLocksOk(s, EvictClean(s, t, k, v), t, s.buffer[v])
  {
    hide Without, NoDup;
  }

  lemma EvictCleanFlusher(s: State, t: nat, k: Key, v: nat)
    requires ListsOk(s) && FlushersOk(s) && t in s.pcs && (s.pcs[t].Idle? || s.pcs[t].Waiting?) && k in s.disk
    requires v < |s.buffer| && s.buffer[v] in s.nodes && s.nodes[s.buffer[v]].owners == {}
    ensures NewFlusherOk(s, EvictClean(s, t, k, v), t, s.buffer[v])
  {
    hide Without, NoDup;
  }

  lemma EvictCleanKeeps(s: State, t: nat, k: Key, v: nat)
    requires Inv(s) && t in s.pcs && (s.pcs[t].Idle? || s.pcs[t].Waiting?) && k in s.disk
    requires v < |s.buffer| && s.buffer[v] in s.nodes && s.nodes[s.buffer[v]].owners == {}
    requires !s.nodes[s.buffer[v]].dirty
    requires forall m :: m in s.buffer ==> !Has(s.nodes, m, k)
    ensures Inv(EvictClean(s, t, k, v))
  {
    hide Without, NoDup, KeysUnique, UsersOk, LocksOk, FlushersOk, NewUsersOk, NewLocksOk, NewFlusherOk;
    var n, s' := s.buffer[v], EvictClean(s, t, k, v);
    WithoutMembers(s.buffer, v);
    ToFront(s, s', n, Without(s.buffer, v));
    EvictCleanUsers(s, t, k, v);
    EvictCleanLocks(s, t, k, v);
    EvictCleanFlusher(s, t, k, v);
    ChangeKeeps(s, s', t, n);
  }

  lemma EvictDirtyUsers(s: State, t: nat, k: Key, v: nat)
    requires ListsOk(s) && UsersOk(s) && t in s.pcs && (s.pcs[t].Idle? || s.pcs[t].Waiting?) && k in s.disk
    requires v < |s.buffer| && s.buffer[v] in s.nodes && s.nodes[s.buffer[v]].owners == {}
    requires s.nodes[s.buffer[v]].dirty && FlagsOk(s) && LocksOk(s) && UsersOk(s)
    ensures NewUsersOk(s, EvictDirty(s, t, k, v), t, s.buffer[v])
  {
    hide Without, NoDup;
  }

  lemma EvictDirtyLocks(s: State, t: nat, k: Key, v: nat)
    requires LocksOk(s) && UsersOk(s) && t in s.pcs && (s.pcs[t].Idle? || s.pcs[t].Waiting?) && k in s.disk
    requires v < |s.buffer| && s.buffer[v] in s.nodes && s.nodes[s.buffer[v]].owners == {}
    requires s.nodes[s.buffer[v]].dirty && FlagsOk(s) && LocksOk(s) && UsersOk(s)
    ensures NewLocksOk(s, EvictDirty(s, t, k, v), t, s.buffer[v])
  {
    hide Without, NoDup;
  }

  lemma EvictDirtyFlusher(s: State, t: nat, k: Key, v: nat)
    requires ListsOk(s) && FlushersOk(s) && t in s.pcs && (s.pcs[t].Idle? || s.pcs[t].Waiting?) && k in s.disk
    requires v < |s.buffer| && s.buffer[v] in s.nodes && s.nodes[s.buffer[v]].owners == {}
    requires s.nodes[s.buffer[v]].dirty && FlagsOk(s) && LocksOk(s) && UsersOk(s)
    ensures NewFlusherOk(s, EvictDirty(s, t, k, v), t, s.buffer[v])
  {
    hide Without, NoDup;
  }

  lemma EvictDirtyKeeps(s: State, t: nat, k: Key, v: nat)
    requires Inv(s) && t in s.pcs && (s.pcs[t].Idle? || s.pcs[t].Waiting?) && k in s.disk
    requires v < |s.buffer| && s.buffer[v] in s.nodes && s.nodes[s.buffer[v]].owners == {} && s.nodes[s.buffer[v]].dirty
    ensures Inv(EvictDirty(s, t, k, v))
  {
    hide Without, NoDup, KeysUnique, UsersOk, LocksOk, FlushersOk, NewUsersOk, NewLocksOk, NewFlusherOk;
    var n, s' := s.buffer[v], EvictDirty(s, t, k, v);
    WithoutMembers(s.buffer, v);
    FrontMembers(s.flush, n);
    EvictDirtyUsers(s, t, k, v);
    EvictDirtyLocks(s, t, k, v);
    EvictDirtyFlusher(s, t, k, v);
    ChangeKeeps(s, s', t, n);
  }

  lemma DeviceWriteKeeps(s: State, t: nat)
    requires Inv(s) && Enabled(s, Written(t))
    ensures Inv(DeviceWrite(s, t))
  {
    hide NoDup, KeysUnique, NewKeyOk;
    var n, s' := s.pcs[t].n, DeviceWrite(s, t);
    assert NewKeyOk(s, s', n) by { NotInBuffer(s, s', n); }
    ChangeKeeps(s, s', t, n);
  }

  lemma NotInBuffer(s: State, s': State, n: nat)
    requires n in s'.nodes && n !in s'.buffer
    ensures NewKeyOk(s, s', n)
  {
  }

  lemma FinishOwnUsers(s: State, t: nat)
    requires ListsOk(s) && Enabled(s, Flushed(t)) && IndexOf(s.nodes, s.buffer, s.pcs[t].k) == |s.buffer|
    requires FlushersOk(s) && UsersOk(s)
    ensures NewUsersOk(s, Finish(s, t), t, s.pcs[t].n)
  {
    hide NoDup, IndexOf, Remove;
  }

  lemma FinishOwnLocks(s: State, t: nat)
    requires LocksOk(s) && Enabled(s, Flushed(t)) && IndexOf(s.nodes, s.buffer, s.pcs[t].k) == |s.buffer|
    requires FlushersOk(s) && UsersOk(s)
    ensures NewLocksOk(s, Finish(s, t), t, s.pcs[t].n)
  {
    hide NoDup, IndexOf, Remove;
  }

  lemma FinishOwnFlusher(s: State, t: nat)
    requires ListsOk(s) && Enabled(s, Flushed(t)) && IndexOf(s.nodes, s.buffer, s.pcs[t].k) == |s.buffer|
    requires FlushersOk(s) && UsersOk(s)
    ensures NewFlusherOk(s, Finish(s, t), t, s.pcs[t].n)
  {
    hide NoDup, IndexOf, Remove;
    RemoveMembers(s.flush, s.pcs[t].n);
  }

  /** flush_list.erase and init(key) when nobody else has brought the block in. */
  lemma FinishOwnKeeps(s: State, t: nat)
    requires Inv(s) && Enabled(s, Flushed(t)) && IndexOf(s.nodes, s.buffer, s.pcs[t].k) == |s.buffer|
    ensures Inv(Finish(s, t))
  {
    hide NoDup, KeysUnique, IndexOf, Remove, UsersOk, LocksOk, NewUsersOk, NewLocksOk, NewFlusherOk;
    var n, s' := s.pcs[t].n, Finish(s, t);
    NoneHas(s.nodes, s.buffer, s.pcs[t].k);
    RemoveMembers(s.flush, n);
    FrontMembers(s.buffer, n);
    FinishOwnUsers(s, t);
    FinishOwnLocks(s, t);
    FinishOwnFlusher(s, t);
    ChangeKeeps(s, s', t, n);
  }

  lemma NoneHas(nodes: map<nat, Node>, list: seq<nat>, k: Key)
    requires IndexOf(nodes, list, k) == |list|
    ensures forall m :: m in list ==> !Has(nodes, m, k)
  {
  }

  /** flush_list.erase and init() when another session has brought the block in. */
  ghost function FinishNull(s: State, t: nat): (s': State)
    requires t in s.pcs && s.pcs[t].Flushing? && s.pcs[t].n in s.nodes
  {
    var n := s.pcs[t].n;
    SetPc(SetNode(s.(flush := Remove(s.flush, n), buffer := s.buffer + [n]),
                  n, s.nodes[n].(dirty := false, valid := false, key := None)), t, Idle)
  }

  lemma FinishNullKeeps(s: State, t: nat)
    requires Inv(s) && Enabled(s, Flushed(t))
    ensures Inv(FinishNull(s, t))
  {
    hide NoDup, KeysUnique, Remove;
    var n, s' := s.pcs[t].n, FinishNull(s, t);
    RemoveMembers(s.flush, n);
    FrontMembers(s.buffer, n);
    ChangeKeeps(s, s', t, n);
  }

  /** One more owner, the list left as it is. */
  ghost function Join(s: State, t: nat, m: nat): (s': State)
    requires m in s.nodes
  {
    SetPc(SetNode(s, m, s.nodes[m].(owners := s.nodes[m].owners + {t})), t, Holding(m))
  }

  lemma JoinUsers(s: State, t: nat, m: nat)
    requires ListsOk(s) && UsersOk(s) && t in s.pcs && s.pcs[t].Idle? && m in s.buffer && m in s.nodes
    requires s.nodes[m].key.Some? && s.nodes[m].key.value in s.disk
    ensures NewUsersOk(s, Join(s, t, m), t, m)
  {
    hide NoDup;
  }

  lemma JoinLocks(s: State, t: nat, m: nat)
    requires LocksOk(s) && t in s.pcs && s.pcs[t].Idle? && m in s.buffer && m in s.nodes
    requires s.nodes[m].key.Some? && s.nodes[m].key.value in s.disk
    ensures NewLocksOk(s, Join(s, t, m), t, m)
  {
    hide NoDup;
  }

  lemma JoinFlusher(s: State, t: nat, m: nat)
    requires ListsOk(s) && FlushersOk(s) && t in s.pcs && s.pcs[t].Idle? && m in s.buffer && m in s.nodes
    requires s.nodes[m].key.Some? && s.nodes[m].key.value in s.disk
    ensures NewFlusherOk(s, Join(s, t, m), t, m)
  {
    hide NoDup;
  }

  lemma JoinKeeps(s: State, t: nat, m: nat)
    requires Inv(s) && t in s.pcs && s.pcs[t].Idle? && m in s.buffer && m in s.nodes
    requires s.nodes[m].key.Some? && s.nodes[m].key.value in s.disk
    ensures Inv(Join(s, t, m))
  {
    hide NoDup, KeysUnique, NewKeyOk, UsersOk, LocksOk, FlushersOk, NewUsersOk, NewLocksOk, NewFlusherOk;
    var s' := Join(s, t, m);
    SameKeyOk(s, s', m);
    JoinUsers(s, t, m);
    JoinLocks(s, t, m);
    JoinFlusher(s, t, m);
    ChangeKeeps(s, s', t, m);
  }

  lemma FinishKeeps(s: State, t: nat)
    requires Inv(s) && Enabled(s, Flushed(t))
    ensures Inv(Finish(s, t))
  {
    hide Inv, IndexOf;
    var k := s.pcs[t].k;
    var i := IndexOf(s.nodes, s.buffer, k);
    if i < |s.buffer| {
      var s1, m := FinishNull(s, t), s.buffer[i];
      FinishNullKeeps(s, t);
      FlushTarget(s, t, m);
      JoinKeeps(s1, t, m);
      assert Finish(s, t) == Join(s1, t, m);
    } else {
      FinishOwnKeeps(s, t);
    }
  }

  lemma FlushTarget(s: State, t: nat, m: nat)
    requires Inv(s) && t in s.pcs && s.pcs[t].Flushing? && m in s.buffer
    ensures m != s.pcs[t].n && s.pcs[t].k in s.disk && m in s.nodes
  {
  }

  /** The steps of a session that uses a node. */
  lemma HolderKeeps(c: Config, s: State, e: Event)
    requires Inv(s) && Enabled(s, e) && !e.Get? && !e.Written? && !e.Flushed?
    ensures Inv(Next(c, s, e))
  {
    hide NoDup, KeysUnique, NewKeyOk, NewUsersOk, NewLocksOk, FlushersOk, NewFlusherOk;
    var n, s' := s.pcs[e.t].n, Next(c, s, e);
    assert Uses(s.pcs[e.t], n);
    SameKeyOk(s, s', n);
    HolderUsers(c, s, e);
    HolderLocks(c, s, e);
    NoFlusher(s, s', e.t, n);
    ChangeKeeps(s, s', e.t, n);
  }

  lemma HolderUsers(c: Config, s: State, e: Event)
    requires Inv(s) && Enabled(s, e) && !e.Get? && !e.Written? && !e.Flushed?
    ensures NewUsersOk(s, Next(c, s, e), e.t, s.pcs[e.t].n)
  {
    hide NoDup, KeysUnique, FlushersOk, LocksOk, FlagsOk;
  }

  lemma HolderLocks(c: Config, s: State, e: Event)
    requires Inv(s) && Enabled(s, e) && !e.Get? && !e.Written? && !e.Flushed?
    ensures NewLocksOk(s, Next(c, s, e), e.t, s.pcs[e.t].n)
  {
    hide NoDup, KeysUnique, FlushersOk, ListsOk, UsersOk, FlagsOk;
    var n := s.pcs[e.t].n;
    assert !e.Drop? && !e.Lock? ==> Inside(s.pcs[e.t], n);
  }

  lemma NoFlusher(s: State, s': State, t: nat, n: nat)
    requires FlushersOk(s) && ListsOk(s) && Change(s, s', t, n) && n in s.buffer && s'.flush == s.flush
    requires !s.pcs[t].Flushing? && !s'.pcs[t].Flushing?
    ensures NewFlusherOk(s, s', t, n)
  {
  }

  lemma WaitKeeps(s: State, t: nat, pc: Pc)
    requires Inv(s) && t in s.pcs && (s.pcs[t].Idle? || s.pcs[t].Waiting?) && (pc.Waiting? || pc.Failed?)
    ensures Inv(SetPc(s, t, pc))
  {
    hide UsersOk, LocksOk, FlushersOk;
    WaitUsers(s, t, pc);
    WaitLocks(s, t, pc);
    WaitFlushers(s, t, pc);
  }

  lemma WaitUsers(s: State, t: nat, pc: Pc)
    requires UsersOk(s) && t in s.pcs && (s.pcs[t].Idle? || s.pcs[t].Waiting?) && (pc.Waiting? || pc.Failed?)
    ensures UsersOk(SetPc(s, t, pc))
  {
  }

  lemma WaitLocks(s: State, t: nat, pc: Pc)
    requires LocksOk(s) && t in s.pcs && (s.pcs[t].Idle? || s.pcs[t].Waiting?) && (pc.Waiting? || pc.Failed?)
    ensures LocksOk(SetPc(s, t, pc))
  {
  }

  lemma WaitFlushers(s: State, t: nat, pc: Pc)
    requires FlushersOk(s) && t in s.pcs && (s.pcs[t].Idle? || s.pcs[t].Waiting?) && (pc.Waiting? || pc.Failed?)
    ensures FlushersOk(SetPc(s, t, pc))
  {
  }

  lemma BeginKeeps(c: Config, s: State, t: nat, k: Key, id: nat)
    requires Inv(s) && Enabled(s, Get(t, k, id))
    ensures Inv(Begin(c, s, t, k, id))
  {
    hide Inv, Hit, Insert, EvictClean, EvictDirty, SetPc, IndexOf, Unused;
    var i := IndexOf(s.nodes, s.buffer, k);
    if IndexOf(s.nodes, s.flush, k) < |s.flush| {
      WaitKeeps(s, t, Waiting(k));
    } else if i < |s.buffer| {
      HitKeeps(s, t, i);
    } else {
      NoneHas(s.nodes, s.buffer, k);
      var v := if |s.buffer| >= c.min then Unused(s.nodes, s.buffer) else |s.buffer|;
      if v < |s.buffer| {
        if s.nodes[s.buffer[v]].dirty { EvictDirtyKeeps(s, t, k, v); } else { EvictCleanKeeps(s, t, k, v); }
      } else if |s.buffer| >= c.max {
        WaitKeeps(s, t, Failed);
      } else {
        InsertKeeps(s, t, k, id);
      }
    }
  }

  /** Every step of every session, in any interleaving and with any number of evictions in
      flight, keeps the invariant: in particular one node per key in the buffer list. */
  lemma StepKeeps(c: Config, s: State, e: Event)
    requires Inv(s) && Enabled(s, e)
    ensures Inv(Next(c, s, e))
  {
    hide Inv, Begin, Finish, DeviceWrite, HolderStep;
    match e {
      case Get(t, k, id) => BeginKeeps(c, s, t, k, id);
      case Written(t) => DeviceWriteKeeps(s, t);
      case Flushed(t) => FinishKeeps(s, t);
      case _ => HolderKeeps(c, s, e);
    }
  }

  /** Every event is enabled where it happens. */
  ghost predicate IsPath(c: Config, s: State, events: seq<Event>)
    decreases |events|
  {
    events == [] || (Enabled(s, events[0]) && IsPath(c, Next(c, s, events[0]), events[1..]))
  }

  ghost function PathEnd(c: Config, s: State, events: seq<Event>): (r: State)
    requires IsPath(c, s, events)
    decreases |events|
  {
    if events == [] then s else PathEnd(c, Next(c, s, events[0]), events[1..])
  }

  /** The invariant holds after every path, whatever its interleaving. */
  lemma {:induction false} PathKeeps(c: Config, s: State, events: seq<Event>)
    requires Inv(s) && IsPath(c, s, events)
    ensures Inv(PathEnd(c, s, events))
    decreases |events|
  {
    hide Inv, Next, Enabled;
    if events != [] {
      StepKeeps(c, s, events[0]);
      PathKeeps(c, Next(c, s, events[0]), events[1..]);
    }
  }

  /** Only the session of the event changes its place in the code. */
  lemma OtherPcs(c: Config, s: State, e: Event, t: nat)
    requires Enabled(s, e) && t in s.pcs && e.t != t
    ensures t in Next(c, s, e).pcs && Next(c, s, e).pcs[t] == s.pcs[t]
  {
    hide IndexOf, Unused, Without, Remove;
  }

  /** A node with an owner, in the buffer list, keeps its key. */
  lemma KeyStays(c: Config, s: State, e: Event, n: nat)
    requires Enabled(s, e) && n in s.nodes && s.nodes[n].owners != {} && n !in s.flush
    requires e.Flushed? ==> s.pcs[e.t].n in s.flush
    ensures n in Next(c, s, e).nodes && Next(c, s, e).nodes[n].key == s.nodes[n].key
  {
    hide IndexOf, Without, Remove;
  }

  /** A node that some session uses is never taken from it: it stays in the buffer list
      under the same key. */
  lemma UsedStays(c: Config, s: State, e: Event, t: nat, n: nat)
    requires Inv(s) && Enabled(s, e) && t in s.pcs && Uses(s.pcs[t], n) && e.t != t
    ensures var s' := Next(c, s, e);
            n in s'.nodes && n in s'.buffer && t in s'.nodes[n].owners && s'.nodes[n].key == s.nodes[n].key
  {
    hide Next, KeysUnique, LocksOk, FlagsOk, NoDup;
    StepKeeps(c, s, e);
    OtherPcs(c, s, e, t);
    KeyStays(c, s, e, n);
  }
}
