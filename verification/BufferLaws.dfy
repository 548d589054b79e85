/** What get_derived promises its caller (os/utils/buffer_manager.h), stated on the lists and nodes: which
    buffer it returns, where it stands in the list, and what is evicted for it. */
module BufferLaws {
  import opened Basics
  import opened BufferCache
  import opened BufferCoherence

  /** Some node of the list is block k's. */
  ghost predicate Listed(nodes: map<nat, Node>, list: seq<nat>, k: Key)
  {
    exists n :: n in list && Has(nodes, n, k)
  }

  /** n has gone from where it was, or from nowhere, to the front; the others keep their order. */
  ghost predicate MovedToFront(list: seq<nat>, list': seq<nat>, n: nat)
  {
    exists x: seq<nat>, y: seq<nat> :: list == x + [n] + y && list' == [n] + x + y
  }

  ghost predicate TakenOut(list: seq<nat>, list': seq<nat>, n: nat)
  {
    exists x: seq<nat>, y: seq<nat> :: list == x + [n] + y && list' == x + y
  }

  /** n is the last node of the list that nobody uses. */
  ghost predicate LastFree(nodes: map<nat, Node>, list: seq<nat>, n: nat)
  {
    exists x: seq<nat>, y: seq<nat> :: list == x + [n] + y && Free(nodes, n) && forall m :: m in y ==> !Free(nodes, m)
  }

  ghost predicate NoneFree(nodes: map<nat, Node>, list: seq<nat>)
  {
    forall m :: m in list ==> !Free(nodes, m)
  }

  lemma IndexLists(nodes: map<nat, Node>, list: seq<nat>, k: Key)
    ensures IndexOf(nodes, list, k) < |list| <==> Listed(nodes, list, k)
  {
    var i := IndexOf(nodes, list, k);
    if i < |list| { assert list[i] in list && Has(nodes, list[i], k); }
  }

  lemma FrontMove(list: seq<nat>, i: nat)
    requires i < |list|
    ensures MovedToFront(list, [list[i]] + Without(list, i), list[i]) && TakenOut(list, Without(list, i), list[i])
  {
    var x, y := list[..i], list[i + 1..];
    assert list == x + [list[i]] + y && [list[i]] + Without(list, i) == [list[i]] + x + y && Without(list, i) == x + y;
  }

  lemma UnusedLast(nodes: map<nat, Node>, list: seq<nat>)
    ensures var v := Unused(nodes, list);
            if v < |list| then LastFree(nodes, list, list[v]) else NoneFree(nodes, list)
  {
    var v := Unused(nodes, list);
    if v < |list| {
      var x, y := list[..v], list[v + 1..];
      assert list == x + [list[v]] + y;
      forall m | m in y ensures !Free(nodes, m) {
        var j :| 0 <= j < |y| && y[j] == m;
        assert list[v + 1 + j] == m;
      }
    }
  }

  /** A block that is being flushed: the session waits, and nothing else happens. */
  lemma GetWaits(c: Config, s: State, t: nat, k: Key, id: nat)
    requires Enabled(s, Get(t, k, id)) && Listed(s.nodes, s.flush, k)
    ensures Next(c, s, Get(t, k, id)) == s.(pcs := s.pcs[t := Waiting(k)])
  {
    hide IndexOf, Unused;
    IndexLists(s.nodes, s.flush, k);
  }

  /** A block that is cached: the session gets its node, which moves to the front. */
  lemma GetHits(c: Config, s: State, t: nat, k: Key, id: nat, n: nat)
    requires Inv(s) && Enabled(s, Get(t, k, id)) && !Listed(s.nodes, s.flush, k) && n in s.buffer && Has(s.nodes, n, k)
    ensures var s' := Next(c, s, Get(t, k, id));
            && s'.pcs == s.pcs[t := Holding(n)] && MovedToFront(s.buffer, s'.buffer, n)
            && s'.flush == s.flush && s'.disk == s.disk
            && s'.nodes == s.nodes[n := s.nodes[n].(owners := s.nodes[n].owners + {t})]
  {
    hide IndexOf, Unused, UsersOk, LocksOk, FlushersOk, FlagsOk, MovedToFront, TakenOut, NoDup;
    IndexLists(s.nodes, s.flush, k);
    IndexLists(s.nodes, s.buffer, k);
    var i := IndexOf(s.nodes, s.buffer, k);
    assert Listed(s.nodes, s.buffer, k);
    assert s.buffer[i] == n;
    FrontMove(s.buffer, i);
  }

  /** A block that is neither: a new node while there are fewer than min_buffer_count; otherwise the last
      node nobody uses, at once if it is clean, and after a flush if it is dirty; if all are in use a
      new node again, or failure with max_buffer_count of them. */
  lemma GetMisses(c: Config, s: State, t: nat, k: Key, id: nat)
    requires Inv(s) && Enabled(s, Get(t, k, id)) && !Listed(s.nodes, s.flush, k) && !Listed(s.nodes, s.buffer, k)
    ensures var s' := Next(c, s, Get(t, k, id));
            && s'.disk == s.disk
            && (|s.buffer| < c.min || NoneFree(s.nodes, s.buffer) ==>
                  if |s.buffer| >= c.max then s' == s.(pcs := s.pcs[t := Failed])
                  else
                    && s'.pcs == s.pcs[t := Holding(id)] && s'.buffer == [id] + s.buffer && s'.flush == s.flush
                    && s'.nodes == s.nodes[id := Node(Some(k), false, false, 0, {t}, None)])
            && (|s.buffer| >= c.min && !NoneFree(s.nodes, s.buffer) ==> Evicts(s, t, k, s'))
  {
    hide IndexOf, Unused, UsersOk, LocksOk, FlushersOk, FlagsOk, Evicts, NoDup, NoneFree;
    IndexLists(s.nodes, s.flush, k);
    IndexLists(s.nodes, s.buffer, k);
    UnusedLast(s.nodes, s.buffer);
    var v := Unused(s.nodes, s.buffer);
    if v < |s.buffer| {
      SomeFree(s.nodes, s.buffer, v);
      FrontMove(s.buffer, v);
      if |s.buffer| >= c.min { EvictsNode(c, s, t, k, id, v); }
    }
  }

  lemma SomeFree(nodes: map<nat, Node>, list: seq<nat>, v: nat)
    requires v < |list| && Free(nodes, list[v])
    ensures !NoneFree(nodes, list)
  {
  }

  ghost predicate Evicts(s: State, t: nat, k: Key, s': State)
  {
    exists n :: EvictsFor(s, t, k, s', n)
  }

  /** The last free node n is reused for block k, or goes to the flush list. */
  ghost predicate EvictsFor(s: State, t: nat, k: Key, s': State, n: nat)
  {
    && n in s.nodes && LastFree(s.nodes, s.buffer, n)
    && if s.nodes[n].dirty then
         && s'.pcs == s.pcs[t := Flushing(k, n, false)] && TakenOut(s.buffer, s'.buffer, n)
         && s'.flush == s.flush + [n] && s'.nodes == s.nodes
       else
         && s'.pcs == s.pcs[t := Holding(n)] && MovedToFront(s.buffer, s'.buffer, n) && s'.flush == s.flush
         && s'.nodes == s.nodes[n := s.nodes[n].(key := Some(k), valid := false, owners := {t})]
  }

  lemma EvictsNode(c: Config, s: State, t: nat, k: Key, id: nat, v: nat)
    requires Enabled(s, Get(t, k, id)) && v == Unused(s.nodes, s.buffer) < |s.buffer| && |s.buffer| >= c.min
    requires IndexOf(s.nodes, s.flush, k) == |s.flush| && IndexOf(s.nodes, s.buffer, k) == |s.buffer|
    ensures Evicts(s, t, k, Next(c, s, Get(t, k, id)))
  {
    hide IndexOf, Unused, LastFree, MovedToFront, TakenOut;
    UnusedLast(s.nodes, s.buffer);
    FrontMove(s.buffer, v);
    assert EvictsFor(s, t, k, Next(c, s, Get(t, k, id)), s.buffer[v]);
  }

  /** After the flush the session gets a node of its block: the one in the list if there is one, the flushed
      node going to the back without a key; otherwise the flushed node, at the front. */
  lemma FlushedReturns(c: Config, s: State, t: nat)
    requires Inv(s) && Enabled(s, Flushed(t))
    ensures var s', n, k := Next(c, s, Flushed(t)), s.pcs[t].n, s.pcs[t].k;
            && s'.disk == s.disk && TakenOut(s.flush, s'.flush, n)
            && (forall m :: m in s.buffer && Has(s.nodes, m, k) ==>
                  && s'.pcs == s.pcs[t := Holding(m)] && s'.buffer == s.buffer + [n] && m != n
                  && n in s'.nodes && s'.nodes[n].key == None && !s'.nodes[n].valid && !s'.nodes[n].dirty
                  && m in s'.nodes && s'.nodes[m] == s.nodes[m].(owners := s.nodes[m].owners + {t}))
            && (!Listed(s.nodes, s.buffer, k) ==>
                  && s'.pcs == s.pcs[t := Holding(n)] && s'.buffer == [n] + s.buffer
                  && s'.nodes
                     == s.nodes[n := s.nodes[n].(dirty := false, valid := false, key := Some(k), owners := {t})])
  {
    hide IndexOf, UsersOk, LocksOk, FlagsOk, TakenOut, NoDup;
    var n, k := s.pcs[t].n, s.pcs[t].k;
    IndexLists(s.nodes, s.buffer, k);
    RemoveTakes(s.flush, n);
    forall m | m in s.buffer && Has(s.nodes, m, k) ensures s.buffer[IndexOf(s.nodes, s.buffer, k)] == m {
      assert Listed(s.nodes, s.buffer, k);
    }
  }

  lemma {:induction false} RemoveTakes(list: seq<nat>, n: nat)
    requires n in list
    ensures TakenOut(list, Remove(list, n), n)
  {
    if list[0] == n {
      assert list == [] + [n] + list[1..] && Remove(list, n) == [] + list[1..];
    } else {
      RemoveTakes(list[1..], n);
      var x: seq<nat>, y: seq<nat> :| list[1..] == x + [n] + y && Remove(list[1..], n) == x + y;
      assert list == ([list[0]] + x) + [n] + y && Remove(list, n) == ([list[0]] + x) + y;
    }
  }

  // ------------------------------------------------------------ the block asked for

  /** What each session has asked for: it waits, flushes or uses a node for that block. */
  ghost predicate AskedOk(s: State, asked: map<nat, Key>)
  {
    forall t :: t in s.pcs ==> PcAsked(s.nodes, s.pcs[t], asked, t)
  }

  ghost predicate PcAsked(nodes: map<nat, Node>, pc: Pc, asked: map<nat, Key>, t: nat)
  {
    match pc
    case Waiting(k) => t in asked && asked[t] == k
    case Flushing(k, _, _) => t in asked && asked[t] == k
    case Holding(n) => t in asked && Has(nodes, n, asked[t])
    case Locked(n) => t in asked && Has(nodes, n, asked[t])
    case Loading(n) => t in asked && Has(nodes, n, asked[t])
    case _ => true
  }

  ghost function NextAsked(asked: map<nat, Key>, e: Event): (r: map<nat, Key>)
  {
    match e case Get(t, k, _) => asked[t := k] case _ => asked
  }

  /** The session of the step has a node of its block afterwards, or waits or flushes for it. */
  lemma OwnAsked(c: Config, s: State, e: Event, asked: map<nat, Key>)
    requires Inv(s) && AskedOk(s, asked) && Enabled(s, e)
    ensures var s' := Next(c, s, e); e.t in s'.pcs && PcAsked(s'.nodes, s'.pcs[e.t], NextAsked(asked, e), e.t)
  {
    hide IndexOf, Unused, Without, Remove, UsersOk, LocksOk, FlushersOk, FlagsOk, NoDup;
    match e {
      case Get(t, k, id) =>
        IndexLists(s.nodes, s.flush, k);
        IndexLists(s.nodes, s.buffer, k);
      case Flushed(t) => IndexLists(s.nodes, s.buffer, s.pcs[t].k);
      case _ =>
    }
  }

  /** Another session keeps the node it uses, under the block it asked for. */
  lemma OtherAsked(c: Config, s: State, e: Event, asked: map<nat, Key>, u: nat)
    requires Inv(s) && AskedOk(s, asked) && Enabled(s, e) && u in s.pcs && u != e.t
    ensures var s' := Next(c, s, e); u in s'.pcs && PcAsked(s'.nodes, s'.pcs[u], NextAsked(asked, e), u)
  {
    hide Next, Inv;
    OtherPcs(c, s, e, u);
    var pc := s.pcs[u];
    if pc.Holding? || pc.Locked? || pc.Loading? { UsedStays(c, s, e, u, pc.n); }
  }

  lemma StepAsked(c: Config, s: State, e: Event, asked: map<nat, Key>)
    requires Inv(s) && AskedOk(s, asked) && Enabled(s, e)
    ensures AskedOk(Next(c, s, e), NextAsked(asked, e))
  {
    hide Inv, PcAsked, Next;
    SameSessions(c, s, e);
    forall u | u in Next(c, s, e).pcs
      ensures PcAsked(Next(c, s, e).nodes, Next(c, s, e).pcs[u], NextAsked(asked, e), u)
    {
      if u == e.t { OwnAsked(c, s, e, asked); } else { OtherAsked(c, s, e, asked, u); }
    }
  }

  lemma SameSessions(c: Config, s: State, e: Event)
    requires Enabled(s, e)
    ensures Next(c, s, e).pcs.Keys == s.pcs.Keys
  {
    hide IndexOf, Unused, Without, Remove;
  }

  ghost function PathAsked(asked: map<nat, Key>, events: seq<Event>): (r: map<nat, Key>)
    decreases |events|
  {
    if events == [] then asked else PathAsked(NextAsked(asked, events[0]), events[1..])
  }

  /** Over every path: a session that uses a node uses one of the block it asked for last. */
  lemma {:induction false} PathGets(c: Config, s: State, events: seq<Event>, asked: map<nat, Key>)
    requires Inv(s) && AskedOk(s, asked) && IsPath(c, s, events)
    ensures AskedOk(PathEnd(c, s, events), PathAsked(asked, events))
    decreases |events|
  {
    hide Inv, Next, Enabled, AskedOk, NextAsked;
    if events != [] {
      StepKeeps(c, s, events[0]);
      StepAsked(c, s, events[0], asked);
      PathGets(c, Next(c, s, events[0]), events[1..], NextAsked(asked, events[0]));
    }
  }

  /** A session that asked for block k and is inside a valid buffer sees the logical content of k. */
  lemma AskerSees(s: State, l: Disk, asked: map<nat, Key>, t: nat, n: nat)
    requires Inv(s) && Coherent(s, l) && AskedOk(s, asked) && t in s.pcs && s.pcs[t] == Locked(n)
    requires n in s.nodes && s.nodes[n].valid
    ensures t in asked && s.nodes[n].key == Some(asked[t]) && asked[t] in l && s.nodes[n].data == l[asked[t]]
  {
    hide Inv, Coherent;
    assert PcAsked(s.nodes, s.pcs[t], asked, t);
    HolderSees(s, l, t, n);
  }
}
