/** get_derived as code (os/utils/buffer_manager.h): the list searches and the updates made
    under the manager's lock, between two suspension points. */
module BufferManager {
  import opened Basics
  import opened BufferCache

  lemma FirstIsIndex(nodes: map<nat, Node>, list: seq<nat>, k: Key, i: nat)
    requires i <= |list| && (i < |list| ==> Has(nodes, list[i], k))
    requires forall j :: 0 <= j < i ==> !Has(nodes, list[j], k)
    ensures i == IndexOf(nodes, list, k)
  {
  }

  lemma LastIsUnused(nodes: map<nat, Node>, list: seq<nat>, i: nat)
    requires i <= |list| && (i < |list| ==> Free(nodes, list[i]))
    requires forall j :: 0 <= j < |list| && (i < j || i == |list|) ==> !Free(nodes, list[j])
    ensures i == Unused(nodes, list)
  {
  }

  class Manager {
    const config: Config
    var buffer: seq<nat>          // buffer_list
    var flush: seq<nat>           // flush_list
    var nodes: map<nat, Node>
    var disk: map<Key, Data>
    var pcs: map<nat, Pc>

    ghost function S(): (s: State)
      reads this
    {
      State(buffer, flush, nodes, disk, pcs)
    }

    constructor (config: Config, disk: map<Key, Data>, pcs: map<nat, Pc>)
      ensures S() == State([], [], map[], disk, pcs) && this.config == config
    {
      this.config := config;
      this.disk := disk;
      this.pcs := pcs;
      buffer, flush, nodes := [], [], map[];
    }

    /** A forward search for a matching node. */
    method Find(list: seq<nat>, k: Key) returns (i: nat)
      ensures i == IndexOf(nodes, list, k)
    {
      i := 0;
      while i < |list| && !Has(nodes, list[i], k)
        invariant i <= |list| && forall j :: 0 <= j < i ==> !Has(nodes, list[j], k)
      {
        i := i + 1;
      }
      FirstIsIndex(nodes, list, k, i);
    }

    /** The backward search for a node nobody uses. */
    method FindUnused() returns (v: nat)
      ensures v == Unused(nodes, buffer)
    {
      v := |buffer|;
      while v > 0 && !Free(nodes, buffer[v - 1])
        invariant v <= |buffer| && forall j :: v <= j < |buffer| ==> !Free(nodes, buffer[j])
      {
        v := v - 1;
      }
      v := if v == 0 then |buffer| else v - 1;
      LastIsUnused(nodes, buffer, v);
    }

    /** From taking the lock to the first suspension or return; `id` is the node that
        make_shared would give. */
    method Start(t: nat, k: Key, id: nat)
      requires forall n :: n in buffer ==> n in nodes
      modifies this
      ensures S() == Begin(config, old(S()), t, k, id)
      ensures t in pcs && (pcs[t].Holding? ==> Has(nodes, pcs[t].n, k) && |buffer| > 0 && buffer[0] == pcs[t].n)
      ensures (pcs[t].Waiting? || pcs[t].Flushing?) ==> pcs[t].k == k
    {
      hide IndexOf, Unused;
      var f := Find(flush, k);
      if f < |flush| {
        pcs := pcs[t := Waiting(k)];
        return;
      }
      var i := Find(buffer, k);
      if i < |buffer| {
        var n := buffer[i];
        buffer := [n] + (buffer[..i] + buffer[i + 1..]);
        nodes := nodes[n := nodes[n].(owners := nodes[n].owners + {t})];
        pcs := pcs[t := Holding(n)];
        return;
      }
      var v := |buffer|;
      if |buffer| >= config.min { v := FindUnused(); }
      if v < |buffer| {
        var n := buffer[v];
        buffer := buffer[..v] + buffer[v + 1..];
        if nodes[n].dirty {
          flush := flush + [n];
          pcs := pcs[t := Flushing(k, n, false)];
        } else {
          nodes := nodes[n := nodes[n].(key := Some(k), valid := false, owners := {t})];
          buffer := [n] + buffer;
          pcs := pcs[t := Holding(n)];
        }
      } else if |buffer| >= config.max {
        pcs := pcs[t := Failed];
      } else {
        nodes := nodes[id := Node(Some(k), false, false, 0, {t}, None)];
        buffer := [id] + buffer;
        pcs := pcs[t := Holding(id)];
      }
    }

    /** From the end of buf->flush() to the return. */
    method Resume(t: nat)
      requires Inv(S()) && Enabled(S(), Flushed(t))
      modifies this
      ensures S() == Finish(old(S()), t) && Inv(S())
      ensures t in pcs && pcs[t].Holding? && Has(nodes, pcs[t].n, old(pcs)[t].k)
    {
      hide Inv, IndexOf;
      FinishKeeps(S(), t);
      var n, k := pcs[t].n, pcs[t].k;
      var i := Find(buffer, k);
      if i < |buffer| { FlushTarget(S(), t, buffer[i]); }
      flush := Remove(flush, n);
      if i < |buffer| {
        var m := buffer[i];
        nodes := nodes[n := nodes[n].(dirty := false, valid := false, key := None)];
        buffer := buffer + [n];
        nodes := nodes[m := nodes[m].(owners := nodes[m].owners + {t})];
        pcs := pcs[t := Holding(m)];
      } else {
        nodes := nodes[n := nodes[n].(dirty := false, valid := false, key := Some(k), owners := {t})];
        buffer := [n] + buffer;
        pcs := pcs[t := Holding(n)];
      }
    }
  }
}
