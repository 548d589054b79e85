/** The virtio block driver's descriptor table and rings (os/drivers/virtio/virtio_disk.cc;
    sections 2.6 and 5.2 of the Virtio 1.1 specification).  Every method of the driver is
    what one task, or the interrupt handler, does while it holds the disk's spinlock; the two
    methods of the device may happen at any time in between. */
module VirtioRing {
  import opened Basics

  const NUM := 8
  const TWO16 := 0x1_0000

  datatype Pc =
    | Idle
    | Asleep                            // in request_queue, waiting for descriptors
    | Woken                             // woken, about to try alloc_descs again
    | InFlight(a: nat, b: nat, c: nat)  // submitted with these three descriptors

  /** Where the head of a submitted chain is; the numbers count ring entries without wrap. */
  datatype Stage = Posted(i: nat) | Working | Returned(i: nat) | Complete

  const T_IN := 0                       // VIRTIO_BLK_T_IN
  const T_OUT := 1                      // VIRTIO_BLK_T_OUT
  const T_FLUSH := 4                    // VIRTIO_BLK_T_FLUSH

  /** What a caller of disk_command asks for: a transfer of one block of 1024 bytes. */
  datatype Command = Command(kind: nat, block: nat, buf: nat)

  /** virtio_blk_req, the first buffer of a request. */
  datatype Req = Req(kind: nat, reserved: nat, sector: nat)

  /** What a descriptor points to: &ops[i], the caller's buffer, &info[i].status. */
  datatype Ptr = Null | Ops(i: nat) | Buf(buf: nat) | Status(i: nat)

  /** A descriptor without its link: addr, len, and flags & VRING_DESC_F_WRITE. */
  datatype Field = Field(addr: Ptr, len: nat, write: bool)

  predicate Member(pc: Pc, i: nat)
  {
    pc.InFlight? && (i == pc.a || i == pc.b || i == pc.c)
  }

  // ------------------------------------------------------------ descriptors

  /** Task t has three distinct descriptors of its own, linked in order. */
  ghost predicate ChainOk(next: seq<nat>, more: seq<bool>, owner: map<nat, nat>, t: nat, pc: Pc)
    requires |next| == NUM && |more| == NUM && pc.InFlight?
  {
    && pc.a < NUM && pc.b < NUM && pc.c < NUM && pc.a != pc.b && pc.a != pc.c && pc.b != pc.c
    && pc.a in owner && owner[pc.a] == t && pc.b in owner && owner[pc.b] == t && pc.c in owner && owner[pc.c] == t
    && more[pc.a] && next[pc.a] == pc.b && more[pc.b] && next[pc.b] == pc.c && !more[pc.c]
  }

  /** Free descriptors and in-flight chains partition the table. */
  ghost predicate Parts(free: seq<bool>, next: seq<nat>, more: seq<bool>, owner: map<nat, nat>, pcs: map<nat, Pc>)
  {
    && |free| == NUM && |next| == NUM && |more| == NUM
    && (forall i :: 0 <= i < NUM ==> (free[i] <==> i !in owner))
    && (forall i :: i in owner ==> i < NUM && owner[i] in pcs && Member(pcs[owner[i]], i))
    && (forall t :: t in pcs && pcs[t].InFlight? ==> ChainOk(next, more, owner, t, pcs[t]))
  }

  function Taken3(free: seq<bool>, a: nat, b: nat, c: nat): (r: seq<bool>)
    requires a < |free| && b < |free| && c < |free|
    ensures |r| == |free|
  {
    free[a := false][b := false][c := false]
  }

  /** desc[a].next = b, desc[b].next = c, desc[c].next = 0. */
  function Links3(next: seq<nat>, a: nat, b: nat, c: nat): (r: seq<nat>)
    requires a < |next| && b < |next| && c < |next|
    ensures |r| == |next|
  {
    next[a := b][b := c][c := 0]
  }

  /** VRING_DESC_F_NEXT on a and b, not on c. */
  function Flags3(more: seq<bool>, a: nat, b: nat, c: nat): (r: seq<bool>)
    requires a < |more| && b < |more| && c < |more|
    ensures |r| == |more|
  {
    more[a := true][b := true][c := false]
  }

  function Owner3(owner: map<nat, nat>, t: nat, a: nat, b: nat, c: nat): (r: map<nat, nat>)
  {
    owner[a := t][b := t][c := t]
  }

  lemma PartsSubmit(free: seq<bool>, next: seq<nat>, more: seq<bool>, owner: map<nat, nat>, pcs: map<nat, Pc>, t: nat,
                    a: nat, b: nat, c: nat)
    requires Parts(free, next, more, owner, pcs) && t in pcs && !pcs[t].InFlight?
    requires a < NUM && b < NUM && c < NUM && a != b && a != c && b != c && free[a] && free[b] && free[c]
    ensures Parts(Taken3(free, a, b, c), Links3(next, a, b, c), Flags3(more, a, b, c),
                  Owner3(owner, t, a, b, c), pcs[t := InFlight(a, b, c)])
  {
    hide ChainOk;
    var next', more', owner' := Links3(next, a, b, c), Flags3(more, a, b, c), Owner3(owner, t, a, b, c);
    forall u | u in pcs && u != t && pcs[u].InFlight? ensures ChainOk(next', more', owner', u, pcs[u]) {
      OtherChain(next, more, owner, u, pcs[u], t, a, b, c);
    }
    NewChain(next, more, owner, t, a, b, c);
  }

  lemma OtherChain(next: seq<nat>, more: seq<bool>, owner: map<nat, nat>, u: nat, pc: Pc, t: nat, a: nat, b: nat,
                   c: nat)
    requires |next| == NUM && |more| == NUM && pc.InFlight? && ChainOk(next, more, owner, u, pc)
    requires a < NUM && b < NUM && c < NUM && a !in owner && b !in owner && c !in owner
    ensures ChainOk(Links3(next, a, b, c), Flags3(more, a, b, c), Owner3(owner, t, a, b, c), u, pc)
  {
  }

  lemma NewChain(next: seq<nat>, more: seq<bool>, owner: map<nat, nat>, t: nat, a: nat, b: nat, c: nat)
    requires |next| == NUM && |more| == NUM && a < NUM && b < NUM && c < NUM && a != b && a != c && b != c
    ensures ChainOk(Links3(next, a, b, c), Flags3(more, a, b, c), Owner3(owner, t, a, b, c), t, InFlight(a, b, c))
  {
  }

  lemma PartsFinish(free: seq<bool>, next: seq<nat>, more: seq<bool>, owner: map<nat, nat>, pcs: map<nat, Pc>, t: nat,
                    free': seq<bool>, next': seq<nat>, more': seq<bool>)
    requires Parts(free, next, more, owner, pcs) && t in pcs && pcs[t].InFlight?
    requires |free'| == NUM && |next'| == NUM && |more'| == NUM
    requires forall i :: 0 <= i < NUM ==> free'[i] == (free[i] || Member(pcs[t], i))
    requires forall i :: 0 <= i < NUM && !free'[i] ==> next'[i] == next[i] && more'[i] == more[i]
    ensures Parts(free', next', more', owner - {pcs[t].a, pcs[t].b, pcs[t].c}, pcs[t := Idle])
  {
    var pc := pcs[t];
    forall i | i in owner && i !in {pc.a, pc.b, pc.c} ensures owner[i] != t {
      assert Member(pcs[owner[i]], i);
    }
    forall u | u in pcs && u != t && pcs[u].InFlight?
      ensures ChainOk(next', more', owner - {pc.a, pc.b, pc.c}, u, pcs[u])
    {
      assert ChainOk(next, more, owner, u, pcs[u]) && ChainOk(next, more, owner, t, pc);
    }
  }

  /** Going to sleep, waking up: no descriptor is touched. */
  lemma PartsPcs(free: seq<bool>, next: seq<nat>, more: seq<bool>, owner: map<nat, nat>, pcs: map<nat, Pc>,
                 pcs': map<nat, Pc>)
    requires Parts(free, next, more, owner, pcs) && pcs'.Keys == pcs.Keys
    requires forall t :: t in pcs && (pcs[t].InFlight? || pcs'[t].InFlight?) ==> pcs'[t] == pcs[t]
    ensures Parts(free, next, more, owner, pcs')
  {
  }

  /** Descriptor fields of free descriptors do not matter. */
  lemma PartsFields(free: seq<bool>, next: seq<nat>, more: seq<bool>, owner: map<nat, nat>, pcs: map<nat, Pc>,
                    next': seq<nat>, more': seq<bool>)
    requires Parts(free, next, more, owner, pcs) && |next'| == NUM && |more'| == NUM
    requires forall i :: 0 <= i < NUM && !free[i] ==> next'[i] == next[i] && more'[i] == more[i]
    ensures Parts(free, next', more', owner, pcs)
  {
  }

  // ------------------------------------------------------------ rings

  /** The positions [lo, hi) of a ring hold exactly the heads of one stage. */
  ghost predicate Avail(stage: map<nat, Stage>, ring: seq<nat>, lo: nat, hi: nat)
  {
    && |ring| == NUM && lo <= hi
    && (forall i :: lo <= i < hi ==> ring[i % NUM] in stage && stage[ring[i % NUM]] == Posted(i))
    && (forall h :: h in stage && stage[h].Posted? ==> lo <= stage[h].i < hi && ring[stage[h].i % NUM] == h)
  }

  ghost predicate Used(stage: map<nat, Stage>, ring: seq<nat>, lo: nat, hi: nat)
  {
    && |ring| == NUM && lo <= hi
    && (forall i :: lo <= i < hi ==> ring[i % NUM] in stage && stage[ring[i % NUM]] == Returned(i))
    && (forall h :: h in stage && stage[h].Returned? ==> lo <= stage[h].i < hi && ring[stage[h].i % NUM] == h)
  }

  /** The heads in the table are the heads of the in-flight chains; `done` is set for exactly
      those whose request has come back. */
  ghost predicate Heads(stage: map<nat, Stage>, done: seq<bool>, owner: map<nat, nat>, pcs: map<nat, Pc>)
  {
    && |done| == NUM
    && (forall h :: h in stage ==>
        h < NUM && h in owner && owner[h] in pcs && pcs[owner[h]].InFlight? && pcs[owner[h]].a == h)
    && (forall t :: t in pcs && pcs[t].InFlight? ==> pcs[t].a in stage)
    && (forall h :: h in stage ==> (done[h] <==> stage[h] == Complete))
  }

  /** Distinct numbers below 8 other than x are at most seven. */
  lemma {:induction false} DistinctBound(s: seq<nat>, bound: set<nat>)
    requires forall i, j :: 0 <= i < j < |s| ==> s[i] != s[j]
    requires forall i :: 0 <= i < |s| ==> s[i] in bound
    ensures |s| <= |bound|
  {
    if s != [] {
      var last := |s| - 1;
      DistinctBound(s[..last], bound - {s[last]});
    }
  }

  const Indexes: set<nat> := {0, 1, 2, 3, 4, 5, 6, 7}

  lemma EightMinusOne(x: nat)
    requires x < NUM
    ensures |Indexes - {x}| == 7 && forall i: nat :: i < NUM ==> i in Indexes
  {
    assert |Indexes| == 8;
  }

  /** There is always room for one more head in the available ring. */
  lemma AvailRoom(stage: map<nat, Stage>, ring: seq<nat>, lo: nat, hi: nat, x: nat)
    requires Avail(stage, ring, lo, hi) && x < NUM && (forall h :: h in stage ==> h < NUM)
    requires x !in stage || !stage[x].Posted?
    ensures hi - lo < NUM && |ring| == NUM
  {
    EightMinusOne(x);
    if hi - lo >= NUM {
      var s := seq(NUM, j requires 0 <= j < NUM => ring[(lo + j) % NUM]);
      forall i, j | 0 <= i < j < NUM ensures s[i] != s[j] {
        assert stage[ring[(lo + i) % NUM]] == Posted(lo + i) && stage[ring[(lo + j) % NUM]] == Posted(lo + j);
      }
      forall i | 0 <= i < NUM ensures s[i] in Indexes - {x} {
        assert stage[ring[(lo + i) % NUM]] == Posted(lo + i);
      }
      DistinctBound(s, Indexes - {x});
    }
  }

  lemma UsedRoom(stage: map<nat, Stage>, ring: seq<nat>, lo: nat, hi: nat, x: nat)
    requires Used(stage, ring, lo, hi) && x < NUM && (forall h :: h in stage ==> h < NUM)
    requires x !in stage || !stage[x].Returned?
    ensures hi - lo < NUM && |ring| == NUM
  {
    EightMinusOne(x);
    if hi - lo >= NUM {
      var s := seq(NUM, j requires 0 <= j < NUM => ring[(lo + j) % NUM]);
      forall i, j | 0 <= i < j < NUM ensures s[i] != s[j] {
        assert stage[ring[(lo + i) % NUM]] == Returned(lo + i) && stage[ring[(lo + j) % NUM]] == Returned(lo + j);
      }
      forall i | 0 <= i < NUM ensures s[i] in Indexes - {x} {
        assert stage[ring[(lo + i) % NUM]] == Returned(lo + i);
      }
      DistinctBound(s, Indexes - {x});
    }
  }

  /** Sixteen-bit ring indexes wrap around consistently: 8 divides 2^16, and two indexes less
      than 2^16 apart are equal exactly when the counts are. */
  lemma WrapIsHarmless(lo: nat, hi: nat)
    requires lo <= hi < lo + TWO16
    ensures lo % TWO16 % NUM == lo % NUM
    ensures lo % TWO16 == hi % TWO16 <==> lo == hi
    ensures (lo + 1) % TWO16 == (lo % TWO16 + 1) % TWO16
  {
  }

  lemma SlotsDiffer(i: nat, j: nat)
    requires i < j < i + NUM
    ensures i % NUM != j % NUM
  {
    assert j - i == NUM * (j / NUM - i / NUM) + (j % NUM - i % NUM);
  }

  /** avail->ring[idx % NUM] = head; avail->idx += 1. */
  lemma Post(stage: map<nat, Stage>, ring: seq<nat>, lo: nat, hi: nat, h: nat)
    requires Avail(stage, ring, lo, hi) && h !in stage && hi - lo < NUM
    ensures Avail(stage[h := Posted(hi)], ring[hi % NUM := h], lo, hi + 1)
  {
    forall i | lo <= i < hi ensures i % NUM != hi % NUM { SlotsDiffer(i, hi); }
  }

  /** The device takes the oldest posted head. */
  lemma Take(stage: map<nat, Stage>, ring: seq<nat>, lo: nat, hi: nat)
    requires Avail(stage, ring, lo, hi) && lo < hi
    ensures ring[lo % NUM] in stage && Avail(stage[ring[lo % NUM] := Working], ring, lo + 1, hi)
  {
  }

  /** The device puts a finished head into the used ring. */
  lemma Return(stage: map<nat, Stage>, ring: seq<nat>, lo: nat, hi: nat, h: nat)
    requires Used(stage, ring, lo, hi) && h in stage && stage[h] == Working && hi - lo < NUM
    ensures Used(stage[h := Returned(hi)], ring[hi % NUM := h], lo, hi + 1)
  {
    forall i | lo <= i < hi ensures i % NUM != hi % NUM { SlotsDiffer(i, hi); }
  }

  lemma Handle(stage: map<nat, Stage>, ring: seq<nat>, lo: nat, hi: nat)
    requires Used(stage, ring, lo, hi) && lo < hi
    ensures ring[lo % NUM] in stage && Used(stage[ring[lo % NUM] := Complete], ring, lo + 1, hi)
  {
  }

  /** A ring does not notice heads of other stages coming, going or changing. */
  lemma AvailFrame(stage: map<nat, Stage>, stage': map<nat, Stage>, ring: seq<nat>, lo: nat, hi: nat)
    requires Avail(stage, ring, lo, hi)
    requires forall h :: h in stage && stage[h].Posted? ==> h in stage' && stage'[h] == stage[h]
    requires forall h :: h in stage' && stage'[h].Posted? ==> h in stage && stage[h] == stage'[h]
    ensures Avail(stage', ring, lo, hi)
  {
  }

  lemma UsedFrame(stage: map<nat, Stage>, stage': map<nat, Stage>, ring: seq<nat>, lo: nat, hi: nat)
    requires Used(stage, ring, lo, hi)
    requires forall h :: h in stage && stage[h].Returned? ==> h in stage' && stage'[h] == stage[h]
    requires forall h :: h in stage' && stage'[h].Returned? ==> h in stage && stage[h] == stage'[h]
    ensures Used(stage', ring, lo, hi)
  {
  }

  // ------------------------------------------------------------ sleepers

  /** request_queue holds exactly the sleeping tasks, once each. */
  ghost predicate QueueOk(queue: seq<nat>, pcs: map<nat, Pc>)
  {
    && (forall i, j :: 0 <= i < j < |queue| ==> queue[i] != queue[j])
    && (forall t :: t in queue <==> t in pcs && pcs[t] == Asleep)
  }

  ghost function FreeSet(free: seq<bool>): (s: set<nat>)
  {
    set i: nat | i < |free| && free[i]
  }

  ghost function WokenSet(pcs: map<nat, Pc>): (s: set<nat>)
  {
    set t | t in pcs && pcs[t] == Woken
  }

  /** Whenever a task sleeps for descriptors, enough woken tasks are on their way to use up
      the free ones. */
  ghost predicate Wakeups(queue: seq<nat>, pcs: map<nat, Pc>, free: seq<bool>)
  {
    queue != [] ==> |WokenSet(pcs)| >= |FreeSet(free)| / 3
  }

  function Rest(queue: seq<nat>, n: nat): (q: seq<nat>)
  {
    if n >= |queue| then [] else queue[n..]
  }

  /** wake_up_one, n times. */
  function Wake(pcs: map<nat, Pc>, queue: seq<nat>, n: nat): (r: map<nat, Pc>)
    ensures r.Keys == pcs.Keys
  {
    map t | t in pcs :: if t in queue && t !in Rest(queue, n) then Woken else pcs[t]
  }

  lemma RestMembers(queue: seq<nat>, pcs: map<nat, Pc>, n: nat)
    requires QueueOk(queue, pcs)
    ensures forall i :: 0 <= i < |queue| ==> (queue[i] in Rest(queue, n) <==> n <= i)
  {
    forall i | 0 <= i < |queue| ensures queue[i] in Rest(queue, n) <==> n <= i {
      if n <= i { assert Rest(queue, n)[i - n] == queue[i]; }
    }
  }

  lemma WakeOk(queue: seq<nat>, pcs: map<nat, Pc>, n: nat)
    requires QueueOk(queue, pcs)
    ensures QueueOk(Rest(queue, n), Wake(pcs, queue, n))
    ensures forall t :: t in pcs && (pcs[t].InFlight? || Wake(pcs, queue, n)[t].InFlight?) ==>
            Wake(pcs, queue, n)[t] == pcs[t]
    ensures WokenSet(pcs) <= WokenSet(Wake(pcs, queue, n))
  {
    RestMembers(queue, pcs, n);
    var pcs' := Wake(pcs, queue, n);
    forall t | t in Rest(queue, n) ensures t in queue {
    }
  }

  /** The first n sleepers, or all of them, have been woken and have left the queue, at whose end those in
      `slept` have been put; no other task but t has moved. */
  ghost predicate Turned(q: seq<nat>, p: map<nat, Pc>, n: nat, t: nat, q': seq<nat>, p': map<nat, Pc>, slept: seq<nat>)
  {
    var k := if n <= |q| then n else |q|;
    && q' == q[k..] + slept && p'.Keys == p.Keys
    && forall u :: u in p && u != t ==> p'[u] == if u in q[..k] then Woken else p[u]
  }

  lemma NoneTurned(q: seq<nat>, p: map<nat, Pc>, t: nat, pc: Pc)
    requires t in p
    ensures Turned(q, p, 0, t, q, p[t := pc], [])
  {
    assert q[0..] + [] == q;
  }

  lemma FirstOut(q: seq<nat>, p: map<nat, Pc>, n: nat, t: nat, pc: Pc, slept: seq<nat>)
    requires QueueOk(q, p) && t in p
    ensures Turned(q, p, n, t, Rest(q, n) + slept, Wake(p, q, n)[t := pc], slept)
  {
    RestMembers(q, p, n);
    var k := if n <= |q| then n else |q|;
    assert Rest(q, n) == q[k..];
    forall u | u in p && u != t ensures u in q && u !in Rest(q, n) <==> u in q[..k] {
      if u in q { var i :| 0 <= i < |q| && q[i] == u; }
    }
  }

  lemma WakeMore(queue: seq<nat>, pcs: map<nat, Pc>, n: nat)
    requires QueueOk(queue, pcs)
    ensures Wake(Wake(pcs, queue, n), Rest(queue, n), 1) == Wake(pcs, queue, n + 1)
    ensures Rest(Rest(queue, n), 1) == Rest(queue, n + 1)
  {
    RestMembers(queue, pcs, n);
    RestMembers(queue, pcs, n + 1);
    assert Rest(Rest(queue, n), 1) == Rest(queue, n + 1);
    forall t | t in pcs ensures Wake(Wake(pcs, queue, n), Rest(queue, n), 1)[t] == Wake(pcs, queue, n + 1)[t] {
      if t in queue {
        var i :| 0 <= i < |queue| && queue[i] == t;
      }
    }
  }

  lemma WokenNext(queue: seq<nat>, pcs: map<nat, Pc>, n: nat, u: nat)
    requires QueueOk(queue, pcs) && 0 < n <= |queue| && u in pcs
    ensures u in WokenSet(Wake(pcs, queue, n)) <==> u in WokenSet(Wake(pcs, queue, n - 1)) || u == queue[n - 1]
    ensures u == queue[n - 1] ==> u !in WokenSet(Wake(pcs, queue, n - 1))
  {
    hide Rest;
    RestMembers(queue, pcs, n - 1);
    RestMembers(queue, pcs, n);
    if u in queue {
      var i :| 0 <= i < |queue| && queue[i] == u;
    }
  }

  /** Waking one more task, if there is one, makes one more woken task. */
  lemma {:induction false} WakeCount(queue: seq<nat>, pcs: map<nat, Pc>, n: nat)
    requires QueueOk(queue, pcs) && n <= |queue|
    ensures |WokenSet(Wake(pcs, queue, n))| == |WokenSet(pcs)| + n
  {
    hide Rest;
    if n == 0 {
      NoneWoken(queue, pcs);
    } else {
      WakeCount(queue, pcs, n - 1);
      var t := queue[n - 1];
      assert t in queue;
      forall u | u in pcs ensures u in WokenSet(Wake(pcs, queue, n)) <==> u in WokenSet(Wake(pcs, queue, n - 1)) + {t} {
        WokenNext(queue, pcs, n, u);
      }
      WokenNext(queue, pcs, n, t);
      assert WokenSet(Wake(pcs, queue, n)) == WokenSet(Wake(pcs, queue, n - 1)) + {t};
    }
  }

  lemma NoneWoken(queue: seq<nat>, pcs: map<nat, Pc>)
    ensures WokenSet(Wake(pcs, queue, 0)) == WokenSet(pcs)
  {
    assert Rest(queue, 0) == queue;
  }

  // ------------------------------------------------------------ what the requests say

  /** The descriptors and the request header of a chain hold the command. */
  ghost predicate Holds(fields: seq<Field>, ops: seq<Req>, pc: Pc, cmd: Command)
    requires |fields| == NUM && |ops| == NUM && pc.InFlight?
  {
    && pc.a < NUM && pc.b < NUM && pc.c < NUM && ops[pc.a] == Req(cmd.kind, 0, 2 * cmd.block)
    && fields[pc.a] == Field(Ops(pc.a), 16, false)
    && fields[pc.b] == Field(Buf(cmd.buf), 1024, cmd.kind != T_OUT && cmd.kind != T_FLUSH)
    && fields[pc.c] == Field(Status(pc.a), 1, true)
  }

  /** Every chain in flight holds what its task asked for. */
  ghost predicate Meant(fields: seq<Field>, ops: seq<Req>, asked: map<nat, Command>, pcs: map<nat, Pc>)
  {
    && |fields| == NUM && |ops| == NUM
    && forall t :: t in pcs && pcs[t].InFlight? ==> t in asked && Holds(fields, ops, pcs[t], asked[t])
  }

  /** The status byte is the driver's 0xfb until the device returns the head, and then 0. */
  ghost predicate StatusOk(stage: map<nat, Stage>, status: seq<byte>)
  {
    && |status| == NUM
    && forall h :: h in stage ==> h < NUM && status[h] == if stage[h].Posted? || stage[h].Working? then 0xfb else 0
  }

  /** A request as the device reads it: type and sector from the header, the data buffer and whether the device
      writes it, and the index of the status byte. */
  datatype Reading = Reading(kind: nat, sector: nat, buf: nat, deviceWrites: bool, status: nat)

  /** Section 5.2.6 of Virtio 1.1: a chain of three descriptors, the header for the device to read, 1024
      bytes of data, one byte of status for the device to write. */
  ghost function Read(next: seq<nat>, more: seq<bool>, fields: seq<Field>, ops: seq<Req>, h: nat): (r: Option<Reading>)
    requires |next| == |more| == |fields| == |ops| == NUM
  {
    if h >= NUM || !more[h] || next[h] >= NUM || !more[next[h]] || next[next[h]] >= NUM || more[next[next[h]]] then None
    else
      var x, y, z := fields[h], fields[next[h]], fields[next[next[h]]];
      if x.addr.Ops? && x.addr.i < NUM && x.len == 16 && !x.write && y.addr.Buf? && y.len == 1024
         && z.addr.Status? && z.len == 1 && z.write
      then Some(Reading(ops[x.addr.i].kind, ops[x.addr.i].sector, y.addr.buf, y.write, z.addr.i))
      else None
  }

  /** The device finds in the chain of a task exactly what the task asked for. */
  lemma DeviceReads(free: seq<bool>, next: seq<nat>, more: seq<bool>, owner: map<nat, nat>, pcs: map<nat, Pc>,
                    fields: seq<Field>, ops: seq<Req>, asked: map<nat, Command>, t: nat)
    requires Parts(free, next, more, owner, pcs) && Meant(fields, ops, asked, pcs) && t in pcs && pcs[t].InFlight?
    ensures t in asked
    ensures var cmd := asked[t];
            Read(next, more, fields, ops, pcs[t].a)
            == Some(Reading(cmd.kind, cmd.block * 1024 / 512, cmd.buf, cmd.kind != 1 && cmd.kind != 4, pcs[t].a))
  {
    assert ChainOk(next, more, owner, t, pcs[t]);
    assert Holds(fields, ops, pcs[t], asked[t]);
  }

  /** Chains in flight are where they were, and so are their contents. */
  lemma MeantKept(free: seq<bool>, next: seq<nat>, more: seq<bool>, owner: map<nat, nat>, pcs: map<nat, Pc>,
                  fields: seq<Field>, ops: seq<Req>, asked: map<nat, Command>, pcs': map<nat, Pc>, fields': seq<Field>,
                  free': seq<bool>)
    requires Parts(free, next, more, owner, pcs) && Meant(fields, ops, asked, pcs)
    requires |fields'| == NUM && |free'| == NUM && pcs'.Keys == pcs.Keys
    requires forall t :: t in pcs && pcs'[t].InFlight? ==> pcs'[t] == pcs[t]
    requires forall i, t :: 0 <= i < NUM && free'[i] && t in pcs && pcs'[t].InFlight? ==> !Member(pcs[t], i)
    requires forall i :: 0 <= i < NUM && !free'[i] ==> fields'[i] == fields[i]
    ensures Meant(fields', ops, asked, pcs')
  {
    forall t | t in pcs' && pcs'[t].InFlight? ensures t in asked && Holds(fields', ops, pcs'[t], asked[t]) {
      assert ChainOk(next, more, owner, t, pcs[t]) && Holds(fields, ops, pcs[t], asked[t]);
      assert Member(pcs[t], pcs[t].a) && Member(pcs[t], pcs[t].b) && Member(pcs[t], pcs[t].c);
    }
  }

  /** Free descriptors are in no chain. */
  lemma FreeNoMember(free: seq<bool>, next: seq<nat>, more: seq<bool>, owner: map<nat, nat>, pcs: map<nat, Pc>)
    requires Parts(free, next, more, owner, pcs)
    ensures |free| == NUM
    ensures forall i, t :: 0 <= i < NUM && free[i] && t in pcs ==> !Member(pcs[t], i)
  {
    forall i, t | 0 <= i < NUM && free[i] && t in pcs ensures !Member(pcs[t], i) {
      if pcs[t].InFlight? { assert ChainOk(next, more, owner, t, pcs[t]); }
    }
  }

  /** Filling in the three descriptors of a new request. */
  function Fields3(fields: seq<Field>, a: nat, b: nat, c: nat, cmd: Command): (r: seq<Field>)
    requires a < |fields| && b < |fields| && c < |fields|
    ensures |r| == |fields|
  {
    fields[a := Field(Ops(a), 16, false)]
          [b := Field(Buf(cmd.buf), 1024, cmd.kind != T_OUT && cmd.kind != T_FLUSH)][c := Field(Status(a), 1, true)]
  }

  lemma MeantSubmit(free: seq<bool>, next: seq<nat>, more: seq<bool>, owner: map<nat, nat>, pcs: map<nat, Pc>,
                    fields: seq<Field>, ops: seq<Req>, asked: map<nat, Command>, t: nat, a: nat, b: nat, c: nat,
                    cmd: Command)
    requires Parts(free, next, more, owner, pcs) && Meant(fields, ops, asked, pcs) && t in pcs
    requires a < NUM && b < NUM && c < NUM && a != b && a != c && b != c && free[a] && free[b] && free[c]
    ensures |fields| == NUM && |ops| == NUM
    ensures Meant(Fields3(fields, a, b, c, cmd), ops[a := Req(cmd.kind, 0, 2 * cmd.block)], asked[t := cmd],
                  pcs[t := InFlight(a, b, c)])
  {
    FreeNoMember(free, next, more, owner, pcs);
    var fields', ops' := Fields3(fields, a, b, c, cmd), ops[a := Req(cmd.kind, 0, 2 * cmd.block)];
    forall u | u in pcs && u != t && pcs[u].InFlight? ensures u in asked && Holds(fields', ops', pcs[u], asked[u]) {
      assert Holds(fields, ops, pcs[u], asked[u]);
      assert !Member(pcs[u], a) && !Member(pcs[u], b) && !Member(pcs[u], c);
    }
  }

  lemma StatusPosted(stage: map<nat, Stage>, status: seq<byte>, a: nat, i: nat)
    requires StatusOk(stage, status) && a < NUM
    ensures |status| == NUM && StatusOk(stage[a := Posted(i)], status[a := 0xfb])
  {
  }

  /** A head is taken by the device or completed. */
  lemma StatusMove(stage: map<nat, Stage>, status: seq<byte>, h: nat, x: Stage)
    requires StatusOk(stage, status) && h in stage
    requires (stage[h].Posted? && x.Working?) || (stage[h].Returned? && x.Complete?)
    ensures StatusOk(stage[h := x], status)
  {
  }

  lemma StatusReturn(stage: map<nat, Stage>, status: seq<byte>, h: nat, i: nat)
    requires StatusOk(stage, status) && h in stage
    ensures h < NUM && |status| == NUM && StatusOk(stage[h := Returned(i)], status[h := 0])
  {
  }

  lemma StatusGone(stage: map<nat, Stage>, status: seq<byte>, h: nat)
    requires StatusOk(stage, status)
    ensures StatusOk(stage - {h}, status)
  {
  }

  /** The handler finds the status byte of a returned head written. */
  lemma StatusWritten(stage: map<nat, Stage>, status: seq<byte>, h: nat)
    requires StatusOk(stage, status) && h in stage && stage[h].Returned?
    ensures h < |status| && status[h] == 0
  {
  }

  // ------------------------------------------------------------ progress

  datatype DeviceStep = TakeNext | ReturnHead(h: nat)

  function Rank(x: Stage): (n: nat)
  {
    match x case Posted(_) => 0 case Working => 1 case Returned(_) => 2 case Complete => 3
  }

  /** The heads not yet completed. */
  ghost function Open(stage: map<nat, Stage>): (s: set<nat>)
  {
    set h | h in stage && stage[h] != Complete
  }

  /** What a step of the device does to the heads; it does nothing when it is not possible. */
  ghost predicate DeviceDid(a: map<nat, Stage>, step: DeviceStep, b: map<nat, Stage>)
  {
    match step
    case TakeNext =>
      if forall h :: h in a ==> !a[h].Posted? then b == a else exists h :: OldestPosted(a, h) && b == a[h := Working]
    case ReturnHead(h) =>
      if h in a && a[h] == Working then NewestReturned(b, h) && b == a[h := b[h]] else b == a
  }

  ghost predicate NewestReturned(b: map<nat, Stage>, h: nat)
  {
    h in b && b[h].Returned? && forall g :: g in b && b[g].Returned? ==> b[g].i <= b[h].i
  }

  ghost predicate OldestReturned(a: map<nat, Stage>, h: nat)
  {
    h in a && a[h].Returned? && forall g :: g in a && a[g].Returned? ==> a[h].i <= a[g].i
  }

  ghost predicate OldestPosted(a: map<nat, Stage>, h: nat)
  {
    h in a && a[h].Posted? && forall g :: g in a && a[g].Posted? ==> a[h].i <= a[g].i
  }

  /** Nothing has happened but that returned heads were completed. */
  ghost predicate OnlyHandled(a: map<nat, Stage>, b: map<nat, Stage>)
  {
    && a.Keys == b.Keys
    && forall h :: h in a ==> b[h] == a[h] || (a[h].Returned? && b[h] == Complete)
  }

  // ------------------------------------------------------------ what an interrupt does

  /** What happens during an interrupt: a step of the device, or the handler completes a head. */
  datatype Event = ByDevice(step: DeviceStep) | ByHandler(h: nat)

  ghost predicate Did(a: map<nat, Stage>, e: Event, b: map<nat, Stage>)
  {
    match e
    case ByDevice(step) => DeviceDid(a, step, b)
    case ByHandler(h) => OldestReturned(a, h) && b == a[h := Complete]
  }

  ghost predicate Follows(stages: seq<map<nat, Stage>>, events: seq<Event>)
  {
    |stages| == |events| + 1 && forall i :: 0 <= i < |events| ==> Did(stages[i], events[i], stages[i + 1])
  }

  /** The steps of the device among the events, in order. */
  ghost function StepsOf(events: seq<Event>): (steps: seq<DeviceStep>)
  {
    if events == [] then []
    else StepsOf(events[..|events| - 1]) + (var e := events[|events| - 1]; if e.ByDevice? then [e.step] else [])
  }

  ghost function Completions(events: seq<Event>): (n: nat)
  {
    if events == [] then 0
    else Completions(events[..|events| - 1]) + if events[|events| - 1].ByHandler? then 1 else 0
  }

  function At(race: seq<seq<DeviceStep>>, i: nat): (steps: seq<DeviceStep>) { if i < |race| then race[i] else [] }

  ghost function Flat(race: seq<seq<DeviceStep>>, n: nat): (steps: seq<DeviceStep>)
  {
    if n == 0 then [] else Flat(race, n - 1) + At(race, n - 1)
  }

  /** From a to b the events have happened, the device doing the steps of the first n entries of race. */
  ghost predicate Log(a: map<nat, Stage>, race: seq<seq<DeviceStep>>, b: map<nat, Stage>, stages: seq<map<nat, Stage>>,
                      events: seq<Event>, n: nat)
  {
    Follows(stages, events) && stages[0] == a && stages[|events|] == b && StepsOf(events) == Flat(race, n)
  }

  lemma {:induction false} StepsJoin(x: seq<Event>, y: seq<Event>)
    ensures StepsOf(x + y) == StepsOf(x) + StepsOf(y) && Completions(x + y) == Completions(x) + Completions(y)
    decreases |y|
  {
    if y == [] {
      assert x + y == x;
    } else {
      var z := y[..|y| - 1];
      StepsJoin(x, z);
      assert (x + y)[..|x + y| - 1] == x + z;
    }
  }

  lemma FollowsJoin(s: seq<map<nat, Stage>>, x: seq<Event>, t: seq<map<nat, Stage>>, y: seq<Event>)
    requires Follows(s, x) && Follows(t, y) && s[|x|] == t[0]
    ensures Follows(s + t[1..], x + y) && (s + t[1..])[0] == s[0] && (s + t[1..])[|x| + |y|] == t[|y|]
  {
    hide Did;
    var r, z := s + t[1..], x + y;
    forall i | 0 <= i < |z| ensures Did(r[i], z[i], r[i + 1]) {
      if i < |x| {
        assert r[i] == s[i] && r[i + 1] == s[i + 1];
      } else {
        assert r[i] == t[i - |x|] && r[i + 1] == t[i - |x| + 1];
      }
    }
  }

  /** The steps of the device as events. */
  ghost function DeviceEvents(steps: seq<DeviceStep>): (events: seq<Event>)
    ensures |events| == |steps|
  {
    seq(|steps|, i requires 0 <= i < |steps| => ByDevice(steps[i]))
  }

  lemma {:induction false} EventsOfDevice(steps: seq<DeviceStep>)
    ensures StepsOf(DeviceEvents(steps)) == steps && Completions(DeviceEvents(steps)) == 0
  {
    if steps != [] {
      var less := steps[..|steps| - 1];
      EventsOfDevice(less);
      assert DeviceEvents(steps)[..|steps| - 1] == DeviceEvents(less);
      assert steps == less + [steps[|steps| - 1]];
    }
  }

  lemma OneEvent(a: map<nat, Stage>, h: nat, b: map<nat, Stage>)
    requires OldestReturned(a, h) && b == a[h := Complete]
    ensures Follows([a, b], [ByHandler(h)])
  {
  }

  /** Only a step of the device brings a head from posted or working to returned or complete. */
  lemma Crossing(a: map<nat, Stage>, e: Event, b: map<nat, Stage>, h: nat)
    requires Did(a, e, b) && h in a && Rank(a[h]) <= 1
    ensures h in b && (Rank(b[h]) <= 1 || e == ByDevice(ReturnHead(h)))
  {
  }

  lemma {:induction false} Crossings(stages: seq<map<nat, Stage>>, events: seq<Event>, h: nat)
    requires Follows(stages, events) && h in stages[0] && Rank(stages[0][h]) <= 1
    ensures h in stages[|events|] && (Rank(stages[|events|][h]) <= 1 || ReturnHead(h) in StepsOf(events))
    decreases |events|
  {
    hide Did, Rank;
    if events != [] {
      var n := |events| - 1;
      assert Follows(stages[..n + 1], events[..n]);
      Crossings(stages[..n + 1], events[..n], h);
      if Rank(stages[n][h]) <= 1 { Crossing(stages[n], events[n], stages[n + 1], h); }
      Stays(stages[n], events[n], stages[n + 1], h);
    }
  }

  lemma Stays(a: map<nat, Stage>, e: Event, b: map<nat, Stage>, h: nat)
    requires Did(a, e, b) && h in a
    ensures h in b
  {
  }

  lemma {:induction false} InRace(race: seq<seq<DeviceStep>>, n: nat, step: DeviceStep)
    requires step in Flat(race, n)
    ensures exists i :: 0 <= i < |race| && step in race[i]
  {
    if n > 0 && step in Flat(race, n - 1) { InRace(race, n - 1, step); }
  }

  /** A head that an interrupt finds posted or working is completed only if the device returns it meanwhile. */
  lemma DoneMeansReturned(a: map<nat, Stage>, race: seq<seq<DeviceStep>>, b: map<nat, Stage>,
                          stages: seq<map<nat, Stage>>, events: seq<Event>, n: nat, h: nat)
    requires Log(a, race, b, stages, events, n) && h in a && Rank(a[h]) <= 1
    ensures h in b && (Rank(b[h]) <= 1 || exists i :: 0 <= i < |race| && ReturnHead(h) in race[i])
  {
    hide Follows, Flat, Rank;
    Crossings(stages, events, h);
    if Rank(b[h]) > 1 { InRace(race, n, ReturnHead(h)); }
  }

  lemma DidOpen(a: map<nat, Stage>, step: DeviceStep, b: map<nat, Stage>)
    requires DeviceDid(a, step, b)
    ensures Open(b) == Open(a)
  {
  }

  /** Completing a returned head is progress. */
  lemma HandledOpen(a: map<nat, Stage>, b: map<nat, Stage>)
    requires exists h :: h in a && a[h].Returned? && b == a[h := Complete]
    ensures |Open(b)| < |Open(a)|
  {
    var h :| h in a && a[h].Returned? && b == a[h := Complete];
    assert Open(b) == Open(a) - {h} && h in Open(a);
  }

  lemma NoEvents(a: map<nat, Stage>, race: seq<seq<DeviceStep>>)
    ensures Log(a, race, a, [a], [], 0) && Completions([]) == 0
  {
  }

  lemma LogNext(a: map<nat, Stage>, race: seq<seq<DeviceStep>>, stages: seq<map<nat, Stage>>, events: seq<Event>,
                k: nat, s': seq<map<nat, Stage>>, e': seq<Event>, b: map<nat, Stage>)
    requires |stages| > |events| && Log(a, race, stages[|events|], stages, events, 2 * k)
    requires Follows(s', e') && s'[0] == stages[|events|] && s'[|e'|] == b
    requires StepsOf(e') == At(race, 2 * k) + At(race, 2 * k + 1)
    ensures Log(a, race, b, stages + s'[1..], events + e', 2 * (k + 1))
    ensures Completions(events + e') == Completions(events) + Completions(e')
  {
    hide Follows, StepsOf, Completions, At, Flat;
    Lengths(stages, events);
    Lengths(s', e');
    FollowsJoin(stages, events, s', e');
    StepsJoin(events, e');
    FlatTwo(race, 2 * k);
  }

  lemma Lengths(stages: seq<map<nat, Stage>>, events: seq<Event>)
    requires Follows(stages, events)
    ensures |stages| == |events| + 1
  {
  }

  lemma FlatTwo(race: seq<seq<DeviceStep>>, n: nat)
    ensures Flat(race, n + 2) == Flat(race, n) + (At(race, n) + At(race, n + 1))
  {
    hide At;
  }

  lemma RoundLog(s1: seq<map<nat, Stage>>, x: seq<DeviceStep>, s2: seq<map<nat, Stage>>, h: nat,
                 s3: seq<map<nat, Stage>>, y: seq<DeviceStep>)
    requires Follows(s1, DeviceEvents(x)) && Follows(s2, [ByHandler(h)]) && Follows(s3, DeviceEvents(y))
    requires s1[|x|] == s2[0] && s2[1] == s3[0]
    ensures var events := DeviceEvents(x) + [ByHandler(h)] + DeviceEvents(y);
            && Follows(s1 + s2[1..] + s3[1..], events) && (s1 + s2[1..] + s3[1..])[0] == s1[0]
            && (s1 + s2[1..] + s3[1..])[|events|] == s3[|y|]
            && StepsOf(events) == x + y && Completions(events) == 1
  {
    hide Did, StepsOf, Completions;
    FollowsJoin(s1, DeviceEvents(x), s2, [ByHandler(h)]);
    FollowsJoin(s1 + s2[1..], DeviceEvents(x) + [ByHandler(h)], s3, DeviceEvents(y));
    StepsJoin(DeviceEvents(x), [ByHandler(h)]);
    StepsJoin(DeviceEvents(x) + [ByHandler(h)], DeviceEvents(y));
    EventsOfDevice(x);
    EventsOfDevice(y);
    HandlerAlone(h);
  }

  lemma HandlerAlone(h: nat)
    ensures StepsOf([ByHandler(h)]) == [] && Completions([ByHandler(h)]) == 1
  {
    assert [ByHandler(h)][..0] == [];
  }

  lemma {:induction false} KeysFollow(stages: seq<map<nat, Stage>>, events: seq<Event>)
    requires Follows(stages, events)
    ensures stages[|events|].Keys == stages[0].Keys
    decreases |events|
  {
    hide Did;
    if events != [] {
      var n := |events| - 1;
      assert Follows(stages[..n + 1], events[..n]);
      KeysFollow(stages[..n + 1], events[..n]);
      SameKeys(stages[n], events[n], stages[n + 1]);
    }
  }

  lemma SameKeys(a: map<nat, Stage>, e: Event, b: map<nat, Stage>)
    requires Did(a, e, b)
    ensures b.Keys == a.Keys
  {
  }

  lemma AvailBound(stage: map<nat, Stage>, ring: seq<nat>, lo: nat, hi: nat)
    requires Avail(stage, ring, lo, hi)
    ensures lo <= hi && forall h :: h in stage && stage[h].Posted? ==> lo <= stage[h].i
  {
  }

  lemma AvailEmpty(stage: map<nat, Stage>, ring: seq<nat>, lo: nat, hi: nat)
    requires Avail(stage, ring, lo, hi) && lo == hi
    ensures forall h :: h in stage ==> !stage[h].Posted?
  {
  }

  // ------------------------------------------------------------ the driver

  class Disk {
    var free: seq<bool>
    var next: seq<nat>          // desc[i].next
    var more: seq<bool>         // desc[i].flags & VRING_DESC_F_NEXT
    var done: seq<bool>         // info[i].done
    var availRing: seq<nat>
    var availIdx: u16
    var usedRing: seq<nat>
    var usedIdx: u16            // used->idx, written by the device
    var seen: u16               // used_idx
    var queue: seq<nat>         // request_queue
    var pcs: map<nat, Pc>
    var fields: seq<Field>      // addr, len and the write flag of desc
    var ops: seq<Req>
    var status: seq<byte>       // info[i].status, written by the device
    ghost var owner: map<nat, nat>
    ghost var asked: map<nat, Command>
    var stage: map<nat, Stage>  // where each request is; the device knows its part of it
    var posted: nat             // heads posted and taken since the start
    var taken: nat
    var returned: nat           // entries of the used ring, written and read since the start
    var handled: nat

    ghost predicate Rings()
      reads this
    {
      && Avail(stage, availRing, taken, posted) && Used(stage, usedRing, handled, returned)
      && Heads(stage, done, owner, pcs)
      && availIdx == posted % TWO16 && usedIdx == returned % TWO16 && seen == handled % TWO16
    }

    lemma RingParts()
      requires Rings()
      ensures Avail(stage, availRing, taken, posted) && Used(stage, usedRing, handled, returned)
      ensures Heads(stage, done, owner, pcs)
      ensures availIdx == posted % TWO16 && usedIdx == returned % TWO16 && seen == handled % TWO16
    {
      hide Avail, Used, Heads;
    }

    lemma MakeRings()
      requires Avail(stage, availRing, taken, posted) && Used(stage, usedRing, handled, returned)
      requires Heads(stage, done, owner, pcs)
      requires availIdx == posted % TWO16 && usedIdx == returned % TWO16 && seen == handled % TWO16
      ensures Rings()
    {
      hide Avail, Used, Heads;
    }

    ghost predicate Valid()
      reads this
    {
      && Parts(free, next, more, owner, pcs) && Rings() && QueueOk(queue, pcs) && Wakeups(queue, pcs, free)
      && Meant(fields, ops, asked, pcs) && StatusOk(stage, status)
    }

    lemma MakeValid()
      requires Parts(free, next, more, owner, pcs) && Rings() && QueueOk(queue, pcs) && Wakeups(queue, pcs, free)
      requires Meant(fields, ops, asked, pcs) && StatusOk(stage, status)
      ensures Valid()
    {
      hide Parts, Disk.Rings, QueueOk, Wakeups, Meant, StatusOk;
    }

    constructor (tasks: set<nat>)
      ensures Valid() && pcs == map t | t in tasks :: Idle
    {
      free, next, more := seq(NUM, i => true), seq(NUM, i => 0), seq(NUM, i => false);
      done, availRing, usedRing := seq(NUM, i => false), seq(NUM, i => 0), seq(NUM, i => 0);
      availIdx, usedIdx, seen := 0, 0, 0;
      queue, pcs := [], map t | t in tasks :: Idle;
      fields, ops := seq(NUM, i => Field(Null, 0, false)), seq(NUM, i => Req(0, 0, 0));
      status, asked := seq(NUM, i => 0), map[];
      owner, stage := map[], map[];
      posted, taken, returned, handled := 0, 0, 0, 0;
    }

    /** alloc_desc: the first free descriptor, or -1. */
    method AllocDesc() returns (i: int)
      requires |free| == NUM
      modifies this`free
      ensures i == -1 ==> free == old(free) && FreeSet(free) == {}
      ensures i != -1 ==>
              0 <= i < NUM && old(free)[i] && free == old(free)[i := false] && forall j :: 0 <= j < i ==> !old(free)[j]
    {
      i := 0;
      while i < NUM
        invariant 0 <= i <= NUM && free == old(free)
        invariant forall j :: 0 <= j < i ==> !free[j]
      {
        if free[i] {
          free := free[i := false];
          return;
        }
        i := i + 1;
      }
      i := -1;
    }

    /** wake_up_one on request_queue. */
    method WakeOne()
      requires QueueOk(queue, pcs)
      modifies this`queue, this`pcs
      ensures old(queue) == [] ==> queue == [] && pcs == old(pcs)
      ensures old(queue) != [] ==> old(queue) == [old(queue)[0]] + queue && pcs == old(pcs)[old(queue)[0] := Woken]
      ensures queue == Rest(old(queue), 1) && pcs == Wake(old(pcs), old(queue), 1)
    {
      RestMembers(queue, pcs, 1);
      if |queue| > 0 {
        assert queue[0] !in Rest(queue, 1);
        forall t | t in queue && t != queue[0] ensures t in Rest(queue, 1) {
          var i :| 0 <= i < |queue| && queue[i] == t;
        }
        pcs := pcs[queue[0] := Woken];
        queue := queue[1..];
      }
    }

    /** free_desc. */
    method FreeDesc(i: nat)
      requires |free| == NUM && |next| == NUM && |more| == NUM && i < NUM && !free[i] && QueueOk(queue, pcs)
      requires |fields| == NUM
      modifies this`free, this`next, this`more, this`queue, this`pcs, this`fields
      ensures fields == old(fields)[i := Field(Null, 0, false)]
      ensures free == old(free)[i := true] && next == old(next)[i := 0] && more == old(more)[i := false]
      ensures old(queue) == [] ==> queue == [] && pcs == old(pcs)
      ensures old(queue) != [] ==> old(queue) == [old(queue)[0]] + queue && pcs == old(pcs)[old(queue)[0] := Woken]
      ensures queue == Rest(old(queue), 1) && pcs == Wake(old(pcs), old(queue), 1)
    {
      fields := fields[i := Field(Null, 0, false)];
      next := next[i := 0];
      more := more[i := false];
      free := free[i := true];
      WakeOne();
    }

    /** alloc_descs: three descriptors, or none; giving back the one or two it got wakes as
        many sleepers. */
    method AllocDescs() returns (ok: bool, a: int, b: int, c: int, ghost k: nat)
      requires |free| == NUM && |next| == NUM && |more| == NUM && |fields| == NUM && QueueOk(queue, pcs)
      modifies this`free, this`next, this`more, this`queue, this`pcs, this`fields
      ensures |fields| == NUM && (ok ==> fields == old(fields))
      ensures ok ==> 0 <= a < NUM && 0 <= b < NUM && 0 <= c < NUM && a != b && a != c && b != c
      ensures ok ==> old(free)[a] && old(free)[b] && old(free)[c] && free == Taken3(old(free), a, b, c)
      ensures ok ==> next == old(next) && more == old(more) && queue == old(queue) && pcs == old(pcs)
      ensures !ok ==> free == old(free) && |FreeSet(free)| < 3 && |next| == NUM && |more| == NUM
      ensures !ok ==> forall i :: 0 <= i < NUM && !free[i] ==> next[i] == old(next)[i] && more[i] == old(more)[i]
      ensures !ok ==> forall i :: 0 <= i < NUM && !free[i] ==> fields[i] == old(fields)[i]
      ensures !ok ==> queue == Rest(old(queue), k) && pcs == Wake(old(pcs), old(queue), k) && k == |FreeSet(free)|
    {
      hide QueueOk, Wake, Rest;
      ghost var f := free;
      WakeNone(queue, pcs);
      b, c, k := -1, -1, 0;
      a := AllocDesc();
      if a == -1 { return false, a, b, c, k; }
      b := AllocDesc();
      if b == -1 {
        OneFree(f, a);
        FreeDesc(a);
        return false, a, b, c, 1;
      }
      c := AllocDesc();
      if c == -1 {
        TwoFree(f, a, b);
        WakeOk(queue, pcs, 1);
        WakeMore(queue, pcs, 1);
        FreeDesc(a);
        FreeDesc(b);
        return false, a, b, c, 2;
      }
      ok := true;
    }

    /** disk_command up to its first suspension: either the request is in flight under three
        descriptors that were free, or the task sleeps. */
    method Submit(t: nat, cmd: Command) returns (ok: bool)
      requires Valid() && t in pcs && (pcs[t] == Idle || pcs[t] == Woken)
      modifies this
      ensures Valid() && t in pcs && pcs[t] != Woken
      ensures ok ==> pcs[t].InFlight? && old(free)[pcs[t].a] && old(free)[pcs[t].b] && old(free)[pcs[t].c]
      ensures ok ==> pcs[t].a < NUM && pcs[t].b < NUM && pcs[t].c < NUM
      ensures ok ==> |old(free)| == NUM && free == Taken3(old(free), pcs[t].a, pcs[t].b, pcs[t].c)
      ensures ok ==> posted == old(posted) + 1 && stage == old(stage)[pcs[t].a := Posted(old(posted))]
      ensures !ok ==> pcs[t] == Asleep && free == old(free) && stage == old(stage)
      ensures ok ==> asked == old(asked)[t := cmd]
      ensures !ok ==> asked == old(asked)
      ensures ok <==> |FreeSet(old(free))| >= 3
      ensures ok ==> Turned(old(queue), old(pcs), 0, t, queue, pcs, [])
      ensures !ok ==> Turned(old(queue), old(pcs), |FreeSet(old(free))|, t, queue, pcs, [t])
    {
      hide Parts, Avail, Used, Heads, QueueOk, Wakeups, Wake, Rest, FreeSet, Turned, Meant, StatusOk;
      var a, b, c;
      ghost var k;
      PartsLengths(free, next, more, owner, pcs);
      MeantLengths(fields, ops, asked, pcs);
      ok, a, b, c, k := AllocDescs();
      if !ok {
        GoToSleep(t, k, old(queue), old(pcs), old(next), old(more), old(fields));
      } else {
        ThreeFree(old(free), a, b, c);
        Enqueue(t, a, b, c, old(free), cmd);
        NoneTurned(old(queue), old(pcs), t, pcs[t]);
      }
    }

    /** The rest of Submit when there are not enough descriptors. */
    method GoToSleep(t: nat, ghost k: nat, ghost q: seq<nat>, ghost p: map<nat, Pc>, ghost n: seq<nat>,
                     ghost m: seq<bool>, ghost f: seq<Field>)
      requires Parts(free, n, m, owner, p) && Heads(stage, done, owner, p) && QueueOk(q, p) && t in p
      requires (p[t] == Idle || p[t] == Woken)
      requires Avail(stage, availRing, taken, posted) && Used(stage, usedRing, handled, returned)
      requires availIdx == posted % TWO16 && usedIdx == returned % TWO16 && seen == handled % TWO16
      requires |FreeSet(free)| < 3 && |next| == NUM && |more| == NUM && |free| == NUM && |n| == NUM && |m| == NUM
      requires forall i :: 0 <= i < NUM && !free[i] ==> next[i] == n[i] && more[i] == m[i]
      requires queue == Rest(q, k) && pcs == Wake(p, q, k)
      requires Meant(f, ops, asked, p) && StatusOk(stage, status) && |fields| == NUM && |f| == NUM
      requires forall i :: 0 <= i < NUM && !free[i] ==> fields[i] == f[i]
      modifies this`queue, this`pcs
      ensures Valid() && pcs.Keys == p.Keys && pcs[t] == Asleep && Turned(q, p, k, t, queue, pcs, [t])
    {
      hide Parts, Avail, Used, Heads, QueueOk, Wake, Rest, FreeSet, WokenSet, Turned, Meant, StatusOk, Member;
      WakeOk(q, p, k);
      PartsFields(free, n, m, owner, p, next, more);
      SleepOk(q, p, k, t);
      FirstOut(q, p, k, t, Asleep, [t]);
      queue := queue + [t];
      pcs := pcs[t := Asleep];
      PartsPcs(free, next, more, owner, p, pcs);
      HeadsPcs(stage, done, owner, p, pcs);
      FreeNoMember(free, n, m, owner, p);
      MeantKept(free, n, m, owner, p, f, ops, asked, pcs, fields, free);
    }

    /** The rest of Submit with three descriptors in hand. */
    method Enqueue(t: nat, a: nat, b: nat, c: nat, ghost f: seq<bool>, cmd: Command)
      requires Parts(f, next, more, owner, pcs) && Rings() && QueueOk(queue, pcs) && Wakeups(queue, pcs, f)
      requires t in pcs && (pcs[t] == Idle || pcs[t] == Woken) && |f| == NUM
      requires a < NUM && b < NUM && c < NUM && a != b && a != c && b != c && f[a] && f[b] && f[c]
      requires |next| == NUM && |more| == NUM && free == Taken3(f, a, b, c)
      requires Meant(fields, ops, asked, pcs) && StatusOk(stage, status)
      modifies this
      ensures asked == old(asked)[t := cmd]
      ensures Valid() && free == old(free) && pcs == old(pcs)[t := InFlight(a, b, c)] && queue == old(queue)
      ensures posted == old(posted) + 1 && stage == old(stage)[a := Posted(old(posted))]
    {
      hide Parts, Avail, Used, QueueOk, Wakeups, Heads, Taken3, Meant, StatusOk, Disk.Rings;
      hide Disk.Valid;
      RingParts();
      Prepare(t, a, b, c, f, cmd);
      Publish(a);
    }

    /** The rest of Enqueue. */
    method Publish(a: nat)
      requires Parts(free, next, more, owner, pcs) && Heads(stage[a := Posted(posted)], done, owner, pcs)
      requires QueueOk(queue, pcs) && Wakeups(queue, pcs, free)
      requires Meant(fields, ops, asked, pcs) && StatusOk(stage[a := Posted(posted)], status)
      requires Avail(stage, availRing, taken, posted) && Used(stage, usedRing, handled, returned)
      requires availIdx == posted % TWO16 && usedIdx == returned % TWO16 && seen == handled % TWO16
      requires a < NUM && a !in stage && forall h :: h in stage ==> h < NUM
      modifies this`availRing, this`availIdx, this`stage, this`posted
      ensures Valid() && posted == old(posted) + 1 && stage == old(stage)[a := Posted(old(posted))]
    {
      hide Parts, Avail, Used, QueueOk, Wakeups, Heads, Meant, StatusOk, Disk.Rings, Disk.Valid;
      PostHead(a);
      MakeRings();
      MakeValid();
    }

    /** Enqueue up to the avail ring: all is ready for the new head. */
    method Prepare(t: nat, a: nat, b: nat, c: nat, ghost f: seq<bool>, cmd: Command)
      requires Parts(f, next, more, owner, pcs) && Heads(stage, done, owner, pcs)
      requires QueueOk(queue, pcs) && Wakeups(queue, pcs, f) && t in pcs && (pcs[t] == Idle || pcs[t] == Woken)
      requires a < NUM && b < NUM && c < NUM && a != b && a != c && b != c && |f| == NUM && f[a] && f[b] && f[c]
      requires |next| == NUM && |more| == NUM && free == Taken3(f, a, b, c)
      requires Meant(fields, ops, asked, pcs) && StatusOk(stage, status)
      modifies this`next, this`more, this`done, this`owner, this`pcs, this`fields, this`ops, this`status, this`asked
      ensures asked == old(asked)[t := cmd] && pcs == old(pcs)[t := InFlight(a, b, c)]
      ensures a !in stage && forall h :: h in stage ==> h < NUM
      ensures Parts(free, next, more, owner, pcs) && Heads(stage[a := Posted(posted)], done, owner, pcs)
      ensures QueueOk(queue, pcs) && Wakeups(queue, pcs, free)
      ensures Meant(fields, ops, asked, pcs) && StatusOk(stage[a := Posted(posted)], status)
    {
      hide Parts, QueueOk, Wakeups, Heads, Taken3, Links3, Flags3, Owner3, Meant, StatusOk, Fields3;
      SubmitOk(f, next, more, owner, pcs, stage, done, queue, t, a, b, c, posted);
      MeantSubmit(f, next, more, owner, pcs, fields, ops, asked, t, a, b, c, cmd);
      StatusPosted(stage, status, a, posted);
      Format(t, a, b, c, cmd);
    }

    /** Filling in the three descriptors and info[idx[0]]. */
    method Format(t: nat, a: nat, b: nat, c: nat, cmd: Command)
      requires a < NUM && b < NUM && c < NUM && |next| == NUM && |more| == NUM && |done| == NUM
      requires |fields| == NUM && |ops| == NUM && |status| == NUM
      modifies this`next, this`more, this`done, this`owner, this`pcs, this`fields, this`ops, this`status, this`asked
      ensures fields == Fields3(old(fields), a, b, c, cmd) && ops == old(ops)[a := Req(cmd.kind, 0, 2 * cmd.block)]
      ensures status == old(status)[a := 0xfb] && asked == old(asked)[t := cmd]
      ensures next == Links3(old(next), a, b, c) && more == Flags3(old(more), a, b, c) && done == old(done)[a := false]
      ensures owner == Owner3(old(owner), t, a, b, c) && pcs == old(pcs)[t := InFlight(a, b, c)]
    {
      Describe(t, a, b, c, cmd);
      next := next[a := b];
      more := more[a := true];
      next := next[b := c];
      more := more[b := true];
      done := done[a := false];
      more := more[c := false];
      next := next[c := 0];
      owner := Owner3(owner, t, a, b, c);
      pcs := pcs[t := InFlight(a, b, c)];
    }

    /** What the three descriptors point to. */
    method Describe(t: nat, a: nat, b: nat, c: nat, cmd: Command)
      requires a < NUM && b < NUM && c < NUM && |fields| == NUM && |ops| == NUM && |status| == NUM
      modifies this`fields, this`ops, this`status, this`asked
      ensures fields == Fields3(old(fields), a, b, c, cmd) && ops == old(ops)[a := Req(cmd.kind, 0, 2 * cmd.block)]
      ensures status == old(status)[a := 0xfb] && asked == old(asked)[t := cmd]
    {
      ops := ops[a := Req(cmd.kind, 0, 2 * cmd.block)];
      fields := fields[a := Field(Ops(a), 16, false)];
      var write := !(cmd.kind == T_OUT || cmd.kind == T_FLUSH);
      fields := fields[b := Field(Buf(cmd.buf), 1024, write)];
      fields := fields[c := Field(Status(a), 1, true)];
      status := status[a := 0xfb];
      asked := asked[t := cmd];
    }

    /** avail->ring[avail->idx % NUM] = idx[0]; avail->idx = avail->idx + 1. */
    method PostHead(a: nat)
      requires Avail(stage, availRing, taken, posted) && Used(stage, usedRing, handled, returned)
      requires availIdx == posted % TWO16 && a < NUM && a !in stage && forall h :: h in stage ==> h < NUM
      modifies this`availRing, this`availIdx, this`stage, this`posted
      ensures Avail(stage, availRing, taken, posted) && Used(stage, usedRing, handled, returned)
      ensures availIdx == posted % TWO16 && posted == old(posted) + 1 && stage == old(stage)[a := Posted(old(posted))]
    {
      hide Avail, Used;
      AvailRoom(stage, availRing, taken, posted, a);
      Post(stage, availRing, taken, posted, a);
      UsedFrame(stage, stage[a := Posted(posted)], usedRing, handled, returned);
      WrapIsHarmless(posted, posted);
      availRing := availRing[availIdx % NUM := a];
      availIdx := (availIdx + 1) % TWO16;
      stage := stage[a := Posted(posted)];
      posted := posted + 1;
    }

    // -------------------------------------------------------- the device

    /** The device takes the next head from the available ring. */
    method DeviceTake()
      requires Valid() && taken < posted
      modifies this`stage, this`taken
      ensures Valid() && taken == old(taken) + 1
      ensures exists h :: h in old(stage) && old(stage)[h] == Posted(old(taken)) && stage == old(stage)[h := Working]
    {
      hide Parts, Avail, Used, Heads, QueueOk, Wakeups, Meant, StatusOk;
      Take(stage, availRing, taken, posted);
      HeadAt(stage, availRing, taken, posted);
      var h := availRing[taken % NUM];
      UsedFrame(stage, stage[h := Working], usedRing, handled, returned);
      HeadsMove(stage, done, owner, pcs, h, Working);
      StatusMove(stage, status, h, Working);
      stage := stage[h := Working];
      taken := taken + 1;
    }

    /** The device has carried out the request of head h, and says so in the used ring. */
    method DeviceReturn(h: nat)
      requires Valid() && h in stage && stage[h] == Working
      modifies this`stage, this`returned, this`usedRing, this`usedIdx, this`status
      ensures Valid() && returned == old(returned) + 1 && stage == old(stage)[h := Returned(old(returned))]
    {
      hide Parts, Avail, Used, Heads, QueueOk, Wakeups, Meant, StatusOk;
      hide Disk.Rings;
      RingParts();
      HeadBounds(stage, done, owner, pcs);
      StatusReturn(stage, status, h, returned);
      UsedRoom(stage, usedRing, handled, returned, h);
      Return(stage, usedRing, handled, returned, h);
      AvailFrame(stage, stage[h := Returned(returned)], availRing, taken, posted);
      HeadsMove(stage, done, owner, pcs, h, Returned(returned));
      WrapIsHarmless(returned, returned);
      status := status[h := 0];
      usedRing := usedRing[usedIdx % NUM := h];
      usedIdx := (usedIdx + 1) % TWO16;
      stage := stage[h := Returned(returned)];
      returned := returned + 1;
      MakeRings();
    }

    /** A step of the device, if it is possible. */
    method DeviceDo(step: DeviceStep)
      requires Valid()
      modifies this`stage, this`taken, this`returned, this`usedRing, this`usedIdx, this`status
      ensures Valid() && DeviceDid(old(stage), step, stage)
      ensures handled <= old(returned) <= returned
    {
      hide Parts, Avail, Used, Heads, QueueOk, Wakeups, Meant, StatusOk;
      UsedBound(stage, usedRing, handled, returned);
      AvailBound(stage, availRing, taken, posted);
      match step
      case TakeNext =>
        if taken < posted {
          HeadAt(stage, availRing, taken, posted);
          DeviceTake();
          ghost var h :| h in old(stage) && old(stage)[h] == Posted(old(taken)) && stage == old(stage)[h := Working];
          assert OldestPosted(old(stage), h);
        } else {
          AvailEmpty(stage, availRing, taken, posted);
        }
      case ReturnHead(h) =>
        UsedOrder(stage, usedRing, handled, returned);
        if h in stage && stage[h] == Working { DeviceReturn(h); }
    }

    method DeviceRun(steps: seq<DeviceStep>) returns (ghost stages: seq<map<nat, Stage>>)
      requires Valid()
      modifies this`stage, this`taken, this`returned, this`usedRing, this`usedIdx, this`status
      ensures Valid() && Open(stage) == Open(old(stage)) && returned >= old(returned)
      ensures Follows(stages, DeviceEvents(steps)) && stages[0] == old(stage) && stages[|steps|] == stage
      ensures steps == [] ==> stage == old(stage)
    {
      hide Parts, Rings, Used, QueueOk, Wakeups, DeviceDid, Open, Meant, StatusOk;
      hide Disk.Valid;
      stages := [stage];
      for i := 0 to |steps|
        invariant Valid() && Open(stage) == Open(old(stage)) && returned >= old(returned)
        invariant |stages| == i + 1 && stages[0] == old(stage) && stages[i] == stage
        invariant forall j :: 0 <= j < i ==> DeviceDid(stages[j], steps[j], stages[j + 1])
      {
        ghost var before := stage;
        DeviceDo(steps[i]);
        DidOpen(before, steps[i], stage);
        stages := stages + [stage];
      }
    }

    // -------------------------------------------------------- completion

    /** virtio_disk_intr: every returned head is completed once, and no other.  The device goes on
        meanwhile: `race` gives its steps after each test of the loop and after each round; what it
        returns in time is completed as well. */
    method Interrupt(race: seq<seq<DeviceStep>>)
      returns (ghost stages: seq<map<nat, Stage>>, ghost events: seq<Event>, ghost n: nat)
      requires Valid()
      modifies this`seen, this`done, this`stage, this`handled, this`taken, this`returned, this`usedRing, this`usedIdx
      modifies this`status
      ensures Valid() && handled == returned && Log(old(stage), race, stage, stages, events, n)
      ensures Completions(events) == handled - old(handled)
      ensures forall h :: h in stage ==> !stage[h].Returned?
      ensures stage.Keys == old(stage).Keys
      ensures race == [] ==>
                forall h :: h in stage ==> stage[h] == if old(stage)[h].Returned? then Complete else old(stage)[h]
    {
      hide Parts, Avail, Used, Heads, QueueOk, Wakeups, Open, Follows, Did, StepsOf, Completions, Flat, Meant, StatusOk;
      UsedBound(stage, usedRing, handled, returned);
      WrapIsHarmless(handled, returned);
      var k := 0;
      stages, events := [stage], [];
      NoEvents(stage, race);
      while seen != usedIdx
        invariant Valid() && handled <= returned && (seen == usedIdx <==> handled == returned)
        invariant Log(old(stage), race, stage, stages, events, 2 * k) && stage.Keys == old(stage).Keys
        invariant Completions(events) == handled - old(handled)
        invariant race == [] ==> OnlyHandled(old(stage), stage)
        decreases |Open(stage)|
      {
        ghost var s', e' := Round(race, k);
        Lengths(s', e');
        Lengths(stages, events);
        LogNext(old(stage), race, stages, events, k, s', e', stage);
        stages, events := stages + s'[1..], events + e';
        UsedBound(stage, usedRing, handled, returned);
        WrapIsHarmless(handled, returned);
        k := k + 1;
      }
      n := 2 * k;
      UsedEmpty(stage, usedRing, handled, returned);
    }

    /** A round of the loop and the steps of the device before and after its body. */
    method Round(race: seq<seq<DeviceStep>>, k: nat)
      returns (ghost stages: seq<map<nat, Stage>>, ghost events: seq<Event>)
      requires Valid() && handled < returned
      modifies this`seen, this`done, this`stage, this`handled, this`taken, this`returned, this`usedRing, this`usedIdx
      modifies this`status
      ensures Valid() && |Open(stage)| < |Open(old(stage))| && stage.Keys == old(stage).Keys
      ensures Follows(stages, events) && stages[0] == old(stage) && stages[|events|] == stage
      ensures StepsOf(events) == At(race, 2 * k) + At(race, 2 * k + 1) && Completions(events) == 1
      ensures handled == old(handled) + 1 && handled <= returned
      ensures race == [] ==> forall s :: OnlyHandled(s, old(stage)) ==> OnlyHandled(s, stage)
    {
      hide Parts, Rings, QueueOk, Wakeups, Open, Did, StepsOf, Completions, Meant, StatusOk;
      hide Disk.Valid;
      ghost var s1 := DeviceRun(At(race, 2 * k));
      ghost var a := stage;
      ghost var h := HandleOne();
      OneEvent(a, h, stage);
      HandledOpen(a, stage);
      ghost var s2 := [a, stage];
      ghost var s3 := DeviceRun(At(race, 2 * k + 1));
      RoundLog(s1, At(race, 2 * k), s2, h, s3, At(race, 2 * k + 1));
      stages := s1 + s2[1..] + s3[1..];
      events := DeviceEvents(At(race, 2 * k)) + [ByHandler(h)] + DeviceEvents(At(race, 2 * k + 1));
      KeysFollow(stages, events);
    }

    /** One round of the loop in virtio_disk_intr. */
    method HandleOne() returns (ghost h: nat)
      requires Valid() && handled < returned
      modifies this`seen, this`done, this`stage, this`handled
      ensures Valid() && handled == old(handled) + 1
      ensures OldestReturned(old(stage), h) && stage == old(stage)[h := Complete]
    {
      hide Parts, Avail, Used, Heads, QueueOk, Wakeups, Meant, StatusOk;
      UsedOrder(stage, usedRing, handled, returned);
      HeadBounds(stage, done, owner, pcs);
      Handle(stage, usedRing, handled, returned);
      UsedAt(stage, usedRing, handled, returned);
      WrapIsHarmless(handled, returned);
      var id := usedRing[seen % NUM];
      h := id;
      StatusWritten(stage, status, id);
      assert status[id] == 0;   // so the busy wait for it ends at once
      StatusMove(stage, status, id, Complete);
      AvailFrame(stage, stage[id := Complete], availRing, taken, posted);
      HeadsComplete(stage, done, owner, pcs, id);
      seen := (seen + 1) % TWO16;
      done := done[id := true];
      stage := stage[id := Complete];
      handled := handled + 1;
    }

    /** free_chain. */
    method FreeChain(head: nat, ghost pc: Pc)
      requires |free| == NUM && |next| == NUM && |more| == NUM && |fields| == NUM && QueueOk(queue, pcs)
      requires pc.InFlight? && head == pc.a && pc.a < NUM && pc.b < NUM && pc.c < NUM && pc.a != pc.b && pc.a != pc.c
      requires pc.b != pc.c
      requires !free[pc.a] && !free[pc.b] && !free[pc.c]
      requires more[pc.a] && next[pc.a] == pc.b && more[pc.b] && next[pc.b] == pc.c && !more[pc.c]
      modifies this`free, this`next, this`more, this`queue, this`pcs, this`fields
      ensures |free| == NUM && |next| == NUM && |more| == NUM && |fields| == NUM
      ensures forall i :: 0 <= i < NUM && !free[i] ==> fields[i] == old(fields)[i]
      ensures forall i :: 0 <= i < NUM ==> free[i] == (old(free)[i] || Member(pc, i))
      ensures forall i :: 0 <= i < NUM && !free[i] ==> next[i] == old(next)[i] && more[i] == old(more)[i]
      ensures queue == Rest(old(queue), 3) && pcs == Wake(old(pcs), old(queue), 3)
    {
      hide QueueOk, Wake, Rest;
      ghost var q, p := queue, pcs;
      ghost var n := 0;
      WakeNone(q, p);
      var i := head;
      while true
        invariant 0 <= n < 3 && |free| == NUM && |next| == NUM && |more| == NUM && |fields| == NUM
        invariant forall j :: 0 <= j < NUM && !free[j] ==> fields[j] == old(fields)[j]
        invariant i == if n == 0 then pc.a else if n == 1 then pc.b else pc.c
        invariant queue == Rest(q, n) && pcs == Wake(p, q, n) && QueueOk(queue, pcs)
        invariant forall j :: 0 <= j < NUM ==> free[j] == (old(free)[j] || (j == pc.a && n > 0) || (j == pc.b && n > 1))
        invariant forall j :: 0 <= j < NUM && !free[j] ==> next[j] == old(next)[j] && more[j] == old(more)[j]
        decreases 3 - n
      {
        var flag, nxt := more[i], next[i];
        WakeMore(q, p, n);
        WakeOk(q, p, n + 1);
        FreeDesc(i);
        n := n + 1;
        if !flag { break; }
        i := nxt;
      }
    }

    /** disk_command after its wait loop: the request is done, its chain is freed. */
    method Finish(t: nat)
      requires Valid() && t in pcs && pcs[t].InFlight? && done[pcs[t].a]
      modifies this
      ensures Valid() && t in pcs && pcs[t] == Idle && stage == old(stage) - {old(pcs)[t].a}
      ensures |free| == NUM && |old(free)| == NUM
      ensures forall i :: 0 <= i < NUM ==> free[i] == (old(free)[i] || Member(old(pcs)[t], i))
      ensures Turned(old(queue), old(pcs), 3, t, queue, pcs, []) && asked == old(asked)
    {
      hide Parts, Avail, Used, Heads, QueueOk, Wakeups, Wake, Rest, Turned, Meant, StatusOk;
      ghost var pc := pcs[t];
      FinishFacts(free, next, more, owner, pcs, stage, done, t);
      MeantLengths(fields, ops, asked, pcs);
      FreeChain(pcs[t].a, pc);
      Forget(t, old(free), old(next), old(more), old(queue), old(pcs), old(fields));
    }

    /** The bookkeeping of Finish. */
    method Forget(t: nat, ghost f: seq<bool>, ghost n: seq<nat>, ghost m: seq<bool>, ghost q: seq<nat>,
                  ghost p: map<nat, Pc>, ghost x: seq<Field>)
      requires Parts(f, n, m, owner, p) && Heads(stage, done, owner, p) && QueueOk(q, p) && Wakeups(q, p, f)
      requires t in p && p[t].InFlight? && p[t].a in stage && stage[p[t].a] == Complete
      requires Avail(stage, availRing, taken, posted) && Used(stage, usedRing, handled, returned)
      requires availIdx == posted % TWO16 && usedIdx == returned % TWO16 && seen == handled % TWO16
      requires |f| == NUM && |n| == NUM && |m| == NUM && |free| == NUM && |next| == NUM && |more| == NUM
      requires forall i :: 0 <= i < NUM ==> free[i] == (f[i] || Member(p[t], i))
      requires forall i :: 0 <= i < NUM && !free[i] ==> next[i] == n[i] && more[i] == m[i]
      requires queue == Rest(q, 3) && pcs == Wake(p, q, 3)
      requires Meant(x, ops, asked, p) && StatusOk(stage, status) && |fields| == NUM && |x| == NUM
      requires forall i :: 0 <= i < NUM && !free[i] ==> fields[i] == x[i]
      modifies this`owner, this`stage, this`pcs
      ensures Valid() && t in pcs && pcs[t] == Idle && stage == old(stage) - {p[t].a}
      ensures Turned(q, p, 3, t, queue, pcs, [])
    {
      hide Parts, Avail, Used, Heads, QueueOk, Wakeups, Wake, Rest, Turned, Meant, StatusOk, Member;
      ghost var pc := p[t];
      WakeKeeps(q, p, 3, t);
      ForgetPcs(f, n, m, owner, p, t, free, next, more, stage, done, pcs);
      ForgetMeant(f, n, m, owner, p, t, free, x, ops, asked, pcs, fields);
      StatusGone(stage, status, pc.a);
      FinishQueue(q, p, f, free, next, more, n, m, owner, t);
      AvailFrame(stage, stage - {pc.a}, availRing, taken, posted);
      UsedFrame(stage, stage - {pc.a}, usedRing, handled, returned);
      FirstOut(q, p, 3, t, Idle, []);
      assert Rest(q, 3) + [] == Rest(q, 3);
      owner := owner - {pc.a, pc.b, pc.c};
      stage := stage - {pcs[t].a};
      pcs := pcs[t := Idle];
    }
  }

  lemma WakeKeeps(q: seq<nat>, p: map<nat, Pc>, n: nat, t: nat)
    requires QueueOk(q, p) && t in p && p[t].InFlight?
    ensures t in Wake(p, q, n) && Wake(p, q, n)[t] == p[t]
    ensures forall u :: u in p && (p[u].InFlight? || Wake(p, q, n)[u].InFlight?) ==> Wake(p, q, n)[u] == p[u]
  {
    hide QueueOk, Wake, Rest;
    WakeOk(q, p, n);
  }

  /** The chain of t is gone; other tasks in flight are where they were. */
  lemma ForgetPcs(f: seq<bool>, n: seq<nat>, m: seq<bool>, owner: map<nat, nat>, p: map<nat, Pc>, t: nat, f': seq<bool>,
                  n': seq<nat>, m': seq<bool>, stage: map<nat, Stage>, done: seq<bool>, p': map<nat, Pc>)
    requires Parts(f, n, m, owner, p) && Heads(stage, done, owner, p) && t in p && p[t].InFlight?
    requires |f| == NUM && |n| == NUM && |m| == NUM && |f'| == NUM && |n'| == NUM && |m'| == NUM
    requires forall i :: 0 <= i < NUM ==> f'[i] == (f[i] || Member(p[t], i))
    requires forall i :: 0 <= i < NUM && !f'[i] ==> n'[i] == n[i] && m'[i] == m[i]
    requires p'.Keys == p.Keys && forall u :: u in p && (p[u].InFlight? || p'[u].InFlight?) ==> p'[u] == p[u]
    ensures var owner' := owner - {p[t].a, p[t].b, p[t].c};
            Parts(f', n', m', owner', p'[t := Idle]) && Heads(stage - {p[t].a}, done, owner', p'[t := Idle])
  {
    hide Parts, Heads;
    var owner' := owner - {p[t].a, p[t].b, p[t].c};
    PartsFinish(f, n, m, owner, p, t, f', n', m');
    HeadsFinish(stage, done, owner, p, n, m, f, t);
    PartsPcs(f', n', m', owner', p[t := Idle], p'[t := Idle]);
    HeadsPcs(stage - {p[t].a}, done, owner', p[t := Idle], p'[t := Idle]);
  }

  /** Only the descriptors of t have been cleared. */
  lemma ForgetMeant(f: seq<bool>, n: seq<nat>, m: seq<bool>, owner: map<nat, nat>, p: map<nat, Pc>, t: nat,
                    f': seq<bool>, x: seq<Field>, ops: seq<Req>, asked: map<nat, Command>, p': map<nat, Pc>,
                    x': seq<Field>)
    requires Parts(f, n, m, owner, p) && Meant(x, ops, asked, p) && t in p && p[t].InFlight?
    requires |f| == NUM && |f'| == NUM && |x| == NUM && |x'| == NUM
    requires forall i :: 0 <= i < NUM ==> f'[i] == (f[i] || Member(p[t], i))
    requires forall i :: 0 <= i < NUM && !f'[i] ==> x'[i] == x[i]
    requires p'.Keys == p.Keys && forall u :: u in p && (p[u].InFlight? || p'[u].InFlight?) ==> p'[u] == p[u]
    ensures Meant(x', ops, asked, p'[t := Idle])
  {
    hide Parts, Meant, Member;
    FreeNoMember(f, n, m, owner, p);
    forall i, u | 0 <= i < NUM && f'[i] && u in p && u != t && p[u].InFlight? ensures !Member(p[u], i) {
      if Member(p[t], i) { OneChain(f, n, m, owner, p, t, u, i); }
    }
    MeantKept(f, n, m, owner, p, x, ops, asked, p'[t := Idle], x', f');
  }

  lemma OneChain(f: seq<bool>, n: seq<nat>, m: seq<bool>, owner: map<nat, nat>, p: map<nat, Pc>, t: nat, u: nat, i: nat)
    requires Parts(f, n, m, owner, p) && t in p && u in p && t != u && p[t].InFlight? && p[u].InFlight?
    requires Member(p[t], i)
    ensures !Member(p[u], i)
  {
    assert ChainOk(n, m, owner, t, p[t]) && ChainOk(n, m, owner, u, p[u]);
  }

  lemma MeantLengths(fields: seq<Field>, ops: seq<Req>, asked: map<nat, Command>, pcs: map<nat, Pc>)
    requires Meant(fields, ops, asked, pcs)
    ensures |fields| == NUM && |ops| == NUM
  {
  }

  lemma WakeNone(queue: seq<nat>, pcs: map<nat, Pc>)
    ensures Rest(queue, 0) == queue && Wake(pcs, queue, 0) == pcs
  {
    assert Rest(queue, 0) == queue;
  }

  lemma ThreeFree(f: seq<bool>, a: nat, b: nat, c: nat)
    requires a < |f| && b < |f| && c < |f| && a != b && a != c && b != c && f[a] && f[b] && f[c]
    ensures |FreeSet(f)| >= 3
  {
    assert |{a, b, c}| == 3 && {a, b, c} <= FreeSet(f);
    SubsetSize({a, b, c}, FreeSet(f));
  }

  lemma OneFree(f: seq<bool>, a: nat)
    requires a < |f| && f[a] && FreeSet(f[a := false]) == {}
    ensures |FreeSet(f)| == 1
  {
    assert FreeSet(f[a := false]) == FreeSet(f) - {a};
    assert FreeSet(f) == {a};
  }

  lemma TwoFree(f: seq<bool>, a: nat, b: nat)
    requires a < |f| && b < |f| && a != b && f[a] && f[b] && FreeSet(f[a := false][b := false]) == {}
    ensures |FreeSet(f)| == 2
  {
    assert FreeSet(f[a := false][b := false]) == FreeSet(f) - {a, b};
    assert FreeSet(f) == {a, b};
  }

  lemma PartsLengths(free: seq<bool>, next: seq<nat>, more: seq<bool>, owner: map<nat, nat>, pcs: map<nat, Pc>)
    requires Parts(free, next, more, owner, pcs)
    ensures |free| == NUM && |next| == NUM && |more| == NUM
  {
  }

  /** A free descriptor heads no chain. */
  lemma FreeHead(free: seq<bool>, next: seq<nat>, more: seq<bool>, owner: map<nat, nat>, pcs: map<nat, Pc>,
                 stage: map<nat, Stage>, done: seq<bool>, a: nat)
    requires Parts(free, next, more, owner, pcs) && Heads(stage, done, owner, pcs) && a < NUM && free[a]
    ensures a !in stage && a !in owner && |done| == NUM && forall h :: h in stage ==> h < NUM
  {
  }

  lemma HeadsSubmit(stage: map<nat, Stage>, done: seq<bool>, owner: map<nat, nat>, pcs: map<nat, Pc>, t: nat, a: nat,
                    b: nat, c: nat, i: nat)
    requires Heads(stage, done, owner, pcs) && a < NUM && a !in owner && b !in owner && c !in owner
    requires t in pcs && !pcs[t].InFlight? && a != b && a != c
    ensures Heads(stage[a := Posted(i)], done[a := false], Owner3(owner, t, a, b, c), pcs[t := InFlight(a, b, c)])
  {
  }

  lemma SubmitOk(f: seq<bool>, next: seq<nat>, more: seq<bool>, owner: map<nat, nat>, pcs: map<nat, Pc>,
                 stage: map<nat, Stage>, done: seq<bool>, queue: seq<nat>, t: nat, a: nat, b: nat, c: nat, i: nat)
    requires Parts(f, next, more, owner, pcs) && Heads(stage, done, owner, pcs)
    requires QueueOk(queue, pcs) && Wakeups(queue, pcs, f) && t in pcs && (pcs[t] == Idle || pcs[t] == Woken)
    requires a < NUM && b < NUM && c < NUM && a != b && a != c && b != c && f[a] && f[b] && f[c]
    ensures a !in stage && |done| == NUM && forall h :: h in stage ==> h < NUM
    ensures var pcs', owner' := pcs[t := InFlight(a, b, c)], Owner3(owner, t, a, b, c);
            && Parts(Taken3(f, a, b, c), Links3(next, a, b, c), Flags3(more, a, b, c), owner', pcs')
            && Heads(stage[a := Posted(i)], done[a := false], owner', pcs')
            && QueueOk(queue, pcs') && Wakeups(queue, pcs', Taken3(f, a, b, c))
  {
    hide Parts, Heads, QueueOk, Wakeups, Taken3, Links3, Flags3, Owner3;
    PartsLengths(f, next, more, owner, pcs);
    PartsSubmit(f, next, more, owner, pcs, t, a, b, c);
    FreeHead(f, next, more, owner, pcs, stage, done, a);
    FreeHead(f, next, more, owner, pcs, stage, done, b);
    FreeHead(f, next, more, owner, pcs, stage, done, c);
    HeadsSubmit(stage, done, owner, pcs, t, a, b, c, i);
    QueueSubmit(queue, pcs, f, t, a, b, c);
  }

  lemma HeadsPcs(stage: map<nat, Stage>, done: seq<bool>, owner: map<nat, nat>, pcs: map<nat, Pc>, pcs': map<nat, Pc>)
    requires Heads(stage, done, owner, pcs) && pcs'.Keys == pcs.Keys
    requires forall t :: t in pcs && (pcs[t].InFlight? || pcs'[t].InFlight?) ==> pcs'[t] == pcs[t]
    ensures Heads(stage, done, owner, pcs')
  {
  }

  lemma SleepOk(q: seq<nat>, p: map<nat, Pc>, k: nat, t: nat)
    requires QueueOk(q, p) && t in p && (p[t] == Idle || p[t] == Woken)
    ensures QueueOk(Rest(q, k) + [t], Wake(p, q, k)[t := Asleep])
  {
    WakeOk(q, p, k);
    RestMembers(q, p, k);
  }

  lemma QueueSubmit(queue: seq<nat>, pcs: map<nat, Pc>, f: seq<bool>, t: nat, a: nat, b: nat, c: nat)
    requires QueueOk(queue, pcs) && Wakeups(queue, pcs, f) && t in pcs && (pcs[t] == Idle || pcs[t] == Woken)
    requires a < |f| && b < |f| && c < |f| && a != b && a != c && b != c && f[a] && f[b] && f[c]
    ensures QueueOk(queue, pcs[t := InFlight(a, b, c)])
    ensures Wakeups(queue, pcs[t := InFlight(a, b, c)], Taken3(f, a, b, c))
  {
    hide Taken3, FreeSet, WokenSet;
    ThreeTaken(f, a, b, c);
    OneLess(pcs, t, InFlight(a, b, c));
  }

  lemma ThreeTaken(f: seq<bool>, a: nat, b: nat, c: nat)
    requires a < |f| && b < |f| && c < |f| && a != b && a != c && b != c && f[a] && f[b] && f[c]
    ensures |FreeSet(Taken3(f, a, b, c))| == |FreeSet(f)| - 3
  {
    var f' := Taken3(f, a, b, c);
    assert FreeSet(f') == FreeSet(f) - {a, b, c};
    assert FreeSet(f) == FreeSet(f') + {a, b, c} && |{a, b, c}| == 3;
  }

  lemma OneLess(pcs: map<nat, Pc>, t: nat, pc: Pc)
    requires t in pcs && pc != Woken
    ensures |WokenSet(pcs[t := pc])| >= |WokenSet(pcs)| - 1
  {
    assert WokenSet(pcs[t := pc]) == WokenSet(pcs) - {t};
  }

  lemma HeadAt(stage: map<nat, Stage>, ring: seq<nat>, lo: nat, hi: nat)
    requires Avail(stage, ring, lo, hi) && lo < hi
    ensures |ring| == NUM && ring[lo % NUM] in stage && stage[ring[lo % NUM]] == Posted(lo)
  {
  }

  lemma UsedAt(stage: map<nat, Stage>, ring: seq<nat>, lo: nat, hi: nat)
    requires Used(stage, ring, lo, hi) && lo < hi
    ensures |ring| == NUM && ring[lo % NUM] in stage && stage[ring[lo % NUM]] == Returned(lo) && hi < lo + TWO16
  {
    var i := lo + NUM;
    assert ring[i % NUM] == ring[lo % NUM] && stage[ring[lo % NUM]] == Returned(lo);
  }

  lemma UsedBound(stage: map<nat, Stage>, ring: seq<nat>, lo: nat, hi: nat)
    requires Used(stage, ring, lo, hi)
    ensures lo <= hi < lo + TWO16
  {
    if lo < hi { UsedAt(stage, ring, lo, hi); }
  }

  lemma UsedOrder(stage: map<nat, Stage>, ring: seq<nat>, lo: nat, hi: nat)
    requires Used(stage, ring, lo, hi)
    ensures forall g :: g in stage && stage[g].Returned? ==> lo <= stage[g].i < hi
  {
  }

  lemma UsedEmpty(stage: map<nat, Stage>, ring: seq<nat>, lo: nat, hi: nat)
    requires Used(stage, ring, lo, hi) && lo == hi
    ensures forall h :: h in stage ==> !stage[h].Returned?
  {
  }

  lemma HeadBounds(stage: map<nat, Stage>, done: seq<bool>, owner: map<nat, nat>, pcs: map<nat, Pc>)
    requires Heads(stage, done, owner, pcs)
    ensures |done| == NUM && forall h :: h in stage ==> h < NUM
  {
  }

  lemma HeadsMove(stage: map<nat, Stage>, done: seq<bool>, owner: map<nat, nat>, pcs: map<nat, Pc>, h: nat, x: Stage)
    requires Heads(stage, done, owner, pcs) && h in stage && stage[h] != Complete && x != Complete
    ensures Heads(stage[h := x], done, owner, pcs)
  {
  }

  lemma HeadsComplete(stage: map<nat, Stage>, done: seq<bool>, owner: map<nat, nat>, pcs: map<nat, Pc>, h: nat)
    requires Heads(stage, done, owner, pcs) && h in stage
    ensures h < |done| && Heads(stage[h := Complete], done[h := true], owner, pcs)
  {
  }

  lemma FinishFacts(free: seq<bool>, next: seq<nat>, more: seq<bool>, owner: map<nat, nat>, pcs: map<nat, Pc>,
                    stage: map<nat, Stage>, done: seq<bool>, t: nat)
    requires Parts(free, next, more, owner, pcs) && Heads(stage, done, owner, pcs) && t in pcs && pcs[t].InFlight?
    ensures |free| == NUM && |next| == NUM && |more| == NUM && |done| == NUM && ChainOk(next, more, owner, t, pcs[t])
    ensures !free[pcs[t].a] && !free[pcs[t].b] && !free[pcs[t].c]
    ensures pcs[t].a in stage && (done[pcs[t].a] ==> stage[pcs[t].a] == Complete)
  {
    assert ChainOk(next, more, owner, t, pcs[t]);
  }

  lemma HeadsFinish(stage: map<nat, Stage>, done: seq<bool>, owner: map<nat, nat>, pcs: map<nat, Pc>, next: seq<nat>,
                    more: seq<bool>, free: seq<bool>, t: nat)
    requires Heads(stage, done, owner, pcs) && Parts(free, next, more, owner, pcs) && t in pcs && pcs[t].InFlight?
    ensures Heads(stage - {pcs[t].a}, done, owner - {pcs[t].a, pcs[t].b, pcs[t].c}, pcs[t := Idle])
  {
    var pc := pcs[t];
    assert ChainOk(next, more, owner, t, pc);
    forall u | u in pcs && u != t && pcs[u].InFlight? ensures pcs[u].a in stage - {pc.a} {
      assert ChainOk(next, more, owner, u, pcs[u]);
    }
  }

  lemma ThreeFreed(f: seq<bool>, f': seq<bool>, pc: Pc)
    requires |f| == NUM && |f'| == NUM && pc.InFlight? && pc.a < NUM && pc.b < NUM && pc.c < NUM
    requires pc.a != pc.b && pc.a != pc.c && pc.b != pc.c && !f[pc.a] && !f[pc.b] && !f[pc.c]
    requires forall i :: 0 <= i < NUM ==> f'[i] == (f[i] || Member(pc, i))
    ensures |FreeSet(f')| == |FreeSet(f)| + 3
  {
    assert FreeSet(f') == FreeSet(f) + {pc.a, pc.b, pc.c};
    assert |{pc.a, pc.b, pc.c}| == 3;
  }

  lemma GoneIdle(q: seq<nat>, p: map<nat, Pc>, t: nat)
    requires QueueOk(q, p) && t in p && p[t].InFlight?
    ensures QueueOk(q, p[t := Idle]) && WokenSet(p[t := Idle]) == WokenSet(p)
  {
  }

  lemma FinishQueue(q: seq<nat>, p: map<nat, Pc>, f: seq<bool>, f': seq<bool>, next: seq<nat>, more: seq<bool>,
                    n: seq<nat>, m: seq<bool>, owner: map<nat, nat>, t: nat)
    requires Parts(f, n, m, owner, p) && QueueOk(q, p) && Wakeups(q, p, f) && t in p && p[t].InFlight? && |f'| == NUM
    requires |f| == NUM
    requires forall i :: 0 <= i < NUM ==> f'[i] == (f[i] || Member(p[t], i))
    ensures QueueOk(Rest(q, 3), Wake(p, q, 3)[t := Idle]) && Wakeups(Rest(q, 3), Wake(p, q, 3)[t := Idle], f')
  {
    hide QueueOk, Wake, WokenSet, FreeSet;
    WakeOk(q, p, 3);
    GoneIdle(Rest(q, 3), Wake(p, q, 3), t);
    if Rest(q, 3) != [] {
      assert ChainOk(n, m, owner, t, p[t]);
      WakeCount(q, p, 3);
      ThreeFreed(f, f', p[t]);
    }
  }
}
