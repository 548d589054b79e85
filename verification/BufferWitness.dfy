/** Two runs of the buffer cache from the empty cache, with two evictions in flight: in one a
    session loads stale contents, in the other a write is lost. */
module BufferWitness {
  import opened Basics
  import opened BufferCache
  import opened BufferCoherence

  /** One buffer is kept before buffers are reused. */
  function C(): (c: Config) { Config(1, 8) }

  ghost function Empty(): (s: State)
  {
    State([], [], map[], map[10 := 0, 20 := 0, 30 := 0], map[1 := Idle, 2 := Idle])
  }

  /** The plain disk map after a path: only the writes of holders count. */
  ghost function PathLogical(c: Config, s: State, events: seq<Event>, l: Disk): (r: Disk)
    requires IsPath(c, s, events)
    decreases |events|
  {
    if events == [] then l
    else PathLogical(c, Next(c, s, events[0]), events[1..], NextLogical(s, events[0], l))
  }

  /** The events lead from s with logical contents l to s' with l'. */
  ghost predicate Leads(c: Config, s: State, l: Disk, events: seq<Event>, s': State, l': Disk)
  {
    IsPath(c, s, events) && PathEnd(c, s, events) == s' && PathLogical(c, s, events, l) == l'
  }

  lemma {:induction false} LogicalJoin(c: Config, s: State, p: seq<Event>, q: seq<Event>, l: Disk)
    requires IsPath(c, s, p) && IsPath(c, PathEnd(c, s, p), q) && IsPath(c, s, p + q)
    ensures PathLogical(c, s, p + q, l) == PathLogical(c, PathEnd(c, s, p), q, PathLogical(c, s, p, l))
    decreases |p|
  {
    hide Enabled, Next, NextLogical;
    if p == [] {
      assert p + q == q;
    } else {
      assert (p + q)[1..] == p[1..] + q;
      LogicalJoin(c, Next(c, s, p[0]), p[1..], q, NextLogical(s, p[0], l));
    }
  }

  lemma LeadsOn(c: Config, s: State, l: Disk, p: seq<Event>, s1: State, l1: Disk, q: seq<Event>, s2: State, l2: Disk)
    requires Leads(c, s, l, p, s1, l1) && Leads(c, s1, l1, q, s2, l2)
    ensures Leads(c, s, l, p + q, s2, l2)
  {
    hide IsPath, PathEnd, PathLogical;
    PathJoin(c, s, p, q);
    LogicalJoin(c, s, p, q, l);
  }

  lemma LeadsOne(c: Config, s: State, l: Disk, e: Event)
    requires Enabled(s, e)
    ensures Leads(c, s, l, [e], Next(c, s, e), NextLogical(s, e, l))
  {
    hide Enabled, Next, NextLogical;
    OneStep(c, s, e);
    assert [e][1..] == [] && [e][0] == e;
    assert PathLogical(c, Next(c, s, e), [e][1..], NextLogical(s, e, l)) == NextLogical(s, e, l);
  }

  /** One more event that is not a write. */
  lemma Then(c: Config, s: State, l: Disk, p: seq<Event>, s1: State, l1: Disk, e: Event, s2: State)
    requires Leads(c, s, l, p, s1, l1) && Enabled(s1, e) && !e.Write? && Next(c, s1, e) == s2
    ensures Leads(c, s, l, p + [e], s2, l1)
  {
    hide Leads, Enabled, Next;
    LeadsOne(c, s1, l1, e);
    LeadsOn(c, s, l, p, s1, l1, [e], s2, l1);
  }

  /** What the holder of a buffer that is not loaded yet does to write v and go. */
  function WriteBlock(t: nat, v: Data): (p: seq<Event>)
  {
    [Lock(t), Read(t), Loaded(t), Write(t, v), Unlock(t), Drop(t)]
  }

  lemma WriteBlockLeads(c: Config, s: State, l: Disk, t: nat, n: nat, k: Key, v: Data)
    requires t in s.pcs && s.pcs[t] == Holding(n) && Has(s.nodes, n, k) && k in s.disk && !s.nodes[n].valid
    requires s.nodes[n].lock == None
    ensures Leads(c, s, l, WriteBlock(t, v),
                  SetPc(SetNode(s, n, Node(Some(k), true, true, v, s.nodes[n].owners - {t}, None)), t, Idle), l[k := v])
  {
    hide Leads;
    var x := s.nodes[n];
    var s1 := Next(c, s, Lock(t));
    var s2 := Next(c, s1, Read(t));
    var s3 := Next(c, s2, Loaded(t));
    LeadsOne(c, s, l, Lock(t));
    Then(c, s, l, [Lock(t)], s1, l, Read(t), s2);
    Then(c, s, l, [Lock(t)] + [Read(t)], s2, l, Loaded(t), s3);
    WriteAndGo(c, s, s3, l, t, n, k, v);
    LeadsOn(c, s, l, [Lock(t)] + [Read(t)] + [Loaded(t)], s3, l, [Write(t, v)] + [Unlock(t)] + [Drop(t)],
            SetPc(SetNode(s, n, Node(Some(k), true, true, v, x.owners - {t}, None)), t, Idle), l[k := v]);
    assert [Lock(t)] + [Read(t)] + [Loaded(t)] + ([Write(t, v)] + [Unlock(t)] + [Drop(t)]) == WriteBlock(t, v);
  }

  lemma WriteAndGo(c: Config, s: State, s3: State, l: Disk, t: nat, n: nat, k: Key, v: Data)
    requires t in s.pcs && Has(s.nodes, n, k) && k in s.disk
    requires s3 == SetPc(SetNode(s, n, Node(Some(k), true, false, s.disk[k], s.nodes[n].owners, Some(t))), t, Locked(n))
    ensures Leads(c, s3, l, [Write(t, v)] + [Unlock(t)] + [Drop(t)],
                  SetPc(SetNode(s, n, Node(Some(k), true, true, v, s.nodes[n].owners - {t}, None)), t, Idle), l[k := v])
  {
    hide Leads;
    var s4 := Next(c, s3, Write(t, v));
    var s5 := Next(c, s4, Unlock(t));
    var s6 := Next(c, s5, Drop(t));
    LeadsOne(c, s3, l, Write(t, v));
    Then(c, s3, l, [Write(t, v)], s4, l[k := v], Unlock(t), s5);
    Then(c, s3, l, [Write(t, v)] + [Unlock(t)], s5, l[k := v], Drop(t), s6);
    assert s6 == SetPc(SetNode(s, n, Node(Some(k), true, true, v, s.nodes[n].owners - {t}, None)), t, Idle);
  }

  // ------------------------------------------------------------ two evictions in flight

  ghost function A1(): (s: State)
  {
    State([0], [],
          map[0 := Node(Some(10), false, false, 0, {1}, None)],
          map[10 := 0, 20 := 0, 30 := 0],
          map[1 := Holding(0), 2 := Idle])
  }

  ghost function A2(): (s: State)
  {
    State([0], [],
          map[0 := Node(Some(10), true, true, 5, {}, None)],
          map[10 := 0, 20 := 0, 30 := 0],
          map[1 := Idle, 2 := Idle])
  }

  ghost function A3(): (s: State)
  {
    State([], [0],
          map[0 := Node(Some(10), true, true, 5, {}, None)],
          map[10 := 0, 20 := 0, 30 := 0],
          map[1 := Flushing(20, 0, false), 2 := Idle])
  }

  ghost function A4(): (s: State)
  {
    State([1], [0],
          map[0 := Node(Some(10), true, true, 5, {}, None), 1 := Node(Some(20), false, false, 0, {2}, None)],
          map[10 := 0, 20 := 0, 30 := 0],
          map[1 := Flushing(20, 0, false), 2 := Holding(1)])
  }

  ghost function A5(v: Data): (s: State)
  {
    State([1], [0],
          map[0 := Node(Some(10), true, true, 5, {}, None), 1 := Node(Some(20), true, true, v, {}, None)],
          map[10 := 0, 20 := 0, 30 := 0],
          map[1 := Flushing(20, 0, false), 2 := Idle])
  }

  ghost function A6(v: Data): (s: State)
  {
    State([], [0, 1],
          map[0 := Node(Some(10), true, true, 5, {}, None), 1 := Node(Some(20), true, true, v, {}, None)],
          map[10 := 0, 20 := 0, 30 := 0],
          map[1 := Flushing(20, 0, false), 2 := Flushing(30, 1, false)])
  }

  ghost function A7(v: Data): (s: State)
  {
    State([], [0, 1],
          map[0 := Node(Some(10), true, true, 5, {}, None), 1 := Node(Some(20), true, true, v, {}, None)],
          map[10 := 5, 20 := 0, 30 := 0],
          map[1 := Flushing(20, 0, true), 2 := Flushing(30, 1, false)])
  }

  lemma StepA1()
    ensures Enabled(Empty(), Get(1, 10, 0)) && Next(C(), Empty(), Get(1, 10, 0)) == A1()
  {
  }

  lemma StepA3()
    ensures Enabled(A2(), Get(1, 20, 1)) && Next(C(), A2(), Get(1, 20, 1)) == A3()
  {
  }

  lemma StepA4()
    ensures Enabled(A3(), Get(2, 20, 1)) && Next(C(), A3(), Get(2, 20, 1)) == A4()
  {
  }

  lemma StepA6(v: Data)
    ensures Enabled(A5(v), Get(2, 30, 2)) && Next(C(), A5(v), Get(2, 30, 2)) == A6(v)
  {
  }

  lemma StepA7(v: Data)
    ensures Enabled(A6(v), Written(1)) && Next(C(), A6(v), Written(1)) == A7(v)
  {
  }

  /** Session 1 writes 5 to block 10 and then wants block 20; while its eviction of block 10 is in
      flight, session 2 writes v to block 20 and then wants block 30. */
  function Setup(v: Data): (p: seq<Event>)
  {
    [Get(1, 10, 0)] + WriteBlock(1, 5) + [Get(1, 20, 1)] + [Get(2, 20, 1)] + WriteBlock(2, v)
    + [Get(2, 30, 2)] + [Written(1)]
  }

  lemma WroteA2()
    ensures SetPc(SetNode(A1(), 0, Node(Some(10), true, true, 5, A1().nodes[0].owners - {1}, None)), 1, Idle) == A2()
  {
    assert A1().nodes[0].owners - {1} == {};
    assert A1().nodes[0 := A2().nodes[0]] == A2().nodes && A1().pcs[1 := Idle] == A2().pcs;
  }

  lemma WroteA5(v: Data)
    ensures SetPc(SetNode(A4(), 1, Node(Some(20), true, true, v, A4().nodes[1].owners - {2}, None)), 2, Idle) == A5(v)
  {
    assert A4().nodes[1].owners - {2} == {};
    assert A4().nodes[1 := A5(v).nodes[1]] == A5(v).nodes && A4().pcs[2 := Idle] == A5(v).pcs;
  }

  lemma SetupLeads(v: Data)
    ensures Leads(C(), Empty(), Empty().disk, Setup(v), A7(v), map[10 := 5, 20 := v, 30 := 0])
  {
    hide Leads, Enabled, Next;
    var l := Empty().disk;
    StepA1();
    LeadsOne(C(), Empty(), l, Get(1, 10, 0));
    WriteBlockLeads(C(), A1(), l, 1, 0, 10, 5);
    WroteA2();
    var p := [Get(1, 10, 0)] + WriteBlock(1, 5);
    LeadsOn(C(), Empty(), l, [Get(1, 10, 0)], A1(), l, WriteBlock(1, 5), A2(), l[10 := 5]);
    StepA3();
    Then(C(), Empty(), l, p, A2(), l[10 := 5], Get(1, 20, 1), A3());
    StepA4();
    Then(C(), Empty(), l, p + [Get(1, 20, 1)], A3(), l[10 := 5], Get(2, 20, 1), A4());
    SecondHalf(v, p + [Get(1, 20, 1)] + [Get(2, 20, 1)]);
  }

  lemma SecondHalf(v: Data, p: seq<Event>)
    requires Leads(C(), Empty(), Empty().disk, p, A4(), Empty().disk[10 := 5])
    ensures Leads(C(), Empty(), Empty().disk, p + WriteBlock(2, v) + [Get(2, 30, 2)] + [Written(1)],
                  A7(v), map[10 := 5, 20 := v, 30 := 0])
  {
    hide Leads, Enabled, Next;
    var l := Empty().disk;
    WriteBlockLeads(C(), A4(), l[10 := 5], 2, 1, 20, v);
    WroteA5(v);
    var l' := l[10 := 5][20 := v];
    assert l' == map[10 := 5, 20 := v, 30 := 0];
    LeadsOn(C(), Empty(), l, p, A4(), l[10 := 5], WriteBlock(2, v), A5(v), l');
    StepA6(v);
    Then(C(), Empty(), l, p + WriteBlock(2, v), A5(v), l', Get(2, 30, 2), A6(v));
    StepA7(v);
    Then(C(), Empty(), l, p + WriteBlock(2, v) + [Get(2, 30, 2)], A6(v), l', Written(1), A7(v));
  }

  ghost function Stale(): (s: State)
  {
    SetPc(SetNode(A7(7).(buffer := [0], flush := [1]), 0, Node(Some(20), true, false, 0, {1}, Some(1))), 1, Locked(0))
  }

  lemma ReadBack()
    ensures Leads(C(), A7(7), map[10 := 5, 20 := 7, 30 := 0], [Flushed(1)] + [Lock(1)] + [Read(1)] + [Loaded(1)],
                  Stale(), map[10 := 5, 20 := 7, 30 := 0])
  {
    hide Leads;
    var s, l := A7(7), map[10 := 5, 20 := 7, 30 := 0];
    assert Remove([0, 1], 0) == [1];
    var s1 := Next(C(), s, Flushed(1));
    var s2 := Next(C(), s1, Lock(1));
    var s3 := Next(C(), s2, Read(1));
    LeadsOne(C(), s, l, Flushed(1));
    Then(C(), s, l, [Flushed(1)], s1, l, Lock(1), s2);
    Then(C(), s, l, [Flushed(1)] + [Lock(1)], s2, l, Read(1), s3);
    Then(C(), s, l, [Flushed(1)] + [Lock(1)] + [Read(1)], s3, l, Loaded(1), Stale());
  }

  /** From the empty cache: session 1 comes back from its eviction while session 2 still has to write
      contents 7 of block 20, and holds the old contents 0 as valid. */
  lemma StaleRead()
    ensures var p := Setup(7) + ([Flushed(1)] + [Lock(1)] + [Read(1)] + [Loaded(1)]);
            Leads(C(), Empty(), Empty().disk, p, Stale(), map[10 := 5, 20 := 7, 30 := 0])
    ensures Stale().pcs[1] == Locked(0) && Stale().nodes[0].valid && Stale().nodes[0].key == Some(20)
    ensures Stale().nodes[0].data == 0
  {
    hide Leads;
    SetupLeads(7);
    ReadBack();
    LeadsOn(C(), Empty(), Empty().disk, Setup(7), A7(7), map[10 := 5, 20 := 7, 30 := 0],
            [Flushed(1)] + [Lock(1)] + [Read(1)] + [Loaded(1)], Stale(), map[10 := 5, 20 := 7, 30 := 0]);
  }

  // ------------------------------------------------------------ a lost write

  ghost function B1(): (s: State)
  {
    State([0], [1],
          map[0 := Node(Some(20), false, false, 5, {1}, None), 1 := Node(Some(20), true, true, 0, {}, None)],
          map[10 := 5, 20 := 0, 30 := 0],
          map[1 := Holding(0), 2 := Flushing(30, 1, false)])
  }

  ghost function B2(): (s: State)
  {
    State([0], [1],
          map[0 := Node(Some(20), true, true, 9, {}, None), 1 := Node(Some(20), true, true, 0, {}, None)],
          map[10 := 5, 20 := 0, 30 := 0],
          map[1 := Idle, 2 := Flushing(30, 1, false)])
  }

  ghost function B3(): (s: State)
  {
    State([], [1, 0],
          map[0 := Node(Some(20), true, true, 9, {}, None), 1 := Node(Some(20), true, true, 0, {}, None)],
          map[10 := 5, 20 := 0, 30 := 0],
          map[1 := Flushing(10, 0, false), 2 := Flushing(30, 1, false)])
  }

  ghost function B4(): (s: State)
  {
    State([], [1, 0],
          map[0 := Node(Some(20), true, true, 9, {}, None), 1 := Node(Some(20), true, true, 0, {}, None)],
          map[10 := 5, 20 := 9, 30 := 0],
          map[1 := Flushing(10, 0, true), 2 := Flushing(30, 1, false)])
  }

  ghost function B5(): (s: State)
  {
    State([], [1, 0],
          map[0 := Node(Some(20), true, true, 9, {}, None), 1 := Node(Some(20), true, true, 0, {}, None)],
          map[10 := 5, 20 := 0, 30 := 0],
          map[1 := Flushing(10, 0, true), 2 := Flushing(30, 1, true)])
  }

  ghost function B6(): (s: State)
  {
    State([0], [1],
          map[0 := Node(Some(10), false, false, 9, {1}, None), 1 := Node(Some(20), true, true, 0, {}, None)],
          map[10 := 5, 20 := 0, 30 := 0],
          map[1 := Holding(0), 2 := Flushing(30, 1, true)])
  }

  ghost function B7(): (s: State)
  {
    State([0], [1],
          map[0 := Node(Some(10), false, false, 9, {}, None), 1 := Node(Some(20), true, true, 0, {}, None)],
          map[10 := 5, 20 := 0, 30 := 0],
          map[1 := Idle, 2 := Flushing(30, 1, true)])
  }

  ghost function B8(): (s: State)
  {
    State([1, 0], [],
          map[0 := Node(Some(10), false, false, 9, {}, None), 1 := Node(Some(30), false, false, 0, {2}, None)],
          map[10 := 5, 20 := 0, 30 := 0],
          map[1 := Idle, 2 := Holding(1)])
  }

  ghost function B9(): (s: State)
  {
    State([0, 1], [],
          map[0 := Node(Some(20), false, false, 9, {1}, None), 1 := Node(Some(30), false, false, 0, {2}, None)],
          map[10 := 5, 20 := 0, 30 := 0],
          map[1 := Holding(0), 2 := Holding(1)])
  }

  ghost function B10(): (s: State)
  {
    State([0, 1], [],
          map[0 := Node(Some(20), false, false, 9, {1}, Some(1)), 1 := Node(Some(30), false, false, 0, {2}, None)],
          map[10 := 5, 20 := 0, 30 := 0],
          map[1 := Locked(0), 2 := Holding(1)])
  }

  ghost function B11(): (s: State)
  {
    State([0, 1], [],
          map[0 := Node(Some(20), false, false, 0, {1}, Some(1)), 1 := Node(Some(30), false, false, 0, {2}, None)],
          map[10 := 5, 20 := 0, 30 := 0],
          map[1 := Loading(0), 2 := Holding(1)])
  }

  ghost function B12(): (s: State)
  {
    State([0, 1], [],
          map[0 := Node(Some(20), true, false, 0, {1}, Some(1)), 1 := Node(Some(30), false, false, 0, {2}, None)],
          map[10 := 5, 20 := 0, 30 := 0],
          map[1 := Locked(0), 2 := Holding(1)])
  }

  lemma WroteB2()
    ensures SetPc(SetNode(B1(), 0, Node(Some(20), true, true, 9, B1().nodes[0].owners - {1}, None)), 1, Idle) == B2()
  {
    assert B1().nodes[0].owners - {1} == {};
    assert B1().nodes[0 := B2().nodes[0]] == B2().nodes && B1().pcs[1 := Idle] == B2().pcs;
  }

  lemma StepB1()
    ensures Enabled(A7(0), Flushed(1)) && Next(C(), A7(0), Flushed(1)) == B1()
  {
    assert Remove([0, 1], 0) == [1] && Remove([1, 0], 0) == [1] && Remove([1], 1) == [];
  }

  lemma StepB3()
    ensures Enabled(B2(), Get(1, 10, 2)) && Next(C(), B2(), Get(1, 10, 2)) == B3()
  {
  }

  lemma StepB4()
    ensures Enabled(B3(), Written(1)) && Next(C(), B3(), Written(1)) == B4()
  {
  }

  lemma StepB5()
    ensures Enabled(B4(), Written(2)) && Next(C(), B4(), Written(2)) == B5()
  {
  }

  lemma StepB6()
    ensures Enabled(B5(), Flushed(1)) && Next(C(), B5(), Flushed(1)) == B6()
  {
    assert Remove([0, 1], 0) == [1] && Remove([1, 0], 0) == [1] && Remove([1], 1) == [];
  }

  lemma StepB7()
    ensures Enabled(B6(), Drop(1)) && Next(C(), B6(), Drop(1)) == B7()
  {
    assert B6().nodes[0].owners - {1} == {};
  }

  lemma StepB8()
    ensures Enabled(B7(), Flushed(2)) && Next(C(), B7(), Flushed(2)) == B8()
  {
    assert Remove([0, 1], 0) == [1] && Remove([1, 0], 0) == [1] && Remove([1], 1) == [];
  }

  lemma StepB9()
    ensures Enabled(B8(), Get(1, 20, 2)) && Next(C(), B8(), Get(1, 20, 2)) == B9()
  {
  }

  lemma StepB10()
    ensures Enabled(B9(), Lock(1)) && Next(C(), B9(), Lock(1)) == B10()
  {
  }

  lemma StepB11()
    ensures Enabled(B10(), Read(1)) && Next(C(), B10(), Read(1)) == B11()
  {
  }

  lemma StepB12()
    ensures Enabled(B11(), Loaded(1)) && Next(C(), B11(), Loaded(1)) == B12()
  {
  }

  /** Even if session 2 only has to write what the disk already holds: session 1 writes 9 to block 20, its
      eviction reaches the disk first, session 2's write undoes it, and the next reader of
      block 20 holds 0. */
  lemma LostWrite()
    ensures var p := Setup(0) + [Flushed(1)] + WriteBlock(1, 9) + [Get(1, 10, 2)] + [Written(1)] + [Written(2)]
                       + [Flushed(1)] + [Drop(1)] + [Flushed(2)] + [Get(1, 20, 2)]
                       + [Lock(1)] + [Read(1)] + [Loaded(1)];
            Leads(C(), Empty(), Empty().disk, p, B12(), map[10 := 5, 20 := 9, 30 := 0])
    ensures B12().pcs[1] == Locked(0) && B12().nodes[0].valid && B12().nodes[0].key == Some(20)
    ensures B12().nodes[0].data == 0
  {
    hide Leads, Enabled, Next;
    var s0, d := Empty(), Empty().disk;
    var l: Disk := map[10 := 5, 20 := 0, 30 := 0];
    SetupLeads(0);
    StepB1();
    Then(C(), s0, d, Setup(0), A7(0), l, Flushed(1), B1());
    WriteBlockLeads(C(), B1(), l, 1, 0, 20, 9);
    WroteB2();
    var l': Disk := map[10 := 5, 20 := 9, 30 := 0];
    assert l[20 := 9] == l';
    LeadsOn(C(), s0, d, Setup(0) + [Flushed(1)], B1(), l, WriteBlock(1, 9), B2(), l');
    var p := Setup(0) + [Flushed(1)] + WriteBlock(1, 9);
    StepB3(); StepB4(); StepB5(); StepB6(); StepB7();
    Then(C(), s0, d, p, B2(), l', Get(1, 10, 2), B3());
    Then(C(), s0, d, p + [Get(1, 10, 2)], B3(), l', Written(1), B4());
    var q := p + [Get(1, 10, 2)] + [Written(1)];
    Then(C(), s0, d, q, B4(), l', Written(2), B5());
    Then(C(), s0, d, q + [Written(2)], B5(), l', Flushed(1), B6());
    Then(C(), s0, d, q + [Written(2)] + [Flushed(1)], B6(), l', Drop(1), B7());
    StepB8(); StepB9(); StepB10(); StepB11(); StepB12();
    var r := q + [Written(2)] + [Flushed(1)] + [Drop(1)];
    Then(C(), s0, d, r, B7(), l', Flushed(2), B8());
    Then(C(), s0, d, r + [Flushed(2)], B8(), l', Get(1, 20, 2), B9());
    Then(C(), s0, d, r + [Flushed(2)] + [Get(1, 20, 2)], B9(), l', Lock(1), B10());
    Then(C(), s0, d, r + [Flushed(2)] + [Get(1, 20, 2)] + [Lock(1)], B10(), l', Read(1), B11());
    Then(C(), s0, d, r + [Flushed(2)] + [Get(1, 20, 2)] + [Lock(1)] + [Read(1)], B11(), l', Loaded(1), B12());
  }
}
