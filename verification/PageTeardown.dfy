/** free_pagetable_pages (os/mm/vmem.cc): the recursive release of the table pages. */
module PageTeardown {
  import opened Basics
  import opened PageTable
  import opened PageMemory

  /** pos is `above` or a position below it. */
  ghost predicate Under(pos: Pos, above: Pos)
  {
    pos == above || above.Root? || (above.Mid? && pos.Leaf? && pos.i2 == above.i2)
  }

  /** The entry of the table at `above` through which a position below it is reached. */
  ghost function Branch(above: Pos, pos: Pos): (i: nat)
    requires Under(pos, above) && pos != above
  {
    if above.Root? then pos.i2 else pos.i1
  }

  ghost function Subtree(role: map<nat, Pos>, above: Pos): (s: set<nat>)
  {
    set p | p in role && Under(role[p], above)
  }

  /** The pages strictly below `above` through its entries [lo, hi). */
  ghost function Branches(role: map<nat, Pos>, above: Pos, lo: nat, hi: nat): (s: set<nat>)
  {
    set p | p in role && Under(role[p], above) && role[p] != above && lo <= Branch(above, role[p]) < hi
  }

  ghost predicate Intact(s: Snap, w0: Words, pages: set<nat>)
  {
    forall p :: p in pages ==> p in s.words && p in w0 && s.words[p] == w0[p] && p !in s.free
  }

  /** No last-level table among the pages has a valid entry. */
  ghost predicate Clear(w0: Words, role: map<nat, Pos>, pages: set<nat>)
  {
    forall p: nat, i: nat :: p in pages && p in role && role[p].Leaf? ==> !IsValid(Entry(w0, p, i))
  }

  /** Valid last-level entries carry a permission, so that none is taken for a table. */
  ghost predicate LeavesArePages(w0: Words, role: map<nat, Pos>)
  {
    forall p: nat, i: nat :: p in role && role[p].Leaf? && IsValid(Entry(w0, p, i)) ==> !IsPointer(Entry(w0, p, i))
  }

  /** The first i entries of page p are done. */
  ghost predicate Progress(w0: Words, role: map<nat, Pos>, p: nat, i: nat, s0: Snap, s: Snap)
    requires p in role
  {
    && RowLeft(w0, p, i, s)
    && Intact(s, w0, Branches(role, role[p], i, ENTRIES)) && p !in s.free
    && Elems(s.free) == Elems(s0.free) + Branches(role, role[p], 0, i)
    && Clear(w0, role, Branches(role, role[p], 0, i))
    && (role[p].Leaf? ==> forall j: nat :: j < i ==> !IsValid(Entry(w0, p, j)))
    && SameOutside(s0.words, s.words, Subtree(role, role[p]))
  }

  ghost predicate RowLeft(w0: Words, p: nat, i: nat, s: Snap)
  {
    && IsTable(w0, p) && p in s.words && |s.words[p]| == ENTRIES
    && forall j :: i <= j < ENTRIES ==> s.words[p][j] == w0[p][j]
  }

  function Height(pos: Pos): (h: nat) { match pos case Root => 2 case Mid(_) => 1 case Leaf(_, _) => 0 }

  method FreeTables(mem: Memory, ghost w0: Words, ghost root: nat, ghost role: map<nat, Pos>, p: nat) returns (ok: bool)
    requires mem.Valid() && TreeOk(w0, root, role) && p in role && LeavesArePages(w0, role)
    requires Intact(mem.Now(), w0, Subtree(role, role[p])) && forall r :: r in role ==> mem.InRange(r)
    modifies mem`free, mem`count, mem`words
    ensures mem.Valid() && SameOutside(old(mem.words), mem.words, Subtree(role, role[p]))
    ensures ok <==> Clear(w0, role, Subtree(role, role[p]))
    ensures ok ==> Elems(mem.free) == Elems(old(mem.free)) + Subtree(role, role[p])
    decreases Height(role[p])
  {
    hide TreeOk, Elems, Subtree, Branches, Clear, Progress, Intact, SameOutside, IsValid, IsPointer, PaOf, NoDup;
    hide LeavesArePages, Memory.InRange, Memory.Valid;
    ghost var s0 := mem.Now();
    ProgressStart(w0, root, role, p, s0);
    var i := 0;
    while i < ENTRIES
      invariant i <= ENTRIES && mem.Valid() && Progress(w0, role, p, i, s0, mem.Now())
    {
      ghost var s1 := mem.Now();
      RowEntry(w0, role, p, i, s0, s1);
      var pte := mem.words[p][i];
      if IsValid(pte) && IsPointer(pte) {
        ChildReady(w0, root, role, p, i, s0, s1);
        ok := FreeTables(mem, w0, root, role, PaOf(pte));
        ChildOutside(w0, root, role, p, i, s0, s1, mem.Now());
        if !ok { return; }
        mem.Store(p, i, 0);
        ChildStep(w0, root, role, p, i, s0, s1, mem.Now());
      } else if IsValid(pte) {
        LeafFound(w0, root, role, p, i, s0, s1);
        return false;
      } else {
        SkipStep(w0, root, role, p, i, s0, s1);
      }
      i := i + 1;
    }
    ProgressEnd(w0, root, role, p, s0, mem.Now());
    ok := mem.FreePage(p);
    ElemsPush(p, s0, mem.Now(), Branches(role, role[p], 0, ENTRIES));
  }

  lemma ProgressStart(w0: Words, root: nat, role: map<nat, Pos>, p: nat, s0: Snap)
    requires TreeOk(w0, root, role) && p in role && Intact(s0, w0, Subtree(role, role[p]))
    ensures Progress(w0, role, p, 0, s0, s0)
  {
    assert p in Subtree(role, role[p]);
    assert Branches(role, role[p], 0, 0) == {};
    assert Branches(role, role[p], 0, ENTRIES) <= Subtree(role, role[p]);
  }

  lemma RowEntry(w0: Words, role: map<nat, Pos>, p: nat, i: nat, s0: Snap, s: Snap)
    requires p in role && i < ENTRIES && Progress(w0, role, p, i, s0, s)
    ensures p in s.words && |s.words[p]| == ENTRIES && s.words[p][i] == Entry(w0, p, i)
  {
  }

  /** A valid entry without permissions leads to the subtree of one branch. */
  lemma ChildReady(w0: Words, root: nat, role: map<nat, Pos>, p: nat, i: nat, s0: Snap, s: Snap)
    requires TreeOk(w0, root, role) && p in role && i < ENTRIES && Progress(w0, role, p, i, s0, s)
    requires LeavesArePages(w0, role)
    requires IsValid(Entry(w0, p, i)) && IsPointer(Entry(w0, p, i))
    ensures !role[p].Leaf?
    ensures var c := PaOf(Entry(w0, p, i));
            c in role && role[c] == Below(role[p], i) && Intact(s, w0, Subtree(role, role[c]))
  {
    hide IsValid, IsPointer, PaOf, Entry;
    assert !role[p].Leaf?;
    assert TableAt(w0, root, role[p]) == Some(p);
    assert TableAt(w0, root, Below(role[p], i)) == Some(PaOf(Entry(w0, p, i)));
    BranchSplit(role, role[p], i);
    assert Branches(role, role[p], i, i + 1) <= Branches(role, role[p], i, ENTRIES);
  }

  lemma BranchSplit(role: map<nat, Pos>, above: Pos, i: nat)
    requires !above.Leaf?
    ensures Branches(role, above, 0, i + 1) == Branches(role, above, 0, i) + Subtree(role, Below(above, i))
    ensures Branches(role, above, i, i + 1) == Subtree(role, Below(above, i))
    ensures Branches(role, above, 0, i) !! Subtree(role, Below(above, i))
    ensures Branches(role, above, i + 1, ENTRIES) !! Subtree(role, Below(above, i))
    ensures Subtree(role, Below(above, i)) <= Subtree(role, above)
  {
  }

  lemma ChildOutside(w0: Words, root: nat, role: map<nat, Pos>, p: nat, i: nat, s0: Snap, s1: Snap, s2: Snap)
    requires TreeOk(w0, root, role) && p in role && !role[p].Leaf? && i < ENTRIES && Progress(w0, role, p, i, s0, s1)
    requires SameOutside(s1.words, s2.words, Subtree(role, Below(role[p], i)))
    ensures SameOutside(s0.words, s2.words, Subtree(role, role[p]))
    ensures p in s2.words && |s2.words[p]| == ENTRIES
    ensures !Clear(w0, role, Subtree(role, Below(role[p], i))) ==> !Clear(w0, role, Subtree(role, role[p]))
  {
    hide Subtree, Elems, Branches, Intact, Entry, IsValid, TreeOk;
    BranchSplit(role, role[p], i);
    NotBelowItself(role, p, i);
  }

  lemma NotBelowItself(role: map<nat, Pos>, p: nat, i: nat)
    requires p in role && !role[p].Leaf?
    ensures p !in Subtree(role, Below(role[p], i)) && p in Subtree(role, role[p])
  {
  }

  lemma ChildStep(w0: Words, root: nat, role: map<nat, Pos>, p: nat, i: nat, s0: Snap, s1: Snap, s3: Snap)
    requires TreeOk(w0, root, role) && p in role && !role[p].Leaf? && i < ENTRIES && Progress(w0, role, p, i, s0, s1)
    requires exists w2: Words ::
            p in w2 && i < |w2[p]| && s3.words == SetEntry(w2, p, i, 0)
            && SameOutside(s1.words, w2, Subtree(role, Below(role[p], i)))
    requires Elems(s3.free) == Elems(s1.free) + Subtree(role, Below(role[p], i))
    requires Clear(w0, role, Subtree(role, Below(role[p], i)))
    ensures Progress(w0, role, p, i + 1, s0, s3)
  {
    hide Subtree, Branches, IsValid, TreeOk, Entry, Elems;
    var w2: Words :| p in w2 && i < |w2[p]| && s3.words == SetEntry(w2, p, i, 0)
        && SameOutside(s1.words, w2, Subtree(role, Below(role[p], i)));
    BranchSplit(role, role[p], i);
    NotBelowItself(role, p, i);
    NotInBranches(role, p, i);
    assert p in s1.words && w2[p] == s1.words[p];
    InElems(s1.free, p);
    InElems(s3.free, p);
    forall r | r in Branches(role, role[p], i + 1, ENTRIES)
      ensures r in s3.words && r in w0 && s3.words[r] == w0[r] && r !in s3.free
    {
      assert r in Branches(role, role[p], i, ENTRIES);
      InElems(s1.free, r);
      InElems(s3.free, r);
    }
  }

  lemma NotInBranches(role: map<nat, Pos>, p: nat, i: nat)
    requires p in role
    ensures p !in Branches(role, role[p], i, ENTRIES)
    ensures p !in Branches(role, role[p], i + 1, ENTRIES)
    ensures Branches(role, role[p], i + 1, ENTRIES) <= Branches(role, role[p], i, ENTRIES)
    ensures Branches(role, role[p], i, ENTRIES) <= Subtree(role, role[p])
  {
  }

  lemma LeafFound(w0: Words, root: nat, role: map<nat, Pos>, p: nat, i: nat, s0: Snap, s: Snap)
    requires TreeOk(w0, root, role) && p in role && i < ENTRIES && Progress(w0, role, p, i, s0, s)
    requires IsValid(Entry(w0, p, i)) && !IsPointer(Entry(w0, p, i))
    ensures !Clear(w0, role, Subtree(role, role[p])) && SameOutside(s0.words, s.words, Subtree(role, role[p]))
  {
    hide Elems, IsValid, Entry, Branches;
    assert role[p].Leaf?;
    assert p in Subtree(role, role[p]);
  }

  lemma SkipStep(w0: Words, root: nat, role: map<nat, Pos>, p: nat, i: nat, s0: Snap, s: Snap)
    requires TreeOk(w0, root, role) && p in role && i < ENTRIES && Progress(w0, role, p, i, s0, s)
    requires !IsValid(Entry(w0, p, i))
    ensures Progress(w0, role, p, i + 1, s0, s)
  {
    hide Elems, IsValid, Entry, Branches, Subtree, TreeOk;
    NotInBranches(role, p, i);
    if role[p].Leaf? {
      LeafBranches(role, role[p], i);
    } else {
      BranchSplit(role, role[p], i);
      EmptyBranch(w0, root, role, p, i);
    }
  }

  lemma LeafBranches(role: map<nat, Pos>, above: Pos, i: nat)
    requires above.Leaf?
    ensures Branches(role, above, 0, i) == {} && Branches(role, above, 0, i + 1) == {}
    ensures Subtree(role, above) == set p | p in role && role[p] == above
  {
  }

  lemma EmptyBranch(w0: Words, root: nat, role: map<nat, Pos>, p: nat, i: nat)
    requires TreeOk(w0, root, role) && p in role && !role[p].Leaf? && !IsValid(Entry(w0, p, i))
    ensures Subtree(role, Below(role[p], i)) == {}
  {
    hide IsValid, Entry, PaOf;
    assert TableAt(w0, root, role[p]) == Some(p);
    forall r | r in role ensures !Under(role[r], Below(role[p], i)) {
      assert TableAt(w0, root, role[r]) == Some(r);
    }
  }

  lemma ProgressEnd(w0: Words, root: nat, role: map<nat, Pos>, p: nat, s0: Snap, s: Snap)
    requires TreeOk(w0, root, role) && p in role && Progress(w0, role, p, ENTRIES, s0, s)
    ensures Subtree(role, role[p]) == Branches(role, role[p], 0, ENTRIES) + {p}
    ensures Clear(w0, role, Subtree(role, role[p])) && SameOutside(s0.words, s.words, Subtree(role, role[p]))
    ensures Elems(s.free) == Elems(s0.free) + Branches(role, role[p], 0, ENTRIES) && p !in s.free
  {
    hide Elems, IsValid;
    AllBranches(w0, root, role, p);
    if role[p].Leaf? {
      forall j: nat ensures !IsValid(Entry(w0, p, j)) { if j >= ENTRIES { EmptyEntry(); } }
    }
  }

  lemma AllBranches(w0: Words, root: nat, role: map<nat, Pos>, p: nat)
    requires TreeOk(w0, root, role) && p in role
    ensures Subtree(role, role[p]) == Branches(role, role[p], 0, ENTRIES) + {p}
  {
    hide PaOf, IsPointer;
    forall r | r in Subtree(role, role[p]) && r != p ensures r in Branches(role, role[p], 0, ENTRIES) {
      assert TableAt(w0, root, role[r]) == Some(r);
      assert TableAt(w0, root, role[p]) == Some(p);
      IndexesBound(w0, root, role[r]);
    }
  }

  lemma IndexesBound(words: Words, root: nat, pos: Pos)
    requires TableAt(words, root, pos).Some?
    ensures pos.Mid? ==> pos.i2 < ENTRIES
    ensures pos.Leaf? ==> pos.i2 < ENTRIES && pos.i1 < ENTRIES
  {
    EmptyEntry();
  }

  lemma ElemsPush(p: nat, s0: Snap, s: Snap, b: set<nat>)
    requires exists f :: s.free == [p] + f && Elems(f) == Elems(s0.free) + b
    ensures Elems(s.free) == Elems(s0.free) + (b + {p})
  {
    var f :| s.free == [p] + f && Elems(f) == Elems(s0.free) + b;
    forall x: nat ensures x in Elems(s.free) <==> x in Elems(s0.free) + (b + {p}) {
      assert x in s.free <==> x == p || x in f;
      assert x in Elems(f) <==> x in f;
    }
  }
}
