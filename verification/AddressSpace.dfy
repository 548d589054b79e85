/** The meaning of a process's list of mappings (mmap_infos in os/proc/process.h): which pages are
    mapped, by which entry of the list, and which physical pages the process must give back. */
module AddressSpace {
  import opened PageTable
  import opened PageMemory

  /** The pages [lo, lo+n) mapped by one entry of the list. */
  datatype Region = Region(lo: nat, n: nat, shared: bool, perm: nat)

  ghost predicate In(r: Region, v: nat) { r.lo <= v < r.lo + r.n }

  /** who is the inverse of the list: regions are disjoint. */
  ghost predicate RegionsOk(regions: seq<Region>, who: map<nat, nat>)
  {
    && (forall i, v: nat :: 0 <= i < |regions| && In(regions[i], v) ==> v in who && who[v] == i)
    && (forall v: nat :: v in who ==> v < MAX_PAGES && who[v] < |regions| && In(regions[who[v]], v))
  }

  /** The valid pages are those of regions k and later, with the region's flags. */
  ghost predicate LiveOk(words: Words, root: nat, regions: seq<Region>, who: map<nat, nat>, k: nat)
  {
    && (forall v: nat :: v < VPNS ==> (IsValid(PteAt(words, root, v)) <==> v in who && who[v] >= k))
    && (forall v: nat :: v in who && k <= who[v] < |regions| ==>
        FlagsOf(PteAt(words, root, v)) == OrV(regions[who[v]].perm))
  }

  /** data is the inverse of the translation on the pages that are not shared. */
  ghost predicate FramesOk(words: Words, root: nat, regions: seq<Region>, who: map<nat, nat>, data: map<nat, nat>,
                           k: nat)
  {
    && (forall v: nat :: PageFrame(words, root, regions, who, data, k, v))
    && (forall p: nat :: FramePage(words, root, regions, who, data, k, p))
  }

  ghost predicate PageFrame(words: Words, root: nat, regions: seq<Region>, who: map<nat, nat>, data: map<nat, nat>,
                            k: nat, v: nat)
  {
    v in who && k <= who[v] < |regions| && !regions[who[v]].shared ==>
      PaOf(PteAt(words, root, v)) in data && data[PaOf(PteAt(words, root, v))] == v
  }

  ghost predicate FramePage(words: Words, root: nat, regions: seq<Region>, who: map<nat, nat>, data: map<nat, nat>,
                            k: nat, p: nat)
  {
    p in data ==>
      && data[p] in who && who[data[p]] < |regions| && !regions[who[data[p]]].shared
      && (who[data[p]] >= k ==> PaOf(PteAt(words, root, data[p])) == p)
  }

  ghost predicate NotFree(free: seq<nat>, who: map<nat, nat>, data: map<nat, nat>, k: nat)
  {
    forall p :: p in data && data[p] in who && who[data[p]] >= k ==> p !in free
  }

  ghost predicate SpaceOk(s: Snap, root: nat, regions: seq<Region>, who: map<nat, nat>, data: map<nat, nat>, k: nat)
  {
    && RegionsOk(regions, who) && LiveOk(s.words, root, regions, who, k)
    && FramesOk(s.words, root, regions, who, data, k) && NotFree(s.free, who, data, k)
  }

  // ------------------------------------------------------------ what the hardware sees

  /** Bits 0 to 3 of an entry. */
  lemma PermBits(pte: nat, perm: nat)
    requires FlagsOf(pte) == OrV(perm)
    ensures pte % 2 == 1 && pte / 2 % 2 == perm / 2 % 2 && pte / 4 % 2 == perm / 4 % 2 && pte / 8 % 2 == perm / 8 % 2
  {
    var q, f := pte / 1024, OrV(perm);
    BitAbove(q, f, 1);
    BitAbove(q, f, 2);
    BitAbove(q, f, 4);
    BitAbove(q, f, 8);
    assert f / 2 == perm / 2;
    SameHalves(f, perm);
  }

  lemma BitAbove(q: nat, f: nat, w: nat)
    requires w == 1 || w == 2 || w == 4 || w == 8
    ensures (1024 * q + f) / w % 2 == f / w % 2
  {
    var k := if w == 1 then 512 * q else if w == 2 then 256 * q else if w == 4 then 128 * q else 64 * q;
    assert (1024 * q + f) / w == 2 * k + f / w;
    EvenMore(k, f / w);
  }

  lemma EvenMore(k: nat, x: nat)
    ensures (2 * k + x) % 2 == x % 2
  {
  }

  lemma SameHalves(f: nat, g: nat)
    requires f / 2 == g / 2
    ensures f / 4 == g / 4 && f / 8 == g / 8
  {
    Halved(f);
    Halved(g);
  }

  lemma Halved(f: nat)
    ensures f / 4 == f / 2 / 2 && f / 8 == f / 2 / 4
  {
  }

  lemma Hardware(words: Words, root: nat, role: map<nat, Pos>, regions: seq<Region>, who: map<nat, nat>,
                 data: map<nat, nat>, va: nat)
    requires TreeOk(words, root, role) && RegionsOk(regions, who) && LiveOk(words, root, regions, who, 0)
    requires FramesOk(words, root, regions, who, data, 0) && va < 0x80_0000_0000
    ensures match Sv39(words, root, va, 2)
            case Page(pte, level) =>
              && level == 0 && va / 0x1000 in who && who[va / 0x1000] < |regions|
              && var r := regions[who[va / 0x1000]];
                 && pte % 0x400 == OrV(r.perm) && r.lo <= va / 0x1000
                 && (!r.shared ==> pte / 0x400 * 0x1000 in data && data[pte / 0x400 * 0x1000] == va / 0x1000)
            case Fault =>
              va / 0x1000 in who && who[va / 0x1000] < |regions| ==>
                var f := regions[who[va / 0x1000]].perm; f / 2 % 2 == 0 && (f / 4 % 2 == 1 || f / 8 % 2 == 0)
  {
    hide TreeOk, PteAt, Sv39, OrV, FlagsOf, IsValid;
    HardwareWalk(words, root, role, va);
    var v := va / 0x1000;
    var pte := PteAt(words, root, v);
    assert v < VPNS;
    ValidBit(pte);
    if v in who {
      assert IsValid(pte) && FlagsOf(pte) == OrV(regions[who[v]].perm);
      PermBits(pte, regions[who[v]].perm);
      assert PageFrame(words, root, regions, who, data, 0, v);
    }
  }

  lemma ValidBit(pte: nat)
    ensures IsValid(pte) <==> pte % 2 == 1
    ensures FlagsOf(pte) == pte % 0x400
  {
    var q, f := pte / 1024, pte % 1024;
    assert pte == 2 * (512 * q) + f;
    EvenMore(512 * q, f);
  }

  // ------------------------------------------------------------ mapping

  ghost function WhoMap(lo: nat, n: nat, i: nat): (m: map<nat, nat>)
    ensures forall v: nat {:trigger v in m} :: v in m <==> lo <= v < lo + n
    ensures forall v :: v in m ==> m[v] == i
  {
    map v: nat | lo <= v < lo + n && In(Region(lo, n, false, 0), v) :: i
  }

  ghost function FrameMap(frame: nat, lo: nat, n: nat): (m: map<nat, nat>)
    ensures forall p: nat :: p in m <==> p % PGSIZE == 0 && frame <= p / PGSIZE < frame + n
    ensures forall p :: p in m ==> m[p] == lo + (p / PGSIZE - frame)
  {
    map p: nat | p in FrameSet(frame, n) :: lo + (p / PGSIZE - frame)
  }

  ghost function FrameSet(frame: nat, n: nat): (s: set<nat>)
    ensures forall p: nat :: p in s <==> p % PGSIZE == 0 && frame <= p / PGSIZE < frame + n
  {
    set p: nat | frame * PGSIZE <= p < (frame + n) * PGSIZE && p % PGSIZE == 0 && frame <= p / PGSIZE < frame + n
  }

  lemma PteFrame(pa: nat, j: nat, perm: nat)
    requires perm < 1024
    ensures var pte := MakePte(pa + j * PGSIZE, perm);
            IsValid(pte) && FlagsOf(pte) == OrV(perm) && PaOf(pte) == (pa / PGSIZE + j) * PGSIZE
  {
    assert (pa + j * PGSIZE) / PGSIZE == pa / PGSIZE + j;
    DivMod(pa / PGSIZE + j, OrV(perm));
  }

  lemma FrameKey(frame: nat, j: nat)
    ensures (frame + j) * PGSIZE % PGSIZE == 0 && (frame + j) * PGSIZE / PGSIZE == frame + j
  {
  }

  /** What one more mapped range does to the bookkeeping: the last region grows by n pages. */
  ghost predicate Grows(regions: seq<Region>, regions': seq<Region>, n: nat)
  {
    && |regions| == |regions'| > 0 && regions[..|regions| - 1] == regions'[..|regions| - 1]
    && var r := regions[|regions| - 1];
       regions'[|regions| - 1] == r.(n := r.n + n) && r.lo + r.n + n <= MAX_PAGES && r.perm < 1024
  }

  lemma GrowRegions(w: Words, root: nat, regions: seq<Region>, regions': seq<Region>, who: map<nat, nat>, n: nat)
    requires RegionsOk(regions, who) && LiveOk(w, root, regions, who, 0) && Grows(regions, regions', n)
    requires var r := regions[|regions| - 1]; Unmapped(w, root, r.lo + r.n, n)
    ensures var r := regions[|regions| - 1];
            RegionsOk(regions', who + WhoMap(r.lo + r.n, n, |regions| - 1))
                && who.Keys !! WhoMap(r.lo + r.n, n, |regions| - 1).Keys
  {
    hide PteAt, IsValid, FlagsOf, OrV;
    var r, last := regions[|regions| - 1], |regions| - 1;
    var add := WhoMap(r.lo + r.n, n, last);
    assert forall i :: 0 <= i < last ==> regions'[i] == regions[i] by {
      forall i | 0 <= i < last ensures regions'[i] == regions[i] {
        assert regions[..last][i] == regions'[..last][i];
      }
    }
    forall v | v in add ensures v !in who {
      assert !IsValid(PteAt(w, root, v));
    }
  }

  lemma GrowLive(w: Words, w': Words, root: nat, regions: seq<Region>, regions': seq<Region>, who: map<nat, nat>,
                 n: nat, pa: nat)
    requires RegionsOk(regions, who) && LiveOk(w, root, regions, who, 0) && Grows(regions, regions', n)
    requires var r := regions[|regions| - 1];
             Unmapped(w, root, r.lo + r.n, n) && MapsRange(w, w', root, r.lo + r.n, n, pa, r.perm)
    ensures var r := regions[|regions| - 1]; LiveOk(w', root, regions', who + WhoMap(r.lo + r.n, n, |regions| - 1), 0)
  {
    hide PteAt, IsValid, FlagsOf, OrV, MakePte, RegionsOk;
    var r, last := regions[|regions| - 1], |regions| - 1;
    GrowRegions(w, root, regions, regions', who, n);
    var who' := who + WhoMap(r.lo + r.n, n, last);
    forall v: nat | v < VPNS
      ensures IsValid(PteAt(w', root, v)) <==> v in who'
      ensures v in who' && who'[v] < |regions'| ==> FlagsOf(PteAt(w', root, v)) == OrV(regions'[who'[v]].perm)
    {
      if r.lo + r.n <= v < r.lo + r.n + n {
        PteFrame(pa, v - (r.lo + r.n), r.perm);
      } else if v in who' && who'[v] < last {
        assert regions[..last][who'[v]] == regions'[..last][who'[v]];
      }
    }
    forall v | v in who' ensures v < VPNS { WhoBound(regions', who', v); }
  }

  lemma WhoBound(regions: seq<Region>, who: map<nat, nat>, v: nat)
    requires RegionsOk(regions, who) && v in who
    ensures v < VPNS && who[v] < |regions|
  {
  }

  lemma GrowFrames(w: Words, w': Words, root: nat, regions: seq<Region>, regions': seq<Region>, who: map<nat, nat>,
                   data: map<nat, nat>, n: nat, pa: nat)
    requires RegionsOk(regions, who) && LiveOk(w, root, regions, who, 0) && Grows(regions, regions', n)
    requires FramesOk(w, root, regions, who, data, 0)
    requires var r := regions[|regions| - 1];
             Unmapped(w, root, r.lo + r.n, n) && MapsRange(w, w', root, r.lo + r.n, n, pa, r.perm)
    requires var r := regions[|regions| - 1]; !r.shared ==> FrameSet(pa / PGSIZE, n) !! data.Keys
    ensures var r := regions[|regions| - 1];
            var data' := if r.shared then data else data + FrameMap(pa / PGSIZE, r.lo + r.n, n);
            FramesOk(w', root, regions', who + WhoMap(r.lo + r.n, n, |regions| - 1), data', 0)
  {
    hide PteAt, IsValid, FlagsOf, OrV, MakePte, RegionsOk, PaOf, LiveOk, PageFrame, FramePage, FrameMap, FrameSet;
    hide MapsRange, Unmapped;
    var r, last := regions[|regions| - 1], |regions| - 1;
    var data' := if r.shared then data else data + FrameMap(pa / PGSIZE, r.lo + r.n, n);
    GrowRegions(w, root, regions, regions', who, n);
    var who' := who + WhoMap(r.lo + r.n, n, last);
    SameShared(regions, regions', n);
    forall v: nat ensures PageFrame(w', root, regions', who', data', 0, v) {
      GrowPageFrame(w, w', root, regions, regions', who, data, n, pa, v);
    }
    forall p: nat ensures FramePage(w', root, regions', who', data', 0, p) {
      GrowFramePage(w, w', root, regions, regions', who, data, n, pa, p);
    }
  }

  lemma SameShared(regions: seq<Region>, regions': seq<Region>, n: nat)
    requires Grows(regions, regions', n)
    ensures |regions| == |regions'| && forall i :: 0 <= i < |regions| ==>
            regions'[i].shared == regions[i].shared && regions'[i].perm == regions[i].perm
  {
    forall i | 0 <= i < |regions|
      ensures regions'[i].shared == regions[i].shared && regions'[i].perm == regions[i].perm
    {
      if i < |regions| - 1 { assert regions[..|regions| - 1][i] == regions'[..|regions| - 1][i]; }
    }
  }

  lemma GrowPageFrame(w: Words, w': Words, root: nat, regions: seq<Region>, regions': seq<Region>, who: map<nat, nat>,
                      data: map<nat, nat>, n: nat, pa: nat, v: nat)
    requires RegionsOk(regions, who) && Grows(regions, regions', n) && PageFrame(w, root, regions, who, data, 0, v)
    requires var r := regions[|regions| - 1];
             who.Keys !! WhoMap(r.lo + r.n, n, |regions| - 1).Keys && MapsRange(w, w', root, r.lo + r.n, n, pa, r.perm)
    requires var r := regions[|regions| - 1]; !r.shared ==> FrameSet(pa / PGSIZE, n) !! data.Keys
    ensures var r := regions[|regions| - 1];
            var data' := if r.shared then data else data + FrameMap(pa / PGSIZE, r.lo + r.n, n);
            PageFrame(w', root, regions', who + WhoMap(r.lo + r.n, n, |regions| - 1), data', 0, v)
  {
    hide PteAt, IsValid, FlagsOf, OrV, MakePte, RegionsOk, PaOf, LiveOk, FrameMap, FrameSet;
    var r := regions[|regions| - 1];
    SameShared(regions, regions', n);
    if r.lo + r.n <= v < r.lo + r.n + n {
      NewFrame(w, w', root, r.lo + r.n, n, pa, r.perm, v);
    } else if v in who {
      WhoBound(regions, who, v);
      assert PteAt(w', root, v) == PteAt(w, root, v);
      if !r.shared { FrameMapKeys(pa / PGSIZE, r.lo + r.n, n); }
    }
  }

  lemma FrameMapKeys(frame: nat, lo: nat, n: nat)
    ensures FrameMap(frame, lo, n).Keys == FrameSet(frame, n)
  {
  }

  lemma GrowFramePage(w: Words, w': Words, root: nat, regions: seq<Region>, regions': seq<Region>, who: map<nat, nat>,
                      data: map<nat, nat>, n: nat, pa: nat, p: nat)
    requires RegionsOk(regions, who) && Grows(regions, regions', n) && FramePage(w, root, regions, who, data, 0, p)
    requires var r := regions[|regions| - 1];
             who.Keys !! WhoMap(r.lo + r.n, n, |regions| - 1).Keys && MapsRange(w, w', root, r.lo + r.n, n, pa, r.perm)
    requires var r := regions[|regions| - 1]; !r.shared ==> FrameSet(pa / PGSIZE, n) !! data.Keys
    ensures var r := regions[|regions| - 1];
            var data' := if r.shared then data else data + FrameMap(pa / PGSIZE, r.lo + r.n, n);
            FramePage(w', root, regions', who + WhoMap(r.lo + r.n, n, |regions| - 1), data', 0, p)
  {
    hide PteAt, IsValid, FlagsOf, OrV, MakePte, RegionsOk, PaOf, LiveOk, FrameMap, FrameSet;
    var r := regions[|regions| - 1];
    var lo, frame := r.lo + r.n, pa / PGSIZE;
    SameShared(regions, regions', n);
    if !r.shared { FrameMapKeys(frame, lo, n); }
    if p in data {
      WhoBound(regions, who, data[p]);
      assert PteAt(w', root, data[p]) == PteAt(w, root, data[p]);
    } else if !r.shared && p in FrameMap(frame, lo, n) {
      var v := FrameMap(frame, lo, n)[p];
      FrameBack(frame, lo, n, p);
      NewFrame(w, w', root, lo, n, pa, r.perm, v);
    }
  }

  lemma FrameBack(frame: nat, lo: nat, n: nat, p: nat)
    requires p in FrameMap(frame, lo, n)
    ensures var v := FrameMap(frame, lo, n)[p]; lo <= v < lo + n && p == (frame + (v - lo)) * PGSIZE
  {
    assert p == p / PGSIZE * PGSIZE;
  }

  lemma NewFrame(w: Words, w': Words, root: nat, lo: nat, n: nat, pa: nat, perm: nat, v: nat)
    requires lo <= v < lo + n && lo + n <= MAX_PAGES && perm < 1024 && MapsRange(w, w', root, lo, n, pa, perm)
    ensures PaOf(PteAt(w', root, v)) == (pa / PGSIZE + (v - lo)) * PGSIZE
    ensures var p := PaOf(PteAt(w', root, v)); p in FrameMap(pa / PGSIZE, lo, n) && FrameMap(pa / PGSIZE, lo, n)[p] == v
  {
    hide PteAt, MakePte, PaOf, IsValid, FlagsOf;
    PteFrame(pa, v - lo, perm);
    FrameKey(pa / PGSIZE, v - lo);
  }

  /** mappages at the end of the last region, seen from the bookkeeping. */
  lemma GrowSpace(s: Snap, s': Snap, root: nat, regions: seq<Region>, regions': seq<Region>, who: map<nat, nat>,
                  data: map<nat, nat>, n: nat, pa: nat)
    requires SpaceOk(s, root, regions, who, data, 0) && Grows(regions, regions', n) && Elems(s'.free) <= Elems(s.free)
    requires var r := regions[|regions| - 1];
             Unmapped(s.words, root, r.lo + r.n, n) && MapsRange(s.words, s'.words, root, r.lo + r.n, n, pa, r.perm)
    requires var r := regions[|regions| - 1]; !r.shared ==> FrameSet(pa / PGSIZE, n) !! (data.Keys + Elems(s.free))
    ensures var r := regions[|regions| - 1];
            var data' := if r.shared then data else data + FrameMap(pa / PGSIZE, r.lo + r.n, n);
            SpaceOk(s', root, regions', who + WhoMap(r.lo + r.n, n, |regions| - 1), data', 0)
  {
    hide RegionsOk, LiveOk, FramesOk, MapsRange, Unmapped, Grows;
    GrowsNonEmpty(regions, regions', n);
    GrowRegions(s.words, root, regions, regions', who, n);
    GrowLive(s.words, s'.words, root, regions, regions', who, n, pa);
    GrowFrames(s.words, s'.words, root, regions, regions', who, data, n, pa);
    var r := regions[|regions| - 1];
    var data' := if r.shared then data else data + FrameMap(pa / PGSIZE, r.lo + r.n, n);
    FramesKnown(s.words, root, regions, who, data);
    forall p | p in data' ensures p !in s'.free {
      assert p !in Elems(s.free);
    }
  }

  lemma GrowsNonEmpty(regions: seq<Region>, regions': seq<Region>, n: nat)
    requires Grows(regions, regions', n)
    ensures |regions| > 0
  {
  }

  lemma FramesKnown(w: Words, root: nat, regions: seq<Region>, who: map<nat, nat>, data: map<nat, nat>)
    requires FramesOk(w, root, regions, who, data, 0)
    ensures forall p :: p in data ==> data[p] in who
  {
    hide PteAt, PaOf;
    forall p | p in data ensures data[p] in who { assert FramePage(w, root, regions, who, data, 0, p); }
  }

  /** An empty region changes nothing. */
  lemma AddRegion(s: Snap, root: nat, regions: seq<Region>, who: map<nat, nat>, data: map<nat, nat>, r: Region)
    requires SpaceOk(s, root, regions, who, data, 0) && r.n == 0
    ensures SpaceOk(s, root, regions + [r], who, data, 0)
  {
    hide PteAt, IsValid, FlagsOf, OrV, PaOf, NotFree, PageFrame, FramePage;
    var regions' := regions + [r];
    forall v: nat ensures PageFrame(s.words, root, regions', who, data, 0, v) {
      AddPageFrame(s.words, root, regions, who, data, r, v);
    }
    forall p: nat ensures FramePage(s.words, root, regions', who, data, 0, p) {
      AddFramePage(s.words, root, regions, who, data, r, p);
    }
  }

  lemma AddPageFrame(w: Words, root: nat, regions: seq<Region>, who: map<nat, nat>, data: map<nat, nat>, r: Region,
                     v: nat)
    requires RegionsOk(regions, who) && PageFrame(w, root, regions, who, data, 0, v)
    ensures PageFrame(w, root, regions + [r], who, data, 0, v)
  {
    hide PteAt, PaOf;
  }

  lemma AddFramePage(w: Words, root: nat, regions: seq<Region>, who: map<nat, nat>, data: map<nat, nat>, r: Region,
                     p: nat)
    requires RegionsOk(regions, who) && FramePage(w, root, regions, who, data, 0, p)
    ensures FramePage(w, root, regions + [r], who, data, 0, p)
  {
    hide PteAt, PaOf;
  }

  lemma DropRegion(s: Snap, root: nat, regions: seq<Region>, who: map<nat, nat>, data: map<nat, nat>, r: Region)
    requires SpaceOk(s, root, regions + [r], who, data, 0) && r.n == 0
    ensures SpaceOk(s, root, regions, who, data, 0)
  {
    hide PteAt, IsValid, FlagsOf, OrV, PaOf, NotFree, PageFrame, FramePage;
    DropOk(regions, who, r);
    forall v: nat ensures PageFrame(s.words, root, regions, who, data, 0, v) {
      DropPageFrame(s.words, root, regions, who, data, r, v);
    }
    forall p: nat ensures FramePage(s.words, root, regions, who, data, 0, p) {
      DropFramePage(s.words, root, regions, who, data, r, p);
    }
  }

  lemma DropOk(regions: seq<Region>, who: map<nat, nat>, r: Region)
    requires RegionsOk(regions + [r], who) && r.n == 0
    ensures RegionsOk(regions, who)
  {
    forall v | v in who ensures who[v] < |regions| { assert In((regions + [r])[who[v]], v); }
    forall i, v: nat | 0 <= i < |regions| && In(regions[i], v)
      ensures v in who && who[v] == i
    { assert In((regions + [r])[i], v); }
  }

  lemma DropPageFrame(w: Words, root: nat, regions: seq<Region>, who: map<nat, nat>, data: map<nat, nat>, r: Region,
                      v: nat)
    requires RegionsOk(regions, who) && PageFrame(w, root, regions + [r], who, data, 0, v)
    ensures PageFrame(w, root, regions, who, data, 0, v)
  {
    hide PteAt, PaOf;
  }

  lemma DropFramePage(w: Words, root: nat, regions: seq<Region>, who: map<nat, nat>, data: map<nat, nat>, r: Region,
                      p: nat)
    requires RegionsOk(regions, who) && FramePage(w, root, regions + [r], who, data, 0, p)
    ensures FramePage(w, root, regions, who, data, 0, p)
  {
    hide PteAt, PaOf;
  }

  /** Nothing mapped. */
  lemma EmptySpace(s: Snap, root: nat)
    requires forall v: nat :: v < VPNS ==> PteAt(s.words, root, v) == 0
    ensures SpaceOk(s, root, [], map[], map[], 0)
  {
    hide PteAt;
    EmptyEntry();
  }

  /** The space survives whatever leaves its translations alone and frees none of its pages. */
  lemma SpaceFrame(s: Snap, s': Snap, root: nat, regions: seq<Region>, who: map<nat, nat>, data: map<nat, nat>)
    requires SpaceOk(s, root, regions, who, data, 0)
    requires SameTranslation(s.words, s'.words, root)
    requires forall p :: p in data ==> p !in s'.free
    ensures SpaceOk(s', root, regions, who, data, 0)
  {
    hide PteAt, IsValid, FlagsOf, OrV, PaOf, PageFrame, FramePage;
    forall v: nat | v < VPNS ensures IsValid(PteAt(s'.words, root, v)) <==> IsValid(PteAt(s.words, root, v)) {
      assert Translation(s'.words, root, v) == Translation(s.words, root, v);
    }
    forall v | v in who ensures v < VPNS && PteAt(s'.words, root, v) == PteAt(s.words, root, v) {
      WhoBound(regions, who, v);
      assert Translation(s'.words, root, v) == Translation(s.words, root, v);
    }
    forall v: nat ensures PageFrame(s'.words, root, regions, who, data, 0, v) {
      SamePageFrame(s.words, s'.words, root, regions, who, data, v);
    }
    forall p: nat ensures FramePage(s'.words, root, regions, who, data, 0, p) {
      SameFramePage(s.words, s'.words, root, regions, who, data, p);
    }
  }

  lemma SamePageFrame(w: Words, w': Words, root: nat, regions: seq<Region>, who: map<nat, nat>, data: map<nat, nat>,
                      v: nat)
    requires PageFrame(w, root, regions, who, data, 0, v) && (v in who ==> PteAt(w', root, v) == PteAt(w, root, v))
    ensures PageFrame(w', root, regions, who, data, 0, v)
  {
    hide PteAt, PaOf;
  }

  lemma SameFramePage(w: Words, w': Words, root: nat, regions: seq<Region>, who: map<nat, nat>, data: map<nat, nat>,
                      p: nat)
    requires FramePage(w, root, regions, who, data, 0, p)
    requires (p in data && data[p] in who ==> PteAt(w', root, data[p]) == PteAt(w, root, data[p]))
    ensures FramePage(w', root, regions, who, data, 0, p)
  {
    hide PteAt, PaOf;
  }

  /** Two processes: what one does to its own tables and to free pages leaves the other as it was. */
  lemma OtherProcess(s: Snap, s': Snap, mine: set<nat>, root: nat, role: map<nat, Pos>, regions: seq<Region>,
                     who: map<nat, nat>, data: map<nat, nat>)
    requires TreeOk(s.words, root, role) && SpaceOk(s, root, regions, who, data, 0)
    requires SameOutside(s.words, s'.words, mine) && mine !! role.Keys && Elems(s'.free) !! data.Keys
    ensures TreeOk(s'.words, root, role) && SpaceOk(s', root, regions, who, data, 0) && SameMap(s.words, s'.words, root)
  {
    hide TreeOk, SpaceOk, PteAt, IsValid;
    TreeFrame(s.words, s'.words, root, role);
    forall p | p in data ensures p !in s'.free { InElems(s'.free, p); }
    SpaceFrame(s, s', root, regions, who, data);
  }

  // ------------------------------------------------------------ unmapping region k

  /** The data pages of the first k regions. */
  ghost function FramesBefore(who: map<nat, nat>, data: map<nat, nat>, k: nat): (s: set<nat>)
  {
    set p | p in data && data[p] in who && who[data[p]] < k
  }

  lemma RegionLeaves(s: Snap, root: nat, regions: seq<Region>, who: map<nat, nat>, data: map<nat, nat>, k: nat, i: nat)
    requires SpaceOk(s, root, regions, who, data, k) && k <= i < |regions| && regions[i].n > 0
    ensures AllLeaves(s.words, root, regions[i].lo, regions[i].n) <==> OrV(regions[i].perm) != 1
  {
    hide PteAt, FlagsOf, OrV, PaOf, NotFree, FramesOk, IsValid;
    var r := regions[i];
    assert In(r, r.lo) && In(r, r.lo + r.n - 1);
    forall v: nat | In(r, v) ensures IsLeaf(PteAt(s.words, root, v)) <==> OrV(r.perm) != 1 {
      assert v in who && who[v] == i;
    }
  }

  /** Clearing region k, giving back its frames if it is not shared. */
  lemma UnmapRegion(s: Snap, s': Snap, root: nat, regions: seq<Region>, who: map<nat, nat>, data: map<nat, nat>, k: nat)
    requires SpaceOk(s, root, regions, who, data, k) && k < |regions|
    requires UnmapsRange(s.words, s'.words, root, regions[k].lo, regions[k].n)
    requires s'.free == (if regions[k].shared then [] else Freed(s.words, root, regions[k].lo, regions[k].n)) + s.free
    ensures SpaceOk(s', root, regions, who, data, k + 1)
    ensures Elems(s'.free) == Elems(s.free) + (FramesBefore(who, data, k + 1) - FramesBefore(who, data, k))
  {
    hide PteAt, FlagsOf, OrV, PaOf, LiveOk, UnmapsRange, Elems, Freed;
    UnmapLive(s.words, s'.words, root, regions, who, data, k);
    RegionFrames(s, s', root, regions, who, data, k);
    forall p | p in data && data[p] in who && who[data[p]] >= k + 1 ensures p !in s'.free {
      if p in s'.free {
        InElems(s'.free, p);
        assert p in Elems(s.free);
        InElems(s.free, p);
        assert false;
      }
    }
  }

  lemma UnmapLive(w: Words, w': Words, root: nat, regions: seq<Region>, who: map<nat, nat>, data: map<nat, nat>, k: nat)
    requires RegionsOk(regions, who) && LiveOk(w, root, regions, who, k) && FramesOk(w, root, regions, who, data, k)
    requires k < |regions|
    requires UnmapsRange(w, w', root, regions[k].lo, regions[k].n)
    ensures LiveOk(w', root, regions, who, k + 1) && FramesOk(w', root, regions, who, data, k + 1)
  {
    hide PteAt, FlagsOf, OrV, PaOf, IsValid, RegionsOk, PageFrame, FramePage, UnmapsRange;
    forall v: nat | v < VPNS
      ensures IsValid(PteAt(w', root, v)) <==> v in who && who[v] >= k + 1
      ensures v in who && who[v] >= k + 1 ==> PteAt(w', root, v) == PteAt(w, root, v)
    {
      UnmapPage(w, w', root, regions, who, k, v);
    }
    forall v | v in who ensures v < VPNS { WhoBound(regions, who, v); }
    var k1 := k + 1;
    forall v: nat ensures PageFrame(w', root, regions, who, data, k1, v) {
      KeepPageFrame(w, w', root, regions, who, data, k, v);
    }
    forall p: nat ensures FramePage(w', root, regions, who, data, k1, p) {
      KeepFramePage(w, w', root, regions, who, data, k, p);
    }
  }

  lemma UnmapPage(w: Words, w': Words, root: nat, regions: seq<Region>, who: map<nat, nat>, k: nat, v: nat)
    requires RegionsOk(regions, who) && LiveOk(w, root, regions, who, k) && k < |regions| && v < VPNS
    requires UnmapsRange(w, w', root, regions[k].lo, regions[k].n)
    ensures IsValid(PteAt(w', root, v)) <==> v in who && who[v] >= k + 1
    ensures v in who && who[v] >= k + 1 ==> PteAt(w', root, v) == PteAt(w, root, v)
  {
    hide PteAt, FlagsOf, OrV, IsValid;
    EmptyEntry();
    assert In(regions[k], v) <==> v in who && who[v] == k;
  }

  lemma KeepPageFrame(w: Words, w': Words, root: nat, regions: seq<Region>, who: map<nat, nat>, data: map<nat, nat>,
                      k: nat, v: nat)
    requires PageFrame(w, root, regions, who, data, k, v)
    requires v in who && who[v] >= k + 1 ==> PteAt(w', root, v) == PteAt(w, root, v)
    ensures PageFrame(w', root, regions, who, data, k + 1, v)
  {
    hide PteAt, PaOf;
  }

  lemma KeepFramePage(w: Words, w': Words, root: nat, regions: seq<Region>, who: map<nat, nat>, data: map<nat, nat>,
                      k: nat, p: nat)
    requires FramePage(w, root, regions, who, data, k, p)
    requires p in data && data[p] in who && who[data[p]] >= k + 1 ==>
            PteAt(w', root, data[p]) == PteAt(w, root, data[p])
    ensures FramePage(w', root, regions, who, data, k + 1, p)
  {
    hide PteAt, PaOf;
  }

  /** The frames uvmunmap gives back are exactly the data pages of region k. */
  lemma RegionFrames(s: Snap, s': Snap, root: nat, regions: seq<Region>, who: map<nat, nat>, data: map<nat, nat>,
                     k: nat)
    requires RegionsOk(regions, who) && FramesOk(s.words, root, regions, who, data, k) && k < |regions|
    requires s'.free == (if regions[k].shared then [] else Freed(s.words, root, regions[k].lo, regions[k].n)) + s.free
    ensures Elems(s'.free) == Elems(s.free) + (FramesBefore(who, data, k + 1) - FramesBefore(who, data, k))
  {
    hide PteAt, PaOf, Freed;
    var r := regions[k];
    forall p: nat
      ensures p in s'.free <==> p in s.free || (p in data && data[p] in who && who[data[p]] == k)
    {
      RegionFrame(s.words, root, regions, who, data, k, k, p);
    }
  }

  lemma RegionFrame(w: Words, root: nat, regions: seq<Region>, who: map<nat, nat>, data: map<nat, nat>, k: nat, i: nat,
                    p: nat)
    requires RegionsOk(regions, who) && FramesOk(w, root, regions, who, data, k) && k <= i < |regions|
    ensures (!regions[i].shared && p in Freed(w, root, regions[i].lo, regions[i].n)) <==>
            p in data && data[p] in who && who[data[p]] == i
  {
    hide PteAt, PaOf, Freed;
    var r := regions[i];
    FreedElems(w, root, r.lo, r.n, p);
    assert FramePage(w, root, regions, who, data, k, p);
    if !r.shared && p in Freed(w, root, r.lo, r.n) {
      var v: nat :| r.lo <= v < r.lo + r.n && PaOf(PteAt(w, root, v)) == p;
      assert In(r, v);
      assert PageFrame(w, root, regions, who, data, k, v);
    }
    if p in data && data[p] in who && who[data[p]] == i {
      assert In(r, data[p]);
    }
  }

  /** The frames of a region that is not shared may be given back. */
  lemma RegionFreeable(mem: Memory, s: Snap, root: nat, role: map<nat, Pos>, regions: seq<Region>, who: map<nat, nat>,
                       data: map<nat, nat>, k: nat, i: nat)
    requires SpaceOk(s, root, regions, who, data, k) && k <= i < |regions| && !regions[i].shared
    requires forall p :: p in data ==> mem.InRange(p) && p !in role
    ensures mem.Freeable(s, root, role, regions[i].lo, regions[i].n)
  {
    hide PteAt, PaOf, IsValid, LiveOk, Memory.InRange;
    var r := regions[i];
    forall v: nat | r.lo <= v < r.lo + r.n
      ensures var p := PaOf(PteAt(s.words, root, v));
              p in data && data[p] == v && mem.FrameOk(s, role, PteAt(s.words, root, v))
    {
      assert In(r, v);
      assert v in who && who[v] == i;
      assert PageFrame(s.words, root, regions, who, data, k, v);
    }
    forall v: nat, w: nat | r.lo <= v < w < r.lo + r.n
      ensures FramesDiffer(PteAt(s.words, root, v), PteAt(s.words, root, w))
    {
    }
  }
}
