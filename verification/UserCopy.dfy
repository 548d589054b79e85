/** Copies between the kernel and user memory (copyout, copyin, memset_user and walkaddr in
    os/mm/vmem.cc), page by page over physical pages that need not be contiguous. */
module UserCopy {
  import opened Basics
  import opened PageTable
  import opened PageMemory

  type Bytes = map<nat, seq<byte>>

  /** The frame behind a user page, 0 if there is none. */
  ghost function Frame(words: Words, root: nat, v: nat): (pa: nat)
  {
    var pte := PteAt(words, root, v);
    if v < MAX_PAGES && IsValid(pte) && IsUser(pte) then PaOf(pte) else 0
  }

  /** A user page is one below 2^38 whose entry has bits 0 and 4 set. */
  lemma FrameMeans(words: Words, root: nat, va: nat)
    ensures var pte := PteAt(words, root, va / 0x1000);
            Frame(words, root, va / 0x1000)
            == if va < 0x40_0000_0000 && pte % 2 == 1 && pte / 16 % 2 == 1 then pte / 0x400 * 0x1000 else 0
  {
    hide PteAt;
    UserBits(PteAt(words, root, va / 0x1000));
  }

  lemma UserBits(pte: nat)
    ensures IsValid(pte) <==> pte % 2 == 1
    ensures IsUser(pte) <==> pte / 16 % 2 == 1
  {
    var q, f := pte / 1024, pte % 1024;
    EvenSum(512 * q, f);
    assert pte / 16 == 2 * (32 * q) + f / 16;
    EvenSum(32 * q, f / 16);
  }

  lemma EvenSum(k: nat, x: nat)
    ensures (2 * k + x) % 2 == x % 2
  {
  }

  /** Where the hardware lets the user in, the frame is the one that it uses. */
  lemma UserAccess(words: Words, root: nat, role: map<nat, Pos>, va: nat)
    requires TreeOk(words, root, role) && va < 0x40_0000_0000
    ensures match Sv39(words, root, va, 2)
            case Page(pte, level) =>
              Frame(words, root, va / 0x1000) == if pte / 16 % 2 == 1 then pte / 0x400 * 0x1000 else 0
            case Fault => true
  {
    hide TreeOk, PteAt, Sv39, Frame;
    HardwareWalk(words, root, role, va);
    FrameMeans(words, root, va);
  }

  /** The frames of all user pages are pages of memory. */
  ghost predicate Backed(words: Words, bytes: Bytes, root: nat)
  {
    forall v: nat :: Frame(words, root, v) != 0 ==>
        Frame(words, root, v) in bytes && |bytes[Frame(words, root, v)]| == PGSIZE
  }

  /** Every user page has a frame of its own. */
  ghost predicate Private(words: Words, bytes: Bytes, root: nat)
  {
    && Backed(words, bytes, root)
    && (forall v: nat, w: nat :: Frame(words, root, v) != 0 && Frame(words, root, v) == Frame(words, root, w) ==>
        v == w)
  }

  /** The byte a user program sees at an address; 0 where nothing is mapped. */
  ghost function UserByte(words: Words, bytes: Bytes, root: nat, a: nat): (b: byte)
  {
    var p := Frame(words, root, a / PGSIZE);
    if p != 0 && p in bytes && a % PGSIZE < |bytes[p]| then bytes[p][a % PGSIZE] else 0
  }

  /** User memory holds data at dst and is otherwise as before; so are all other pages. */
  ghost predicate Written(words: Words, root: nat, b0: Bytes, b1: Bytes, dst: nat, data: seq<byte>)
  {
    && (forall a: nat :: UserByte(words, b1, root, a) == ByteAfter(words, root, b0, dst, data, a))
    && b1.Keys == b0.Keys && (forall p :: p in b0 ==> |b1[p]| == |b0[p]|)
    && (forall p :: p in b0 && (forall v: nat :: Frame(words, root, v) != p) ==> b1[p] == b0[p])
  }

  ghost function ByteAfter(words: Words, root: nat, b0: Bytes, dst: nat, data: seq<byte>, a: nat): (b: byte)
  {
    if dst <= a < dst + |data| then data[a - dst] else UserByte(words, b0, root, a)
  }

  /** All of [dst, dst+k) is mapped. */
  ghost predicate Mapped(words: Words, root: nat, dst: nat, k: nat)
  {
    forall a: nat :: dst <= a < dst + k ==> Frame(words, root, a / PGSIZE) != 0
  }

  /** walkaddr. */
  method Walkaddr(mem: Memory, root: nat, ghost role: map<nat, Pos>, va: nat) returns (pa: nat)
    requires mem.Holds(root, role)
    modifies mem`free, mem`count, mem`words
    ensures mem.Holds(root, role) && mem.Now() == old(mem.Now())
    ensures pa == Frame(mem.words, root, va / PGSIZE)
  {
    hide TreeOk, TableAt, NoDup, I0, I1, I2, Memory.Valid, MakePte, IsValid, PteAt, Entry, IsUser;
    if va >= MAXVA { return 0; }
    var w;
    ghost var same;
    w, same := mem.Walk(root, role, va, false);
    if !w.Slot? {
      NoSlot(mem.words, root, va / PGSIZE);
      return 0;
    }
    SlotFacts(mem.words, root, role, w.page, va / PGSIZE);
    var pte := mem.words[w.page][w.index];
    if !IsValid(pte) || !IsUser(pte) { return 0; }
    pa := PaOf(pte);
  }

  /** The length of the next piece: up to the end of the page. */
  function Piece(va: nat, len: nat): (n: nat)
    requires len > 0
    ensures 0 < n <= len && va % PGSIZE + n <= PGSIZE
    ensures forall a: nat :: va <= a < va + n ==> a / PGSIZE == va / PGSIZE
  {
    if PGSIZE - va % PGSIZE > len then len else PGSIZE - va % PGSIZE
  }

  // ------------------------------------------------------------ what stores do to memory

  ghost function StoreByte(words: Words, root: nat, b: Bytes, a: nat, x: byte): (b': Bytes)
  {
    var p := Frame(words, root, a / PGSIZE);
    if p != 0 && p in b && a % PGSIZE < |b[p]| then
      var page: seq<byte> := b[p][a % PGSIZE := x];
      b[p := page]
    else b
  }

  /** Physical memory after the bytes of data have been stored from dst on, one after the other;
      where two user pages share a frame, the later store counts. */
  ghost function Stored(words: Words, root: nat, b: Bytes, dst: nat, data: seq<byte>): (b': Bytes)
    decreases |data|
  {
    if data == [] then b else Stored(words, root, StoreByte(words, root, b, dst, data[0]), dst + 1, data[1..])
  }

  lemma {:induction false} StoredMore(words: Words, root: nat, b: Bytes, dst: nat, s: seq<byte>, t: seq<byte>)
    ensures Stored(words, root, b, dst, s + t) == Stored(words, root, Stored(words, root, b, dst, s), dst + |s|, t)
    decreases |s|
  {
    hide StoreByte;
    if s == [] {
      assert s + t == t;
    } else {
      assert (s + t)[0] == s[0] && (s + t)[1..] == s[1..] + t;
      StoredMore(words, root, StoreByte(words, root, b, dst, s[0]), dst + 1, s[1..], t);
    }
  }

  /** A piece inside one page, stored at once. */
  lemma {:induction false} StoredPiece(words: Words, root: nat, b: Bytes, dst: nat, pa: nat, data: seq<byte>)
    requires pa == Frame(words, root, dst / PGSIZE) != 0 && pa in b && |b[pa]| == PGSIZE
    requires dst % PGSIZE + |data| <= PGSIZE
    ensures Stored(words, root, b, dst, data) == b[pa := Patch(b[pa], dst % PGSIZE, data)]
    decreases |data|
  {
    hide Frame, Patch;
    var off := dst % PGSIZE;
    if data == [] {
      PatchNothing(b[pa], off);
      assert b[pa := b[pa]] == b;
    } else {
      PatchFirst(b[pa], off, data);
      if |data| > 1 {
        SplitAddress(dst + 1, dst, |data|);
        var page: seq<byte> := b[pa][off := data[0]];
        StoredPiece(words, root, b[pa := page], dst + 1, pa, data[1..]);
        assert b[pa := page][pa := Patch(page, off + 1, data[1..])] == b[pa := Patch(page, off + 1, data[1..])];
      } else {
        assert data[1..] == [];
        PatchNothing(b[pa][off := data[0]], off + 1);
      }
    }
  }

  lemma PrivateBacked(words: Words, b: Bytes, root: nat)
    requires Private(words, b, root)
    ensures Backed(words, b, root)
  {
  }

  lemma PatchNothing(page: seq<byte>, off: nat)
    requires off <= |page|
    ensures Patch(page, off, []) == page
  {
  }

  lemma PatchFirst(page: seq<byte>, off: nat, data: seq<byte>)
    requires data != [] && off + |data| <= |page|
    ensures Patch(page, off, data) == Patch(page[off := data[0]], off + 1, data[1..])
  {
  }

  lemma BackedKeeps(words: Words, b: Bytes, root: nat, pa: nat, page: seq<byte>)
    requires Backed(words, b, root) && pa in b && |page| == |b[pa]|
    ensures Backed(words, b[pa := page], root) && (Private(words, b, root) ==> Private(words, b[pa := page], root))
  {
    hide Frame;
  }

  /** memmove or memset inside one user page. */
  method StorePiece(mem: Memory, ghost root: nat, ghost role: map<nat, Pos>, dst: nat, pa: nat, data: seq<byte>)
    requires mem.Holds(root, role) && Backed(mem.words, mem.bytes, root)
    requires pa == Frame(mem.words, root, dst / PGSIZE) != 0 && dst % PGSIZE + |data| <= PGSIZE
    modifies mem`bytes
    ensures mem.Holds(root, role) && Backed(mem.words, mem.bytes, root)
    ensures mem.bytes == Stored(mem.words, root, old(mem.bytes), dst, data)
    ensures old(Private(mem.words, mem.bytes, root)) ==>
              Private(mem.words, mem.bytes, root) && Written(mem.words, root, old(mem.bytes), mem.bytes, dst, data)
  {
    hide Frame, TreeOk, NoDup, Memory.InRange, Written, Backed, Private, Stored;
    PageSize(mem.words, mem.bytes, root, dst, pa);
    StoredPiece(mem.words, root, mem.bytes, dst, pa, data);
    if Private(mem.words, mem.bytes, root) { WrittenPiece(mem.words, root, mem.bytes, dst, pa, data); }
    BackedKeeps(mem.words, mem.bytes, root, pa, Patch(mem.bytes[pa], dst % PGSIZE, data));
    mem.bytes := mem.bytes[pa := Patch(mem.bytes[pa], dst % PGSIZE, data)];
  }

  /** copyout: copies up to the first page that is not mapped for the user.  Physical memory is what
      storing the bytes one by one makes of it; where every user page has its own frame, user
      memory changes in exactly the bytes copied. */
  method Copyout(mem: Memory, root: nat, ghost role: map<nat, Pos>, dstva: nat, src: seq<byte>)
    returns (ok: bool, ghost k: nat)
    requires mem.Holds(root, role) && Backed(mem.words, mem.bytes, root)
    modifies mem`free, mem`count, mem`words, mem`bytes
    ensures mem.Holds(root, role) && mem.Now() == old(mem.Now()) && Backed(mem.words, mem.bytes, root)
    ensures k <= |src| && Mapped(mem.words, root, dstva, k) && (ok <==> k == |src|)
    ensures !ok ==> Frame(mem.words, root, (dstva + k) / PGSIZE) == 0
    ensures mem.bytes == Stored(mem.words, root, old(mem.bytes), dstva, src[..k])
    ensures old(Private(mem.words, mem.bytes, root)) ==>
              Private(mem.words, mem.bytes, root)
                  && Written(mem.words, root, old(mem.bytes), mem.bytes, dstva, src[..k])
  {
    hide Memory.Holds, Frame, Private, Written, Mapped, Backed, Stored;
    k := 0;
    var dst, rest := dstva, src;
    WrittenNothing(mem.words, root, mem.bytes, dstva);
    StoredNothing(mem.words, root, mem.bytes, dstva);
    while |rest| > 0
      invariant mem.Holds(root, role) && mem.Now() == old(mem.Now()) && Backed(mem.words, mem.bytes, root)
      invariant k <= |src| && rest == src[k..] && (|rest| > 0 ==> dst == dstva + k)
      invariant Mapped(mem.words, root, dstva, k)
      invariant mem.bytes == Stored(mem.words, root, old(mem.bytes), dstva, src[..k])
      invariant old(Private(mem.words, mem.bytes, root)) ==>
                  Private(mem.words, mem.bytes, root)
                      && Written(mem.words, root, old(mem.bytes), mem.bytes, dstva, src[..k])
      decreases |rest|
    {
      var pa := Walkaddr(mem, root, role, RoundDown(dst));
      RoundDownPage(dst);
      if pa == 0 { return false, k; }
      var n := Piece(dst, |rest|);
      ghost var b1 := mem.bytes;
      StorePiece(mem, root, role, dst, pa, rest[..n]);
      MappedMore(mem.words, root, dstva, k, n);
      StoredMore(mem.words, root, old(mem.bytes), dstva, src[..k], rest[..n]);
      if old(Private(mem.words, mem.bytes, root)) {
        WrittenMore(mem.words, root, old(mem.bytes), b1, mem.bytes, dstva, src[..k], rest[..n]);
      }
      assert src[..k] + rest[..n] == src[..k + n];
      k, rest, dst := k + n, rest[n..], RoundDown(dst) + PGSIZE;
    }
    assert src[..k] == src;
    ok := true;
  }

  lemma StoredNothing(words: Words, root: nat, b: Bytes, dst: nat)
    ensures Stored(words, root, b, dst, []) == b
  {
  }

  function Fill(val: byte, n: nat): (s: seq<byte>)
    ensures |s| == n && forall i :: 0 <= i < n ==> s[i] == val
  {
    seq(n, i => val)
  }

  /** memset_user. */
  method MemsetUser(mem: Memory, root: nat, ghost role: map<nat, Pos>, dstva: nat, val: byte, len: nat)
    returns (ok: bool, ghost k: nat)
    requires mem.Holds(root, role) && Backed(mem.words, mem.bytes, root)
    modifies mem`free, mem`count, mem`words, mem`bytes
    ensures mem.Holds(root, role) && mem.Now() == old(mem.Now()) && Backed(mem.words, mem.bytes, root)
    ensures k <= len && Mapped(mem.words, root, dstva, k) && (ok <==> k == len)
    ensures !ok ==> Frame(mem.words, root, (dstva + k) / PGSIZE) == 0
    ensures mem.bytes == Stored(mem.words, root, old(mem.bytes), dstva, Fill(val, k))
    ensures old(Private(mem.words, mem.bytes, root)) ==>
              Private(mem.words, mem.bytes, root)
                  && Written(mem.words, root, old(mem.bytes), mem.bytes, dstva, Fill(val, k))
  {
    hide Memory.Holds, Frame, Private, Written, Mapped, Fill, Backed, Stored;
    k := 0;
    var dst, rest := dstva, len;
    FillNothing(val);
    WrittenNothing(mem.words, root, mem.bytes, dstva);
    StoredNothing(mem.words, root, mem.bytes, dstva);
    while rest > 0
      invariant mem.Holds(root, role) && mem.Now() == old(mem.Now()) && Backed(mem.words, mem.bytes, root)
      invariant k + rest == len && (rest > 0 ==> dst == dstva + k)
      invariant Mapped(mem.words, root, dstva, k)
      invariant mem.bytes == Stored(mem.words, root, old(mem.bytes), dstva, Fill(val, k))
      invariant old(Private(mem.words, mem.bytes, root)) ==>
                  Private(mem.words, mem.bytes, root)
                      && Written(mem.words, root, old(mem.bytes), mem.bytes, dstva, Fill(val, k))
      decreases rest
    {
      var pa := Walkaddr(mem, root, role, RoundDown(dst));
      RoundDownPage(dst);
      if pa == 0 { return false, k; }
      var n := Piece(dst, rest);
      ghost var b1 := mem.bytes;
      FillMore(val, k, n);
      StorePiece(mem, root, role, dst, pa, Fill(val, n));
      MappedMore(mem.words, root, dstva, k, n);
      StoredMore(mem.words, root, old(mem.bytes), dstva, Fill(val, k), Fill(val, n));
      if old(Private(mem.words, mem.bytes, root)) {
        WrittenMore(mem.words, root, old(mem.bytes), b1, mem.bytes, dstva, Fill(val, k), Fill(val, n));
      }
      k, rest, dst := k + n, rest - n, RoundDown(dst) + PGSIZE;
    }
    ok := true;
  }

  /** copyin: reads what the user sees, up to the first page that is not mapped. */
  method Copyin(mem: Memory, root: nat, ghost role: map<nat, Pos>, srcva: nat, len: nat)
    returns (ok: bool, dst: seq<byte>)
    requires mem.Holds(root, role) && Backed(mem.words, mem.bytes, root)
    modifies mem`free, mem`count, mem`words
    ensures mem.Holds(root, role) && mem.Now() == old(mem.Now())
    ensures |dst| <= len && Mapped(mem.words, root, srcva, |dst|) && (ok <==> |dst| == len)
    ensures !ok ==> Frame(mem.words, root, (srcva + |dst|) / PGSIZE) == 0
    ensures forall j :: 0 <= j < |dst| ==> dst[j] == UserByte(mem.words, mem.bytes, root, srcva + j)
  {
    hide Memory.Holds, Frame, Backed, UserByte, Mapped;
    dst := [];
    var src, rest := srcva, len;
    WrittenNothing(mem.words, root, mem.bytes, srcva);
    while rest > 0
      invariant mem.Holds(root, role) && mem.Now() == old(mem.Now())
      invariant |dst| + rest == len && (rest > 0 ==> src == srcva + |dst|)
      invariant Mapped(mem.words, root, srcva, |dst|)
      invariant forall j :: 0 <= j < |dst| ==> dst[j] == UserByte(mem.words, mem.bytes, root, srcva + j)
      decreases rest
    {
      var pa := Walkaddr(mem, root, role, RoundDown(src));
      RoundDownPage(src);
      if pa == 0 { return false, dst; }
      var n := Piece(src, rest);
      PageSize(mem.words, mem.bytes, root, src, pa);
      var piece := mem.bytes[pa][src % PGSIZE..src % PGSIZE + n];
      ReadPiece(mem.words, mem.bytes, root, src, pa, n, piece);
      MappedMore(mem.words, root, srcva, |dst|, n);
      dst, rest, src := dst + piece, rest - n, RoundDown(src) + PGSIZE;
    }
    ok := true;
  }

  /** copyin after copyout: both get as far, and where every user page has its own frame the bytes
      that come back are the bytes that went out. */
  method CopyRoundTrip(mem: Memory, root: nat, ghost role: map<nat, Pos>, va: nat, src: seq<byte>)
    returns (out: bool, back: bool, dst: seq<byte>)
    requires mem.Holds(root, role) && Backed(mem.words, mem.bytes, root)
    modifies mem`free, mem`count, mem`words, mem`bytes
    ensures out == back && |dst| <= |src| && (out <==> |dst| == |src|) && (out <==> Mapped(mem.words, root, va, |src|))
    ensures mem.bytes == Stored(mem.words, root, old(mem.bytes), va, src[..|dst|])
    ensures forall j :: 0 <= j < |dst| ==> dst[j] == UserByte(mem.words, mem.bytes, root, va + j)
    ensures old(Private(mem.words, mem.bytes, root)) ==> dst == src[..|dst|]
  {
    hide Memory.Holds, Frame, Private, UserByte, Backed, Stored;
    ghost var k;
    out, k := Copyout(mem, root, role, va, src);
    back, dst := Copyin(mem, root, role, va, |src|);
    SameStop(mem.words, root, va, |src|, k, |dst|);
    if old(Private(mem.words, mem.bytes, root)) {
      forall j | 0 <= j < |dst| ensures dst[j] == src[j] {
        assert UserByte(mem.words, mem.bytes, root, va + j) == src[..k][va + j - va];
      }
    }
  }

  lemma SameStop(words: Words, root: nat, va: nat, len: nat, k: nat, j: nat)
    requires k <= len && j <= len && Mapped(words, root, va, k) && Mapped(words, root, va, j)
    requires k < len ==> Frame(words, root, (va + k) / PGSIZE) == 0
    requires j < len ==> Frame(words, root, (va + j) / PGSIZE) == 0
    ensures k == j && (k == len <==> Mapped(words, root, va, len))
  {
    hide Frame;
  }

  lemma RoundDownPage(a: nat)
    ensures RoundDown(a) / PGSIZE == a / PGSIZE && RoundDown(a) + PGSIZE == a + (PGSIZE - a % PGSIZE)
  {
  }

  lemma FillNothing(val: byte)
    ensures Fill(val, 0) == []
  {
  }

  lemma FillMore(val: byte, k: nat, n: nat)
    ensures Fill(val, k) + Fill(val, n) == Fill(val, k + n) && |Fill(val, k)| == k && |Fill(val, n)| == n
  {
  }

  lemma WrittenNothing(words: Words, root: nat, b: Bytes, dst: nat)
    ensures Written(words, root, b, b, dst, []) && Mapped(words, root, dst, 0)
  {
    hide Frame;
  }

  lemma MappedMore(words: Words, root: nat, dst: nat, k: nat, n: nat)
    requires Mapped(words, root, dst, k) && n > 0 && (dst + k) % PGSIZE + n <= PGSIZE
    requires Frame(words, root, (dst + k) / PGSIZE) != 0
    ensures Mapped(words, root, dst, k + n)
  {
    hide Frame;
    forall a: nat | dst + k <= a < dst + k + n ensures a / PGSIZE == (dst + k) / PGSIZE { }
  }

  lemma WrittenMore(words: Words, root: nat, b0: Bytes, b1: Bytes, b2: Bytes, dst: nat, s: seq<byte>, t: seq<byte>)
    requires Written(words, root, b0, b1, dst, s) && Written(words, root, b1, b2, dst + |s|, t)
    ensures Written(words, root, b0, b2, dst, s + t)
  {
    hide Frame, UserByte;
  }

  /** One page changes: seen from user memory, exactly the addresses of the piece. */
  lemma WrittenPiece(words: Words, root: nat, b: Bytes, dst: nat, pa: nat, data: seq<byte>)
    requires Private(words, b, root) && pa == Frame(words, root, dst / PGSIZE) != 0 && dst % PGSIZE + |data| <= PGSIZE
    ensures pa in b && |b[pa]| == PGSIZE
    ensures Written(words, root, b, b[pa := Patch(b[pa], dst % PGSIZE, data)], dst, data)
  {
    hide Frame;
    var b' := b[pa := Patch(b[pa], dst % PGSIZE, data)];
    forall a: nat ensures UserByte(words, b', root, a) == ByteAfter(words, root, b, dst, data, a) {
      SplitAddress(a, dst, |data|);
    }
  }

  lemma SplitAddress(a: nat, dst: nat, n: nat)
    requires dst % PGSIZE + n <= PGSIZE
    ensures dst <= a < dst + n <==> a / PGSIZE == dst / PGSIZE && dst % PGSIZE <= a % PGSIZE < dst % PGSIZE + n
    ensures a / PGSIZE == dst / PGSIZE ==> a - dst == a % PGSIZE - dst % PGSIZE
  {
    assert a == a / PGSIZE * PGSIZE + a % PGSIZE && dst == dst / PGSIZE * PGSIZE + dst % PGSIZE;
  }

  lemma PageSize(words: Words, b: Bytes, root: nat, src: nat, pa: nat)
    requires Backed(words, b, root) && pa == Frame(words, root, src / PGSIZE) != 0
    ensures pa in b && |b[pa]| == PGSIZE
  {
  }

  lemma ReadPiece(words: Words, b: Bytes, root: nat, src: nat, pa: nat, n: nat, piece: seq<byte>)
    requires pa == Frame(words, root, src / PGSIZE) != 0 && pa in b && |b[pa]| == PGSIZE && src % PGSIZE + n <= PGSIZE
    requires piece == b[pa][src % PGSIZE..src % PGSIZE + n]
    ensures forall j :: 0 <= j < n ==> piece[j] == UserByte(words, b, root, src + j)
  {
    hide Frame;
    forall j | 0 <= j < n ensures piece[j] == UserByte(words, b, root, src + j) {
      SplitAddress(src + j, src, n);
    }
  }
}
