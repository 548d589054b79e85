/** On-disk constants of nfs (os/fs/nfs/common.h) and the two ways in which the
    code looks at a 1024-byte block: as bytes and as 256 little-endian words. */
module NfsCommon {
  import opened Basics

  const BLOCK_SIZE := 1024
  const NUM_DIRECT := 13
  const NUM_ADDRS := 255
  const DIRECT_SPAN := 13312          // NUM_DIRECT * BLOCK_SIZE
  const ADDR_SPAN := 261120           // NUM_ADDRS * BLOCK_SIZE
  const NIL: u32 := 0xFFFF_FFFF       // (uint32)-1
  const BITMAP_BLOCK_INDEX := 2
  const BITS_PER_BLOCK := 8192

  type Block = s: seq<byte> | |s| == 1024 witness seq(1024, i => 0)

  /** A block of n equal bytes, as memset leaves it. */
  function Filled(x: byte): (b: Block)
    ensures forall i :: 0 <= i < BLOCK_SIZE ==> b[i] == x
  {
    seq(1024, i => x)
  }

  /** The little-endian 32-bit number at byte p. */
  function Le32(s: seq<byte>, p: nat): (w: u32)
    requires p + 4 <= |s|
  {
    s[p] as int + 0x100 * (s[p + 1] as int + 0x100 * (s[p + 2] as int + 0x100 * s[p + 3] as int))
  }

  /** Word i of a block, as the casts to `addr_block*` read it. */
  function Word(b: Block, i: nat): (w: u32)
    requires i < 256
  {
    b[4 * i] as int + 0x100 * b[4 * i + 1] as int + 0x1_0000 * b[4 * i + 2] as int + 0x100_0000 * b[4 * i + 3] as int
  }

  function SetWord(b: Block, i: nat, w: u32): (r: Block)
    requires i < 256
  {
    b[4 * i := w % 0x100][4 * i + 1 := w / 0x100 % 0x100]
     [4 * i + 2 := w / 0x1_0000 % 0x100][4 * i + 3 := w / 0x100_0000]
  }

  /** `addr_block::next_addr_block`. */
  function NextOf(b: Block): (w: u32) { Word(b, 0) }

  /** `addr_block::addrs[i]`. */
  function SlotOf(b: Block, i: nat): (w: u32)
    requires i < NUM_ADDRS
  { Word(b, 1 + i) }

  lemma SetBytes(b: Block, i: nat, w: u32, k: nat)
    requires i < 256 && k < 1024
    ensures SetWord(b, i, w)[k] == if k == 4 * i then w % 0x100 else if k == 4 * i + 1 then w / 0x100 % 0x100
                                   else if k == 4 * i + 2 then w / 0x1_0000 % 0x100
                                   else if k == 4 * i + 3 then w / 0x100_0000 else b[k]
  {
  }

  lemma WordSetWord(b: Block, i: nat, w: u32, j: nat)
    requires i < 256 && j < 256
    ensures Word(SetWord(b, i, w), j) == if i == j then w else Word(b, j)
  {
    hide SetWord;
    FourBytes(w);
    SetBytes(b, i, w, 4 * j);
    SetBytes(b, i, w, 4 * j + 1);
    SetBytes(b, i, w, 4 * j + 2);
    SetBytes(b, i, w, 4 * j + 3);
  }

  /** An address block: the next pointer in bytes 0 to 3, entry i in the four bytes from 4 + 4 * i. */
  lemma AddrBlockLayout(b: Block)
    ensures NextOf(b) == Le32(b, 0) && forall i :: 0 <= i < NUM_ADDRS ==> SlotOf(b, i) == Le32(b, 4 + 4 * i)
  {
  }

  /** Installing a next pointer or a slot changes that entry and no other. */
  lemma SetNext(b: Block, w: u32)
    ensures NextOf(SetWord(b, 0, w)) == w
    ensures forall i :: 0 <= i < NUM_ADDRS ==> SlotOf(SetWord(b, 0, w), i) == SlotOf(b, i)
  {
    WordSetWord(b, 0, w, 0);
    forall i | 0 <= i < NUM_ADDRS ensures SlotOf(SetWord(b, 0, w), i) == SlotOf(b, i) {
      WordSetWord(b, 0, w, 1 + i);
    }
  }

  lemma SetSlot(b: Block, k: nat, w: u32)
    requires k < NUM_ADDRS
    ensures NextOf(SetWord(b, 1 + k, w)) == NextOf(b)
    ensures forall i :: 0 <= i < NUM_ADDRS ==>
      SlotOf(SetWord(b, 1 + k, w), i) == if i == k then w else SlotOf(b, i)
  {
    WordSetWord(b, 1 + k, w, 0);
    forall i | 0 <= i < NUM_ADDRS
      ensures SlotOf(SetWord(b, 1 + k, w), i) == if i == k then w else SlotOf(b, i)
    {
      WordSetWord(b, 1 + k, w, 1 + i);
    }
  }

  /** memset(_, 0xff, BLOCK_SIZE) makes an address block with no successor and 255 holes. */
  lemma FreshAddrBlock()
    ensures NextOf(Filled(255)) == NIL
    ensures forall i :: 0 <= i < NUM_ADDRS ==> SlotOf(Filled(255), i) == NIL
  {
  }
}
