/** The 64-byte on-disk inode record (`dinode`, os/fs/nfs/common.h) and its bytes, and the
    inode-table file as an array of such records. */
module NfsCodec {
  import opened Basics
  import opened NfsCommon
  import opened NfsTree

  const DINODE_SIZE := 64
  const ITYPE_NEXT_FREE_INODE: byte := 8

  datatype Dinode = Dinode(size: u32, nlinks: u16, perm: byte, kind: byte, next: u32, addrs: seq<u32>)

  predicate WellFormed(d: Dinode) { |d.addrs| == NUM_DIRECT }

  /** Word q of the record: size; nlinks, perm and type; next_addr_block; addrs. */
  function RecordWord(d: Dinode, q: nat): (w: u32)
    requires WellFormed(d) && q < 16
  {
    if q == 0 then d.size
    else if q == 1 then d.nlinks + 0x1_0000 * d.perm + 0x100_0000 * d.kind
    else if q == 2 then d.next
    else d.addrs[q - 3]
  }

  function ByteOf(w: u32, r: nat): (b: byte)
    requires r < 4
  {
    if r == 0 then w % 0x100
    else if r == 1 then w / 0x100 % 0x100
    else if r == 2 then w / 0x1_0000 % 0x100
    else w / 0x100_0000
  }

  function Encode(d: Dinode): (s: seq<byte>)
    requires WellFormed(d)
    ensures |s| == DINODE_SIZE
  {
    seq(64, j requires 0 <= j < 64 => ByteOf(RecordWord(d, j / 4), j % 4))
  }

  function WordAt(s: seq<byte>, q: nat): (w: u32)
    requires |s| == DINODE_SIZE && q < 16
  {
    s[4 * q] as int + 0x100 * s[4 * q + 1] as int + 0x1_0000 * s[4 * q + 2] as int + 0x100_0000 * s[4 * q + 3] as int
  }

  function Decode(s: seq<byte>): (d: Dinode)
    requires |s| == DINODE_SIZE
    ensures WellFormed(d)
  {
    var w := WordAt(s, 1);
    Dinode(WordAt(s, 0), w % 0x1_0000, w / 0x1_0000 % 0x100, w / 0x100_0000, WordAt(s, 2),
           seq(NUM_DIRECT, i requires 0 <= i < NUM_DIRECT => WordAt(s, i + 3)))
  }

  lemma BytesOfWord(w: u32)
    ensures w == ByteOf(w, 0) as int + 0x100 * ByteOf(w, 1) as int
            + 0x1_0000 * ByteOf(w, 2) as int + 0x100_0000 * ByteOf(w, 3) as int
  {
    FourBytes(w);
  }

  lemma WordAtEncode(d: Dinode, q: nat)
    requires WellFormed(d) && q < 16
    ensures WordAt(Encode(d), q) == RecordWord(d, q)
  {
    hide ByteOf;
    BytesOfWord(RecordWord(d, q));
    var s := Encode(d);
    assert s[4 * q] == ByteOf(RecordWord(d, q), 0);
    assert s[4 * q + 1] == ByteOf(RecordWord(d, q), 1);
    assert s[4 * q + 2] == ByteOf(RecordWord(d, q), 2);
    assert s[4 * q + 3] == ByteOf(RecordWord(d, q), 3);
  }

  lemma Unpack(nlinks: u16, perm: byte, kind: byte)
    ensures var w := nlinks + 0x1_0000 * perm + 0x100_0000 * kind;
            w % 0x1_0000 == nlinks && w / 0x1_0000 % 0x100 == perm && w / 0x100_0000 == kind
  {
  }

  /** The struct as it lies in memory: size at byte 0, nlinks at 4, perm at 6, type at 7, next_addr_block
      at 8, and the 13 addresses from 12 on, all little-endian. */
  lemma RecordLayout(d: Dinode)
    requires WellFormed(d)
    ensures var s := Encode(d);
            && Le32(s, 0) == d.size && s[4] as int + 0x100 * s[5] as int == d.nlinks && s[6] == d.perm
            && s[7] == d.kind && Le32(s, 8) == d.next
            && forall i :: 0 <= i < 13 ==> Le32(s, 12 + 4 * i) == d.addrs[i]
  {
    hide Encode, RecordWord;
    var s := Encode(d);
    forall q: nat | q < 16 ensures Le32(s, 4 * q) == RecordWord(d, q) { WordAtEncode(d, q); }
    RecordWords(d);
    forall i | 0 <= i < 13 ensures Le32(s, 12 + 4 * i) == d.addrs[i] { assert 12 + 4 * i == 4 * (i + 3); }
    assert Le32(s, 4 * 0) == d.size && Le32(s, 4 * 2) == d.next;
    assert Le32(s, 4 * 1) == RecordWord(d, 1);
    SecondWord(s, d);
  }

  lemma RecordWords(d: Dinode)
    requires WellFormed(d)
    ensures RecordWord(d, 0) == d.size && RecordWord(d, 2) == d.next
    ensures forall i :: 0 <= i < 13 ==> RecordWord(d, i + 3) == d.addrs[i]
  {
  }

  lemma SecondWord(s: seq<byte>, d: Dinode)
    requires |s| == DINODE_SIZE && WellFormed(d) && Le32(s, 4) == RecordWord(d, 1)
    ensures s[4] as int + 0x100 * s[5] as int == d.nlinks && s[6] == d.perm && s[7] == d.kind
  {
    Unpack(d.nlinks, d.perm, d.kind);
    Unpack(s[4] as int + 0x100 * s[5] as int, s[6], s[7]);
  }

  /** __flush then __load gives the record back. */
  lemma RoundTrip(d: Dinode)
    requires WellFormed(d)
    ensures Decode(Encode(d)) == d
  {
    hide Encode, WordAt;
    WordAtEncode(d, 0);
    WordAtEncode(d, 1);
    WordAtEncode(d, 2);
    Unpack(d.nlinks, d.perm, d.kind);
    var e := Decode(Encode(d));
    assert e.addrs == d.addrs by {
      forall i | 0 <= i < NUM_DIRECT ensures e.addrs[i] == d.addrs[i] {
        WordAtEncode(d, i + 3);
      }
    }
  }

  /** Every 64 bytes are a record. */
  lemma EncodeDecode(s: seq<byte>)
    requires |s| == DINODE_SIZE
    ensures Encode(Decode(s)) == s
  {
    hide Decode, RecordWord, ByteOf, WordAt;
    var d := Decode(s);
    forall j | 0 <= j < 64 ensures Encode(d)[j] == s[j] {
      WordOfDecode(s, j / 4);
      ByteOfWordAt(s, j / 4, j % 4);
    }
  }

  lemma WordOfDecode(s: seq<byte>, q: nat)
    requires |s| == DINODE_SIZE && q < 16
    ensures RecordWord(Decode(s), q) == WordAt(s, q)
  {
    hide WordAt;
    Pack(WordAt(s, 1));
  }

  lemma Pack(w: u32)
    ensures w == w % 0x1_0000 + 0x1_0000 * (w / 0x1_0000 % 0x100) + 0x100_0000 * (w / 0x100_0000)
  {
    var a := w / 0x1_0000;
    assert w == 0x1_0000 * a + w % 0x1_0000 && a == 0x100 * (a / 0x100) + a % 0x100 && a / 0x100 == w / 0x100_0000;
  }

  lemma ByteOfWordAt(s: seq<byte>, q: nat, r: nat)
    requires |s| == DINODE_SIZE && q < 16 && r < 4
    ensures ByteOf(WordAt(s, q), r) == s[4 * q + r]
  {
    FourFrom(s[4 * q], s[4 * q + 1], s[4 * q + 2], s[4 * q + 3]);
  }

  lemma FourFrom(a: byte, b: byte, c: byte, d: byte)
    ensures var w := a as int + 0x100 * b as int + 0x1_0000 * c as int + 0x100_0000 * d as int;
            ByteOf(w, 0) == a && ByteOf(w, 1) == b && ByteOf(w, 2) == c && ByteOf(w, 3) == d
  {
    var w := a as int + 0x100 * b as int + 0x1_0000 * c as int + 0x100_0000 * d as int;
    LowByte(a, b as int + 0x100 * c as int + 0x1_0000 * d as int);
    LowByte(b, c as int + 0x100 * d as int);
    LowByte(c, d as int);
    assert w / 0x100 / 0x100 == w / 0x1_0000 && w / 0x1_0000 / 0x100 == w / 0x100_0000;
  }

  lemma LowByte(x: byte, rest: nat)
    ensures (x as int + 0x100 * rest) % 0x100 == x && (x as int + 0x100 * rest) / 0x100 == rest
  {
  }

  // ------------------------------------------------------------ the inode-table file

  ghost function RecordBytes(t: Tree, i: nat): (s: seq<byte>)
    ensures |s| == DINODE_SIZE
  {
    seq<byte>(64, j requires 0 <= j < 64 => ByteAt(t, 0, DINODE_SIZE * i + j))
  }

  /** Record i of the inode-table file (inode number 0). */
  ghost function Rec(t: Tree, i: nat): (d: Dinode)
  {
    Decode(RecordBytes(t, i))
  }

  /** Record i lies at byte 64 * i of the table file. */
  lemma RecordOnDisk(t: Tree, i: nat)
    ensures var s, d := seq<byte>(64, j requires 0 <= j < 64 => ByteAt(t, 0, 64 * i + j)), Rec(t, i);
            WellFormed(d) && Encode(d) == s
  {
    hide ByteAt, Encode, Decode;
    EncodeDecode(RecordBytes(t, i));
  }

  lemma SameRecords(t: Tree, t': Tree)
    requires SameBytes(t, t')
    ensures forall i :: Rec(t', i) == Rec(t, i)
  {
    hide Decode, ByteAt;
    forall i ensures Rec(t', i) == Rec(t, i) {
      assert RecordBytes(t', i) == RecordBytes(t, i);
    }
  }

  /** No record has changed, except those in a set. */
  ghost predicate RecordsKept(t: Tree, t': Tree, except: set<nat>)
  {
    forall i :: i !in except ==> Rec(t', i) == Rec(t, i)
  }

  lemma KeptBySame(t: Tree, t': Tree)
    requires SameBytes(t, t')
    ensures RecordsKept(t, t', {})
  {
    hide Rec;
    SameRecords(t, t');
  }

  lemma KeptByOther(t: Tree, t': Tree)
    requires forall i :: Rec(t', i) == Rec(t, i)
    ensures RecordsKept(t, t', {})
  {
    hide Rec;
  }

  lemma KeptByWrite(t0: Tree, t: Tree, t': Tree, except: set<nat>, i: nat, d: Dinode)
    requires RecordsKept(t0, t, except) && forall j :: Rec(t', j) == if j == i then d else Rec(t, j)
    ensures RecordsKept(t0, t', except + {i})
  {
    hide Rec;
  }

  lemma KeptTrans(t0: Tree, t: Tree, t': Tree, except: set<nat>, except': set<nat>)
    requires RecordsKept(t0, t, except) && RecordsKept(t, t', except')
    ensures RecordsKept(t0, t', except + except')
  {
    hide Rec;
  }

  /** Writing record i of the table changes record i and no other. */
  lemma RecordWritten(t: Tree, t': Tree, i: nat, d: Dinode)
    requires WellFormed(d) && BytesWritten(t, t', 0, DINODE_SIZE * i, Encode(d))
    ensures forall j :: Rec(t', j) == if j == i then d else Rec(t, j)
  {
    hide Decode, ByteAt, Encode;
    RoundTrip(d);
    forall j ensures Rec(t', j) == if j == i then d else Rec(t, j) {
      if j == i {
        assert RecordBytes(t', j) == Encode(d);
      } else {
        assert RecordBytes(t', j) == RecordBytes(t, j);
      }
    }
  }

  /** Writing to another file changes no record. */
  lemma OtherFileWritten(t: Tree, t': Tree, id: nat, off: nat, src: seq<byte>)
    requires id != 0 && BytesWritten(t, t', id, off, src)
    ensures forall i :: Rec(t', i) == Rec(t, i)
  {
    hide Decode, ByteAt;
    forall i ensures Rec(t', i) == Rec(t, i) {
      assert RecordBytes(t', i) == RecordBytes(t, i);
    }
  }

  ghost predicate OtherFilesSame(t: Tree, t': Tree)
  {
    forall id, o: nat :: id != 0 ==> ByteAt(t', id, o) == ByteAt(t, id, o)
  }

  lemma TableWritten(t: Tree, t': Tree, off: nat, src: seq<byte>)
    requires BytesWritten(t, t', 0, off, src)
    ensures OtherFilesSame(t, t')
  {
  }

  lemma SameOthers(t: Tree, t': Tree)
    requires SameBytes(t, t')
    ensures OtherFilesSame(t, t')
  {
  }

  lemma OthersTrans(t0: Tree, t1: Tree, t2: Tree)
    requires OtherFilesSame(t0, t1) && OtherFilesSame(t1, t2)
    ensures OtherFilesSame(t0, t2)
  {
  }

  lemma SameOthersRefl(t: Tree)
    ensures OtherFilesSame(t, t)
  {
  }
}
