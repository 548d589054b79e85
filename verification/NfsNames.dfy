/** Directory files: 32-byte entries (`dirent`, os/fs/nfs/common.h) and the counting of
    entries that name an inode. */
module NfsNames {
  import opened Basics
  import opened NfsCommon
  import opened NfsTree
  import opened NfsCodec

  const DIRENT_SIZE := 32
  const MAX_NAME_LENGTH := 28

  type RawName = s: seq<byte> | |s| == 28 witness seq(28, i => 0)

  /** An entry: inode number (0 for an empty slot) and the 28 bytes of the name field. */
  datatype Dirent = Dirent(num: u32, name: RawName)

  /** The C string in a name field: the bytes before the first NUL. */
  function CString(s: seq<byte>): (r: seq<byte>)
    ensures |r| <= |s| && r == s[..|r|]
  {
    if s == [] || s[0] == 0 then [] else [s[0]] + CString(s[1..])
  }

  /** What __link writes, from the start of the name field on: the name, and a NUL behind it. */
  function Stored(mem: seq<byte>, name: seq<byte>): (r: seq<byte>)
    requires |name| < |mem|
    ensures |r| == |mem|
  {
    name + [0] + mem[|name| + 1..]
  }

  /** A name of at most 27 bytes fills the field with itself, a NUL and what was there, and leaves
      everything behind the field alone.  A name of 28 bytes, which passes the length test, leaves the
      field without a terminator and clears the byte behind it. */
  lemma NameStored(mem: seq<byte>, name: seq<byte>)
    requires |name| <= MAX_NAME_LENGTH < |mem| && 0 !in name
    ensures var field, behind := Stored(mem, name)[..MAX_NAME_LENGTH], Stored(mem, name)[MAX_NAME_LENGTH..];
            && CString(field) == name && (0 in field <==> |name| < MAX_NAME_LENGTH)
            && (|name| < MAX_NAME_LENGTH ==>
                  field == name + [0] + mem[|name| + 1..MAX_NAME_LENGTH] && behind == mem[MAX_NAME_LENGTH..])
            && (|name| == MAX_NAME_LENGTH ==> field == name && behind == [0] + mem[MAX_NAME_LENGTH + 1..])
  {
    var s := Stored(mem, name);
    var field := s[..MAX_NAME_LENGTH];
    if |name| < MAX_NAME_LENGTH {
      var rest := mem[|name| + 1..MAX_NAME_LENGTH];
      assert field == name + [0] + rest && field[|name|] == 0;
      CStringOfName(name, rest);
    } else {
      assert field == name;
      CStringWhole(name);
    }
  }

  lemma {:induction false} CStringWhole(name: seq<byte>)
    requires 0 !in name
    ensures CString(name) == name
  {
    if name != [] {
      CStringWhole(name[1..]);
      assert name == [name[0]] + name[1..];
    }
  }

  /** The name field __link builds: the name, a NUL, and whatever was on the stack. */
  lemma {:induction false} CStringOfName(name: seq<byte>, rest: seq<byte>)
    requires 0 !in name
    ensures CString(name + [0] + rest) == name
  {
    if name == [] {
      assert (name + [0] + rest)[0] == 0;
    } else {
      assert (name + [0] + rest)[1..] == name[1..] + [0] + rest;
      CStringOfName(name[1..], rest);
    }
  }

  function EncodeDirent(e: Dirent): (s: seq<byte>)
    ensures |s| == DIRENT_SIZE
  {
    [ByteOf(e.num, 0), ByteOf(e.num, 1), ByteOf(e.num, 2), ByteOf(e.num, 3)] + e.name
  }

  function DecodeDirent(s: seq<byte>): (e: Dirent)
    requires |s| == DIRENT_SIZE
  {
    Dirent(s[0] as int + 0x100 * s[1] as int + 0x1_0000 * s[2] as int + 0x100_0000 * s[3] as int, s[4..])
  }

  /** The struct as it lies in memory: the inode number at byte 0, little-endian, the name from 4 on. */
  lemma DirentLayout(e: Dirent)
    ensures var s := EncodeDirent(e); Le32(s, 0) == e.num && s[4..32] == e.name
  {
    hide ByteOf;
    BytesOfWord(e.num);
  }

  lemma DirentRoundTrip(e: Dirent)
    ensures DecodeDirent(EncodeDirent(e)) == e
  {
    hide ByteOf;
    BytesOfWord(e.num);
    var s := EncodeDirent(e);
    assert s[4..] == e.name;
  }

  ghost function DirentBytes(t: Tree, d: nat, j: nat): (s: seq<byte>)
    ensures |s| == DIRENT_SIZE
  {
    seq<byte>(32, i requires 0 <= i < 32 => ByteAt(t, d, DIRENT_SIZE * j + i))
  }

  /** The first n entries of directory file d. */
  ghost function Slots(t: Tree, d: nat, n: nat): (s: seq<Dirent>)
    ensures |s| == n
    ensures forall j :: 0 <= j < n ==> s[j] == DecodeDirent(DirentBytes(t, d, j))
  {
    seq(n, j requires 0 <= j < n => DecodeDirent(DirentBytes(t, d, j)))
  }

  lemma SlotsFrame(t: Tree, t': Tree, d: nat, n: nat)
    requires forall o: nat :: ByteAt(t', d, o) == ByteAt(t, d, o)
    ensures Slots(t', d, n) == Slots(t, d, n)
  {
    hide ByteAt, DecodeDirent;
    forall j | 0 <= j < n ensures Slots(t', d, n)[j] == Slots(t, d, n)[j] {
      assert DirentBytes(t', d, j) == DirentBytes(t, d, j);
    }
  }

  /** s with entry j replaced, or with a new last entry. */
  function PutEntry(s: seq<Dirent>, j: nat, e: Dirent): (r: seq<Dirent>)
    requires j <= |s|
  {
    if j < |s| then s[j := e] else s + [e]
  }

  /** Writing one entry, possibly just past the end. */
  lemma EntryWritten(t: Tree, t': Tree, d: nat, n: nat, j: nat, e: Dirent)
    requires j <= n && BytesWritten(t, t', d, DIRENT_SIZE * j, EncodeDirent(e))
    ensures var r := PutEntry(Slots(t, d, n), j, e); Slots(t', d, |r|) == r
  {
    hide ByteAt, DecodeDirent, EncodeDirent;
    DirentRoundTrip(e);
    var r := PutEntry(Slots(t, d, n), j, e);
    forall i | 0 <= i < |r| ensures Slots(t', d, |r|)[i] == r[i] {
      if i == j {
        assert DirentBytes(t', d, i) == EncodeDirent(e);
      } else {
        assert DirentBytes(t', d, i) == DirentBytes(t, d, i);
      }
    }
  }

  lemma OtherDirWritten(t: Tree, t': Tree, id: nat, off: nat, src: seq<byte>, d: nat, n: nat)
    requires d != id && BytesWritten(t, t', id, off, src)
    ensures Slots(t', d, n) == Slots(t, d, n)
  {
    hide ByteAt, Slots;
    SlotsFrame(t, t', d, n);
  }

  // ------------------------------------------------------------ files left alone

  /** Only files in the given set may have changed. */
  ghost predicate Untouched(t: Tree, t': Tree, except: set<nat>)
  {
    forall k, o: nat :: k !in except ==> ByteAt(t', k, o) == ByteAt(t, k, o)
  }

  lemma UntouchedRefl(t: Tree, except: set<nat>)
    ensures Untouched(t, t, except)
  {
  }

  lemma UntouchedTrans(t0: Tree, t1: Tree, t2: Tree, a: set<nat>, b: set<nat>)
    requires Untouched(t0, t1, a) && Untouched(t1, t2, b)
    ensures Untouched(t0, t2, a + b) && forall c :: c == a + b ==> Untouched(t0, t2, c)
  {
    hide ByteAt;
  }

  lemma UntouchedMore(t: Tree, t': Tree, a: set<nat>, b: set<nat>)
    requires Untouched(t, t', a) && a <= b
    ensures Untouched(t, t', b)
  {
    hide ByteAt;
  }

  lemma UntouchedFile(t: Tree, t': Tree, except: set<nat>, k: nat)
    requires Untouched(t, t', except) && k !in except
    ensures forall o: nat :: ByteAt(t', k, o) == ByteAt(t, k, o)
  {
    hide ByteAt;
  }

  lemma SameUntouched(t: Tree, t': Tree)
    requires SameBytes(t, t')
    ensures Untouched(t, t', {})
  {
    hide ByteAt;
  }

  lemma WrittenUntouched(t: Tree, t': Tree, id: nat, off: nat, src: seq<byte>)
    requires BytesWritten(t, t', id, off, src)
    ensures Untouched(t, t', {id})
  {
    hide ByteAt;
  }

  // ------------------------------------------------------------ counting

  type Dirs = map<nat, seq<Dirent>>

  /** The directory slots that name inode i. */
  ghost function Refs(dirs: Dirs, i: nat): (s: set<(nat, nat)>)
  {
    set d: nat, j: nat | d in dirs && j < |dirs[d]| && dirs[d][j].num == i :: (d, j)
  }

  lemma InRefs(dirs: Dirs, i: nat, d: nat, j: nat)
    ensures (d, j) in Refs(dirs, i) <==> d in dirs && j < |dirs[d]| && dirs[d][j].num == i
  {
  }

  /** Filling an empty slot adds one reference to the inode it names and none to others. */
  lemma RefAdded(dirs: Dirs, d: nat, j: nat, e: Dirent, i: nat)
    requires d in dirs && j <= |dirs[d]| && (j < |dirs[d]| ==> dirs[d][j].num == 0) && e.num != 0 && i != 0
    ensures var dirs' := dirs[d := PutEntry(dirs[d], j, e)];
            |Refs(dirs', i)| == |Refs(dirs, i)| + if i == e.num then 1 else 0
  {
    hide Refs;
    var dirs' := dirs[d := PutEntry(dirs[d], j, e)];
    var added := if i == e.num then {(d, j)} else {};
    forall p: (nat, nat) ensures p in Refs(dirs', i) <==> p in Refs(dirs, i) + added {
      InRefs(dirs, i, p.0, p.1);
      InRefs(dirs', i, p.0, p.1);
    }
    assert Refs(dirs', i) == Refs(dirs, i) + added;
    InRefs(dirs, i, d, j);
  }

  /** Emptying a slot takes one reference away from the inode it named. */
  lemma RefRemoved(dirs: Dirs, d: nat, j: nat, e: Dirent, i: nat)
    requires d in dirs && j < |dirs[d]| && dirs[d][j].num != 0 && e.num == 0 && i != 0
    ensures var dirs' := dirs[d := PutEntry(dirs[d], j, e)];
            |Refs(dirs', i)| == |Refs(dirs, i)| - if i == dirs[d][j].num then 1 else 0
  {
    var dirs' := dirs[d := PutEntry(dirs[d], j, e)];
    if i == dirs[d][j].num {
      assert Refs(dirs', i) == Refs(dirs, i) - {(d, j)};
      assert (d, j) in Refs(dirs, i);
    } else {
      assert Refs(dirs', i) == Refs(dirs, i);
    }
  }

  /** A new empty directory holds no references. */
  lemma NewDirRefs(dirs: Dirs, d: nat, i: nat)
    requires d !in dirs
    ensures Refs(dirs[d := []], i) == Refs(dirs, i)
  {
  }

  lemma NoRefs(dirs: Dirs, i: nat)
    requires forall d, j :: d in dirs && 0 <= j < |dirs[d]| ==> dirs[d][j].num != i
    ensures |Refs(dirs, i)| == 0
  {
    assert Refs(dirs, i) == {};
  }
}
