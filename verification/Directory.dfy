// Directories (dirlookup and dirlink in fs.c, strncmp and strncpy in string.c): a file of 16-byte entries,
// searched and extended with readi and writei, as a finite map from names cut at DIRSIZ bytes to inode numbers.

module Directory {
  import opened Common
  import opened Blocks
  import opened Fs
  import opened FsDriver
  import opened FsRoom

  const DIRSIZ := 14
  const ENTRY := 16       // sizeof(struct dirent)
  const USHORT := 0x10000 // the inode number of an entry has 16 bits

  type Name = seq<Byte>

  // A C string, without its NUL.
  predicate NameOk(name: Name) { forall k :: 0 <= k < |name| ==> name[k] != 0 }

  // The part of a name that counts.
  function Trunc(name: Name): (r: Name) { if |name| <= DIRSIZ then name else name[..DIRSIZ] }

  // The name in a field that is padded with zeros.
  function FieldName(f: Name): (r: Name) {
    if f == [] || f[0] == 0 then [] else [f[0]] + FieldName(f[1..])
  }

  function Zeros(n: nat): (r: Name)
    ensures |r| == n && forall k :: 0 <= k < n ==> r[k] == 0
  {
    seq(n, _ => 0)
  }

  function Pad(name: Name): (r: Name)
    ensures |r| == DIRSIZ
  {
    Trunc(name) + Zeros(DIRSIZ - |Trunc(name)|)
  }

  lemma {:induction false} FieldNameIs(f: Name, e: nat)
    requires e <= |f| && (forall k :: 0 <= k < e ==> f[k] != 0) && (e < |f| ==> f[e] == 0)
    ensures FieldName(f) == f[..e]
  {
    if e > 0 {
      FieldNameIs(f[1..], e - 1);
      assert f[..e] == [f[0]] + f[1..][..e - 1];
    }
  }

  // A stored name reads back, cut at DIRSIZ bytes.
  lemma {:induction false} PadRoundTrip(name: Name)
    requires NameOk(name)
    ensures FieldName(Pad(name)) == Trunc(name)
  {
    FieldNameIs(Pad(name), |Trunc(name)|);
    assert Pad(name)[..|Trunc(name)|] == Trunc(name);
  }

  function At(s: Name, k: nat): (b: Byte) { if k < |s| then s[k] else 0 }

  // strncmp(name, field, DIRSIZ): zero exactly when the name, cut at DIRSIZ bytes, is the one in the field.
  method Strncmp(p: Name, q: Name) returns (r: int)
    requires NameOk(p) && |q| == DIRSIZ
    ensures r == 0 <==> Trunc(p) == FieldName(q)
  {
    var i := 0;
    while i < DIRSIZ && At(p, i) != 0 && At(p, i) == At(q, i)
      invariant 0 <= i <= DIRSIZ && i <= |p| && forall k :: 0 <= k < i ==> p[k] == q[k]
    {
      i := i + 1;
    }
    CompareAt(p, q, i);
    if i == DIRSIZ {
      return 0;
    }
    return At(p, i) - At(q, i);
  }

  lemma {:induction false} CompareAt(p: Name, q: Name, i: nat)
    requires NameOk(p) && |q| == DIRSIZ && i <= DIRSIZ && i <= |p| && forall k :: 0 <= k < i ==> p[k] == q[k]
    requires i == DIRSIZ || At(p, i) == 0 || At(p, i) != At(q, i)
    ensures Trunc(p) == FieldName(q) <==> i == DIRSIZ || At(p, i) == At(q, i)
  {
    FieldPrefix(q, i);
    if i == DIRSIZ {
      FieldNameIs(q, DIRSIZ);
      assert q[..DIRSIZ] == q && Trunc(p) == p[..DIRSIZ];
    } else if At(p, i) == At(q, i) {
      assert i == |p|;
      FieldNameIs(q, i);
      assert q[..i] == p[..i];
    } else if Trunc(p) == FieldName(q) {
      if i < |p| {
        assert Trunc(p)[i] == p[i];
        FieldAt(q, i);
      } else {
        FieldAt(q, i);
      }
    }
  }

  lemma {:induction false} FieldPrefix(q: Name, i: nat)
    requires i <= |q| && forall k :: 0 <= k < i ==> q[k] != 0
    ensures |FieldName(q)| >= i
  {
    if i > 0 { FieldPrefix(q[1..], i - 1); }
  }

  // Byte i of a field after i non-zero bytes: part of the name exactly when it is not zero.
  lemma {:induction false} FieldAt(q: Name, i: nat)
    requires i < |q| && forall k :: 0 <= k < i ==> q[k] != 0
    ensures i < |FieldName(q)| <==> q[i] != 0
    ensures i < |FieldName(q)| ==> FieldName(q)[i] == q[i]
  {
    if i > 0 { FieldAt(q[1..], i - 1); }
  }

  // strncpy(field, name, DIRSIZ).
  method Strncpy(name: Name) returns (r: Name)
    requires NameOk(name)
    ensures r == Pad(name)
  {
    var n, i := DIRSIZ, 0;
    r := [];
    while i < n && i < |name|
      invariant 0 <= i <= n && i <= |name| && r == name[..i]
    {
      r := r + [name[i]];
      i := i + 1;
    }
    ghost var t := r;
    while i < n
      invariant |t| <= i <= n && r == t + Zeros(i - |t|)
    {
      r := r + [0];
      i := i + 1;
    }
  }

  // ---------- entries ----------

  datatype Ent = Ent(inum: nat, name: Name)

  // struct dirent with the inode number in little-endian order; a wider number loses its upper bits.
  function Encode(inum: nat, field: Name): (b: seq<Byte>)
    requires |field| == DIRSIZ
    ensures |b| == ENTRY
  {
    [inum % 256, inum / 256 % 256] + field
  }

  function Decode(b: seq<Byte>): (e: Ent)
    requires |b| == ENTRY
  {
    Ent((b[0] as int) + 256 * (b[1] as int), FieldName(b[2..]))
  }

  lemma {:induction false} DecodeEncode(inum: nat, name: Name)
    requires NameOk(name)
    ensures Decode(Encode(inum, Pad(name))) == Ent(inum % USHORT, Trunc(name))
  {
    PadRoundTrip(name);
    assert Encode(inum, Pad(name))[2..] == Pad(name);
  }

  function EntryAt(c: seq<Byte>, k: nat): (e: Ent)
    requires ENTRY * k + ENTRY <= |c|
  {
    Decode(c[ENTRY * k..ENTRY * k + ENTRY])
  }

  // The entries of a directory with these contents.
  function Entries(c: seq<Byte>): (es: seq<Ent>)
    ensures |es| == |c| / ENTRY && forall k :: 0 <= k < |es| ==> es[k] == EntryAt(c, k)
  {
    seq(|c| / ENTRY, k requires 0 <= k < |c| / ENTRY => EntryAt(c, k))
  }

  // A live entry with this name.
  predicate Hit(e: Ent, nm: Name) { e.inum != 0 && e.name == nm }

  // The map the entries stand for.
  function MapOf(es: seq<Ent>): (m: map<Name, nat>) {
    if es == [] then map[]
    else if es[0].inum == 0 then MapOf(es[1..])
    else MapOf(es[1..])[es[0].name := es[0].inum]
  }

  // No name has two live entries.
  predicate Unique(es: seq<Ent>) {
    es == [] || (Unique(es[1..]) && (es[0].inum != 0 ==> es[0].name !in MapOf(es[1..])))
  }

  lemma {:induction false} HitMap(es: seq<Ent>, nm: Name, k: nat)
    requires Unique(es) && k < |es| && Hit(es[k], nm)
    ensures nm in MapOf(es) && MapOf(es)[nm] == es[k].inum
  {
    if k > 0 { HitMap(es[1..], nm, k - 1); }
  }

  // The first k entries do not have this name.
  ghost predicate Missed(es: seq<Ent>, nm: Name, k: nat) {
    k <= |es| && forall j :: 0 <= j < k ==> !Hit(es[j], nm)
  }

  lemma MissedNext(es: seq<Ent>, nm: Name, k: nat)
    requires Missed(es, nm, k) && k < |es| && !Hit(es[k], nm)
    ensures Missed(es, nm, k + 1)
  {
  }

  lemma {:induction false} MissMap(es: seq<Ent>, nm: Name)
    requires Missed(es, nm, |es|)
    ensures nm !in MapOf(es)
  {
    if es != [] {
      assert !Hit(es[0], nm);
      MissMap(es[1..], nm);
    }
  }

  // The entry goes into an empty slot, or at the end.
  function LinkAt(es: seq<Ent>, k: nat, e: Ent): (r: seq<Ent>)
    requires k <= |es|
  {
    if k < |es| then es[k := e] else es + [e]
  }

  // The map with one more name; inode number 0 makes an empty entry.
  function Entered(m: map<Name, nat>, nm: Name, inum: nat): (r: map<Name, nat>) {
    if inum == 0 then m else m[nm := inum]
  }

  // Reusing a slot and appending do the same to the map: it gains the one name, and names stay unique.
  lemma {:induction false} LinkMap(es: seq<Ent>, k: nat, e: Ent)
    requires Unique(es) && e.name !in MapOf(es) && k <= |es| && (k < |es| ==> es[k].inum == 0)
    ensures MapOf(LinkAt(es, k, e)) == Entered(MapOf(es), e.name, e.inum) && Unique(LinkAt(es, k, e))
  {
    var r := LinkAt(es, k, e);
    if es == [] {
      assert r == [e];
    } else if k == 0 {
      assert r[1..] == es[1..];
    } else {
      assert r[1..] == LinkAt(es[1..], k - 1, e);
      LinkMap(es[1..], k - 1, e);
    }
  }

  // Where dirlink puts a new entry: the first empty one, or the end.
  function FirstEmpty(es: seq<Ent>): (k: nat)
    ensures k <= |es| && (k < |es| ==> es[k].inum == 0) && forall j :: 0 <= j < k ==> es[j].inum != 0
  {
    if es == [] || es[0].inum == 0 then 0 else 1 + FirstEmpty(es[1..])
  }

  lemma FirstEmptyIs(es: seq<Ent>, k: nat)
    requires k <= |es| && (k < |es| ==> es[k].inum == 0) && forall j :: 0 <= j < k ==> es[j].inum != 0
    ensures FirstEmpty(es) == k
  {
    var f := FirstEmpty(es);
  }

  // Writing entry k of the contents changes that entry only.
  lemma {:induction false} SpliceEntry(c: seq<Byte>, k: nat, b: seq<Byte>, off: nat)
    requires |c| % ENTRY == 0 && off == ENTRY * k && off <= |c| && |b| == ENTRY
    ensures |Splice(c, off, b)| % ENTRY == 0 && k <= |Entries(c)|
    ensures Entries(Splice(c, off, b)) == LinkAt(Entries(c), k, Decode(b))
  {
    var r := Splice(c, off, b);
    var es, fs := Entries(c), Entries(r);
    forall j | 0 <= j < |fs|
      ensures fs[j] == LinkAt(es, k, Decode(b))[j]
    {
      if j == k {
        assert r[off..off + ENTRY] == b;
      } else {
        assert r[ENTRY * j..ENTRY * j + ENTRY] == c[ENTRY * j..ENTRY * j + ENTRY];
      }
    }
  }

  // ---------- dirlookup and dirlink ----------

  // Inode dp is a directory: whole entries, and no name twice.
  ghost predicate IsDir(s: State, dp: nat) {
    && Inv(s) && Shaped(s) && dp < |s.inodes| && s.inodes[dp].size % ENTRY == 0 && Mapped(s, dp, s.inodes[dp].size)
    && Unique(Entries(Content(s, dp)))
  }

  ghost function Dir(s: State, dp: nat): (es: seq<Ent>)
    requires IsDir(s, dp)
    ensures |es| == s.inodes[dp].size / ENTRY
  {
    Entries(Content(s, dp))
  }

  ghost predicate GivesEntry(r: IoResult, s: State, e: Ent) {
    r.Returned? && r.s == s && r.n == ENTRY && |r.bytes| == ENTRY && Decode(r.bytes) == e
  }

  // readi of entry k gives that entry and changes nothing.
  lemma {:induction false} ReadsEntry(s: State, dp: nat, k: nat, off: nat)
    requires IsDir(s, dp) && k < |Dir(s, dp)| && off == ENTRY * k
    ensures off < WORD && GivesEntry(Readi(s, dp, off, ENTRY), s, Dir(s, dp)[k])
  {
    hide Inv, Readi, Content;
    SizeBound(s, dp);
    ReadiSlices(s, dp, off, ENTRY);
  }

  lemma SizeBound(s: State, dp: nat)
    requires Inv(s) && dp < |s.inodes|
    ensures s.inodes[dp].size <= MAXFILE * BSIZE
  {
  }

  method ReadEntry(fs: FileSystem, dp: nat, off: nat, ghost k: nat) returns (b: seq<Byte>)
    requires IsDir(fs.S(), dp) && k < |Dir(fs.S(), dp)| && off == ENTRY * k
    modifies fs
    ensures fs.S() == old(fs.S()) && |b| == ENTRY && Decode(b) == Dir(fs.S(), dp)[k]
  {
    ReadsEntry(fs.S(), dp, k, off);
    var ok, len;
    ok, len, b := fs.ReadInode(dp, off, ENTRY);
  }

  // The test both loops make of an entry.
  method Check(b: seq<Byte>, name: Name) returns (inum: nat, hit: bool)
    requires |b| == ENTRY && NameOk(name)
    ensures inum == Decode(b).inum && hit == Hit(Decode(b), Trunc(name))
  {
    inum := (b[0] as int) + 256 * (b[1] as int);
    if inum == 0 {
      return inum, false;
    }
    var c := Strncmp(name, b[2..]);
    hit := c == 0;
  }

  // dirlookup: the inode number the map gives for the name and the offset of its entry, or nothing.
  method Dirlookup(fs: FileSystem, dp: nat, name: Name) returns (found: bool, inum: nat, off: nat)
    requires IsDir(fs.S(), dp) && NameOk(name)
    modifies fs
    ensures fs.S() == old(fs.S())
    ensures var m := MapOf(Dir(fs.S(), dp)); (found <==> Trunc(name) in m) && (found ==> inum == m[Trunc(name)])
    ensures found ==> && off % ENTRY == 0 && off / ENTRY < |Dir(fs.S(), dp)|
                      && Dir(fs.S(), dp)[off / ENTRY] == Ent(inum, Trunc(name))
  {
    hide Inv, Content, Mapped, Shaped, MapOf, Unique, Entries;
    found, inum, off := false, 0, 0;
    ghost var k: nat, s := 0, fs.S();
    ghost var es, nm := Dir(s, dp), Trunc(name);
    while off < fs.inodes[dp].size
      invariant fs.S() == s && off == ENTRY * k && k <= |es| && !found
      invariant Missed(es, nm, k)
      decreases |es| - k
    {
      var b := ReadEntry(fs, dp, off, k);
      inum, found := Check(b, name);
      if found {
        HitMap(es, nm, k);
        return;
      }
      MissedNext(es, nm, k);
      k, off := k + 1, off + ENTRY;
    }
    MissMap(es, nm);
  }

  // The second loop of dirlink: the offset of the first empty entry, or of the end.
  method FindEmpty(fs: FileSystem, dp: nat) returns (off: nat)
    requires IsDir(fs.S(), dp)
    modifies fs
    ensures fs.S() == old(fs.S()) && off == ENTRY * FirstEmpty(Dir(fs.S(), dp))
  {
    hide Inv, Content, Mapped, Shaped, MapOf, Unique, Entries;
    off := 0;
    ghost var s, k: nat := fs.S(), 0;
    while off < fs.inodes[dp].size
      invariant fs.S() == s && off == ENTRY * k && 0 <= k <= |Dir(s, dp)|
      invariant forall j :: 0 <= j < k ==> Dir(s, dp)[j].inum != 0
      decreases |Dir(s, dp)| - k
    {
      var b := ReadEntry(fs, dp, off, k);
      if (b[0] as int) + 256 * (b[1] as int) == 0 {
        FirstEmptyIs(Dir(s, dp), k);
        return;
      }
      k, off := k + 1, off + ENTRY;
    }
    FirstEmptyIs(Dir(s, dp), k);
  }

  // The map gains the name, and no other file changes.
  ghost predicate Linked(s: State, r: State, dp: nat, nm: Name, inum: nat)
    requires IsDir(s, dp)
  {
    && IsDir(r, dp) && MapOf(Dir(r, dp)) == Entered(MapOf(Dir(s, dp)), nm, inum)
    && forall j: nat :: j < |s.inodes| && j != dp ==> SameFile(s, r, j)
  }

  lemma {:induction false} ContentLink(c: seq<Byte>, k: nat, off: nat, name: Name, inum: nat, b: seq<Byte>)
    requires |c| % ENTRY == 0 && Unique(Entries(c)) && NameOk(name) && k <= |Entries(c)| && off == ENTRY * k
    requires (k < |Entries(c)| ==> Entries(c)[k].inum == 0) && Trunc(name) !in MapOf(Entries(c))
    requires b == Encode(inum, Pad(name))
    ensures off <= |c| && |Splice(c, off, b)| % ENTRY == 0 && Unique(Entries(Splice(c, off, b)))
    ensures MapOf(Entries(Splice(c, off, b))) == Entered(MapOf(Entries(c)), Trunc(name), inum % USHORT)
  {
    SpliceEntry(c, k, b, off);
    DecodeEncode(inum, name);
    LinkMap(Entries(c), k, Ent(inum % USHORT, Trunc(name)));
  }

  // What the writei of dirlink does.
  lemma {:induction false} WritesEntry(s: State, dp: nat, k: nat, off: nat, name: Name, inum: nat, b: seq<Byte>)
    requires IsDir(s, dp) && NameOk(name) && k <= |Dir(s, dp)| && off == ENTRY * k
    requires k < |Dir(s, dp)| ==> Dir(s, dp)[k].inum == 0
    requires off < WORD && Trunc(name) !in MapOf(Dir(s, dp)) && b == Encode(inum, Pad(name))
    requires Writei(s, dp, off, b).Returned? && Writei(s, dp, off, b).n == ENTRY
    ensures Linked(s, Writei(s, dp, off, b).s, dp, Trunc(name), inum % USHORT)
  {
    WriteiSplices(s, dp, off, b);
    ContentLink(Content(s, dp), k, off, name, inum, b);
  }

  // Writing over an entry that is there needs no block and cannot fail.
  lemma {:induction false} ReuseWorks(s: State, dp: nat, k: nat, off: nat, b: seq<Byte>)
    requires IsDir(s, dp) && k < |Dir(s, dp)| && off == ENTRY * k && off < WORD && |b| == ENTRY
    ensures Writei(s, dp, off, b).Returned? && Writei(s, dp, off, b).n == ENTRY
  {
    hide Content, Owned;
    SizeBound(s, dp);
    var own :| Owned(s, own);
    InsideWrite(s, own, dp, off / BSIZE, off % BSIZE, b, off, s.inodes[dp].size);
    WriteiReturns(s, dp, off, b);
  }

  lemma WriteiReturns(s: State, dp: nat, off: nat, b: seq<Byte>)
    requires Shaped(s) && dp < |s.inodes| && off <= s.inodes[dp].size <= MAXFILE * BSIZE && |b| == ENTRY
    requires off + |b| <= MAXFILE * BSIZE && WriteLoop(s, dp, off / BSIZE, off % BSIZE, b).Done?
    ensures Writei(s, dp, off, b).Returned? && Writei(s, dp, off, b).n == ENTRY
  {
  }

  // An entry can be written: one is empty, or the file can grow by one and the bitmap has a clear bit for every
  // block that this lacks.
  ghost predicate CanEnter(s: State, dp: nat)
    requires IsDir(s, dp)
  {
    var size := s.inodes[dp].size;
    || (exists k :: 0 <= k < |Dir(s, dp)| && Dir(s, dp)[k].inum == 0)
    || (&& size + ENTRY <= MAXFILE * BSIZE && EndBlock(size, ENTRY) <= MAXFILE
        && Lacks(s, dp, size / BSIZE, EndBlock(size, ENTRY)) <= ClearBits(s.bitmap))
  }

  // At most MAXFILE * BSIZE bytes of entries.
  lemma OffsetBound(s: State, dp: nat, k: nat)
    requires IsDir(s, dp) && k <= |Dir(s, dp)|
    ensures ENTRY * k <= s.inodes[dp].size <= MAXFILE * BSIZE && (k == |Dir(s, dp)| ==> ENTRY * k == s.inodes[dp].size)
  {
    SizeBound(s, dp);
  }

  lemma {:induction false} EnterIff(s: State, dp: nat, k: nat, off: nat, name: Name, inum: nat)
    requires IsDir(s, dp) && k == FirstEmpty(Dir(s, dp)) && off == ENTRY * k && off < WORD
    ensures var w := Writei(s, dp, off, Encode(inum, Pad(name)));
            w.Returned? && w.n == ENTRY <==> CanEnter(s, dp)
  {
    hide Inv, Writei, Content, Lacks, ClearBits, Got;
    var b := Encode(inum, Pad(name));
    OffsetBound(s, dp, k);
    WriteiRoom(s, dp, off, b);
    if k < |Dir(s, dp)| {
      ReuseWorks(s, dp, k, off, b);
    } else if Writei(s, dp, off, b).Returned? {
      WriteiSplices(s, dp, off, b);
    }
  }

  method WriteEntry(fs: FileSystem, dp: nat, off: nat, name: Name, inum: nat) returns (ok: bool)
    requires IsDir(fs.S(), dp) && NameOk(name) && off == ENTRY * FirstEmpty(Dir(fs.S(), dp))
    requires Trunc(name) !in MapOf(Dir(fs.S(), dp))
    modifies fs
    ensures ok == CanEnter(old(fs.S()), dp)
    ensures ok ==> Linked(old(fs.S()), fs.S(), dp, Trunc(name), inum % USHORT)
  {
    hide Inv, Linked, CanEnter, Writei;
    ghost var k := FirstEmpty(Dir(fs.S(), dp));
    OffsetBound(fs.S(), dp, k);
    EnterIff(fs.S(), dp, k, off, name, inum);
    var field := Strncpy(name);
    var b := Encode(inum, field);
    var n;
    ok, n := fs.WriteInode(dp, off, b);
    ok := ok && n == ENTRY;
    if ok {
      WritesEntry(old(fs.S()), dp, k, off, name, inum, b);
    }
  }

  // dirlink: -1 when the name is there; otherwise the map gains the name, with the low 16 bits of the inode
  // number, and nothing else changes. False is the panic, exactly when the name is new, no entry is empty and
  // the file cannot grow.
  method Dirlink(fs: FileSystem, dp: nat, name: Name, inum: nat) returns (ok: bool, r: int)
    requires IsDir(fs.S(), dp) && NameOk(name)
    modifies fs
    ensures ok <==> Trunc(name) in MapOf(Dir(old(fs.S()), dp)) || CanEnter(old(fs.S()), dp)
    ensures ok ==> if Trunc(name) in MapOf(Dir(old(fs.S()), dp)) then r == -1 && fs.S() == old(fs.S())
                   else r == 0 && Linked(old(fs.S()), fs.S(), dp, Trunc(name), inum % USHORT)
  {
    hide Inv, Linked, CanEnter;
    var found, i, at := Dirlookup(fs, dp, name);
    if found {
      return true, -1;
    }
    var off := FindEmpty(fs, dp);
    ok := WriteEntry(fs, dp, off, name, inum);
    r := 0;
  }

  // An entry written for inum is found again with that number exactly when inum is not zero and fits 16 bits.
  lemma {:induction false} InumKept(inum: nat, name: Name)
    requires NameOk(name)
    ensures var e := Decode(Encode(inum, Pad(name))); Hit(e, Trunc(name)) && e.inum == inum <==> 0 < inum < USHORT
  {
    DecodeEncode(inum, name);
  }
}
