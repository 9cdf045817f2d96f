// filewrite in file.c: a long write goes out in chunks, one log transaction each. How many blocks a
// chunk can dirty, and what the chunks add up to.

module FileWrite {
  import opened Common
  import opened Blocks
  import opened Fs

  const MAXCHUNK := 1536 // ((MAXOPBLOCKS - 1 - 1 - 2) / 2) * 512

  // ---------- counting logged blocks ----------

  // The logged blocks apart from the indirect block of file i.
  function Core(s: State, i: nat): (r: set<nat>)
    requires Shaped(s) && i < |s.inodes|
  {
    s.logged - {s.inodes[i].addrs[NDIRECT]}
  }

  lemma AddOne(a: set<nat>, b: set<nat>, x: nat)
    requires b <= a + {x}
    ensures |b| <= |a| + 1
  {
    SubsetSize(b, a + {x});
  }

  function One(b: bool): (r: nat) { if b then 1 else 0 }

  // Block 0 is never logged, so "no indirect block yet" hides nothing from Core.
  predicate LogOk(s: State) { 0 !in s.logged && s.bmapstart > 0 }

  // Mapping a data slot dirties one bitmap block (and the indirect block, which Core ignores).
  lemma MapDataLogged(s: State, i: nat, k: nat)
    requires Shaped(s) && ValidSlot(s, i, k) && k != NDIRECT && LogOk(s)
    requires k > NDIRECT ==> s.inodes[i].addrs[NDIRECT] != 0
    requires MapSlot(s, i, k).Done?
    ensures var r := MapSlot(s, i, k);
            && LogOk(r.s) && r.addr != 0 && r.s.inodes[i].addrs[NDIRECT] == s.inodes[i].addrs[NDIRECT]
            && |Core(r.s, i) - {r.addr}| <= |Core(s, i)| + One(Slot(s, i, k) == 0)
  {
    var r := MapSlot(s, i, k);
    if Slot(s, i, k) == 0 {
      var b := NewBlock(s);
      AddOne(Core(s, i), Core(r.s, i) - {b}, BitmapBlock(s, b));
    } else {
      SubsetSize(Core(r.s, i) - {r.addr}, Core(s, i));
    }
  }

  // Mapping the indirect slot dirties one bitmap block and the indirect block itself.
  lemma MapIndirectLogged(s: State, i: nat)
    requires Shaped(s) && i < |s.inodes| && LogOk(s) && MapSlot(s, i, NDIRECT).Done?
    ensures var t := MapSlot(s, i, NDIRECT).s;
            && LogOk(t) && t.inodes[i].addrs[NDIRECT] != 0
            && |Core(t, i)| <= |Core(s, i)| + One(s.inodes[i].addrs[NDIRECT] == 0)
            && (forall bn: nat :: NDIRECT <= bn < MAXFILE && Slot(t, i, SlotOf(bn)) == 0 ==>
                  Slot(s, i, SlotOf(bn)) == 0)
  {
    if s.inodes[i].addrs[NDIRECT] == 0 {
      var t, b := MapSlot(s, i, NDIRECT).s, NewBlock(s);
      AddOne(Core(s, i), Core(t, i), BitmapBlock(s, b));
    }
  }

  // One round of writei adds the data block, a bitmap block when that was just allocated, and a
  // bitmap block for a new indirect block.
  lemma RoundLogged(s: State, i: nat, bn: nat, pos: nat, bytes: seq<Byte>)
    requires Shaped(s) && i < |s.inodes| && bn < MAXFILE && pos + |bytes| <= BSIZE && LogOk(s)
    requires Round(s, i, bn, pos, bytes).Done?
    ensures var v := Round(s, i, bn, pos, bytes).s;
            && LogOk(v) && (s.inodes[i].addrs[NDIRECT] != 0 ==>
               v.inodes[i].addrs[NDIRECT] == s.inodes[i].addrs[NDIRECT])
            && |Core(v, i)| + One(s.inodes[i].addrs[NDIRECT] != 0) <=
               |Core(s, i)| + One(v.inodes[i].addrs[NDIRECT] != 0) + 1 + One(Slot(s, i, SlotOf(bn)) == 0)
  {
    var t := s;
    if bn >= NDIRECT {
      MapIndirectLogged(s, i);
      t := MapSlot(s, i, NDIRECT).s;
    }
    MapDataLogged(t, i, SlotOf(bn));
    var r := MapSlot(t, i, SlotOf(bn));
    assert Bmap(s, i, bn) == r;
    var v := Round(s, i, bn, pos, bytes).s;
    AddOne(Core(r.s, i) - {r.addr}, Core(v, i), r.addr);
  }

  function Ind(s: State, i: nat): (r: nat)
    requires Shaped(s) && i < |s.inodes|
  {
    One(s.inodes[i].addrs[NDIRECT] != 0)
  }

  // Rounds of a loop that starts at a block boundary.
  function Rounds(n: nat): (r: nat) { (n + 511) / 512 }

  // From a block boundary on, each round dirties at most a data block and a bitmap block, and a
  // new indirect block costs one more bitmap block, once.
  lemma {:induction false} AlignedLogged(s: State, i: nat, bn: nat, src: seq<Byte>, n: nat)
    requires Shaped(s) && i < |s.inodes| && bn * BSIZE + 0 + |src| <= MAXFILE * BSIZE && LogOk(s) && n == |src|
    requires WriteLoop(s, i, bn, 0, src).Done?
    ensures var t := WriteLoop(s, i, bn, 0, src).s;
            LogOk(t) && |Core(t, i)| + Ind(s, i) <= |Core(s, i)| + Ind(t, i) + 2 * Rounds(n)
    decreases |src|
  {
    if src != [] {
      var m := Min(|src|, BSIZE);
      var a, b := src[..m], src[m..];
      RoundLogged(s, i, bn, 0, a);
      var v := Round(s, i, bn, 0, a).s;
      AlignedLogged(v, i, bn + 1, b, n - m);
      assert Rounds(n - m) == Rounds(n) - 1;
    }
  }

  // The unaligned first block of a chunk at offset off of file i is missing.
  predicate StartsInHole(s: State, i: nat, off: nat)
    requires Shaped(s)
  {
    off % BSIZE != 0 && !HasBlock(s, i, off / BSIZE)
  }

  // A loop that starts inside a block: one data block, and a bitmap block more when it is a hole.
  lemma UnalignedLogged(s: State, i: nat, bn: nat, pos: nat, src: seq<Byte>, n: nat)
    requires Shaped(s) && i < |s.inodes| && 0 < pos < BSIZE && bn * BSIZE + pos + |src| <= MAXFILE * BSIZE && LogOk(s)
    requires src != [] && n == |src| && WriteLoop(s, i, bn, pos, src).Done?
    ensures var t, first := WriteLoop(s, i, bn, pos, src).s, Min(n, BSIZE - pos);
            LogOk(t) && |Core(t, i)| + Ind(s, i) <=
                        |Core(s, i)| + Ind(t, i) + 1 + One(!HasBlock(s, i, bn)) + 2 * Rounds(n - first)
  {
    var m := Min(|src|, BSIZE - pos);
    var a, b := src[..m], src[m..];
    RoundLogged(s, i, bn, pos, a);
    var v := Round(s, i, bn, pos, a).s;
    AlignedLogged(v, i, bn + 1, b, n - m);
  }

  // The loop of one chunk, not counting the indirect block and the inode block.
  lemma LoopCore(s: State, i: nat, off: nat, bn: nat, pos: nat, src: seq<Byte>)
    requires Shaped(s) && i < |s.inodes| && bn == off / BSIZE && pos == off % BSIZE
    requires bn * BSIZE + pos + |src| <= MAXFILE * BSIZE
    requires s.logged == {} && s.bmapstart > 0 && 0 < |src| <= MAXCHUNK
    requires WriteLoop(s, i, bn, pos, src).Done?
    ensures |Core(WriteLoop(s, i, bn, pos, src).s, i)| <= 8 + One(StartsInHole(s, i, off))
  {
    hide HasBlock, WriteLoop;
    if pos == 0 {
      AlignedLogged(s, i, bn, src, |src|);
    } else {
      UnalignedLogged(s, i, bn, pos, src, |src|);
    }
  }

  lemma LastTwo(t: State, i: nat, off: nat, n: nat, m: nat)
    requires Shaped(t) && i < |t.inodes| && |Core(t, i)| <= m
    ensures |FinishWrite(t, i, off, n).logged| <= m + 2
  {
    var ind := t.inodes[i].addrs[NDIRECT];
    AddOne(Core(t, i), t.logged, ind);
    AddOne(t.logged, FinishWrite(t, i, off, n).logged, InodeBlock(t, i));
  }

  // A chunk at any offset of any file, holes or not, dirties at most MAXOPBLOCKS blocks, and one more
  // only when its unaligned first block is missing.
  lemma ChunkBound(s: State, i: nat, off: nat, src: seq<Byte>)
    requires Shaped(s) && i < |s.inodes| && off < WORD && |src| <= MAXCHUNK && s.logged == {} && s.bmapstart > 0
    requires Writei(s, i, off, src).Returned?
    ensures |Writei(s, i, off, src).s.logged| <= MAXOPBLOCKS + One(StartsInHole(s, i, off))
  {
    if off <= s.inodes[i].size && off + |src| <= MAXFILE * BSIZE && src != [] {
      var bn, pos := off / BSIZE, off % BSIZE;
      LoopCore(s, i, off, bn, pos, src);
      LastTwo(WriteLoop(s, i, bn, pos, src).s, i, off, |src|, 8 + One(StartsInHole(s, i, off)));
    }
  }

  // CHUNK BOUND. A chunk of filewrite, at any offset of any file and wherever its blocks are
  // allocated, dirties at most MAXOPBLOCKS blocks: files have no holes below their size.
  lemma ChunkFits(s: State, i: nat, off: nat, src: seq<Byte>)
    requires Inv(s) && i < |s.inodes| && off < WORD && |src| <= MAXCHUNK && s.logged == {} && s.bmapstart > 0
    requires Writei(s, i, off, src).Returned?
    ensures |Writei(s, i, off, src).s.logged| <= MAXOPBLOCKS
  {
    if off <= s.inodes[i].size {
      var bn := off / BSIZE;
      if off % BSIZE != 0 {
        assert bn * BSIZE < s.inodes[i].size;
        assert HasBlock(s, i, bn);
      }
      ChunkBound(s, i, off, src);
    }
  }

  // ---------- the whole write ----------

  datatype FileOut = Out(s: State, written: nat, complete: bool) | Dead

  // The loop of filewrite: one begin_op .. end_op a chunk, stopping at the first chunk writei rejects.
  function FileLoop(s: State, i: nat, off: nat, src: seq<Byte>): (r: FileOut)
    requires Shaped(s) && i < |s.inodes| && off + |src| < WORD
    decreases |src|
  {
    if src == [] then Out(s, 0, true)
    else
      var m := Min(|src|, MAXCHUNK);
      match Writei(s.(logged := {}), i, off, src[..m])
      case Panicked => Dead
      case Returned(t, n, _) =>
        if n < 0 then Out(t, 0, false)
        else After(m, FileLoop(t, i, off + m, src[m..]))
  }

  // The outcome of a write whose first m bytes were written before r.
  function After(m: nat, r: FileOut): (q: FileOut) {
    match r
    case Dead => Dead
    case Out(u, k, done) => Out(u, m + k, done)
  }

  // k bytes of src are in file i from offset off on, and nothing else changed.
  ghost predicate Landed(s: State, t: State, i: nat, off: nat, bytes: seq<Byte>) {
    && Inv(s) && Inv(t) && i < |s.inodes| == |t.inodes| && off <= s.inodes[i].size
    && Content(t, i) == Splice(Content(s, i), off, bytes)
    && (forall j: nat :: j < |s.inodes| && j != i ==> SameFile(s, t, j))
  }

  lemma NothingLanded(s: State, i: nat, off: nat)
    requires Inv(s) && i < |s.inodes| && off <= s.inodes[i].size
    ensures Landed(s, s, i, off, [])
  {
    assert Content(s, i) == Splice(Content(s, i), off, []);
  }

  lemma {:induction false} SpliceTwice(c: seq<Byte>, off: nat, a: seq<Byte>, mid: nat, b: seq<Byte>)
    requires off <= |c| && mid == off + |a|
    ensures mid <= |Splice(c, off, a)| && Splice(Splice(c, off, a), mid, b) == Splice(c, off, a + b)
  {
  }

  lemma {:induction false} LandedTwice(s: State, t: State, u: State, i: nat, off: nat, a: seq<Byte>, mid: nat,
          b: seq<Byte>)
    requires Landed(s, t, i, off, a) && mid == off + |a| && Landed(t, u, i, mid, b)
    ensures Landed(s, u, i, off, a + b)
  {
    hide Content;
    SpliceTwice(Content(s, i), off, a, mid, b);
    forall j: nat | j < |s.inodes| && j != i
      ensures SameFile(s, u, j)
    {
      assert SameFile(s, t, j) && SameFile(t, u, j);
    }
  }

  lemma FreshOwned(s: State, own: map<nat, (nat, nat)>)
    requires Owned(s, own)
    ensures Owned(s.(logged := {}), own)
  {
    var t := s.(logged := {});
    forall i: nat, k: nat | ValidSlot(s, i, k)
      ensures Slot(t, i, k) == Slot(s, i, k)
    {
    }
    forall b | b in own
      ensures OwnerSlot(t, own, b) == b
    {
      assert OwnerSlot(s, own, b) == b;
    }
  }

  lemma FreshFile(s: State, i: nat)
    requires Shaped(s) && i < |s.inodes| && Mapped(s, i, s.inodes[i].size)
    ensures SameFile(s, s.(logged := {}), i)
  {
    var t := s.(logged := {});
    forall bn: nat | HasBlock(s, i, bn)
      ensures HasBlock(t, i, bn) && FileBlock(t, i, bn) == FileBlock(s, i, bn)
    {
      assert Slot(t, i, SlotOf(bn)) == Slot(s, i, SlotOf(bn));
    }
    SameBlocksSameFile(s, t, i);
  }

  // begin_op: a new transaction has logged nothing; the files are the same.
  lemma FreshOp(s: State)
    requires Inv(s)
    ensures Inv(s.(logged := {}))
    ensures forall i: nat :: i < |s.inodes| ==> SameFile(s, s.(logged := {}), i)
  {
    var own :| Owned(s, own);
    FreshOwned(s, own);
    var t := s.(logged := {});
    assert Owned(t, own);
    forall i: nat | i < |s.inodes|
      ensures SameFile(s, t, i) && Mapped(t, i, t.inodes[i].size)
    {
      FreshFile(s, i);
    }
  }

  lemma NothingLandedYet(s: State, i: nat, off: nat)
    requires Inv(s) && i < |s.inodes| && off <= s.inodes[i].size
    ensures Landed(s, s.(logged := {}), i, off, [])
  {
    FreshOp(s);
    assert SameFile(s, s.(logged := {}), i);
    assert Content(s, i) == Splice(Content(s, i), off, []);
  }

  // One accepted chunk.
  lemma ChunkLands(s: State, i: nat, off: nat, a: seq<Byte>, end: nat) returns (v: State)
    requires Inv(s) && i < |s.inodes| && off <= s.inodes[i].size && end == off + |a| && end <= MAXFILE * BSIZE
    requires Writei(s.(logged := {}), i, off, a).Returned?
    ensures Writei(s.(logged := {}), i, off, a) == Returned(v, |a|, Writei(s.(logged := {}), i, off, a).bytes)
    ensures Landed(s, v, i, off, a) && end <= v.inodes[i].size
  {
    var o := s.(logged := {});
    FreshOp(s);
    WriteiSplices(o, i, off, a);
    v := Writei(o, i, off, a).s;
    assert SameFile(s, o, i);
    forall j: nat | j < |s.inodes| && j != i
      ensures SameFile(s, v, j)
    {
      assert SameFile(s, o, j) && SameFile(o, v, j);
    }
    assert |Splice(Content(o, i), off, a)| >= end;
  }

  // A chunk that would exceed the largest file is rejected.
  lemma ChunkRejected(s: State, i: nat, off: nat, a: seq<Byte>)
    requires Inv(s) && i < |s.inodes| && off + |a| > MAXFILE * BSIZE && off + |a| < WORD
    ensures Writei(s.(logged := {}), i, off, a) == Returned(s.(logged := {}), -1, [])
  {
  }

  // FILEWRITE. With the offset inside the file, the bytes that got written are exactly a prefix of
  // the buffer, spliced in at the offset; the call returns n exactly when the whole buffer fits
  // below MAXFILE blocks.
  lemma {:induction false} FilewriteEffect(s: State, i: nat, off: nat, src: seq<Byte>, end: nat) returns (r: FileOut)
    requires Inv(s) && i < |s.inodes| && off <= s.inodes[i].size && off + |src| < WORD && end == off + |src|
    requires FileLoop(s, i, off, src).Out?
    ensures r == FileLoop(s, i, off, src) && r.written <= |src| && Landed(s, r.s, i, off, src[..r.written])
    ensures (r.complete <==> end <= MAXFILE * BSIZE) && (r.complete ==> r.written == |src|)
    decreases |src|
  {
    hide Landed, Writei;
    r := Out(s, 0, src == []);
    assert src[..0] == [];
    if src == [] {
      NothingLanded(s, i, off);
    } else {
      var m := Min(|src|, MAXCHUNK);
      var a, b, mid := src[..m], src[m..], off + m;
      if mid <= MAXFILE * BSIZE {
        var v := ChunkLands(s, i, off, a, mid);
        var rest := FilewriteEffect(v, i, mid, b, end);
        var k := m + rest.written;
        r := Out(rest.s, k, rest.complete);
        LandedTwice(s, v, rest.s, i, off, a, mid, b[..rest.written]);
        PrefixOf(src, m, rest.written, k);
      } else {
        ChunkRejected(s, i, off, a);
        r := Out(s.(logged := {}), 0, false);
        NothingLandedYet(s, i, off);
      }
    }
  }

  lemma PrefixOf<T>(src: seq<T>, m: nat, k: nat, mk: nat)
    requires m + k == mk <= |src|
    ensures src[..m] + src[m..][..k] == src[..mk]
  {
  }

  // ---------- the bound is tight, and needs the first block ----------

  // Free blocks, one under each bitmap block.
  predicate Spread(f: seq<nat>) {
    forall k :: 0 <= k < |f| ==> f[k] / BPB == k && f[k] != 0
  }

  // The clear bits are those of f[used..].
  predicate Clear(bitmap: seq<bool>, f: seq<nat>, used: nat) {
    && (forall k :: 0 <= k < |f| ==> f[k] < |bitmap|)
    && (forall b :: 0 <= b < |bitmap| ==> bitmap[b] == !(used <= b / BPB < |f| && f[b / BPB] == b))
  }

  lemma TakeClear(bitmap: seq<bool>, f: seq<nat>, used: nat)
    requires Spread(f) && Clear(bitmap, f, used) && used < |f|
    ensures FirstFree(bitmap, 0) == f[used] && Clear(bitmap[f[used] := true], f, used + 1)
  {
    assert f[used] / BPB == used;
    FirstFreeIs(bitmap, f[used]);
  }

  // A state in the middle of such a chunk, with f[used..] still free.
  predicate Stage(s: State, i: nat, f: seq<nat>, used: nat) {
    Shaped(s) && i < |s.inodes| && Spread(f) && Clear(s.bitmap, f, used)
  }

  predicate SamePlaces(s: State, t: State, i: nat)
    requires i < |s.inodes| && i < |t.inodes|
  {
    t.bmapstart == s.bmapstart && t.inodestart == s.inodestart && t.inodes[i].size == s.inodes[i].size
  }

  // The first round writes the last byte of block 11. A block that is there is dirtied alone; a hole
  // costs a bitmap block as well.
  lemma RoundEleven(s: State, i: nat, f: seq<nat>, bytes: seq<Byte>) returns (t: State, c: nat, used: nat)
    requires Stage(s, i, f, 0) && |f| > 0 && |bytes| == 1 && s.inodes[i].addrs[NDIRECT] == 0
    requires s.inodes[i].addrs[11] < |s.data|
    ensures used == One(s.inodes[i].addrs[11] == 0) && c == (if used == 0 then s.inodes[i].addrs[11] else f[0])
    ensures Round(s, i, 11, 511, bytes) == Done(t, c) && Stage(t, i, f, used) && SamePlaces(s, t, i)
    ensures t.inodes[i].addrs[NDIRECT] == 0
    ensures t.logged == s.logged + {c} + (if used == 1 then {s.bmapstart} else {})
  {
    c, used := s.inodes[i].addrs[11], 0;
    if c == 0 {
      TakeClear(s.bitmap, f, 0);
      c, used := f[0], 1;
    }
    t := Round(s, i, 11, 511, bytes).s;
  }

  // bmap first gives the file a zeroed indirect block.
  lemma NewIndirect(s: State, i: nat, f: seq<nat>, used: nat) returns (u: State)
    requires Stage(s, i, f, used) && used < |f| && s.inodes[i].addrs[NDIRECT] == 0
    ensures MapSlot(s, i, NDIRECT) == Done(u, f[used]) && Stage(u, i, f, used + 1) && SamePlaces(s, u, i)
    ensures u.inodes[i].addrs[NDIRECT] == f[used] && u.data[f[used]] == Zero()
    ensures u.logged == s.logged + {s.bmapstart + used, f[used]}
  {
    assert f[used] / BPB == used;
    TakeClear(s.bitmap, f, used);
    u := MapSlot(s, i, NDIRECT).s;
  }

  lemma ZeroWords(j: nat)
    requires j < WORDS_PER_BLOCK
    ensures GetWord(Zero(), j) == 0
  {
  }

  // The second round allocates the indirect block and a data block.
  lemma RoundTwelve(s: State, i: nat, f: seq<nat>, used: nat, bytes: seq<Byte>) returns (t: State)
    requires Stage(s, i, f, used) && used + 1 < |f| && s.inodes[i].addrs[NDIRECT] == 0 && |bytes| <= BSIZE
    ensures Round(s, i, 12, 0, bytes) == Done(t, f[used + 1]) && Stage(t, i, f, used + 2) && SamePlaces(s, t, i)
    ensures t.inodes[i].addrs[NDIRECT] == f[used]
    ensures t.logged == s.logged + {s.bmapstart + used, f[used], s.bmapstart + used + 1, f[used + 1]}
    ensures GetWord(t.data[f[used]], 1) == 0 && GetWord(t.data[f[used]], 2) == 0
  {
    hide GetWord, PutWord, FirstFree;
    var ind, c := f[used], f[used + 1];
    var u := NewIndirect(s, i, f, used);
    assert c / BPB == used + 1 && ind / BPB == used;
    TakeClear(u.bitmap, f, used + 1);
    ZeroWords(0);
    ZeroWords(1);
    ZeroWords(2);
    WordRoundTrip(Zero(), 0, c, 1);
    WordRoundTrip(Zero(), 0, c, 2);
    t := Round(s, i, 12, 0, bytes).s;
  }

  // Each later round allocates one data block.
  lemma RoundLater(s: State, i: nat, f: seq<nat>, used: nat, bn: nat, bytes: seq<Byte>) returns (t: State)
    requires Stage(s, i, f, used) && 0 < used < |f| && 13 <= bn < MAXFILE && |bytes| <= BSIZE
    requires s.inodes[i].addrs[NDIRECT] in f[..used] && GetWord(s.data[s.inodes[i].addrs[NDIRECT]], bn - 12) == 0
    ensures Round(s, i, bn, 0, bytes) == Done(t, f[used]) && Stage(t, i, f, used + 1) && SamePlaces(s, t, i)
    ensures t.inodes == s.inodes
    ensures t.logged == s.logged + {s.bmapstart + used, f[used], s.inodes[i].addrs[NDIRECT]}
    ensures var ind := s.inodes[i].addrs[NDIRECT];
            forall j: nat :: j < WORDS_PER_BLOCK && j != bn - 12 ==> GetWord(t.data[ind], j) == GetWord(s.data[ind], j)
  {
    var ind := s.inodes[i].addrs[NDIRECT];
    assert f[used] / BPB == used;
    var h :| 0 <= h < used && f[h] == ind;
    assert ind != f[used];
    TakeClear(s.bitmap, f, used);
    t := Round(s, i, bn, 0, bytes).s;
    forall j: nat | j < WORDS_PER_BLOCK && j != bn - 12
      ensures GetWord(t.data[ind], j) == GetWord(s.data[ind], j)
    {
      WordRoundTrip(s.data[ind], bn - 12, f[used], j);
    }
  }

  lemma LastRounds(s: State, i: nat, f: seq<nat>, used: nat, src: seq<Byte>) returns (t: State)
    requires Stage(s, i, f, used + 2) && used + 3 < |f| && s.inodes[i].addrs[NDIRECT] == f[used] && |src| == 1023
    requires GetWord(s.data[f[used]], 1) == 0 && GetWord(s.data[f[used]], 2) == 0
    ensures WriteLoop(s, i, 13, 0, src) == Done(t, 0) && Shaped(t) && t.inodes == s.inodes && SamePlaces(s, t, i)
    ensures t.logged == s.logged + {s.bmapstart + used + 2, f[used + 2], s.bmapstart + used + 3, f[used + 3], f[used]}
  {
    hide Round, Stage;
    assert f[..used + 2][used] == f[used] && f[..used + 3][used] == f[used];
    StageShaped(s, i, f, used + 2);
    var v := RoundLater(s, i, f, used + 2, 13, src[..512]);
    StageShaped(v, i, f, used + 3);
    LoopUnroll(s, i, 13, 0, src, 512, v, f[used + 2]);
    var rest := src[512..];
    assert rest[..511] == rest && rest[511..] == [];
    t := RoundLater(v, i, f, used + 3, 14, rest);
    LoopUnroll(v, i, 14, 0, rest, 511, t, f[used + 3]);
  }

  lemma StageShaped(s: State, i: nat, f: seq<nat>, used: nat)
    requires Stage(s, i, f, used)
    ensures Shaped(s) && i < |s.inodes|
  {
  }

  // What a chunk dirties that starts at the last byte of block 11 of a file without an indirect
  // block, when each block it allocates lies under its own bitmap block.
  lemma ChunkDirties(s: State, i: nat, f: seq<nat>, src: seq<Byte>) returns (t: State, c: nat, used: nat)
    requires Stage(s, i, f, 0) && |src| == MAXCHUNK && s.logged == {} && s.inodes[i].size == 6143
    requires s.inodes[i].addrs[11] < |s.data| && s.inodes[i].addrs[NDIRECT] == 0
    requires |f| == 4 + One(s.inodes[i].addrs[11] == 0)
    ensures used == One(s.inodes[i].addrs[11] == 0) && c == (if used == 0 then s.inodes[i].addrs[11] else f[0])
    ensures Writei(s, i, 6143, src) == Returned(t, MAXCHUNK, [])
    ensures t.logged == {c} + (if used == 1 then {s.bmapstart} else {}) +
                        {s.bmapstart + used, f[used], s.bmapstart + used + 1, f[used + 1]} +
                        {s.bmapstart + used + 2, f[used + 2], s.bmapstart + used + 3, f[used + 3], f[used]} +
                        {InodeBlock(s, i)}
  {
    hide Stage, Round, WriteLoop, Writei, FinishWrite;
    StageShaped(s, i, f, 0);
    var s0, s1, rest := s, s, src[1..];
    s0, c, used := RoundEleven(s, i, f, src[..1]);
    StageShaped(s0, i, f, used);
    LoopUnroll(s, i, 11, 511, src, 1, s0, c);
    s1 := RoundTwelve(s0, i, f, used, rest[..512]);
    StageShaped(s1, i, f, used + 2);
    LoopUnroll(s0, i, 12, 0, rest, 512, s1, f[used + 1]);
    var u := LastRounds(s1, i, f, used, rest[512..]);
    WriteiIs(s, i, 6143, src, 11, 511, u);
    t := FinishWrite(u, i, 6143, |src|);
    FinishLogged(u, i, 6143, |src|);
  }

  lemma FinishLogged(t: State, i: nat, off: nat, n: nat)
    requires Shaped(t) && i < |t.inodes| && n > 0 && off + n > t.inodes[i].size
    ensures FinishWrite(t, i, off, n).logged == t.logged + {InodeBlock(t, i)}
  {
  }

  lemma WriteiIs(s: State, i: nat, off: nat, src: seq<Byte>, bn: nat, pos: nat, t: State)
    requires Shaped(s) && i < |s.inodes| && off <= s.inodes[i].size && off + |src| <= MAXFILE * BSIZE
    requires bn == off / BSIZE && pos == off % BSIZE && WriteLoop(s, i, bn, pos, src) == Done(t, 0)
    ensures Writei(s, i, off, src) == Returned(FinishWrite(t, i, off, |src|), |src|, [])
  {
  }

  // A disk with such free blocks. Metadata ends at block 4095; every other block in use belongs to a
  // file of twelve blocks, except that with `hole` the last block of file 0 is missing, and what
  // would be that block is the whole of the last file.
  function Gaps(hole: bool): (f: seq<nat>)
    ensures |f| == 4 + One(hole) && Spread(f)
  {
    if hole then [4095, 4108, 8201, 12294, 16387] else [4095, 4108, 8201, 12294]
  }

  function FullDisk(hole: bool): (n: nat) { if hole then 16388 else 12295 }

  function Bits(hole: bool): (r: seq<bool>) {
    seq(FullDisk(hole), b requires 0 <= b => !(b / BPB < |Gaps(hole)| && Gaps(hole)[b / BPB] == b))
  }

  // Block k of file j.
  function Place(j: nat, k: nat): (b: nat) {
    4096 + 12 * j + k + One(j >= 1) + One(j >= 342) + One(j >= 683)
  }

  function Addresses(j: nat): (r: seq<nat>)
    ensures |r| == NDIRECT + 1
  {
    seq(NDIRECT + 1, k requires 0 <= k => if k == NDIRECT then 0 else Place(j, k))
  }

  function FileOf(j: nat, hole: bool): (r: Inode)
    ensures |r.addrs| == NDIRECT + 1
  {
    if j == 1024 then Inode([4107, 0, 0, 0, 0, 0, 0, 0, 0, 0, 0, 0, 0], 512)
    else if j == 0 then Inode(if hole then Addresses(0)[11 := 0] else Addresses(0), 6143)
    else Inode(Addresses(j), 6144)
  }

  function Files(hole: bool): (r: seq<Inode>) {
    seq(if hole then 1025 else 683, j requires 0 <= j => FileOf(j, hole))
  }

  function Crowded(hole: bool): (s: State) {
    State(Bits(hole), seq(FullDisk(hole), _ => Zero()), Files(hole), Files(hole), {}, 4095, 2, 200)
  }

  // The file and slot of block b.
  function OwnerAt(b: nat, hole: bool): (o: (nat, nat))
    requires 4096 <= b
  {
    if hole && b == 4107 then (1024, 0)
    else if b < 4108 then (0, b - 4096)
    else if b < 8201 then ((b - 4097) / 12, (b - 4097) % 12)
    else if b < 12294 then ((b - 4098) / 12, (b - 4098) % 12)
    else ((b - 4099) / 12, (b - 4099) % 12)
  }

  lemma CrowdedShaped(hole: bool)
    ensures Shaped(Crowded(hole)) && Stage(Crowded(hole), 0, Gaps(hole), 0)
  {
  }

  // Direct slots hold their places and no file has an indirect block.
  lemma CrowdedSlot(hole: bool, j: nat, k: nat)
    requires Shaped(Crowded(hole)) && ValidSlot(Crowded(hole), j, k)
    ensures Slot(Crowded(hole), j, k) ==
            if k >= NDIRECT then 0
            else if j == 1024 then (if k == 0 then 4107 else 0)
            else if hole && j == 0 && k == 11 then 0
            else Place(j, k)
  {
  }

  lemma PlaceOwner(hole: bool, j: nat, k: nat)
    requires j < (if hole then 1024 else 683) && k < NDIRECT && !(hole && j == 0 && k == 11)
    ensures var b := Place(j, k); 4096 <= b < FullDisk(hole) && OwnerAt(b, hole) == (j, k) && Bits(hole)[b]
  {
  }

  lemma OwnerPlace(hole: bool, b: nat)
    requires 4095 <= b < FullDisk(hole) && Bits(hole)[b]
    ensures var s, o := Crowded(hole), OwnerAt(b, hole);
            Shaped(s) && ValidSlot(s, o.0, o.1) && Slot(s, o.0, o.1) == b
  {
    CrowdedShaped(hole);
    var o := OwnerAt(b, hole);
    CrowdedSlot(hole, o.0, o.1);
  }

  function Owners(hole: bool): (r: map<nat, (nat, nat)>) {
    map b: nat | 4096 <= b < FullDisk(hole) && Bits(hole)[b] :: OwnerAt(b, hole)
  }

  lemma CrowdedOwned(hole: bool)
    ensures Owned(Crowded(hole), Owners(hole))
  {
    hide Slot, Bits, OwnerAt, Shaped;
    var s, own := Crowded(hole), Owners(hole);
    CrowdedShaped(hole);
    forall b | b in own
      ensures s.bitmap[b] && ValidSlot(s, own[b].0, own[b].1) && OwnerSlot(s, own, b) == b
    {
      OwnerPlace(hole, b);
    }
    forall b | s.nmeta <= b < |s.data| && s.bitmap[b]
      ensures b in own
    {
      assert !Bits(hole)[4095] by { BitsAt(hole, 4095); }
    }
    forall i: nat, k: nat | ValidSlot(s, i, k) && Slot(s, i, k) != 0
      ensures Slot(s, i, k) in own && own[Slot(s, i, k)] == (i, k)
    {
      CrowdedSlot(hole, i, k);
      if i == 1024 { LastFile(hole); } else { PlaceOwner(hole, i, k); }
    }
  }

  lemma BitsAt(hole: bool, b: nat)
    requires b < FullDisk(hole)
    ensures |Bits(hole)| == FullDisk(hole)
    ensures Bits(hole)[b] == !(b / BPB < |Gaps(hole)| && Gaps(hole)[b / BPB] == b)
  {
  }

  lemma LastFile(hole: bool)
    requires hole
    ensures Bits(hole)[4107] && OwnerAt(4107, hole) == (1024, 0)
  {
  }

  // Every file has the blocks below its size, but for the hole.
  lemma CrowdedMapped(hole: bool, j: nat, bn: nat)
    requires Shaped(Crowded(hole)) && j < |Files(hole)| && bn * BSIZE < Files(hole)[j].size
    ensures HasBlock(Crowded(hole), j, bn) <==> !(hole && j == 0 && bn == 11)
  {
    CrowdedSlot(hole, j, bn);
  }

  lemma CrowdedHole()
    ensures var s := Crowded(true);
            Shaped(s) && forall j: nat, bn: nat :: j < |s.inodes| && bn * BSIZE < s.inodes[j].size ==>
                           (HasBlock(s, j, bn) <==> (j, bn) != (0, 11))
  {
    var s := Crowded(true);
    CrowdedShaped(true);
    forall j: nat, bn: nat | j < |s.inodes| && bn * BSIZE < s.inodes[j].size
      ensures HasBlock(s, j, bn) <==> (j, bn) != (0, 11)
    {
      CrowdedMapped(true, j, bn);
    }
  }

  lemma CrowdedInv()
    ensures Inv(Crowded(false))
  {
    var s := Crowded(false);
    CrowdedShaped(false);
    CrowdedOwned(false);
    forall j: nat | j < |s.inodes|
      ensures s.inodes[j].size <= MAXFILE * BSIZE && Mapped(s, j, s.inodes[j].size)
    {
      forall bn: nat | bn * BSIZE < s.inodes[j].size
        ensures HasBlock(s, j, bn)
      {
        CrowdedMapped(false, j, bn);
      }
    }
  }

  lemma CrowdedFile(hole: bool)
    ensures var s := Crowded(hole); Shaped(s) && |s.inodes| > 0 && s.inodes[0].size == 6143
    ensures var a := Crowded(hole).inodes[0].addrs;
            |a| == 13 && a[NDIRECT] == 0 && a[11] == if hole then 0 else 4107
  {
    CrowdedShaped(hole);
  }

  // The blocks one chunk dirties on that disk.
  function Dirtied(hole: bool): (r: set<nat>) {
    if hole then {4095, 200, 201, 4108, 202, 8201, 203, 12294, 204, 16387, 2}
    else {4107, 200, 4095, 201, 4108, 202, 8201, 203, 12294, 2}
  }

  lemma CardTen() ensures |Dirtied(false)| == 10 { }

  lemma CardEleven() ensures |Dirtied(true)| == 11 { }

  lemma CrowdedDirties(hole: bool, src: seq<Byte>) returns (t: State)
    requires |src| == MAXCHUNK
    ensures var s := Crowded(hole); Shaped(s) && |s.inodes| > 0 && s.inodes[0].size == 6143
    ensures Writei(Crowded(hole), 0, 6143, src) == Returned(t, MAXCHUNK, []) && t.logged == Dirtied(hole)
  {
    hide Stage, Bits, Files, Shaped, Writei;
    var s := Crowded(hole);
    CrowdedShaped(hole);
    CrowdedFile(hole);
    var c, used;
    t, c, used := ChunkDirties(s, 0, Gaps(hole), src);
  }

  // THE BOUND IS TIGHT. In a state with all the properties ChunkFits asks for, a chunk dirties ten
  // blocks: four data blocks, the indirect block, four bitmap blocks and the inode block.
  lemma BoundIsTight(src: seq<Byte>) returns (s: State, off: nat)
    requires |src| == MAXCHUNK
    ensures Inv(s) && s.bmapstart > 0 && |s.inodes| > 0 && off <= s.inodes[0].size && s.logged == {}
    ensures Writei(s, 0, off, src).Returned? && |Writei(s, 0, off, src).s.logged| == MAXOPBLOCKS
  {
    CrowdedInv();
    s, off := Crowded(false), 6143;
    var t := CrowdedDirties(false, src);
    CardTen();
  }

  // IT NEEDS THE FIRST BLOCK. With one owner for every block and no block missing but the unaligned
  // first one of the chunk, the same chunk dirties eleven.
  lemma HoleOverruns(src: seq<Byte>) returns (s: State, own: map<nat, (nat, nat)>, off: nat)
    requires |src| == MAXCHUNK
    ensures Owned(s, own) && s.bmapstart > 0 && |s.inodes| > 0 && off <= s.inodes[0].size && s.logged == {}
    ensures off % BSIZE != 0 && off < WORD
    ensures forall j: nat, bn: nat :: j < |s.inodes| && bn * BSIZE < s.inodes[j].size ==>
              (HasBlock(s, j, bn) <==> (j, bn) != (0, off / BSIZE))
    ensures Writei(s, 0, off, src).Returned? && |Writei(s, 0, off, src).s.logged| == MAXOPBLOCKS + 1
  {
    hide Slot, Bits, Place, Owned, HasBlock, Files, Writei;
    CrowdedOwned(true);
    CrowdedHole();
    s, own, off := Crowded(true), Owners(true), 6143;
    var t := CrowdedDirties(true, src);
    CardEleven();
  }
}
