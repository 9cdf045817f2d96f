// The file system as blocks on the disk (fs.h, fs.c, mkfs.c): the bitmap and the inodes in their blocks,
// what mounting reads back from them, and which blocks a write changes.

module FsDisk {
  import opened Common
  import opened Blocks
  import opened Fs
  import opened FileWrite

  // ---------- bits ----------

  function Bit(bits: seq<bool>, c: nat): (r: nat)
    ensures r <= 1
  {
    if c < |bits| && bits[c] then 1 else 0
  }

  // Eight bits from bit c on, the lowest first.
  function ByteFrom(bits: seq<bool>, c: nat): (r: Byte) { Pack(bits, c, 8) }

  function Pack(bits: seq<bool>, c: nat, n: nat): (r: nat)
    requires n <= 8
    ensures r < Mask(n)
    decreases n
  {
    if n == 0 then 0 else Bit(bits, c) + 2 * Pack(bits, c + 1, n - 1)
  }

  // 1 << j.
  function Mask(j: nat): (r: nat)
    requires j <= 8
    ensures r > 0
  {
    if j == 0 then 1 else 2 * Mask(j - 1)
  }

  // Bitmap block number n.
  function BitBlock(bits: seq<bool>, n: nat): (b: Block) {
    seq(BSIZE, k requires 0 <= k < BSIZE => ByteFrom(bits, n * BPB + 8 * k))
  }

  // The test of balloc and bfree for bit j of a bitmap block.
  predicate BitSet(b: Block, j: nat)
    requires j < BPB
  {
    b[j / 8] as int / Mask(j % 8) % 2 == 1
  }

  lemma PackStep(bits: seq<bool>, c: nat, n: nat)
    requires 1 <= n <= 8
    ensures Pack(bits, c, n) / 2 == Pack(bits, c + 1, n - 1) && Pack(bits, c, n) % 2 == Bit(bits, c)
  {
    hide Bit, Mask;
  }

  lemma {:induction false} PackedBit(bits: seq<bool>, c: nat, n: nat, j: nat)
    requires j < n <= 8
    ensures Pack(bits, c, n) / Mask(j) % 2 == Bit(bits, c + j)
    decreases n
  {
    hide Bit, Pack, Mask;
    PackStep(bits, c, n);
    if j == 0 {
      assert Mask(0) == 1 by { MaskZero(); }
    } else {
      PackedBit(bits, c + 1, n - 1, j - 1);
      Halve(Pack(bits, c, n), j - 1);
    }
  }

  lemma MaskZero()
    ensures Mask(0) == 1
  {
  }

  lemma Halve(x: nat, j: nat)
    requires j < 7
    ensures x / Mask(j + 1) == x / 2 / Mask(j)
  {
    var y := x / 2;
    assert x / 4 == y / 2 && x / 8 == y / 4 && x / 16 == y / 8;
    assert x / 32 == y / 16 && x / 64 == y / 32 && x / 128 == y / 64;
    assert Mask(1) == 2 && Mask(2) == 4 && Mask(3) == 8 && Mask(4) == 16;
    assert Mask(5) == 32 && Mask(6) == 64 && Mask(7) == 128;
  }

  // The bits written into a bitmap block are the ones read from it.
  lemma {:induction false} BitRoundTrip(bits: seq<bool>, n: nat, j: nat)
    requires j < BPB && n * BPB + j < |bits|
    ensures BitSet(BitBlock(bits, n), j) <==> bits[n * BPB + j]
  {
    hide Pack, Mask;
    PackedBit(bits, n * BPB + 8 * (j / 8), 8, j % 8);
    assert n * BPB + 8 * (j / 8) + j % 8 == n * BPB + j;
  }

  // ---------- inodes ----------

  // A block made of 128 words.
  function FromWords(ws: seq<nat>): (b: Block)
    requires |ws| == WORDS_PER_BLOCK && forall i :: 0 <= i < |ws| ==> ws[i] < WORD
  {
    seq(BSIZE, k requires 0 <= k < BSIZE => Digit(ws[k / 4], k % 4))
  }

  // Byte j of a word.
  function Digit(w: nat, j: nat): (r: Byte)
    requires w < WORD && j < 4
  {
    if j == 0 then w % 0x100 else if j == 1 then w / 0x100 % 0x100 else if j == 2 then w / 0x1_0000 % 0x100
    else w / 0x100_0000
  }

  lemma {:induction false} WordsBack(ws: seq<nat>, i: nat)
    requires |ws| == WORDS_PER_BLOCK && i < |ws| && forall k :: 0 <= k < |ws| ==> ws[k] < WORD
    ensures GetWord(FromWords(ws), i) == ws[i]
  {
    var b, w := FromWords(ws), ws[i];
    assert b[4 * i] == Digit(w, 0) && b[4 * i + 1] == Digit(w, 1);
    assert b[4 * i + 2] == Digit(w, 2) && b[4 * i + 3] == Digit(w, 3);
    Digits(w);
  }

  const DINODE := 16 // words in a struct dinode: two of type, device and link count, the size, the addresses

  // Word w of inode block number n over the block that was there: writei changes no type and no link count.
  function InodeWord(dinodes: seq<Inode>, under: Block, n: nat, w: nat): (r: nat)
    requires w < WORDS_PER_BLOCK
    ensures r < WORD
  {
    var j, f := n * IPB + w / DINODE, w % DINODE;
    if j >= |dinodes| || f < 2 then GetWord(under, w)
    else if f == 2 then dinodes[j].size % WORD
    else if f - 3 < |dinodes[j].addrs| then dinodes[j].addrs[f - 3] % WORD
    else 0
  }

  function DinodeBlock(dinodes: seq<Inode>, under: Block, n: nat): (b: Block) {
    FromWords(seq(WORDS_PER_BLOCK, w requires 0 <= w < WORDS_PER_BLOCK => InodeWord(dinodes, under, n, w)))
  }

  // n words of a block, from word w on.
  function GetWords(b: Block, w: nat, n: nat): (r: seq<nat>)
    requires w + n <= WORDS_PER_BLOCK
    ensures |r| == n && forall k :: 0 <= k < n ==> r[k] == GetWord(b, w + k)
  {
    if n == 0 then [] else GetWords(b, w, n - 1) + [GetWord(b, w + n - 1)]
  }

  // What ilock reads of inode number f of its block.
  function DinodeOf(b: Block, f: nat): (r: Inode)
    requires f < IPB
  {
    Inode(GetWords(b, DINODE * f + 3, NDIRECT + 1), GetWord(b, DINODE * f + 2))
  }

  predicate InodeFits(ip: Inode) {
    |ip.addrs| == NDIRECT + 1 && ip.size < WORD && forall k :: 0 <= k <= NDIRECT ==> ip.addrs[k] < WORD
  }

  // The inodes written into an inode block are the ones read from it.
  lemma {:induction false} DinodeRoundTrip(dinodes: seq<Inode>, under: Block, n: nat, f: nat)
    requires f < IPB && n * IPB + f < |dinodes| && InodeFits(dinodes[n * IPB + f])
    ensures DinodeOf(DinodeBlock(dinodes, under, n), f) == dinodes[n * IPB + f]
  {
    hide DinodeBlock, GetWord;
    var ip, b := dinodes[n * IPB + f], DinodeBlock(dinodes, under, n);
    DinodeWord(dinodes, under, n, f, 2);
    forall k | 0 <= k <= NDIRECT
      ensures GetWord(b, DINODE * f + 3 + k) == ip.addrs[k]
    {
      DinodeWord(dinodes, under, n, f, 3 + k);
    }
    assert DinodeOf(b, f).addrs == ip.addrs;
  }

  // Word j of an inode in its block.
  lemma {:induction false} DinodeWord(dinodes: seq<Inode>, under: Block, n: nat, f: nat, j: nat)
    requires f < IPB && n * IPB + f < |dinodes| && InodeFits(dinodes[n * IPB + f]) && 2 <= j < DINODE
    ensures var ip := dinodes[n * IPB + f];
            GetWord(DinodeBlock(dinodes, under, n), DINODE * f + j) == if j == 2 then ip.size else ip.addrs[j - 3]
  {
    hide FromWords, GetWord;
    var ws := seq(WORDS_PER_BLOCK, w requires 0 <= w < WORDS_PER_BLOCK => InodeWord(dinodes, under, n, w));
    var w := DINODE * f + j;
    WordsBack(ws, w);
    assert w / DINODE == f && w % DINODE == j;
  }

  // ---------- the disk a file system makes ----------

  predicate IsInodeBlock(s: State, b: nat) { s.inodestart <= b && (b - s.inodestart) * IPB < |s.inodes| }

  predicate IsBitmapBlock(s: State, b: nat) { s.bmapstart <= b && (b - s.bmapstart) * BPB < |s.bitmap| }

  function ImageBlock(s: State, b: nat): (r: Block)
    requires b < |s.data|
  {
    if IsInodeBlock(s, b) then DinodeBlock(s.dinodes, s.data[b], b - s.inodestart)
    else if IsBitmapBlock(s, b) then BitBlock(s.bitmap, b - s.bmapstart)
    else s.data[b]
  }

  function Image(s: State): (d: Disk)
    ensures |d| == |s.data|
  {
    seq(|s.data|, b requires 0 <= b < |s.data| => ImageBlock(s, b))
  }

  // Inode blocks and bitmap blocks are different blocks below nmeta.
  ghost predicate Laid(s: State) {
    && s.bmapstart > 0
    && (forall b: nat :: IsInodeBlock(s, b) ==> b < s.nmeta && !IsBitmapBlock(s, b))
    && (forall b: nat :: IsBitmapBlock(s, b) ==> b < s.nmeta)
  }

  // The disk is large enough for n inodes and for the bits of all its blocks.
  predicate Holding(d: Disk, n: nat, inodestart: nat, bmapstart: nat) {
    && (n > 0 ==> (n - 1) / IPB + inodestart < |d|)
    && (|d| > 0 ==> (|d| - 1) / BPB + bmapstart < |d|)
  }

  // What is read from a disk: every bit, and every inode as ilock finds it.
  function Mount(d: Disk, n: nat, nmeta: nat, inodestart: nat, bmapstart: nat): (s: State)
    requires Holding(d, n, inodestart, bmapstart)
  {
    var inodes := seq(n, j requires 0 <= j < n => MountInode(d, inodestart, j));
    State(seq(|d|, c requires 0 <= c < |d| => MountBit(d, bmapstart, c)), d, inodes, inodes, {}, nmeta, inodestart,
          bmapstart)
  }

  predicate MountBit(d: Disk, bmapstart: nat, c: nat)
    requires c / BPB + bmapstart < |d|
  {
    BitSet(d[c / BPB + bmapstart], c % BPB)
  }

  function MountInode(d: Disk, inodestart: nat, j: nat): (ip: Inode)
    requires j / IPB + inodestart < |d|
  {
    DinodeOf(d[j / IPB + inodestart], j % IPB)
  }

  // The same file system: they may differ in what their states say of blocks below nmeta, where bitmap and
  // inodes are, and in what has been logged.
  ghost predicate Alike(s: State, u: State) {
    && u.bitmap == s.bitmap && u.inodes == s.inodes && u.dinodes == s.dinodes && |u.data| == |s.data|
    && u.nmeta == s.nmeta && u.inodestart == s.inodestart && u.bmapstart == s.bmapstart
    && forall b :: s.nmeta <= b < |s.data| ==> u.data[b] == s.data[b]
  }

  lemma {:induction false} AlikeSlots(s: State, u: State, own: map<nat, (nat, nat)>, i: nat, k: nat)
    requires Owned(s, own) && Alike(s, u) && ValidSlot(s, i, k)
    ensures Shaped(u) && Slot(u, i, k) == Slot(s, i, k)
  {
    if k > NDIRECT && Slot(s, i, NDIRECT) != 0 { assert Slot(s, i, NDIRECT) in own; }
  }

  lemma {:induction false} AlikeOwned(s: State, u: State, own: map<nat, (nat, nat)>)
    requires Owned(s, own) && Alike(s, u)
    ensures Owned(u, own)
  {
    forall i: nat, k: nat | ValidSlot(s, i, k)
      ensures Slot(u, i, k) == Slot(s, i, k)
    {
      AlikeSlots(s, u, own, i, k);
    }
    forall b | b in own
      ensures OwnerSlot(u, own, b) == b
    {
      assert OwnerSlot(s, own, b) == b;
    }
  }

  lemma {:induction false} AlikeFile(s: State, u: State, own: map<nat, (nat, nat)>, j: nat)
    requires Owned(s, own) && Alike(s, u) && j < |s.inodes| && Mapped(s, j, s.inodes[j].size)
    ensures SameFile(s, u, j)
  {
    AlikeOwned(s, u, own);
    forall bn: nat | HasBlock(s, j, bn)
      ensures HasBlock(u, j, bn) && FileBlock(u, j, bn) == FileBlock(s, j, bn)
    {
      AlikeSlots(s, u, own, j, SlotOf(bn));
      assert Slot(s, j, SlotOf(bn)) in own;
    }
    SameBlocksSameFile(s, u, j);
  }

  // It has the same files, and meets the invariant.
  lemma {:induction false} AlikeInv(s: State, u: State)
    requires Inv(s) && Alike(s, u)
    ensures Inv(u) && forall j: nat :: j < |s.inodes| ==> SameFile(s, u, j)
  {
    var own :| Owned(s, own);
    AlikeOwned(s, u, own);
    forall j: nat | j < |s.inodes|
      ensures SameFile(s, u, j) && Mapped(u, j, u.inodes[j].size)
    {
      AlikeFile(s, u, own, j);
    }
  }

  // ---------- which blocks a write changes ----------

  // From s to t only logged blocks of the disk have changed.
  ghost predicate Tracks(s: State, t: State) {
    && |t.data| == |s.data| && |t.bitmap| == |s.bitmap| && |t.inodes| == |s.inodes| && |t.dinodes| == |s.dinodes|
    && t.nmeta == s.nmeta && t.inodestart == s.inodestart && t.bmapstart == s.bmapstart && s.logged <= t.logged
    && (forall b :: 0 <= b < |s.data| && b !in t.logged ==> t.data[b] == s.data[b])
    && (forall b :: 0 <= b < |s.bitmap| && BitmapBlock(s, b) !in t.logged ==> t.bitmap[b] == s.bitmap[b])
    && (forall j :: 0 <= j < |s.dinodes| && InodeBlock(s, j) !in t.logged ==> t.dinodes[j] == s.dinodes[j])
  }

  lemma {:induction false} TracksTwice(s: State, t: State, u: State)
    requires Tracks(s, t) && Tracks(t, u)
    ensures Tracks(s, u)
  {
    forall b | 0 <= b < |s.bitmap| && BitmapBlock(s, b) !in u.logged
      ensures u.bitmap[b] == s.bitmap[b]
    {
      assert BitmapBlock(t, b) == BitmapBlock(s, b);
    }
    forall j | 0 <= j < |s.dinodes| && InodeBlock(s, j) !in u.logged
      ensures u.dinodes[j] == s.dinodes[j]
    {
      assert InodeBlock(t, j) == InodeBlock(s, j);
    }
  }

  lemma {:induction false} MapTracks(s: State, i: nat, k: nat)
    requires Shaped(s) && ValidSlot(s, i, k) && (k > NDIRECT ==> s.inodes[i].addrs[NDIRECT] != 0)
    requires MapSlot(s, i, k).Done?
    ensures Tracks(s, MapSlot(s, i, k).s)
  {
  }

  lemma {:induction false} RoundTracks(s: State, i: nat, bn: nat, pos: nat, bytes: seq<Byte>)
    requires Shaped(s) && i < |s.inodes| && bn < MAXFILE && pos + |bytes| <= BSIZE
    requires Round(s, i, bn, pos, bytes).Done?
    ensures Tracks(s, Round(s, i, bn, pos, bytes).s)
  {
    hide MapSlot, Tracks;
    var t := s;
    if bn >= NDIRECT {
      MapTracks(s, i, NDIRECT);
      t := MapSlot(s, i, NDIRECT).s;
    } else {
      TracksSelf(s);
    }
    MapTracks(t, i, SlotOf(bn));
    var r := MapSlot(t, i, SlotOf(bn));
    assert Bmap(s, i, bn) == r;
    TracksTwice(s, t, r.s);
    StoreTracks(r.s, r.addr, pos, bytes);
    TracksTwice(s, r.s, StoreBytes(r.s, r.addr, pos, bytes));
  }

  lemma TracksSelf(s: State)
    ensures Tracks(s, s)
  {
  }

  lemma StoreTracks(s: State, c: nat, pos: nat, bytes: seq<Byte>)
    requires Shaped(s) && c < |s.data| && pos + |bytes| <= BSIZE
    ensures Tracks(s, StoreBytes(s, c, pos, bytes))
  {
  }

  lemma {:induction false} LoopTracks(s: State, i: nat, bn: nat, pos: nat, src: seq<Byte>)
    requires Shaped(s) && i < |s.inodes| && pos < BSIZE && bn * BSIZE + pos + |src| <= MAXFILE * BSIZE
    requires WriteLoop(s, i, bn, pos, src).Done?
    ensures Tracks(s, WriteLoop(s, i, bn, pos, src).s)
    decreases |src|
  {
    hide Tracks, Round;
    if src == [] {
      TracksSelf(s);
    } else {
      var m := Min(|src|, BSIZE - pos);
      RoundTracks(s, i, bn, pos, src[..m]);
      var v := Round(s, i, bn, pos, src[..m]).s;
      LoopTracks(v, i, bn + 1, 0, src[m..]);
      TracksTwice(s, v, WriteLoop(s, i, bn, pos, src).s);
    }
  }

  lemma FinishTracks(s: State, i: nat, off: nat, n: nat)
    requires Shaped(s) && i < |s.inodes|
    ensures Tracks(s, FinishWrite(s, i, off, n))
  {
  }

  // writei logs every block it changes.
  lemma {:induction false} WriteTracks(s: State, i: nat, off: nat, src: seq<Byte>)
    requires Shaped(s) && i < |s.inodes| && off < WORD && |src| < WORD && Writei(s, i, off, src).Returned?
    ensures Tracks(s, Writei(s, i, off, src).s)
  {
    hide Tracks, WriteLoop;
    if Writei(s, i, off, src).n == -1 {
      TracksSelf(s);
    } else {
      LoopTracks(s, i, off / BSIZE, off % BSIZE, src);
      var t := WriteLoop(s, i, off / BSIZE, off % BSIZE, src).s;
      FinishTracks(t, i, off, |src|);
      TracksTwice(s, t, FinishWrite(t, i, off, |src|));
    }
  }

  lemma FreeTracks(s: State, b: nat)
    requires Shaped(s) && s.nmeta <= b && Free(s, b).Done?
    ensures Tracks(s, Free(s, b).s)
  {
  }

  lemma ClearSlotTracks(s: State, i: nat, k: nat)
    requires Shaped(s) && i < |s.inodes| && k <= NDIRECT
    ensures Tracks(s, SetSlot(s, i, k, 0))
  {
  }

  lemma {:induction false} DirectTracks(s: State, i: nat, k: nat)
    requires Shaped(s) && i < |s.inodes| && k <= NDIRECT && TruncDirect(s, i, k).Done?
    ensures Tracks(s, TruncDirect(s, i, k).s)
    decreases NDIRECT - k
  {
    hide Tracks;
    TracksSelf(s);
    if k < NDIRECT {
      var b := s.inodes[i].addrs[k];
      if b == 0 {
        DirectTracks(s, i, k + 1);
      } else {
        var u := Free(s, b).s;
        var v := SetSlot(u, i, k, 0);
        FreeTracks(s, b);
        ClearSlotTracks(u, i, k);
        TracksTwice(s, u, v);
        DirectTracks(v, i, k + 1);
        TracksTwice(s, v, TruncDirect(s, i, k).s);
      }
    }
  }

  lemma {:induction false} EntriesTrack(s: State, ind: nat, j: nat)
    requires Shaped(s) && ind < |s.data| && j <= NINDIRECT && FreeEntries(s, ind, j).Done?
    ensures Tracks(s, FreeEntries(s, ind, j).s)
    decreases NINDIRECT - j
  {
    hide Tracks;
    TracksSelf(s);
    if j < NINDIRECT {
      var b := GetWord(s.data[ind], j);
      if b == 0 {
        EntriesTrack(s, ind, j + 1);
      } else {
        var u := Free(s, b).s;
        FreeTracks(s, b);
        EntriesTrack(u, ind, j + 1);
        TracksTwice(s, u, FreeEntries(s, ind, j).s);
      }
    }
  }

  lemma {:induction false} IndirectTracks(s: State, i: nat)
    requires Shaped(s) && i < |s.inodes| && TruncIndirect(s, i).Done?
    ensures Tracks(s, TruncIndirect(s, i).s)
  {
    hide Tracks, FreeEntries;
    TracksSelf(s);
    var ind := s.inodes[i].addrs[NDIRECT];
    if ind != 0 {
      EntriesTrack(s, ind, 0);
      var u := FreeEntries(s, ind, 0).s;
      FreeTracks(u, ind);
      var v := Free(u, ind).s;
      ClearSlotTracks(v, i, NDIRECT);
      TracksTwice(s, u, v);
      TracksTwice(s, v, SetSlot(v, i, NDIRECT, 0));
    }
  }

  lemma EmptyTracks(s: State, i: nat)
    requires Shaped(s) && i < |s.inodes|
    ensures Tracks(s, Iupdate(Resize(s, i, 0), i))
  {
  }

  // itrunc logs every block it changes.
  lemma {:induction false} TruncTracks(s: State, i: nat)
    requires Shaped(s) && i < |s.inodes| && Itrunc(s, i).Done?
    ensures Tracks(s, Itrunc(s, i).s)
  {
    hide Tracks, TruncDirect, TruncIndirect;
    DirectTracks(s, i, 0);
    var t := TruncDirect(s, i, 0).s;
    IndirectTracks(t, i);
    var u := TruncIndirect(t, i).s;
    TracksTwice(s, t, u);
    EmptyTracks(u, i);
    TracksTwice(s, u, Iupdate(Resize(u, i, 0), i));
  }

  // So the disk changes only at logged blocks.
  lemma {:induction false} ImageFrame(s: State, t: State, b: nat)
    requires Tracks(s, t) && |s.dinodes| == |s.inodes| && b < |s.data| && b !in t.logged
    ensures ImageBlock(t, b) == ImageBlock(s, b)
  {
    hide FromWords, ByteFrom;
    if IsInodeBlock(s, b) {
      var n := b - s.inodestart;
      forall w | 0 <= w < WORDS_PER_BLOCK
        ensures InodeWord(t.dinodes, t.data[b], n, w) == InodeWord(s.dinodes, s.data[b], n, w)
      {
        var j := n * IPB + w / DINODE;
        if j < |s.dinodes| { assert InodeBlock(s, j) == b; }
      }
      assert seq(WORDS_PER_BLOCK, w requires 0 <= w < WORDS_PER_BLOCK => InodeWord(t.dinodes, t.data[b], n, w))
          == seq(WORDS_PER_BLOCK, w requires 0 <= w < WORDS_PER_BLOCK => InodeWord(s.dinodes, s.data[b], n, w));
    } else if IsBitmapBlock(s, b) {
      BitFrame(s, t, b - s.bmapstart);
    }
  }

  lemma {:induction false} PackSame(a: seq<bool>, b: seq<bool>, c: nat, n: nat)
    requires n <= 8 && forall k :: c <= k < c + n ==> Bit(a, k) == Bit(b, k)
    ensures Pack(a, c, n) == Pack(b, c, n)
    decreases n
  {
    hide Bit, Mask;
    if n > 0 { PackSame(a, b, c + 1, n - 1); }
  }

  lemma {:induction false} BitFrame(s: State, t: State, n: nat)
    requires Tracks(s, t) && n + s.bmapstart !in t.logged
    ensures BitBlock(t.bitmap, n) == BitBlock(s.bitmap, n)
  {
    hide Pack;
    forall k | 0 <= k < BSIZE
      ensures ByteFrom(t.bitmap, n * BPB + 8 * k) == ByteFrom(s.bitmap, n * BPB + 8 * k)
    {
      forall c | n * BPB + 8 * k <= c < n * BPB + 8 * k + 8
        ensures Bit(t.bitmap, c) == Bit(s.bitmap, c)
      {
        if c < |s.bitmap| { assert BitmapBlock(s, c) == n + s.bmapstart; }
      }
      PackSame(t.bitmap, s.bitmap, n * BPB + 8 * k, 8);
    }
  }

  // ---------- where the logged blocks are ----------

  // Inodes, bitmap and data, but no other block below nmeta.
  predicate Placed(s: State, b: nat) { s.nmeta <= b < |s.data| || IsBitmapBlock(s, b) || IsInodeBlock(s, b) }

  ghost predicate AllPlaced(s: State) { forall b :: b in s.logged ==> Placed(s, b) }

  lemma {:induction false} MapPlaced(s: State, own: map<nat, (nat, nat)>, i: nat, k: nat)
    requires Owned(s, own) && AllPlaced(s) && ValidSlot(s, i, k) && (k > NDIRECT ==> s.inodes[i].addrs[NDIRECT] != 0)
    requires MapSlot(s, i, k).Done?
    ensures AllPlaced(MapSlot(s, i, k).s)
  {
    if Slot(s, i, k) == 0 {
      var b := NewBlock(s);
      assert Slot(s, i, NDIRECT) != 0 ==> Slot(s, i, NDIRECT) in own;
      assert IsBitmapBlock(s, BitmapBlock(s, b));
      var t := MapSlot(s, i, k).s;
      forall c | c in t.logged
        ensures Placed(t, c)
      {
        assert c in s.logged ==> Placed(s, c);
      }
    }
  }

  lemma {:induction false} RoundPlaced(s: State, own: map<nat, (nat, nat)>, i: nat, bn: nat, pos: nat, bytes: seq<Byte>)
    returns (own': map<nat, (nat, nat)>)
    requires Owned(s, own) && AllPlaced(s) && i < |s.inodes| && bn < MAXFILE && pos + |bytes| <= BSIZE
    requires Round(s, i, bn, pos, bytes).Done?
    ensures Owned(Round(s, i, bn, pos, bytes).s, own') && AllPlaced(Round(s, i, bn, pos, bytes).s)
  {
    hide MapSlot, Owned, AllPlaced;
    OwnedShaped(s, own);
    own' := BmapEffect(s, own, i, bn);
    var u := Bmap(s, i, bn);
    BmapPlaced(s, own, i, bn);
    StoreEffect(u.s, own', i, bn, pos, bytes);
    OwnedAbove(u.s, own', i, SlotOf(bn));
    StorePlaced(u.s, u.addr, pos, bytes);
  }

  lemma OwnedShaped(s: State, own: map<nat, (nat, nat)>)
    requires Owned(s, own)
    ensures Shaped(s)
  {
  }

  lemma OwnedAbove(s: State, own: map<nat, (nat, nat)>, i: nat, k: nat)
    requires Owned(s, own) && ValidSlot(s, i, k) && Slot(s, i, k) != 0
    ensures s.nmeta <= Slot(s, i, k) < |s.data|
  {
    assert Slot(s, i, k) in own;
  }

  lemma {:induction false} BmapPlaced(s: State, own: map<nat, (nat, nat)>, i: nat, bn: nat)
    requires Owned(s, own) && AllPlaced(s) && i < |s.inodes| && bn < MAXFILE && Bmap(s, i, bn).Done?
    ensures AllPlaced(Bmap(s, i, bn).s)
  {
    hide AllPlaced;
    var t, mid := s, own;
    if bn >= NDIRECT {
      MapPlaced(s, own, i, NDIRECT);
      t := MapSlot(s, i, NDIRECT).s;
      if Slot(s, i, NDIRECT) == 0 {
        MapSlotEffect(s, own, i, NDIRECT);
        mid := own[NewBlock(s) := (i, NDIRECT)];
      }
    }
    MapPlaced(t, mid, i, SlotOf(bn));
  }

  lemma StorePlaced(s: State, c: nat, pos: nat, bytes: seq<Byte>)
    requires Shaped(s) && AllPlaced(s) && s.nmeta <= c < |s.data| && pos + |bytes| <= BSIZE
    ensures AllPlaced(StoreBytes(s, c, pos, bytes))
  {
    var t := StoreBytes(s, c, pos, bytes);
    forall b | b in t.logged
      ensures Placed(t, b)
    {
      assert b in s.logged ==> Placed(s, b);
    }
  }

  lemma {:induction false} LoopPlaced(s: State, own: map<nat, (nat, nat)>, i: nat, bn: nat, pos: nat, src: seq<Byte>)
    requires Owned(s, own) && AllPlaced(s) && i < |s.inodes| && pos < BSIZE
    requires bn * BSIZE + pos + |src| <= MAXFILE * BSIZE && WriteLoop(s, i, bn, pos, src).Done?
    ensures AllPlaced(WriteLoop(s, i, bn, pos, src).s)
    decreases |src|
  {
    hide Owned, AllPlaced, Round;
    OwnedShaped(s, own);
    if src != [] {
      var m := Min(|src|, BSIZE - pos);
      var own' := RoundPlaced(s, own, i, bn, pos, src[..m]);
      LoopPlaced(Round(s, i, bn, pos, src[..m]).s, own', i, bn + 1, 0, src[m..]);
    }
  }

  // What writei logs lies among the inodes, the bitmap and the data blocks.
  lemma {:induction false} WritePlaced(s: State, i: nat, off: nat, src: seq<Byte>)
    requires Inv(s) && s.logged == {} && i < |s.inodes| && off < WORD && |src| < WORD
    requires Writei(s, i, off, src).Returned?
    ensures AllPlaced(Writei(s, i, off, src).s)
  {
    hide WriteLoop;
    if Writei(s, i, off, src).n != -1 {
      var own :| Owned(s, own);
      LoopPlaced(s, own, i, off / BSIZE, off % BSIZE, src);
      var t := WriteLoop(s, i, off / BSIZE, off % BSIZE, src).s;
      var u := FinishWrite(t, i, off, |src|);
      assert IsInodeBlock(t, InodeBlock(t, i));
      forall b | b in u.logged
        ensures Placed(u, b)
      {
        assert b in t.logged ==> Placed(t, b);
      }
    }
  }

  // ---------- mounting what a file system made ----------

  // The disk agrees with the image wherever the file system keeps anything.
  ghost predicate Shows(d: Disk, s: State) {
    |d| == |s.data| && forall b :: 0 <= b < |d| && Placed(s, b) ==> d[b] == ImageBlock(s, b)
  }

  lemma {:induction false} FitsWords(s: State, j: nat)
    requires Inv(s) && j < |s.inodes|
    ensures InodeFits(s.inodes[j])
  {
    var own :| Owned(s, own);
    forall k | 0 <= k <= NDIRECT
      ensures s.inodes[j].addrs[k] < WORD
    {
      var a := Slot(s, j, k);
      if a != 0 { assert a in own; }
    }
  }

  lemma {:induction false} Room(s: State)
    requires Shaped(s) && Laid(s)
    ensures |s.inodes| > 0 ==> (|s.inodes| - 1) / IPB + s.inodestart < |s.data|
    ensures (|s.data| - 1) / BPB + s.bmapstart < |s.data|
  {
    if |s.inodes| > 0 { assert IsInodeBlock(s, (|s.inodes| - 1) / IPB + s.inodestart); }
    assert IsBitmapBlock(s, (|s.data| - 1) / BPB + s.bmapstart);
  }

  lemma {:induction false} MountsBit(d: Disk, s: State, c: nat)
    requires Shaped(s) && Laid(s) && Shows(d, s) && c < |d|
    ensures c / BPB + s.bmapstart < |d| && MountBit(d, s.bmapstart, c) == s.bitmap[c]
  {
    hide BitBlock;
    var b := c / BPB + s.bmapstart;
    assert IsBitmapBlock(s, b);
    assert Placed(s, b);
    BitRoundTrip(s.bitmap, c / BPB, c % BPB);
  }

  lemma {:induction false} MountsInode(d: Disk, s: State, j: nat)
    requires Inv(s) && Laid(s) && Shows(d, s) && j < |s.inodes|
    ensures j / IPB + s.inodestart < |d| && MountInode(d, s.inodestart, j) == s.inodes[j]
  {
    hide DinodeBlock, DinodeOf, Owned;
    var own :| Owned(s, own);
    OwnedShaped(s, own);
    var b := j / IPB + s.inodestart;
    assert IsInodeBlock(s, b);
    assert Placed(s, b);
    FitsWords(s, j);
    DinodeRoundTrip(s.dinodes, s.data[b], j / IPB, j % IPB);
  }

  // Mounting reads back the file system whose image is on the disk.
  lemma {:induction false} MountImage(d: Disk, s: State)
    requires Inv(s) && Laid(s) && Shows(d, s)
    ensures Holding(d, |s.inodes|, s.inodestart, s.bmapstart)
    ensures Alike(s, Mount(d, |s.inodes|, s.nmeta, s.inodestart, s.bmapstart))
  {
    hide MountBit, MountInode, Owned, ImageBlock;
    var own :| Owned(s, own);
    OwnedShaped(s, own);
    Room(s);
    var u := Mount(d, |s.inodes|, s.nmeta, s.inodestart, s.bmapstart);
    forall c | 0 <= c < |d|
      ensures u.bitmap[c] == s.bitmap[c]
    {
      MountsBit(d, s, c);
    }
    forall j | 0 <= j < |s.inodes|
      ensures u.inodes[j] == s.inodes[j]
    {
      MountsInode(d, s, j);
    }
    forall b | s.nmeta <= b < |d|
      ensures d[b] == s.data[b]
    {
      DataBlock(s, b);
    }
  }

  lemma DataBlock(s: State, b: nat)
    requires Laid(s) && s.nmeta <= b < |s.data|
    ensures Placed(s, b) && ImageBlock(s, b) == s.data[b]
  {
  }
}
