// The block allocator, the direct/indirect block map and the byte loops of fs.c, as functions on
// the blocks seen through the cache, the bitmap, and the in-memory and on-disk inodes.

module Fs {
  import opened Common
  import opened Blocks

  const NDIRECT := 12
  const NINDIRECT := 128
  const MAXFILE := 140
  const BPB := 4096 // bitmap bits a block
  const IPB := 8    // inodes a block
  const SLOTS := 141

  function Zero(): (r: Block)
    ensures forall o :: 0 <= o < BSIZE ==> r[o] == 0
  {
    seq(BSIZE, _ => 0)
  }

  // What iupdate copies to disk: the block addresses and the size.
  datatype Inode = Inode(addrs: seq<nat>, size: nat)

  // bitmap[b]: block b is in use. data: the contents of every block. inodes: the in-memory inodes;
  // dinodes: their on-disk copies. logged: the blocks this operation has passed to log_write.
  // Blocks below nmeta hold the boot block, super block, log, inodes and bitmap.
  datatype State = State(bitmap: seq<bool>, data: seq<Block>, inodes: seq<Inode>, dinodes: seq<Inode>,
                         logged: set<nat>, nmeta: nat, inodestart: nat, bmapstart: nat)

  // "balloc: out of blocks" is a panic; every other outcome is a state and a block number.
  datatype Outcome = Done(s: State, addr: nat) | Panic

  function BitmapBlock(s: State, b: nat): (r: nat) { b / BPB + s.bmapstart }
  function InodeBlock(s: State, i: nat): (r: nat) { i / IPB + s.inodestart }

  predicate Shaped(s: State) {
    && |s.bitmap| == |s.data| <= WORD && 1 <= s.nmeta <= |s.data| && |s.dinodes| == |s.inodes|
    && (forall b :: 0 <= b < s.nmeta ==> s.bitmap[b])
    && (forall i :: 0 <= i < |s.inodes| ==> |s.inodes[i].addrs| == NDIRECT + 1 && s.inodes[i].addrs[NDIRECT] < |s.data|)
  }

  // Address k of inode i: 0..11 the direct blocks, 12 the indirect block, 13.. its entries.
  function Slot(s: State, i: nat, k: nat): (r: nat)
    requires Shaped(s) && i < |s.inodes| && k < SLOTS
  {
    if k <= NDIRECT then s.inodes[i].addrs[k]
    else
      var ind := s.inodes[i].addrs[NDIRECT];
      if ind == 0 then 0 else GetWord(s.data[ind], k - NDIRECT - 1)
  }

  // The slot that holds file block bn.
  function SlotOf(bn: nat): (k: nat)
    requires bn < MAXFILE
    ensures k < SLOTS && k != NDIRECT
  {
    if bn < NDIRECT then bn else bn + 1
  }

  // ---------- balloc, bfree, bmap ----------

  // balloc scans the bitmap upwards from b.
  function FirstFree(bitmap: seq<bool>, b: nat): (r: nat)
    requires b <= |bitmap|
    ensures b <= r <= |bitmap| && (r < |bitmap| ==> !bitmap[r])
    ensures forall c :: b <= c < r ==> bitmap[c]
    decreases |bitmap| - b
  {
    if b == |bitmap| || !bitmap[b] then b else FirstFree(bitmap, b + 1)
  }

  // The scan finds the lowest clear bit.
  lemma FirstFreeIs(bitmap: seq<bool>, r: nat)
    requires r < |bitmap| && !bitmap[r] && forall b :: 0 <= b < r ==> bitmap[b]
    ensures FirstFree(bitmap, 0) == r
  {
  }

  // balloc: mark the first free block, zero it.
  function Alloc(s: State): (r: Outcome)
    requires Shaped(s)
    ensures r.Done? ==> Shaped(r.s) && s.nmeta <= r.addr < |s.data| && !s.bitmap[r.addr]
  {
    var b := FirstFree(s.bitmap, 0);
    if b == |s.bitmap| then Panic
    else Done(s.(bitmap := s.bitmap[b := true], data := s.data[b := Zero()],
                 logged := s.logged + {BitmapBlock(s, b), b}), b)
  }

  // Records address b in slot k; an entry of the indirect block is logged at once.
  function SetSlot(s: State, i: nat, k: nat, b: nat): (r: State)
    requires Shaped(s) && i < |s.inodes| && k < SLOTS && b < |s.data|
    requires k > NDIRECT ==> s.inodes[i].addrs[NDIRECT] != 0
    ensures Shaped(r)
  {
    var ip := s.inodes[i];
    if k <= NDIRECT then s.(inodes := s.inodes[i := ip.(addrs := ip.addrs[k := b])])
    else
      var ind := ip.addrs[NDIRECT];
      s.(data := s.data[ind := PutWord(s.data[ind], k - NDIRECT - 1, b)], logged := s.logged + {ind})
  }

  // The block of slot k, allocated if the slot is empty.
  function MapSlot(s: State, i: nat, k: nat): (r: Outcome)
    requires Shaped(s) && i < |s.inodes| && k < SLOTS
    requires k > NDIRECT ==> s.inodes[i].addrs[NDIRECT] != 0
    ensures r.Done? ==> Shaped(r.s) && |r.s.inodes| == |s.inodes|
  {
    var b := Slot(s, i, k);
    if b != 0 then Done(s, b)
    else
      match Alloc(s)
      case Panic => Panic
      case Done(t, c) => Done(SetSlot(t, i, k, c), c)
  }

  // bmap: the address of file block bn, allocating it (and the indirect block) when absent.
  function Bmap(s: State, i: nat, bn: nat): (r: Outcome)
    requires Shaped(s) && i < |s.inodes| && bn < MAXFILE
    ensures r.Done? ==> Shaped(r.s) && |r.s.inodes| == |s.inodes|
  {
    if bn < NDIRECT then MapSlot(s, i, bn)
    else
      match MapSlot(s, i, NDIRECT)
      case Panic => Panic
      case Done(t, ind) => if t.inodes[i].addrs[NDIRECT] == 0 then Panic else MapSlot(t, i, bn + 1)
  }

  // ---------- block ownership ----------

  predicate ValidSlot(s: State, i: nat, k: nat) { i < |s.inodes| && k < SLOTS }

  // The address in the slot that own names for block b.
  ghost function OwnerSlot(s: State, own: map<nat, (nat, nat)>, b: nat): (r: nat)
    requires Shaped(s) && b in own && ValidSlot(s, own[b].0, own[b].1)
  {
    Slot(s, own[b].0, own[b].1)
  }

  // own names, for every block in use that is not metadata, the one slot that refers to it:
  // set bits and occupied slots correspond one to one.
  ghost predicate Owned(s: State, own: map<nat, (nat, nat)>) {
    && Shaped(s)
    && (forall b :: b in own ==> s.nmeta <= b < |s.data| && s.bitmap[b] && ValidSlot(s, own[b].0, own[b].1))
    && (forall b {:trigger OwnerSlot(s, own, b)} :: b in own ==> OwnerSlot(s, own, b) == b)
    && (forall b :: s.nmeta <= b < |s.data| && s.bitmap[b] ==> b in own)
    && (forall i: nat, k: nat {:trigger Slot(s, i, k)} :: ValidSlot(s, i, k) && Slot(s, i, k) != 0 ==>
          Slot(s, i, k) in own && own[Slot(s, i, k)] == (i, k))
  }

  // The two states agree on every slot but (i, k).
  ghost predicate SameSlotsBut(s: State, t: State, i: nat, k: nat)
    requires Shaped(s) && Shaped(t)
  {
    && |t.inodes| == |s.inodes|
    && (forall j: nat, m: nat :: ValidSlot(s, j, m) && (j, m) != (i, k) ==> Slot(t, j, m) == Slot(s, j, m))
  }

  // Marking and zeroing a free block changes no slot: no slot refers to it.
  lemma AllocSlots(s: State, own: map<nat, (nat, nat)>, j: nat, m: nat)
    requires Owned(s, own) && Alloc(s).Done? && ValidSlot(s, j, m)
    ensures Slot(Alloc(s).s, j, m) == Slot(s, j, m)
  {
    if m > NDIRECT {
      var ind := Slot(s, j, NDIRECT);
      if ind != 0 {
        assert ind in own;
      }
    }
  }

  // Filling slot (i, k) changes no other slot.
  lemma SetSlotEffect(s: State, i: nat, k: nat, b: nat, own: map<nat, (nat, nat)>)
    requires Shaped(s) && ValidSlot(s, i, k) && b < |s.data| && b != 0
    requires k > NDIRECT ==> s.inodes[i].addrs[NDIRECT] != 0
    requires k == NDIRECT ==> s.data[b] == Zero() && s.inodes[i].addrs[NDIRECT] == 0
    requires forall j: nat, m: nat :: ValidSlot(s, j, m) && Slot(s, j, m) != 0 ==>
               Slot(s, j, m) in own && own[Slot(s, j, m)] == (j, m)
    ensures Slot(SetSlot(s, i, k, b), i, k) == b
    ensures SameSlotsBut(s, SetSlot(s, i, k, b), i, k)
  {
    var t := SetSlot(s, i, k, b);
    forall j: nat, m: nat | ValidSlot(s, j, m) && ((j, m) != (i, k) || k > NDIRECT)
      ensures Slot(t, j, m) == if (j, m) == (i, k) then b else Slot(s, j, m)
    {
      if k > NDIRECT && m > NDIRECT {
        var ind := Slot(s, i, NDIRECT);
        if j == i {
          WordRoundTrip(s.data[ind], k - NDIRECT - 1, b, m - NDIRECT - 1);
        } else if Slot(s, j, NDIRECT) != 0 {
          assert own[Slot(s, j, NDIRECT)] == (j, NDIRECT);
          assert own[ind] == (i, NDIRECT);
        }
      }
    }
  }

  // The block an empty slot gets.
  function NewBlock(s: State): (b: nat) { FirstFree(s.bitmap, 0) }

  // Mapping an empty slot: the slot gets a fresh zeroed block, every other slot keeps its block,
  // and no block that was in use changes except the indirect block that records the address.
  lemma MapSlotEffect(s: State, own: map<nat, (nat, nat)>, i: nat, k: nat)
    requires Owned(s, own) && ValidSlot(s, i, k) && Slot(s, i, k) == 0
    requires k > NDIRECT ==> s.inodes[i].addrs[NDIRECT] != 0
    requires MapSlot(s, i, k).Done?
    ensures var b, t := NewBlock(s), MapSlot(s, i, k).s;
            && MapSlot(s, i, k).addr == b && b !in own && b < |s.data|
            && Owned(t, own[b := (i, k)]) && Slot(t, i, k) == b && SameSlotsBut(s, t, i, k)
            && t.data[b] == Zero()
            && (forall c :: c in own && (k > NDIRECT ==> c != Slot(s, i, NDIRECT)) ==> t.data[c] == s.data[c])
  {
    var b, u := NewBlock(s), Alloc(s).s;
    forall j: nat, m: nat | ValidSlot(s, j, m)
      ensures Slot(u, j, m) == Slot(s, j, m)
    {
      AllocSlots(s, own, j, m);
    }
    if k > NDIRECT {
      assert Slot(s, i, NDIRECT) in own;
    }
    SetSlotEffect(u, i, k, b, own);
    var t := SetSlot(u, i, k, b);
    MapSlotOwned(s, t, own, i, k, b);
  }

  lemma MapSlotOwned(s: State, t: State, own: map<nat, (nat, nat)>, i: nat, k: nat, b: nat)
    requires Owned(s, own) && Shaped(t) && ValidSlot(s, i, k) && Slot(s, i, k) == 0
    requires s.nmeta <= b < |s.data| == |t.data| && !s.bitmap[b] && t.nmeta == s.nmeta
    requires t.bitmap == s.bitmap[b := true] && SameSlotsBut(s, t, i, k) && Slot(t, i, k) == b
    ensures Owned(t, own[b := (i, k)])
  {
    var own' := own[b := (i, k)];
    forall c | c in own'
      ensures ValidSlot(t, own'[c].0, own'[c].1) && OwnerSlot(t, own', c) == c
    {
      if c != b {
        assert OwnerSlot(s, own, c) == c;
        assert own[c] != (i, k);
      }
    }
  }

  // ---------- file bytes ----------

  predicate HasBlock(s: State, i: nat, bn: nat)
    requires Shaped(s)
  {
    i < |s.inodes| && bn < MAXFILE && 0 < Slot(s, i, SlotOf(bn)) < |s.data|
  }

  // The block that holds file block bn.
  function FileBlock(s: State, i: nat, bn: nat): (r: Block)
    requires Shaped(s) && HasBlock(s, i, bn)
  {
    s.data[Slot(s, i, SlotOf(bn))]
  }

  // Byte o of file i.
  function FileByte(s: State, i: nat, o: nat): (r: Byte)
    requires Shaped(s) && HasBlock(s, i, o / BSIZE)
  {
    FileBlock(s, i, o / BSIZE)[o % BSIZE]
  }

  // No holes below len.
  ghost predicate Mapped(s: State, i: nat, len: nat)
    requires Shaped(s)
  {
    forall bn: nat :: bn * BSIZE < len ==> HasBlock(s, i, bn)
  }

  // From s to t every file keeps its size, its blocks and their contents; it may gain blocks.
  ghost predicate Keeps(s: State, t: State)
    requires Shaped(s) && Shaped(t)
  {
    && |t.inodes| == |s.inodes| && |t.data| == |s.data| && t.nmeta == s.nmeta && t.dinodes == s.dinodes
    && (forall j :: 0 <= j < |s.inodes| ==> t.inodes[j].size == s.inodes[j].size)
    && (forall j: nat, bn: nat :: HasBlock(s, j, bn) ==>
          HasBlock(t, j, bn) && FileBlock(t, j, bn) == FileBlock(s, j, bn))
  }

  // ---------- writei, readi ----------

  function Overwrite(b: Block, pos: nat, bytes: seq<Byte>): (r: Block)
    requires pos + |bytes| <= BSIZE
  {
    b[..pos] + bytes + b[pos + |bytes|..]
  }

  // memmove into the block of file block bn, and log_write.
  function StoreBytes(s: State, c: nat, pos: nat, bytes: seq<Byte>): (r: State)
    requires Shaped(s) && c < |s.data| && pos + |bytes| <= BSIZE
    ensures Shaped(r)
  {
    s.(data := s.data[c := Overwrite(s.data[c], pos, bytes)], logged := s.logged + {c})
  }

  function Min(a: nat, b: nat): (r: nat) { if a < b then a else b }
  function Max(a: nat, b: nat): (r: nat) { if a < b then b else a }

  // One round of the loop of writei: bytes go into file block bn from position pos.
  function Round(s: State, i: nat, bn: nat, pos: nat, bytes: seq<Byte>): (r: Outcome)
    requires Shaped(s) && i < |s.inodes| && bn < MAXFILE && pos + |bytes| <= BSIZE
    ensures r.Done? ==> Shaped(r.s) && |r.s.inodes| == |s.inodes|
  {
    match Bmap(s, i, bn)
    case Panic => Panic
    case Done(t, c) => if c >= |t.data| then Panic else Done(StoreBytes(t, c, pos, bytes), c)
  }

  // The loop of writei from offset bn * BSIZE + pos. Every round but the last ends at a block
  // boundary, so the next one starts at position 0 of the next block.
  function WriteLoop(s: State, i: nat, bn: nat, pos: nat, src: seq<Byte>): (r: Outcome)
    requires Shaped(s) && i < |s.inodes| && pos < BSIZE && bn * BSIZE + pos + |src| <= MAXFILE * BSIZE
    ensures r.Done? ==> Shaped(r.s) && |r.s.inodes| == |s.inodes|
    decreases |src|
  {
    if src == [] then Done(s, 0)
    else
      var m := Min(|src|, BSIZE - pos);
      match Round(s, i, bn, pos, src[..m])
      case Panic => Panic
      case Done(t, _) => WriteLoop(t, i, bn + 1, 0, src[m..])
  }

  // The first round, then the loop on what is left.
  lemma LoopUnroll(s: State, i: nat, bn: nat, pos: nat, src: seq<Byte>, m: nat, v: State, c: nat)
    requires Shaped(s) && i < |s.inodes| && pos < BSIZE && bn * BSIZE + pos + |src| <= MAXFILE * BSIZE
    requires src != [] && m == Min(|src|, BSIZE - pos) && Round(s, i, bn, pos, src[..m]) == Done(v, c)
    ensures Shaped(v) && i < |v.inodes| && WriteLoop(s, i, bn, pos, src) == WriteLoop(v, i, bn + 1, 0, src[m..])
  {
  }

  lemma BmapKeepsOne(s: State, own: map<nat, (nat, nat)>, i: nat, k: nat)
    requires Owned(s, own) && ValidSlot(s, i, k) && Slot(s, i, k) == 0
    requires k > NDIRECT ==> s.inodes[i].addrs[NDIRECT] != 0
    requires MapSlot(s, i, k).Done?
    ensures Keeps(s, MapSlot(s, i, k).s)
  {
    MapSlotEffect(s, own, i, k);
    var t := MapSlot(s, i, k).s;
    forall j: nat, bn: nat | HasBlock(s, j, bn)
      ensures HasBlock(t, j, bn) && FileBlock(t, j, bn) == FileBlock(s, j, bn)
    {
      var c := Slot(s, j, SlotOf(bn));
      assert own[c] == (j, SlotOf(bn));
      if k > NDIRECT {
        assert own[Slot(s, i, NDIRECT)] == (i, NDIRECT);
      }
    }
  }

  // bmap returns the block of file block bn, keeps every file and the one-to-one ownership.
  lemma BmapEffect(s: State, own: map<nat, (nat, nat)>, i: nat, bn: nat) returns (own': map<nat, (nat, nat)>)
    requires Owned(s, own) && i < |s.inodes| && bn < MAXFILE && Bmap(s, i, bn).Done?
    ensures var t := Bmap(s, i, bn).s;
            Owned(t, own') && Keeps(s, t) && HasBlock(t, i, bn) && Bmap(s, i, bn).addr == Slot(t, i, SlotOf(bn))
    ensures forall j :: 0 <= j < |s.inodes| && j != i ==> Bmap(s, i, bn).s.inodes[j] == s.inodes[j]
  {
    var t, mid := s, own;
    if bn >= NDIRECT && Slot(s, i, NDIRECT) == 0 {
      MapSlotEffect(s, own, i, NDIRECT);
      BmapKeepsOne(s, own, i, NDIRECT);
      t, mid := MapSlot(s, i, NDIRECT).s, own[NewBlock(s) := (i, NDIRECT)];
    }
    own' := mid;
    if Slot(t, i, SlotOf(bn)) == 0 {
      MapSlotEffect(t, mid, i, SlotOf(bn));
      BmapKeepsOne(t, mid, i, SlotOf(bn));
      own' := mid[NewBlock(t) := (i, SlotOf(bn))];
    }
  }

  // What bmap allocates: nothing when the block is there; otherwise a free block for the data, which comes
  // back zeroed, and a free block for the indirect block if that was missing too. No other bit changes.
  lemma BmapAllocates(s: State, own: map<nat, (nat, nat)>, i: nat, bn: nat)
    requires Owned(s, own) && i < |s.inodes| && bn < MAXFILE && Bmap(s, i, bn).Done?
    ensures var r := Bmap(s, i, bn);
            var ind := r.s.inodes[i].addrs[NDIRECT];
            var needs := bn >= NDIRECT && s.inodes[i].addrs[NDIRECT] == 0;
            if Slot(s, i, SlotOf(bn)) != 0 then r == Done(s, Slot(s, i, SlotOf(bn)))
            else
              && r.addr < |s.data| && !s.bitmap[r.addr] && r.s.data[r.addr] == Zero()
              && (needs ==> ind < |s.data| && !s.bitmap[ind] && ind != r.addr)
              && (!needs ==> ind == s.inodes[i].addrs[NDIRECT])
              && r.s.bitmap == (if needs then s.bitmap[ind := true][r.addr := true] else s.bitmap[r.addr := true])
  {
    var t, mid := s, own;
    if bn >= NDIRECT && Slot(s, i, NDIRECT) == 0 {
      MapSlotEffect(s, own, i, NDIRECT);
      t, mid := MapSlot(s, i, NDIRECT).s, own[NewBlock(s) := (i, NDIRECT)];
    }
    if Slot(t, i, SlotOf(bn)) == 0 {
      MapSlotEffect(t, mid, i, SlotOf(bn));
    }
  }

  // Overwriting a data block changes no slot, so ownership is untouched.
  lemma StoreEffect(s: State, own: map<nat, (nat, nat)>, i: nat, bn: nat, pos: nat, bytes: seq<Byte>)
    requires Owned(s, own) && HasBlock(s, i, bn) && pos + |bytes| <= BSIZE
    ensures var t := StoreBytes(s, Slot(s, i, SlotOf(bn)), pos, bytes);
            && Owned(t, own) && SameSlotsBut(s, t, |s.inodes|, 0)
            && HasBlock(t, i, bn) && FileBlock(t, i, bn) == Overwrite(FileBlock(s, i, bn), pos, bytes)
            && (forall j: nat, b: nat :: HasBlock(s, j, b) && (j, b) != (i, bn) ==>
                  HasBlock(t, j, b) && FileBlock(t, j, b) == FileBlock(s, j, b))
  {
    var c := Slot(s, i, SlotOf(bn));
    var t := StoreBytes(s, c, pos, bytes);
    assert own[c] == (i, SlotOf(bn));
    forall j: nat, m: nat | ValidSlot(s, j, m)
      ensures Slot(t, j, m) == Slot(s, j, m)
    {
      if m > NDIRECT && Slot(s, j, NDIRECT) != 0 {
        assert own[Slot(s, j, NDIRECT)] == (j, NDIRECT);
      }
    }
    forall b | b in own
      ensures OwnerSlot(t, own, b) == b
    {
      assert OwnerSlot(s, own, b) == b;
    }
    forall j: nat, b: nat | HasBlock(s, j, b) && (j, b) != (i, bn)
      ensures HasBlock(t, j, b) && FileBlock(t, j, b) == FileBlock(s, j, b)
    {
      assert own[Slot(s, j, SlotOf(b))] == (j, SlotOf(b));
    }
  }

  // t is s with src written at offset off of file i, whose first len bytes were mapped.
  ghost predicate Wrote(s: State, t: State, i: nat, off: nat, src: seq<Byte>, len: nat)
    requires Shaped(s) && Shaped(t) && Mapped(s, i, len) && off <= len
  {
    && Mapped(t, i, Max(len, off + |src|))
    && (forall o: nat :: o < Max(len, off + |src|) ==>
          HasBlock(t, i, o / BSIZE) &&
          FileByte(t, i, o) == if off <= o < off + |src| then src[o - off] else FileByte(s, i, o))
  }

  // Every file but i is the same in s and t, and so are the sizes, the on-disk inodes and the geometry.
  ghost predicate OthersSame(s: State, t: State, i: nat)
    requires Shaped(s) && Shaped(t)
  {
    && |t.inodes| == |s.inodes| && |t.data| == |s.data| && t.nmeta == s.nmeta && t.dinodes == s.dinodes
    && t.inodestart == s.inodestart && t.bmapstart == s.bmapstart
    && (i < |s.inodes| ==> t.inodes[i].size == s.inodes[i].size)
    && (forall j :: 0 <= j < |s.inodes| && j != i ==> t.inodes[j] == s.inodes[j])
    && (forall j: nat, bn: nat :: j != i && HasBlock(s, j, bn) ==>
          HasBlock(t, j, bn) && FileBlock(t, j, bn) == FileBlock(s, j, bn))
  }

  lemma BmapOthers(s: State, u: State, i: nat, bn: nat)
    requires Shaped(s) && i < |s.inodes| && bn < MAXFILE && Bmap(s, i, bn).Done? && u == Bmap(s, i, bn).s
    requires Keeps(s, u) && forall j :: 0 <= j < |s.inodes| && j != i ==> u.inodes[j] == s.inodes[j]
    ensures OthersSame(s, u, i)
  {
  }

  // The state a write starts from: ownership holds, and the file has no hole below len.
  ghost predicate Ready(s: State, own: map<nat, (nat, nat)>, i: nat, len: nat) {
    Owned(s, own) && i < |s.inodes| && Mapped(s, i, len)
  }

  // What writing src at offset off of file i achieves.
  ghost predicate WriteDone(s: State, t: State, i: nat, off: nat, src: seq<Byte>, len: nat) {
      && Shaped(s) && Shaped(t) && Mapped(s, i, len) && off <= len
      && OthersSame(s, t, i) && Wrote(s, t, i, off, src, len)
  }

  lemma DoneTwice(s: State, v: State, t: State, i: nat, off: nat, a: seq<Byte>, mid: nat, b: seq<Byte>, len: nat,
          len': nat)
    requires mid == off + |a| && len' == Max(len, mid)
    requires WriteDone(s, v, i, off, a, len) && WriteDone(v, t, i, mid, b, len')
    ensures WriteDone(s, t, i, off, a + b, len)
  {
    OthersTwice(s, v, t, i);
    WroteTwice(s, v, t, i, off, a, mid, b, len, len');
  }

  lemma RoundEffect(s: State, v: State, own: map<nat, (nat, nat)>, i: nat, bn: nat, pos: nat, bytes: seq<Byte>,
                    off: nat, len: nat, end: nat)
    returns (own': map<nat, (nat, nat)>)
    requires Shaped(s) && i < |s.inodes| && bn < MAXFILE && pos + |bytes| <= BSIZE && bytes != []
    requires Ready(s, own, i, len) && Round(s, i, bn, pos, bytes).Done? && v == Round(s, i, bn, pos, bytes).s
    requires off == bn * BSIZE + pos && off <= len && end == Max(len, off + |bytes|)
    ensures WriteDone(s, v, i, off, bytes, len) && Ready(v, own', i, end)
  {
    own' := BmapEffect(s, own, i, bn);
    var u := Bmap(s, i, bn).s;
    BmapOthers(s, u, i, bn);
    StoreEffect(u, own', i, bn, pos, bytes);
    assert OthersSame(u, v, i);
    OthersTwice(s, u, v, i);
    RoundBytes(s, u, v, i, bn, pos, bytes, off, len);
  }

  lemma RoundBytes(s: State, u: State, t: State, i: nat, bn: nat, pos: nat, bytes: seq<Byte>, off: nat, len: nat)
    requires Shaped(s) && Shaped(u) && Shaped(t) && bytes != [] && pos + |bytes| <= BSIZE
    requires Mapped(s, i, len) && off == bn * BSIZE + pos && off <= len && Keeps(s, u)
    requires HasBlock(u, i, bn) && HasBlock(t, i, bn)
    requires FileBlock(t, i, bn) == Overwrite(FileBlock(u, i, bn), pos, bytes)
    requires forall b: nat :: HasBlock(u, i, b) && b != bn ==>
             HasBlock(t, i, b) && FileBlock(t, i, b) == FileBlock(u, i, b)
    ensures Wrote(s, t, i, off, bytes, len)
  {
    var end := Max(len, off + |bytes|);
    forall b: nat | b * BSIZE < end
      ensures HasBlock(t, i, b)
    {
      if b != bn { assert b * BSIZE < len; }
    }
    forall o: nat | o < end
      ensures HasBlock(t, i, o / BSIZE)
      ensures FileByte(t, i, o) == if off <= o < off + |bytes| then bytes[o - off] else FileByte(s, i, o)
    {
      if off <= o < off + |bytes| {
        assert o / BSIZE == bn && o % BSIZE == pos + (o - off);
      } else {
        assert o < len && (o / BSIZE) * BSIZE < len;
        assert HasBlock(s, i, o / BSIZE);
        if o / BSIZE == bn {
          assert o % BSIZE < pos || o % BSIZE >= pos + |bytes|;
        }
      }
    }
  }

  lemma WroteTwice(s: State, v: State, t: State, i: nat, off: nat, a: seq<Byte>, mid: nat, b: seq<Byte>, len: nat,
          len': nat)
    requires Shaped(s) && Shaped(v) && Shaped(t) && Mapped(s, i, len) && off <= len
    requires mid == off + |a| && len' == Max(len, mid)
    requires Wrote(s, v, i, off, a, len) && Mapped(v, i, len') && Wrote(v, t, i, mid, b, len')
    ensures Wrote(s, t, i, off, a + b, len)
  {
    forall o: nat | o < Max(len, off + |a + b|)
      ensures HasBlock(t, i, o / BSIZE)
      ensures FileByte(t, i, o) == if off <= o < off + |a + b| then (a + b)[o - off] else FileByte(s, i, o)
    {
    }
  }

  lemma OthersTwice(s: State, v: State, t: State, i: nat)
    requires Shaped(s) && Shaped(v) && Shaped(t) && OthersSame(s, v, i) && OthersSame(v, t, i)
    ensures OthersSame(s, t, i)
  {
  }

  // The loop of writei writes src at its offset, keeps every other file and keeps ownership.
  lemma {:induction false} WriteLoopEffect(s: State, own: map<nat, (nat, nat)>, i: nat, bn: nat, pos: nat,
          src: seq<Byte>,
                                           off: nat, len: nat, end: nat)
    returns (t: State, own': map<nat, (nat, nat)>)
    requires Ready(s, own, i, len) && pos < BSIZE && bn * BSIZE + pos + |src| <= MAXFILE * BSIZE
    requires off == bn * BSIZE + pos && off <= len && end == Max(len, off + |src|)
    requires WriteLoop(s, i, bn, pos, src).Done?
    ensures t == WriteLoop(s, i, bn, pos, src).s && WriteDone(s, t, i, off, src, len) && Ready(t, own', i, end)
    decreases |src|
  {
    hide WriteDone, Mapped, Round, SameFile, Keeps;
    t, own' := s, own;
    if src == [] {
      WroteNothing(s, own, i, off, len);
    } else {
      var m := Min(|src|, BSIZE - pos);
      var a, b := src[..m], src[m..];
      var v := Round(s, i, bn, pos, a).s;
      var mid := off + m;
      var len' := Max(len, mid);
      own' := RoundEffect(s, v, own, i, bn, pos, a, off, len, len');
      assert a + b == src;
      if b == [] {
        assert a == src;
        t := v;
      } else {
        t, own' := WriteLoopEffect(v, own', i, bn + 1, 0, b, mid, len', end);
        DoneTwice(s, v, t, i, off, a, mid, b, len, len');
      }
    }
  }

  lemma WroteNothing(s: State, own: map<nat, (nat, nat)>, i: nat, off: nat, len: nat)
    requires Ready(s, own, i, len) && off <= len
    ensures WriteDone(s, s, i, off, [], len)
  {
    forall o: nat | o < len
      ensures HasBlock(s, i, o / BSIZE)
    {
      assert (o / BSIZE) * BSIZE <= o;
    }
  }

  // ---------- writei and readi as system calls see them ----------

  // The file system between operations: one-to-one ownership, no holes, and every in-memory inode
  // equal to its copy on disk.
  ghost predicate Inv(s: State) {
    && (exists own :: Owned(s, own))
    && (forall i: nat :: i < |s.inodes| ==> s.inodes[i].size <= MAXFILE * BSIZE && Mapped(s, i, s.inodes[i].size))
    && s.dinodes == s.inodes
  }

  // The bytes of file i.
  ghost function Content(s: State, i: nat): (r: seq<Byte>)
    requires Shaped(s) && i < |s.inodes| && Mapped(s, i, s.inodes[i].size)
    ensures |r| == s.inodes[i].size
  {
    seq(s.inodes[i].size, o requires 0 <= o < s.inodes[i].size =>
      assert (o / BSIZE) * BSIZE <= o; FileByte(s, i, o))
  }

  datatype IoResult = Returned(s: State, n: int, bytes: seq<Byte>) | Panicked

  // off + n in 32 bits.
  function Add32(a: nat, b: nat): (r: nat)
    requires a < WORD && b < WORD
    ensures r == if a + b < WORD then a + b else a + b - WORD
  {
    (a + b) % WORD
  }

  // iupdate: the in-memory inode goes to its inode block.
  function Iupdate(s: State, i: nat): (r: State)
    requires i < |s.inodes| == |s.dinodes|
    ensures Shaped(s) ==> Shaped(r)
  {
    s.(dinodes := s.dinodes[i := s.inodes[i]], logged := s.logged + {InodeBlock(s, i)})
  }

  function Resize(s: State, i: nat, size: nat): (r: State)
    requires Shaped(s) && i < |s.inodes|
    ensures Shaped(r)
  {
    s.(inodes := s.inodes[i := s.inodes[i].(size := size)])
  }

  // The end of writei: a file that grew gets its new size, and its inode goes to disk.
  function FinishWrite(s: State, i: nat, off: nat, n: nat): (r: State)
    requires Shaped(s) && i < |s.inodes|
    ensures Shaped(r) && |r.inodes| == |s.inodes|
  {
    if n > 0 && off + n > s.inodes[i].size then Iupdate(Resize(s, i, off + n), i) else s
  }

  // writei on a file that is not a device.
  function Writei(s: State, i: nat, off: nat, src: seq<Byte>): (r: IoResult)
    requires Shaped(s) && i < |s.inodes| && off < WORD && |src| < WORD
    ensures r.Returned? ==> Shaped(r.s) && |r.s.inodes| == |s.inodes|
  {
    var ip := s.inodes[i];
    if off > ip.size || Add32(off, |src|) < off then Returned(s, -1, [])
    else if Add32(off, |src|) > MAXFILE * BSIZE then Returned(s, -1, [])
    else
      match WriteLoop(s, i, off / BSIZE, off % BSIZE, src)
      case Panic => Panicked
      case Done(t, _) => Returned(FinishWrite(t, i, off, |src|), |src|, [])
  }

  // The file after src replaced what it held from offset off on.
  function Splice(c: seq<Byte>, off: nat, src: seq<Byte>): (r: seq<Byte>)
    requires off <= |c|
  {
    c[..off] + src + (if off + |src| < |c| then c[off + |src|..] else [])
  }

  // On a mapped block a round only stores: nothing is allocated.
  lemma RoundInside(s: State, own: map<nat, (nat, nat)>, i: nat, bn: nat, pos: nat, bytes: seq<Byte>, len: nat)
    returns (v: State)
    requires Owned(s, own) && HasBlock(s, i, bn) && Mapped(s, i, len) && pos + |bytes| <= BSIZE
    ensures Round(s, i, bn, pos, bytes).Done? && v == Round(s, i, bn, pos, bytes).s
    ensures v.inodes == s.inodes && v.bitmap == s.bitmap && Owned(v, own) && Mapped(v, i, len)
  {
    var c := Slot(s, i, SlotOf(bn));
    assert Bmap(s, i, bn) == Done(s, c);
    v := StoreBytes(s, c, pos, bytes);
    StoreEffect(s, own, i, bn, pos, bytes);
    forall b: nat | b * BSIZE < len
      ensures HasBlock(v, i, b)
    {
      assert HasBlock(s, i, b);
    }
  }

  // A write that stays inside the file finds every block mapped: no inode and no bitmap bit
  // changes, which is why writei may skip iupdate.
  lemma {:induction false} InsideWrite(s: State, own: map<nat, (nat, nat)>, i: nat, bn: nat, pos: nat, src: seq<Byte>,
          off: nat, len: nat)
    requires Owned(s, own) && i < |s.inodes| && pos < BSIZE && off == bn * BSIZE + pos
    requires bn * BSIZE + pos + |src| <= MAXFILE * BSIZE && Mapped(s, i, len) && off + |src| <= len
    ensures WriteLoop(s, i, bn, pos, src).Done?
    ensures WriteLoop(s, i, bn, pos, src).s.inodes == s.inodes && WriteLoop(s, i, bn, pos, src).s.bitmap == s.bitmap
    decreases |src|
  {
    hide Owned, Round;
    if src != [] {
      var m := Min(|src|, BSIZE - pos);
      var a, b := src[..m], src[m..];
      assert bn * BSIZE < len;
      var v := RoundInside(s, own, i, bn, pos, a, len);
      if b != [] {
        InsideWrite(v, own, i, bn + 1, 0, b, off + m, len);
      }
    }
  }

  // Recording a new size changes no slot and no byte.
  lemma ResizeKeeps(s: State, own: map<nat, (nat, nat)>, i: nat, size: nat)
    requires Owned(s, own) && i < |s.inodes|
    ensures var t := Iupdate(Resize(s, i, size), i);
            Owned(t, own) && (forall j: nat, bn: nat :: HasBlock(s, j, bn) ==>
                HasBlock(t, j, bn) && FileBlock(t, j, bn) == FileBlock(s, j, bn))
  {
    var t := Iupdate(Resize(s, i, size), i);
    forall j: nat, k: nat | ValidSlot(s, j, k)
      ensures Slot(t, j, k) == Slot(s, j, k)
    {
    }
    forall b | b in own
      ensures OwnerSlot(t, own, b) == b
    {
      assert OwnerSlot(s, own, b) == b;
    }
  }

  // What the caller of writei sees of file j.
  ghost predicate SameFile(s: State, t: State, j: nat) {
    && Shaped(s) && Shaped(t) && j < |s.inodes| == |t.inodes| && t.inodes[j].size == s.inodes[j].size
    && Mapped(s, j, s.inodes[j].size) && Mapped(t, j, s.inodes[j].size) && Content(t, j) == Content(s, j)
  }

  // A file whose blocks all keep their contents is the same file.
  lemma SameBlocksSameFile(s: State, t: State, j: nat)
    requires Shaped(s) && Shaped(t) && j < |s.inodes| == |t.inodes| && t.inodes[j].size == s.inodes[j].size
    requires Mapped(s, j, s.inodes[j].size)
    requires forall bn: nat :: HasBlock(s, j, bn) ==> HasBlock(t, j, bn) && FileBlock(t, j, bn) == FileBlock(s, j, bn)
    ensures SameFile(s, t, j)
  {
    forall bn: nat | bn * BSIZE < s.inodes[j].size
      ensures HasBlock(t, j, bn)
    {
      assert HasBlock(s, j, bn);
    }
    forall o: nat | o < s.inodes[j].size
      ensures Content(t, j)[o] == Content(s, j)[o]
    {
      assert (o / BSIZE) * BSIZE <= o;
      assert HasBlock(s, j, o / BSIZE);
    }
  }

  // A successful write of src at off, before and after the size is recorded.
  lemma WrittenContent(s: State, t: State, u: State, i: nat, off: nat, src: seq<Byte>)
    requires Shaped(s) && Shaped(t) && Shaped(u) && i < |s.inodes| == |u.inodes|
    requires Mapped(s, i, s.inodes[i].size) && off <= s.inodes[i].size && Wrote(s, t, i, off, src, s.inodes[i].size)
    requires forall bn: nat :: HasBlock(t, i, bn) ==> HasBlock(u, i, bn) && FileBlock(u, i, bn) == FileBlock(t, i, bn)
    requires u.inodes[i].size == Max(s.inodes[i].size, off + |src|)
    ensures Mapped(u, i, u.inodes[i].size) && Content(u, i) == Splice(Content(s, i), off, src)
  {
    var size := u.inodes[i].size;
    forall bn: nat | bn * BSIZE < size
      ensures HasBlock(u, i, bn)
    {
      assert HasBlock(t, i, bn);
    }
    forall o: nat | o < size
      ensures Content(u, i)[o] == Splice(Content(s, i), off, src)[o]
    {
      assert (o / BSIZE) * BSIZE <= o;
      assert HasBlock(t, i, o / BSIZE);
      assert FileByte(u, i, o) == FileByte(t, i, o);
    }
  }

  // From t to u every block of every file keeps its contents.
  ghost predicate SameBlocks(t: State, u: State)
    requires Shaped(t) && Shaped(u)
  {
    forall j: nat, bn: nat :: HasBlock(t, j, bn) ==> HasBlock(u, j, bn) && FileBlock(u, j, bn) == FileBlock(t, j, bn)
  }

  lemma OtherFilesSame(s: State, t: State, u: State, i: nat)
    requires Shaped(s) && Shaped(t) && Shaped(u) && OthersSame(s, t, i) && SameBlocks(t, u)
    requires |u.inodes| == |t.inodes| && forall j: nat :: j < |t.inodes| && j != i ==>
             u.inodes[j].size == t.inodes[j].size
    requires forall j: nat :: j < |s.inodes| ==> Mapped(s, j, s.inodes[j].size)
    ensures forall j: nat :: j < |s.inodes| && j != i ==> SameFile(s, u, j)
  {
    forall j: nat | j < |s.inodes| && j != i
      ensures SameFile(s, u, j)
    {
      SameBlocksSameFile(s, u, j);
    }
  }

  lemma FinishEffect(t: State, own: map<nat, (nat, nat)>, i: nat, off: nat, n: nat, u: State)
    requires Owned(t, own) && i < |t.inodes| && off <= t.inodes[i].size && u == FinishWrite(t, i, off, n)
    ensures Owned(u, own) && SameBlocks(t, u) && |u.inodes| == |t.inodes|
    ensures u.inodes[i].size == Max(t.inodes[i].size, off + n)
    ensures forall j: nat :: j < |t.inodes| && j != i ==> u.inodes[j].size == t.inodes[j].size
  {
    ResizeKeeps(t, own, i, off + n);
  }

  // On-disk inodes agree again when writei returns.
  lemma InodesAgree(s: State, own: map<nat, (nat, nat)>, t: State, i: nat, off: nat, src: seq<Byte>)
    requires Owned(s, own) && Inv(s) && i < |s.inodes| && off <= s.inodes[i].size && off + |src| <= MAXFILE * BSIZE
    requires WriteLoop(s, i, off / BSIZE, off % BSIZE, src).Done?
    requires t == WriteLoop(s, i, off / BSIZE, off % BSIZE, src).s
    requires OthersSame(s, t, i)
    ensures FinishWrite(t, i, off, |src|).dinodes == FinishWrite(t, i, off, |src|).inodes
  {
    if !(|src| > 0 && off + |src| > s.inodes[i].size) {
      InsideWrite(s, own, i, off / BSIZE, off % BSIZE, src, off, s.inodes[i].size);
    }
  }

  // The loop of writei run on a whole file, and then the size update.
  lemma WriteAccepted(s: State, own: map<nat, (nat, nat)>, i: nat, off: nat, src: seq<Byte>)
          returns (u: State, own': map<nat, (nat, nat)>)
    requires Owned(s, own) && Inv(s) && i < |s.inodes| && off <= s.inodes[i].size && off + |src| <= MAXFILE * BSIZE
    requires WriteLoop(s, i, off / BSIZE, off % BSIZE, src).Done?
    ensures u == FinishWrite(WriteLoop(s, i, off / BSIZE, off % BSIZE, src).s, i, off, |src|)
    ensures Owned(u, own') && u.dinodes == u.inodes && |u.inodes| == |s.inodes|
    ensures u.inodes[i].size == Max(s.inodes[i].size, off + |src|)
    ensures Mapped(u, i, u.inodes[i].size) && Content(u, i) == Splice(Content(s, i), off, src)
    ensures forall j: nat :: j < |s.inodes| && j != i ==> SameFile(s, u, j)
  {
    var len := s.inodes[i].size;
    var t;
    t, own' := WriteLoopEffect(s, own, i, off / BSIZE, off % BSIZE, src, off, len, Max(len, off + |src|));
    InodesAgree(s, own, t, i, off, src);
    u := FinishWrite(t, i, off, |src|);
    FinishEffect(t, own', i, off, |src|, u);
    WrittenContent(s, t, u, i, off, src);
    OtherFilesSame(s, t, u, i);
  }

  // FILE CONTENTS REFINE A FLAT BYTE SEQUENCE. Between operations, writei either rejects the call
  // (exactly when the offset is past the end or the file would exceed MAXFILE blocks) and changes
  // nothing, or replaces the bytes from off on by src and changes no other file. Ownership, the
  // absence of holes and the agreement of on-disk inodes are kept.
  lemma WriteiSplices(s: State, i: nat, off: nat, src: seq<Byte>)
    requires Inv(s) && i < |s.inodes| && off < WORD && |src| < WORD && Writei(s, i, off, src).Returned?
    ensures var r := Writei(s, i, off, src);
            && (r.n == -1 <==> off > s.inodes[i].size || off + |src| > MAXFILE * BSIZE)
            && (r.n == -1 ==> r.s == s)
            && (r.n != -1 ==>
                  && r.n == |src| && Inv(r.s) && |r.s.inodes| == |s.inodes|
                  && Content(r.s, i) == Splice(Content(s, i), off, src)
                  && (forall j: nat :: j < |s.inodes| && j != i ==> SameFile(s, r.s, j)))
  {
    if off <= s.inodes[i].size && off + |src| <= MAXFILE * BSIZE {
      var own :| Owned(s, own);
      var u, own' := WriteAccepted(s, own, i, off, src);
      forall j: nat | j < |u.inodes|
        ensures u.inodes[j].size <= MAXFILE * BSIZE && Mapped(u, j, u.inodes[j].size)
      {
        assert j != i ==> SameFile(s, u, j);
      }
    }
  }

  // One round of readi: m bytes of file block bn from position pos.
  function ReadRound(s: State, i: nat, bn: nat, pos: nat, m: nat): (r: IoResult)
    requires Shaped(s) && i < |s.inodes| && bn < MAXFILE && pos + m <= BSIZE
    ensures r.Returned? ==> Shaped(r.s) && |r.s.inodes| == |s.inodes|
  {
    match Bmap(s, i, bn)
    case Panic => Panicked
    case Done(t, c) => if c >= |t.data| then Panicked else Returned(t, m, t.data[c][pos..pos + m])
  }

  // The loop of readi.
  function ReadLoop(s: State, i: nat, bn: nat, pos: nat, n: nat): (r: IoResult)
    requires Shaped(s) && i < |s.inodes| && pos < BSIZE && bn * BSIZE + pos + n <= MAXFILE * BSIZE
    decreases n
  {
    if n == 0 then Returned(s, 0, [])
    else
      var m := Min(n, BSIZE - pos);
      match ReadRound(s, i, bn, pos, m)
      case Panicked => Panicked
      case Returned(t, _, bytes) =>
        match ReadLoop(t, i, bn + 1, 0, n - m)
        case Panicked => Panicked
        case Returned(u, _, rest) => Returned(u, 0, bytes + rest)
  }

  // On a mapped block bmap allocates nothing.
  lemma ReadRoundInside(s: State, i: nat, bn: nat, pos: nat, m: nat)
    requires Shaped(s) && HasBlock(s, i, bn) && pos + m <= BSIZE
    ensures ReadRound(s, i, bn, pos, m) == Returned(s, m, FileBlock(s, i, bn)[pos..pos + m])
  {
  }

  // readi on a file that is not a device.
  function Readi(s: State, i: nat, off: nat, n: nat): (r: IoResult)
    requires Shaped(s) && i < |s.inodes| && s.inodes[i].size <= MAXFILE * BSIZE && off < WORD && n < WORD
  {
    var ip := s.inodes[i];
    if off > ip.size || Add32(off, n) < off then Returned(s, -1, [])
    else
      var len := if Add32(off, n) > ip.size then ip.size - off else n;
      match ReadLoop(s, i, off / BSIZE, off % BSIZE, len)
      case Panicked => Panicked
      case Returned(t, _, bytes) => Returned(t, len, bytes)
  }

  lemma {:induction false} ReadLoopEffect(s: State, i: nat, bn: nat, pos: nat, n: nat, off: nat, end: nat, c: seq<Byte>)
    requires Shaped(s) && i < |s.inodes| && pos < BSIZE && bn * BSIZE + pos + n <= MAXFILE * BSIZE
    requires off == bn * BSIZE + pos && end == off + n && Mapped(s, i, s.inodes[i].size) && c == Content(s, i)
    requires end <= |c|
    ensures ReadLoop(s, i, bn, pos, n) == Returned(s, 0, c[off..end])
    decreases n
  {
    hide Content, FileBlock, ReadRound;
    if n > 0 {
      var m := Min(n, BSIZE - pos);
      var mid := off + m;
      assert HasBlock(s, i, bn);
      ReadRoundInside(s, i, bn, pos, m);
      BlockSlice(s, i, bn, pos, m, off, mid, c);
      SliceConcat(c, off, mid, end);
      if m < n {
        ReadLoopEffect(s, i, bn + 1, 0, n - m, mid, end, c);
      }
    }
  }

  lemma SliceConcat<T>(c: seq<T>, a: nat, b: nat, d: nat)
    requires a <= b <= d <= |c|
    ensures c[a..b] + c[b..d] == c[a..d]
  {
  }

  lemma BlockSlice(s: State, i: nat, bn: nat, pos: nat, m: nat, off: nat, end: nat, c: seq<Byte>)
    requires Shaped(s) && HasBlock(s, i, bn) && pos + m <= BSIZE && Mapped(s, i, s.inodes[i].size) && c == Content(s, i)
    requires off == bn * BSIZE + pos && end == off + m && end <= |c|
    ensures FileBlock(s, i, bn)[pos..pos + m] == c[off..end]
  {
    var a, b := FileBlock(s, i, bn)[pos..pos + m], c[off..end];
    forall k: nat | k < m
      ensures a[k] == b[k]
    {
      var o := off + k;
      assert o / BSIZE == bn && o % BSIZE == pos + k;
    }
  }

  // readi returns the slice of the file it was asked for, cut at the end of the file, and leaves
  // the file system as it was.
  lemma {:induction false} ReadiSlices(s: State, i: nat, off: nat, n: nat)
    requires Inv(s) && i < |s.inodes| && off < WORD && n < WORD
    ensures var r, size := Readi(s, i, off, n), s.inodes[i].size;
            && r.Returned? && r.s == s
            && (r.n == -1 <==> off > size || off + n >= WORD)
            && (r.n != -1 ==> r.n == Min(n, size - off) && r.bytes == Content(s, i)[off..off + r.n])
  {
    hide Content, ReadLoop;
    var size := s.inodes[i].size;
    if off <= size && off + n < WORD {
      var len := Min(n, size - off);
      ReadLoopEffect(s, i, off / BSIZE, off % BSIZE, len, off, off + len, Content(s, i));
    }
  }

  // What was written is what is read back.
  lemma ReadAfterWrite(s: State, i: nat, off: nat, src: seq<Byte>)
    requires Inv(s) && i < |s.inodes| && off < WORD && |src| < WORD
    requires Writei(s, i, off, src).Returned? && Writei(s, i, off, src).n == |src|
    ensures var t := Writei(s, i, off, src).s;
            && Inv(t) && i < |t.inodes| && Readi(t, i, off, |src|) == Returned(t, |src|, src)
  {
    WriteiSplices(s, i, off, src);
    var t := Writei(s, i, off, src).s;
    ReadiSlices(t, i, off, |src|);
    assert Content(t, i)[off..off + |src|] == src;
  }

  // ---------- bfree, itrunc ----------

  // bfree; the panic "freeing free block" is Panic.
  function Free(s: State, b: nat): (r: Outcome)
    requires Shaped(s) && s.nmeta <= b
    ensures r.Done? ==> Shaped(r.s)
  {
    if b >= |s.bitmap| || !s.bitmap[b] then Panic
    else Done(s.(bitmap := s.bitmap[b := false], logged := s.logged + {BitmapBlock(s, b)}), b)
  }

  // The first loop of itrunc, from direct block k on.
  function TruncDirect(s: State, i: nat, k: nat): (r: Outcome)
    requires Shaped(s) && i < |s.inodes| && k <= NDIRECT
    ensures r.Done? ==> Shaped(r.s) && |r.s.inodes| == |s.inodes|
    decreases NDIRECT - k
  {
    if k == NDIRECT then Done(s, 0)
    else
      var b := s.inodes[i].addrs[k];
      if b == 0 then TruncDirect(s, i, k + 1)
      else if b < s.nmeta then Panic
      else
        match Free(s, b)
        case Panic => Panic
        case Done(t, _) => TruncDirect(SetSlot(t, i, k, 0), i, k + 1)
  }

  // The second loop: the blocks named by the entries of the indirect block ind, from entry j on.
  function FreeEntries(s: State, ind: nat, j: nat): (r: Outcome)
    requires Shaped(s) && ind < |s.data| && j <= NINDIRECT
    ensures r.Done? ==> Shaped(r.s) && r.s.inodes == s.inodes
    decreases NINDIRECT - j
  {
    if j == NINDIRECT then Done(s, 0)
    else
      var b := GetWord(s.data[ind], j);
      if b == 0 then FreeEntries(s, ind, j + 1)
      else if b < s.nmeta then Panic
      else
        match Free(s, b)
        case Panic => Panic
        case Done(t, _) => FreeEntries(t, ind, j + 1)
  }

  function TruncIndirect(s: State, i: nat): (r: Outcome)
    requires Shaped(s) && i < |s.inodes|
    ensures r.Done? ==> Shaped(r.s) && |r.s.inodes| == |s.inodes|
  {
    var ind := s.inodes[i].addrs[NDIRECT];
    if ind == 0 then Done(s, 0)
    else
      match FreeEntries(s, ind, 0)
      case Panic => Panic
      case Done(t, _) =>
        if ind < t.nmeta then Panic
        else
          match Free(t, ind)
          case Panic => Panic
          case Done(u, _) => Done(SetSlot(u, i, NDIRECT, 0), 0)
  }

  // itrunc: free every block of the file and record an empty inode.
  function Itrunc(s: State, i: nat): (r: Outcome)
    requires Shaped(s) && i < |s.inodes|
  {
    match TruncDirect(s, i, 0)
    case Panic => Panic
    case Done(t, _) =>
      match TruncIndirect(t, i)
      case Panic => Panic
      case Done(u, _) => Done(Iupdate(Resize(u, i, 0), i), 0)
  }

  // own without the slots lo..hi-1 of inode i.
  ghost function Drop(own: map<nat, (nat, nat)>, i: nat, lo: nat, hi: nat): (r: map<nat, (nat, nat)>) {
    map b | b in own && !(own[b].0 == i && lo <= own[b].1 < hi) :: own[b]
  }

  // t differs from s only in the bitmap, the log and the addresses of inode i.
  ghost predicate OnlyFreed(s: State, t: State, i: nat) {
    && |t.inodes| == |s.inodes| && t.data == s.data && t.dinodes == s.dinodes && t.nmeta == s.nmeta
    && t.inodestart == s.inodestart && t.bmapstart == s.bmapstart
    && (forall j: nat :: j < |s.inodes| && j != i ==> t.inodes[j] == s.inodes[j])
  }

  // t is s with the slots lo..hi-1 of inode i emptied and the bits of their blocks cleared.
  ghost predicate Freed(s: State, t: State, own: map<nat, (nat, nat)>, i: nat, lo: nat, hi: nat)
    requires Shaped(s) && i < |s.inodes|
  {
    && Shaped(t) && OnlyFreed(s, t, i) && |t.bitmap| == |s.bitmap|
    && (forall m: nat :: m < SLOTS ==> Slot(t, i, m) == if lo <= m < hi then 0 else Slot(s, i, m))
    && (forall b :: 0 <= b < |t.bitmap| ==>
          t.bitmap[b] == (s.bitmap[b] && !(b in own && own[b].0 == i && lo <= own[b].1 < hi)))
  }

  // Slots and bits that go together leave the rest one to one.
  lemma FreedOwned(s: State, t: State, own: map<nat, (nat, nat)>, i: nat, lo: nat, hi: nat)
    requires Owned(s, own) && i < |s.inodes| && Freed(s, t, own, i, lo, hi)
    ensures Owned(t, Drop(own, i, lo, hi))
  {
    var own' := Drop(own, i, lo, hi);
    forall j: nat, m: nat | ValidSlot(s, j, m)
      ensures Slot(t, j, m) == if j == i && lo <= m < hi then 0 else Slot(s, j, m)
    {
    }
    forall c | c in own'
      ensures OwnerSlot(t, own', c) == c
    {
      assert OwnerSlot(s, own, c) == c;
    }
    forall b | t.nmeta <= b < |t.data| && t.bitmap[b]
      ensures b in own'
    {
      assert b in own;
    }
  }

  // One round of the first loop of itrunc.
  lemma DirectStep(s: State, own: map<nat, (nat, nat)>, i: nat, k: nat) returns (v: State)
    requires Owned(s, own) && i < |s.inodes| && k < NDIRECT
    ensures Freed(s, v, own, i, k, k + 1) && TruncDirect(s, i, k) == TruncDirect(v, i, k + 1)
  {
    var b := Slot(s, i, k);
    if b == 0 {
      DropEmpty(s, own, i, k);
      v := s;
      assert forall c :: c in own ==> c in Drop(own, i, k, k + 1);
    } else {
      assert b in own;
      v := SetSlot(Free(s, b).s, i, k, 0);
      forall c | c in own && own[c].0 == i && k <= own[c].1 < k + 1
        ensures c == b
      {
        assert OwnerSlot(s, own, c) == c;
      }
    }
  }

  lemma {:induction false} TruncDirectEffect(s: State, own: map<nat, (nat, nat)>, i: nat, k: nat)
          returns (t: State, own': map<nat, (nat, nat)>)
    requires Owned(s, own) && i < |s.inodes| && k <= NDIRECT
    ensures TruncDirect(s, i, k).Done? && t == TruncDirect(s, i, k).s
    ensures own' == Drop(own, i, k, NDIRECT) && Owned(t, own') && Freed(s, t, own, i, k, NDIRECT)
    decreases NDIRECT - k
  {
    t, own' := s, own;
    if k == NDIRECT {
      assert Drop(own, i, k, NDIRECT) == own;
    } else {
      var v := DirectStep(s, own, i, k);
      var mid := Drop(own, i, k, k + 1);
      FreedOwned(s, v, own, i, k, k + 1);
      t, own' := TruncDirectEffect(v, mid, i, k + 1);
      FreedTwice(s, v, t, own, i, k, k + 1, NDIRECT);
    }
  }

  lemma FreedTwice(s: State, v: State, t: State, own: map<nat, (nat, nat)>, i: nat, a: nat, b: nat, c: nat)
    requires Owned(s, own) && i < |s.inodes| && a <= b <= c && Freed(s, v, own, i, a, b)
    requires Freed(v, t, Drop(own, i, a, b), i, b, c)
    ensures Freed(s, t, own, i, a, c) && Drop(Drop(own, i, a, b), i, b, c) == Drop(own, i, a, c)
  {
    var mid := Drop(own, i, a, b);
    forall x | 0 <= x < |t.bitmap|
      ensures t.bitmap[x] == (s.bitmap[x] && !(x in own && own[x].0 == i && a <= own[x].1 < c))
    {
      assert x in own && !(own[x].0 == i && a <= own[x].1 < b) ==> x in mid;
    }
  }

  lemma DropEmpty(s: State, own: map<nat, (nat, nat)>, i: nat, k: nat)
    requires Owned(s, own) && ValidSlot(s, i, k) && Slot(s, i, k) == 0
    ensures Drop(own, i, k, k + 1) == own
  {
    forall b | b in own
      ensures own[b] != (i, k)
    {
      assert OwnerSlot(s, own, b) == b;
    }
  }

  // After the first j entries were freed, exactly their bits are clear.
  ghost predicate EntriesFreed(s: State, t: State, own: map<nat, (nat, nat)>, i: nat, j: nat) {
    && Shaped(t) && t == s.(bitmap := t.bitmap, logged := t.logged) && |t.bitmap| == |s.bitmap|
    && (forall b :: 0 <= b < |t.bitmap| ==>
          t.bitmap[b] == (s.bitmap[b] && !(b in own && own[b].0 == i && NDIRECT < own[b].1 <= NDIRECT + j)))
  }

  // The entries name blocks in use and no block twice, so bfree never finds a free block.
  lemma {:induction false} FreeEntriesEffect(s: State, t: State, own: map<nat, (nat, nat)>, i: nat, j: nat)
          returns (u: State)
    requires Owned(s, own) && i < |s.inodes| && Slot(s, i, NDIRECT) != 0 && j <= NINDIRECT
    requires EntriesFreed(s, t, own, i, j)
    ensures FreeEntries(t, Slot(s, i, NDIRECT), j).Done? && u == FreeEntries(t, Slot(s, i, NDIRECT), j).s
    ensures EntriesFreed(s, u, own, i, NINDIRECT)
    decreases NINDIRECT - j
  {
    u := t;
    if j < NINDIRECT {
      var ind := Slot(s, i, NDIRECT);
      var b := Slot(s, i, NDIRECT + 1 + j);
      assert b == GetWord(t.data[ind], j);
      var v := t;
      if b == 0 {
        DropEmpty(s, own, i, NDIRECT + 1 + j);
      } else {
        assert own[b] == (i, NDIRECT + 1 + j);
        v := Free(t, b).s;
      }
      EntryStep(s, t, v, own, i, j, b);
      u := FreeEntriesEffect(s, v, own, i, j + 1);
    }
  }

  lemma EntryStep(s: State, t: State, v: State, own: map<nat, (nat, nat)>, i: nat, j: nat, b: nat)
    requires Owned(s, own) && i < |s.inodes| && j < NINDIRECT && b == Slot(s, i, NDIRECT + 1 + j)
    requires EntriesFreed(s, t, own, i, j)
    requires if b == 0 then v == t else s.nmeta <= b && Free(t, b).Done? && v == Free(t, b).s
    ensures EntriesFreed(s, v, own, i, j + 1)
  {
    forall c | 0 <= c < |v.bitmap|
      ensures v.bitmap[c] == (s.bitmap[c] && !(c in own && own[c].0 == i && NDIRECT < own[c].1 <= NDIRECT + j + 1))
    {
      if c in own && own[c] == (i, NDIRECT + 1 + j) {
        assert OwnerSlot(s, own, c) == c;
      }
    }
  }

  lemma TruncIndirectEffect(s: State, own: map<nat, (nat, nat)>, i: nat) returns (t: State, own': map<nat, (nat, nat)>)
    requires Owned(s, own) && i < |s.inodes|
    ensures TruncIndirect(s, i).Done? && t == TruncIndirect(s, i).s
    ensures own' == Drop(own, i, NDIRECT, SLOTS) && Owned(t, own') && Freed(s, t, own, i, NDIRECT, SLOTS)
  {
    var ind := Slot(s, i, NDIRECT);
    own' := Drop(own, i, NDIRECT, SLOTS);
    t := s;
    if ind == 0 {
      NothingIndirect(s, own, i);
    } else {
      assert own[ind] == (i, NDIRECT);
      var u := FreeEntriesEffect(s, s, own, i, 0);
      t := SetSlot(Free(u, ind).s, i, NDIRECT, 0);
      IndirectFreed(s, u, t, own, i, ind);
      FreedOwned(s, t, own, i, NDIRECT, SLOTS);
    }
  }

  lemma IndirectFreed(s: State, u: State, t: State, own: map<nat, (nat, nat)>, i: nat, ind: nat)
    requires Owned(s, own) && i < |s.inodes| && ind == Slot(s, i, NDIRECT) && ind != 0 && ind >= s.nmeta
    requires EntriesFreed(s, u, own, i, NINDIRECT) && Free(u, ind).Done? && t == SetSlot(Free(u, ind).s, i, NDIRECT, 0)
    ensures Freed(s, t, own, i, NDIRECT, SLOTS)
  {
    forall b | 0 <= b < |t.bitmap|
      ensures t.bitmap[b] == (s.bitmap[b] && !(b in own && own[b].0 == i && NDIRECT <= own[b].1 < SLOTS))
    {
      if b in own && own[b] == (i, NDIRECT) {
        assert OwnerSlot(s, own, b) == b;
      }
    }
  }

  lemma NothingIndirect(s: State, own: map<nat, (nat, nat)>, i: nat)
    requires Owned(s, own) && i < |s.inodes| && Slot(s, i, NDIRECT) == 0
    ensures Drop(own, i, NDIRECT, SLOTS) == own && Freed(s, s, own, i, NDIRECT, SLOTS)
  {
    forall b | b in own
      ensures !(own[b].0 == i && NDIRECT <= own[b].1 < SLOTS)
    {
      assert OwnerSlot(s, own, b) == b;
    }
  }

  // TRUNCATION. itrunc never panics with "freeing free block"; it clears exactly the bits of the
  // blocks the file owned, once each, leaves the file empty on disk and in memory, and keeps every
  // other file and the one-to-one ownership.
  lemma ItruncEffect(s: State, own: map<nat, (nat, nat)>, i: nat)
    requires Inv(s) && Owned(s, own) && i < |s.inodes|
    ensures Itrunc(s, i).Done?
    ensures var t := Itrunc(s, i).s;
            && Inv(t) && Owned(t, Drop(own, i, 0, SLOTS)) && |t.inodes| == |s.inodes| && |t.bitmap| == |s.bitmap|
            && (forall b :: 0 <= b < |s.bitmap| ==> t.bitmap[b] == (s.bitmap[b] && !(b in own && own[b].0 == i)))
            && t.inodes[i].size == 0 && (forall k: nat :: k < SLOTS ==> Slot(t, i, k) == 0)
            && (forall j: nat :: j < |s.inodes| && j != i ==> SameFile(s, t, j))
  {
    var u := ItruncSteps(s, own, i);
    ResizeKeeps(u, Drop(own, i, 0, SLOTS), i, 0);
    var r := Iupdate(Resize(u, i, 0), i);
    TruncOthers(s, u, r, own, i);
    TruncBits(s, u, own, i);
    forall j: nat | j < |r.inodes|
      ensures r.inodes[j].size <= MAXFILE * BSIZE && Mapped(r, j, r.inodes[j].size)
    {
      assert j != i ==> SameFile(s, r, j);
    }
  }

  lemma TruncBits(s: State, u: State, own: map<nat, (nat, nat)>, i: nat)
    requires Owned(s, own) && i < |s.inodes| && Freed(s, u, own, i, 0, SLOTS)
    ensures forall b :: 0 <= b < |s.bitmap| ==> u.bitmap[b] == (s.bitmap[b] && !(b in own && own[b].0 == i))
  {
    forall b | 0 <= b < |s.bitmap|
      ensures u.bitmap[b] == (s.bitmap[b] && !(b in own && own[b].0 == i))
    {
      assert b in own ==> ValidSlot(s, own[b].0, own[b].1);
    }
  }

  // Both loops of itrunc, with the state before the empty size is recorded.
  lemma ItruncSteps(s: State, own: map<nat, (nat, nat)>, i: nat) returns (u: State)
    requires Owned(s, own) && i < |s.inodes|
    ensures Freed(s, u, own, i, 0, SLOTS) && Owned(u, Drop(own, i, 0, SLOTS))
    ensures Itrunc(s, i) == Done(Iupdate(Resize(u, i, 0), i), 0)
  {
    var t, own1 := TruncDirectEffect(s, own, i, 0);
    var own2;
    u, own2 := TruncIndirectEffect(t, own1, i);
    FreedTwice(s, t, u, own, i, 0, NDIRECT, SLOTS);
  }

  lemma TruncOthers(s: State, u: State, r: State, own: map<nat, (nat, nat)>, i: nat)
    requires Inv(s) && Owned(s, own) && i < |s.inodes| && Freed(s, u, own, i, 0, SLOTS)
    requires r == Iupdate(Resize(u, i, 0), i)
    ensures r.dinodes == r.inodes && (forall j: nat :: j < |s.inodes| && j != i ==> SameFile(s, r, j))
    ensures forall k: nat :: k < SLOTS ==> Slot(r, i, k) == 0
  {
    forall j: nat | j < |s.inodes| && j != i
      ensures SameFile(s, r, j)
    {
      forall bn: nat | HasBlock(s, j, bn)
        ensures HasBlock(r, j, bn) && FileBlock(r, j, bn) == FileBlock(s, j, bn)
      {
        assert Slot(r, j, SlotOf(bn)) == Slot(s, j, SlotOf(bn));
      }
      SameBlocksSameFile(s, r, j);
    }
    forall k: nat | k < SLOTS
      ensures Slot(r, i, k) == 0
    {
      assert Slot(r, i, k) == Slot(u, i, k);
    }
  }
}
