// When the file system runs out of blocks: bmap, writei and filewrite panic exactly when the bitmap has fewer
// clear bits than the blocks they lack.

module FsRoom {
  import opened Common
  import opened Blocks
  import opened Fs
  import opened FileWrite

  // ---------- clear bits ----------

  function ClearBits(bits: seq<bool>): (n: nat) {
    if bits == [] then 0 else ClearBits(bits[..|bits| - 1]) + if bits[|bits| - 1] then 0 else 1
  }

  lemma {:induction false} SetOne(bits: seq<bool>, b: nat)
    requires b < |bits| && !bits[b]
    ensures ClearBits(bits[b := true]) == ClearBits(bits) - 1
  {
    var n := |bits| - 1;
    if b == n {
      assert bits[b := true][..n] == bits[..n];
    } else {
      assert bits[b := true][..n] == bits[..n][b := true];
      SetOne(bits[..n], b);
    }
  }

  lemma {:induction false} NoneClear(bits: seq<bool>)
    ensures ClearBits(bits) == 0 <==> forall b :: 0 <= b < |bits| ==> bits[b]
  {
    if bits != [] {
      var n := |bits| - 1;
      NoneClear(bits[..n]);
      if forall b :: 0 <= b < n ==> bits[..n][b] {
        assert forall b :: 0 <= b < n ==> bits[b] by {
          assert forall b :: 0 <= b < n ==> bits[b] == bits[..n][b];
        }
      }
    }
  }

  // ---------- what a file lacks ----------

  // File i has no block for its block bn.
  predicate Missing(s: State, i: nat, bn: nat)
    requires Shaped(s) && i < |s.inodes| && bn < MAXFILE
  {
    var addrs := s.inodes[i].addrs;
    if bn < NDIRECT then addrs[bn] == 0
    else addrs[NDIRECT] == 0 || GetWord(s.data[addrs[NDIRECT]], bn - NDIRECT) == 0
  }

  // The file blocks from `from` up to `end` that are missing.
  function MissingIn(s: State, i: nat, from: nat, end: nat): (n: nat)
    requires Shaped(s) && i < |s.inodes| && end <= MAXFILE
    decreases if from < end then end - from else 0
  {
    if from >= end then 0 else (if Missing(s, i, from) then 1 else 0) + MissingIn(s, i, from + 1, end)
  }

  // The blocks that have to be allocated before all of these are there: the missing ones, and the indirect
  // block if one of them needs it.
  function Lacks(s: State, i: nat, from: nat, end: nat): (n: nat)
    requires Shaped(s) && i < |s.inodes| && end <= MAXFILE
  {
    MissingIn(s, i, from, end) + if from < end && NDIRECT < end && s.inodes[i].addrs[NDIRECT] == 0 then 1 else 0
  }

  lemma MissingSlot(s: State, i: nat, bn: nat)
    requires Shaped(s) && i < |s.inodes| && bn < MAXFILE
    ensures Missing(s, i, bn) <==> Slot(s, i, SlotOf(bn)) == 0
  {
  }

  // ---------- bmap ----------

  lemma {:induction false} MapSlotRoom(s: State, own: map<nat, (nat, nat)>, i: nat, k: nat)
    requires Owned(s, own) && ValidSlot(s, i, k) && (k > NDIRECT ==> s.inodes[i].addrs[NDIRECT] != 0)
    ensures MapSlot(s, i, k).Panic? <==> Slot(s, i, k) == 0 && ClearBits(s.bitmap) == 0
    ensures MapSlot(s, i, k).Done? ==>
              ClearBits(MapSlot(s, i, k).s.bitmap) == ClearBits(s.bitmap) - if Slot(s, i, k) == 0 then 1 else 0
  {
    NoneClear(s.bitmap);
    var b := FirstFree(s.bitmap, 0);
    if b < |s.bitmap| { SetOne(s.bitmap, b); }
  }

  // The same when the slot of file block bn is behind the indirect block.
  lemma {:induction false} IndirectRoom(s: State, own: map<nat, (nat, nat)>, i: nat, bn: nat)
    requires Owned(s, own) && i < |s.inodes| && NDIRECT <= bn < MAXFILE
    ensures var need := if s.inodes[i].addrs[NDIRECT] == 0 then 2 else if Slot(s, i, bn + 1) == 0 then 1 else 0;
            && (Bmap(s, i, bn).Panic? <==> ClearBits(s.bitmap) < need)
            && (Bmap(s, i, bn).Done? ==> ClearBits(Bmap(s, i, bn).s.bitmap) == ClearBits(s.bitmap) - need)
  {
    hide ClearBits, Owned, MapSlot;
    OwnedShaped(s, own);
    MapSlotRoom(s, own, i, NDIRECT);
    var r := MapSlot(s, i, NDIRECT);
    if Slot(s, i, NDIRECT) != 0 {
      MapSlotThere(s, i, NDIRECT);
      MapSlotRoom(s, own, i, bn + 1);
    } else if r.Done? {
      MapSlotEffect(s, own, i, NDIRECT);
      OwnedNonzero(r.s, own[NewBlock(s) := (i, NDIRECT)], NewBlock(s));
      MapSlotRoom(r.s, own[NewBlock(s) := (i, NDIRECT)], i, bn + 1);
      assert Slot(r.s, i, bn + 1) == Slot(s, i, bn + 1) == 0;
    }
  }

  lemma OwnedShaped(s: State, own: map<nat, (nat, nat)>)
    requires Owned(s, own)
    ensures Shaped(s)
  {
  }

  lemma OwnedNonzero(s: State, own: map<nat, (nat, nat)>, b: nat)
    requires Owned(s, own) && b in own
    ensures b != 0
  {
  }

  lemma MapSlotThere(s: State, i: nat, k: nat)
    requires Shaped(s) && ValidSlot(s, i, k) && Slot(s, i, k) != 0
    requires k > NDIRECT ==> s.inodes[i].addrs[NDIRECT] != 0
    ensures MapSlot(s, i, k) == Done(s, Slot(s, i, k))
  {
  }

  lemma LacksOne(s: State, i: nat, bn: nat)
    requires Shaped(s) && i < |s.inodes| && bn < MAXFILE
    ensures Lacks(s, i, bn, bn + 1) ==
            if bn < NDIRECT then (if Slot(s, i, bn) == 0 then 1 else 0)
            else if s.inodes[i].addrs[NDIRECT] == 0 then 2 else if Slot(s, i, bn + 1) == 0 then 1 else 0
  {
    MissingSlot(s, i, bn);
    assert MissingIn(s, i, bn + 1, bn + 1) == 0;
  }

  // BMAP PANICS exactly when there are fewer clear bits than the blocks it has to allocate: none when the block
  // is there, one for it, or two with its indirect block. What it allocates are that many.
  lemma {:induction false} BmapRoom(s: State, own: map<nat, (nat, nat)>, i: nat, bn: nat)
    requires Owned(s, own) && i < |s.inodes| && bn < MAXFILE
    ensures Bmap(s, i, bn).Panic? <==> ClearBits(s.bitmap) < Lacks(s, i, bn, bn + 1)
    ensures Bmap(s, i, bn).Done? ==> ClearBits(Bmap(s, i, bn).s.bitmap) == ClearBits(s.bitmap) - Lacks(s, i, bn, bn + 1)
  {
    hide ClearBits, Owned, MapSlot, Lacks;
    OwnedShaped(s, own);
    LacksOne(s, i, bn);
    if bn < NDIRECT { MapSlotRoom(s, own, i, bn); } else { IndirectRoom(s, own, i, bn); }
  }

  // ---------- writei ----------

  // From s to t file i got its blocks from `from` up to `end`, and the indirect block if one of them needs it; its
  // other blocks are as before.
  ghost predicate Got(s: State, t: State, i: nat, from: nat, end: nat) {
    && Shaped(s) && Shaped(t) && i < |s.inodes| == |t.inodes| && end <= MAXFILE
    && (forall b: nat :: b < MAXFILE ==> Missing(t, i, b) == (Missing(s, i, b) && !(from <= b < end)))
    && (t.inodes[i].addrs[NDIRECT] == 0 <==> s.inodes[i].addrs[NDIRECT] == 0 && !(from < end && NDIRECT < end))
  }

  lemma {:induction false} BmapGot(s: State, own: map<nat, (nat, nat)>, i: nat, bn: nat)
    requires Owned(s, own) && i < |s.inodes| && bn < MAXFILE && Bmap(s, i, bn).Done?
    ensures Got(s, Bmap(s, i, bn).s, i, bn, bn + 1)
  {
    hide Owned, MapSlot, Missing;
    OwnedShaped(s, own);
    var u, mid := s, own;
    if bn >= NDIRECT {
      if Slot(s, i, NDIRECT) == 0 {
        MapSlotEffect(s, own, i, NDIRECT);
        u, mid := MapSlot(s, i, NDIRECT).s, own[NewBlock(s) := (i, NDIRECT)];
        OwnedNonzero(u, mid, NewBlock(s));
      } else {
        MapSlotThere(s, i, NDIRECT);
      }
    }
    OwnedShaped(u, mid);
    var t := Bmap(s, i, bn).s;
    if Slot(u, i, SlotOf(bn)) == 0 {
      MapSlotEffect(u, mid, i, SlotOf(bn));
      OwnedNonzero(t, mid[NewBlock(u) := (i, SlotOf(bn))], NewBlock(u));
    } else {
      MapSlotThere(u, i, SlotOf(bn));
    }
    MissingSlot(t, i, bn);
    forall b: nat | b < MAXFILE && b != bn
      ensures Missing(t, i, b) == Missing(s, i, b)
    {
      MissingSlot(s, i, b);
      MissingSlot(t, i, b);
    }
    assert t.inodes[i].addrs[NDIRECT] == Slot(t, i, NDIRECT);
  }

  lemma {:induction false} GotTwice(s: State, v: State, t: State, i: nat, from: nat, mid: nat, end: nat)
    requires Got(s, v, i, from, mid) && Got(v, t, i, mid, end) && from <= mid <= end
    ensures Got(s, t, i, from, end)
  {
    hide Missing;
  }

  lemma {:induction false} MissingSplit(s: State, v: State, i: nat, from: nat, mid: nat, again: nat, end: nat)
    requires Got(s, v, i, from, mid) && from <= again <= mid <= end <= MAXFILE
    ensures MissingIn(s, i, from, end) == MissingIn(s, i, from, mid) + MissingIn(v, i, again, end)
    decreases mid - again
  {
    hide Missing;
    if again < mid {
      MissingSplit(s, v, i, from, mid, again + 1, end);
    } else {
      MissingCut(s, i, from, mid, end);
      MissingSame(s, v, i, mid, end, from, mid);
    }
  }

  lemma {:induction false} MissingCut(s: State, i: nat, from: nat, mid: nat, end: nat)
    requires Shaped(s) && i < |s.inodes| && from <= mid <= end <= MAXFILE
    ensures MissingIn(s, i, from, end) == MissingIn(s, i, from, mid) + MissingIn(s, i, mid, end)
    decreases mid - from
  {
    hide Missing;
    if from < mid { MissingCut(s, i, from + 1, mid, end); }
  }

  lemma {:induction false} MissingSame(s: State, v: State, i: nat, at: nat, end: nat, from: nat, mid: nat)
    requires Got(s, v, i, from, mid) && mid <= at <= end <= MAXFILE
    ensures MissingIn(v, i, at, end) == MissingIn(s, i, at, end)
    decreases end - at
  {
    hide Missing;
    if at < end { MissingSame(s, v, i, at + 1, end, from, mid); }
  }

  // Blocks that are there already are not counted again.
  lemma {:induction false} LacksSplit(s: State, v: State, i: nat, from: nat, mid: nat, again: nat, end: nat)
    requires Got(s, v, i, from, mid) && from <= again <= mid <= end <= MAXFILE && again < end
    ensures Lacks(s, i, from, end) == Lacks(s, i, from, mid) + Lacks(v, i, again, end)
  {
    hide Missing, MissingIn;
    MissingSplit(s, v, i, from, mid, again, end);
  }

  // A store changes no address.
  lemma {:induction false} StoreGot(s: State, u: State, own: map<nat, (nat, nat)>, i: nat, bn: nat, pos: nat,
          bytes: seq<Byte>)
    requires Got(s, u, i, bn, bn + 1) && Owned(u, own) && HasBlock(u, i, bn) && pos + |bytes| <= BSIZE
    ensures Got(s, StoreBytes(u, Slot(u, i, SlotOf(bn)), pos, bytes), i, bn, bn + 1)
  {
    hide Owned, Missing;
    var t := StoreBytes(u, Slot(u, i, SlotOf(bn)), pos, bytes);
    StoreEffect(u, own, i, bn, pos, bytes);
    forall b: nat | b < MAXFILE
      ensures Missing(t, i, b) == Missing(u, i, b)
    {
      MissingSlot(u, i, b);
      MissingSlot(t, i, b);
    }
  }

  lemma {:induction false} RoundRoom(s: State, own: map<nat, (nat, nat)>, i: nat, bn: nat, pos: nat, bytes: seq<Byte>)
    returns (own': map<nat, (nat, nat)>)
    requires Owned(s, own) && i < |s.inodes| && bn < MAXFILE && pos + |bytes| <= BSIZE
    ensures var r := Round(s, i, bn, pos, bytes);
            && (r.Panic? <==> ClearBits(s.bitmap) < Lacks(s, i, bn, bn + 1))
            && (r.Done? ==> && Owned(r.s, own') && Got(s, r.s, i, bn, bn + 1)
                            && ClearBits(r.s.bitmap) == ClearBits(s.bitmap) - Lacks(s, i, bn, bn + 1))
  {
    hide Owned, Bmap, Got, Lacks, ClearBits;
    own' := own;
    OwnedShaped(s, own);
    BmapRoom(s, own, i, bn);
    if Bmap(s, i, bn).Done? {
      var u := Bmap(s, i, bn);
      own' := BmapEffect(s, own, i, bn);
      BmapGot(s, own, i, bn);
      StoreEffect(u.s, own', i, bn, pos, bytes);
      StoreGot(s, u.s, own', i, bn, pos, bytes);
    }
  }

  // The file block behind the last byte of n bytes at position pos of block bn.
  function Past(bn: nat, pos: nat, n: nat): (r: nat) { if n == 0 then bn else bn + (pos + n - 1) / BSIZE + 1 }

  lemma {:induction false} LoopRoom(s: State, own: map<nat, (nat, nat)>, i: nat, bn: nat, pos: nat, src: seq<Byte>)
    requires Owned(s, own) && i < |s.inodes| && pos < BSIZE && bn * BSIZE + pos + |src| <= MAXFILE * BSIZE
    requires bn <= MAXFILE
    ensures var r, end := WriteLoop(s, i, bn, pos, src), Past(bn, pos, |src|);
            && end <= MAXFILE
            && (r.Panic? <==> ClearBits(s.bitmap) < Lacks(s, i, bn, end))
            && (r.Done? ==> && Got(s, r.s, i, bn, end)
                            && ClearBits(r.s.bitmap) == ClearBits(s.bitmap) - Lacks(s, i, bn, end))
    decreases |src|
  {
    hide Owned, Got, Lacks, ClearBits, Round;
    OwnedShaped(s, own);
    PastFits(bn, pos, |src|);
    if src == [] {
      NothingLacks(s, i, bn);
    } else {
      var m := Min(|src|, BSIZE - pos);
      var a, b, end := src[..m], src[m..], Past(bn, pos, |src|);
      var own' := RoundRoom(s, own, i, bn, pos, a);
      var r := Round(s, i, bn, pos, a);
      PastNext(bn, pos, |src|, m);
      LacksGrows(s, i, bn, bn + 1, end);
      if r.Done? {
        LoopRoom(r.s, own', i, bn + 1, 0, b);
        GotLacks(s, r.s, i, bn, end);
        var w := WriteLoop(s, i, bn, pos, src);
        if w.Done? { GotTwice(s, r.s, w.s, i, bn, bn + 1, end); }
      }
    }
  }

  lemma GotLacks(s: State, v: State, i: nat, bn: nat, end: nat)
    requires Got(s, v, i, bn, bn + 1) && bn < end <= MAXFILE
    ensures Lacks(s, i, bn, end) == Lacks(s, i, bn, bn + 1) + Lacks(v, i, bn + 1, end)
  {
    hide Missing, MissingIn;
    if bn + 1 < end { LacksSplit(s, v, i, bn, bn + 1, bn + 1, end); } else { NothingLacks(v, i, end); }
  }

  lemma NothingLacks(s: State, i: nat, bn: nat)
    requires Shaped(s) && i < |s.inodes| && bn <= MAXFILE
    ensures Lacks(s, i, bn, bn) == 0 && Got(s, s, i, bn, bn)
  {
  }

  lemma {:induction false} LacksGrows(s: State, i: nat, from: nat, mid: nat, end: nat)
    requires Shaped(s) && i < |s.inodes| && from < mid <= end <= MAXFILE
    ensures Lacks(s, i, from, mid) <= Lacks(s, i, from, end)
  {
    hide Missing;
    MissingCut(s, i, from, mid, end);
  }

  lemma PastFits(bn: nat, pos: nat, n: nat)
    requires pos < BSIZE && bn * BSIZE + pos + n <= MAXFILE * BSIZE && bn <= MAXFILE
    ensures Past(bn, pos, n) <= MAXFILE
  {
  }

  lemma PastNext(bn: nat, pos: nat, n: nat, m: nat)
    requires pos < BSIZE && n > 0 && m == Min(n, BSIZE - pos)
    ensures Past(bn + 1, 0, n - m) == Past(bn, pos, n) >= bn + 1
  {
  }

  // The file block behind the last of n bytes at offset off.
  function EndBlock(off: nat, n: nat): (b: nat) { if n == 0 then off / BSIZE else (off + n - 1) / BSIZE + 1 }

  lemma EndIsPast(off: nat, n: nat)
    ensures Past(off / BSIZE, off % BSIZE, n) == EndBlock(off, n)
    ensures off + n <= MAXFILE * BSIZE ==> EndBlock(off, n) <= MAXFILE
  {
  }

  // Recording the size and the inode changes neither bits nor addresses.
  lemma {:induction false} FinishGot(s: State, t: State, i: nat, from: nat, end: nat, off: nat, n: nat)
    requires Got(s, t, i, from, end)
    ensures Got(s, FinishWrite(t, i, off, n), i, from, end) && FinishWrite(t, i, off, n).bitmap == t.bitmap
  {
    var u := FinishWrite(t, i, off, n);
    forall b: nat | b < MAXFILE
      ensures Missing(u, i, b) == Missing(t, i, b)
    {
    }
  }

  // WRITEI PANICS exactly when it accepts the call and the bitmap has fewer clear bits than the missing blocks of
  // the range, the indirect block included; otherwise it uses up exactly those.
  lemma {:induction false} WriteiRoom(s: State, i: nat, off: nat, src: seq<Byte>)
    requires Inv(s) && i < |s.inodes| && off < WORD && |src| < WORD
    ensures var ok := off <= s.inodes[i].size && off + |src| <= MAXFILE * BSIZE;
            && (ok ==> EndBlock(off, |src|) <= MAXFILE)
            && (Writei(s, i, off, src).Panicked? <==>
                ok && ClearBits(s.bitmap) < Lacks(s, i, off / BSIZE, EndBlock(off, |src|)))
            && (ok && Writei(s, i, off, src).Returned? ==>
                  var t := Writei(s, i, off, src).s;
                  && Got(s, t, i, off / BSIZE, EndBlock(off, |src|))
                  && ClearBits(t.bitmap) == ClearBits(s.bitmap) - Lacks(s, i, off / BSIZE, EndBlock(off, |src|)))
  {
    hide Owned, Got, Lacks, ClearBits, WriteLoop, Mapped;
    var own :| Owned(s, own);
    OwnedShaped(s, own);
    EndIsPast(off, |src|);
    if off <= s.inodes[i].size && off + |src| <= MAXFILE * BSIZE {
      LoopRoom(s, own, i, off / BSIZE, off % BSIZE, src);
      var r := WriteLoop(s, i, off / BSIZE, off % BSIZE, src);
      if r.Done? { FinishGot(s, r.s, i, off / BSIZE, EndBlock(off, |src|), off, |src|); }
    }
  }

  // ---------- filewrite ----------

  // How much of n bytes at offset off filewrite gets to: all of it, or the whole chunks that end below the
  // largest file.
  function Accepted(off: nat, n: nat): (k: nat)
    requires off <= MAXFILE * BSIZE
  {
    if off + n <= MAXFILE * BSIZE then n else (MAXFILE * BSIZE - off) / MAXCHUNK * MAXCHUNK
  }

  lemma AcceptedNext(off: nat, n: nat, m: nat)
    requires off <= MAXFILE * BSIZE && n > 0 && m == Min(n, MAXCHUNK)
    ensures off + m <= MAXFILE * BSIZE ==> m <= Accepted(off, n) == m + Accepted(off + m, n - m) <= n
    ensures off + m > MAXFILE * BSIZE ==> Accepted(off, n) == 0
  {
  }

  lemma {:induction false} FreshLacks(s: State, i: nat, from: nat, end: nat)
    requires Shaped(s) && i < |s.inodes| && end <= MAXFILE
    ensures Lacks(s.(logged := {}), i, from, end) == Lacks(s, i, from, end)
  {
    FreshMissing(s, i, from, end);
  }

  lemma {:induction false} FreshMissing(s: State, i: nat, from: nat, end: nat)
    requires Shaped(s) && i < |s.inodes| && end <= MAXFILE
    ensures MissingIn(s.(logged := {}), i, from, end) == MissingIn(s, i, from, end)
    decreases if from < end then end - from else 0
  {
    if from < end { FreshMissing(s, i, from + 1, end); }
  }

  lemma {:induction false} FreshGot(s: State, t: State, i: nat, from: nat, end: nat)
    requires Shaped(s) && Got(s.(logged := {}), t, i, from, end)
    ensures Got(s, t, i, from, end)
  {
    forall b: nat | b < MAXFILE
      ensures Missing(s.(logged := {}), i, b) == Missing(s, i, b)
    {
    }
  }

  lemma EndsMeet(off: nat, m: nat, n: nat)
    requires m > 0
    ensures off / BSIZE <= (off + m) / BSIZE <= EndBlock(off, m)
    ensures n > 0 ==> EndBlock(off, m) <= EndBlock(off + m, n) == EndBlock(off, m + n)
    ensures n > 0 ==> (off + m) / BSIZE < EndBlock(off + m, n)
  {
  }

  // FILEWRITE PANICS exactly when the bitmap has fewer clear bits than the missing blocks of what it gets to;
  // otherwise it writes exactly that much.
  lemma {:induction false} FilewriteRoom(s: State, i: nat, off: nat, src: seq<Byte>, k: nat)
    requires Inv(s) && i < |s.inodes| && off <= s.inodes[i].size && off + |src| < WORD && k == Accepted(off, |src|)
    ensures EndBlock(off, k) <= MAXFILE
    ensures FileLoop(s, i, off, src).Dead? <==> ClearBits(s.bitmap) < Lacks(s, i, off / BSIZE, EndBlock(off, k))
    ensures FileLoop(s, i, off, src).Out? ==> FileLoop(s, i, off, src).written == k
    decreases |src|
  {
    hide Got, Lacks, ClearBits, Writei, Landed;
    EndIsPast(off, k);
    if src == [] {
      NothingLacks(s, i, off / BSIZE);
    } else {
      var m, o := Min(|src|, MAXCHUNK), s.(logged := {});
      var a, b, mid := src[..m], src[m..], off + m;
      AcceptedNext(off, |src|, m);
      FreshOp(s);
      WriteiRoom(o, i, off, a);
      FreshLacks(s, i, off / BSIZE, EndBlock(off, k));
      if mid > MAXFILE * BSIZE {
        ChunkRejected(s, i, off, a);
        NothingLacks(s, i, off / BSIZE);
      } else {
        FreshLacks(s, i, off / BSIZE, EndBlock(off, m));
        EndsMeet(off, m, k - m);
        if Writei(o, i, off, a).Returned? {
          var v := ChunkLands(s, i, off, a, mid);
          FilewriteRoom(v, i, mid, b, k - m);
          FreshGot(s, v, i, off / BSIZE, EndBlock(off, m));
          LaterLacks(s, v, i, off, m, k);
        } else {
          MoreLacks(s, i, off, m, k);
        }
      }
    }
  }

  lemma {:induction false} LaterLacks(s: State, v: State, i: nat, off: nat, m: nat, k: nat)
    requires 0 < m <= k && off + k <= MAXFILE * BSIZE && Got(s, v, i, off / BSIZE, EndBlock(off, m))
    ensures EndBlock(off, k) <= MAXFILE && EndBlock(off + m, k - m) <= MAXFILE
    ensures Lacks(s, i, off / BSIZE, EndBlock(off, k)) ==
            Lacks(s, i, off / BSIZE, EndBlock(off, m)) + Lacks(v, i, (off + m) / BSIZE, EndBlock(off + m, k - m))
  {
    hide Got, Lacks;
    EndsMeet(off, m, k - m);
    EndIsPast(off, k);
    if m == k {
      GotShaped(s, v, i, off / BSIZE, EndBlock(off, m));
      NothingLacks(v, i, (off + m) / BSIZE);
    } else {
      LacksSplit(s, v, i, off / BSIZE, EndBlock(off, m), (off + m) / BSIZE, EndBlock(off, k));
    }
  }

  lemma GotShaped(s: State, t: State, i: nat, from: nat, end: nat)
    requires Got(s, t, i, from, end)
    ensures Shaped(s) && Shaped(t) && i < |t.inodes| == |s.inodes|
  {
  }

  lemma {:induction false} MoreLacks(s: State, i: nat, off: nat, m: nat, k: nat)
    requires Shaped(s) && i < |s.inodes| && 0 < m <= k && off + k <= MAXFILE * BSIZE
    ensures EndBlock(off, m) <= EndBlock(off, k) <= MAXFILE
    ensures Lacks(s, i, off / BSIZE, EndBlock(off, m)) <= Lacks(s, i, off / BSIZE, EndBlock(off, k))
  {
    hide Lacks;
    EndsMeet(off, m, k - m);
    EndIsPast(off, k);
    LacksGrows(s, i, off / BSIZE, EndBlock(off, m), EndBlock(off, k));
  }
}
