// fs.c itself: the loops over bitmap bits, file blocks and inode addresses, updating the bitmap,
// the block contents and the inodes in place, each proved to compute the function of module Fs.

module FsDriver {
  import opened Common
  import opened Blocks
  import opened Fs
  import opened FileWrite

  class FileSystem {
    var bitmap: seq<bool>
    var data: seq<Block>
    var inodes: seq<Inode>
    var dinodes: seq<Inode>
    ghost var logged: set<nat>
    const nmeta: nat
    const inodestart: nat
    const bmapstart: nat

    ghost function S(): (s: State)
      reads this
    {
      State(bitmap, data, inodes, dinodes, logged, nmeta, inodestart, bmapstart)
    }

    constructor (s: State)
      ensures S() == s
    {
      bitmap, data, inodes, dinodes, logged := s.bitmap, s.data, s.inodes, s.dinodes, s.logged;
      nmeta, inodestart, bmapstart := s.nmeta, s.inodestart, s.bmapstart;
    }

    // balloc: look through the bitmap one block of BPB bits at a time. False is the panic.
    method Balloc() returns (ok: bool, addr: nat)
      requires Shaped(S())
      modifies this`bitmap, this`data, this`logged
      ensures ok == Alloc(old(S())).Done?
      ensures if ok then S() == Alloc(old(S())).s && addr == Alloc(old(S())).addr else S() == old(S())
      ensures if ok then
                && addr < |bitmap| && !old(bitmap)[addr] && (forall b :: 0 <= b < addr ==> old(bitmap)[b])
                && bitmap == old(bitmap)[addr := true] && data == old(data)[addr := Zero()]
                && logged == old(logged) + {addr / BPB + bmapstart, addr}
              else forall b :: 0 <= b < |bitmap| ==> bitmap[b]
    {
      ghost var s := S();
      var b := 0;
      while b < |bitmap|
        invariant 0 <= b && S() == s
        invariant forall c :: 0 <= c < b && c < |bitmap| ==> bitmap[c]
      {
        var bi := 0;
        while bi < BPB && b + bi < |bitmap|
          invariant 0 <= bi <= BPB && S() == s
          invariant forall c :: 0 <= c < b + bi && c < |bitmap| ==> bitmap[c]
        {
          if !bitmap[b + bi] {
            FirstFreeIs(bitmap, b + bi);
            addr := b + bi;
            bitmap := bitmap[addr := true];
            logged := logged + {addr / BPB + bmapstart};
            data := data[addr := Zero()];
            logged := logged + {addr};
            assert S() == Alloc(s).s;
            return true, addr;
          }
          bi := bi + 1;
        }
        b := b + BPB;
      }
      return false, 0;
    }

    // bfree. False is the panic "freeing free block".
    method Bfree(b: nat) returns (ok: bool)
      requires Shaped(S()) && nmeta <= b < |bitmap|
      modifies this`bitmap, this`logged
      ensures ok == Free(old(S()), b).Done?
      ensures S() == if ok then Free(old(S()), b).s else old(S())
      ensures ok == old(bitmap)[b]
      ensures ok ==> bitmap == old(bitmap)[b := false] && logged == old(logged) + {b / BPB + bmapstart}
    {
      if !bitmap[b] {
        return false;
      }
      bitmap := bitmap[b := false];
      logged := logged + {b / BPB + bmapstart};
      return true;
    }

    // One address of the inode or of its indirect block, allocated when it is zero.
    method MapAddr(i: nat, k: nat) returns (ok: bool, addr: nat)
      requires Shaped(S()) && ValidSlot(S(), i, k) && (k > NDIRECT ==> inodes[i].addrs[NDIRECT] != 0)
      modifies this`bitmap, this`data, this`logged, this`inodes
      ensures ok == MapSlot(old(S()), i, k).Done?
      ensures ok ==> S() == MapSlot(old(S()), i, k).s && addr == MapSlot(old(S()), i, k).addr
    {
      ghost var s := S();
      ok := true;
      if k <= NDIRECT {
        addr := inodes[i].addrs[k];
        if addr == 0 {
          ok, addr := Balloc();
          if ok {
            inodes := inodes[i := inodes[i].(addrs := inodes[i].addrs[k := addr])];
          }
        }
      } else {
        var ind := inodes[i].addrs[NDIRECT];
        addr := GetWord(data[ind], k - NDIRECT - 1);
        if addr == 0 {
          ok, addr := Balloc();
          if ok {
            data := data[ind := PutWord(data[ind], k - NDIRECT - 1, addr)];
            logged := logged + {ind};
          }
        }
      }
    }

    // bmap: direct blocks first, then the entries of the indirect block.
    method MapBlock(i: nat, bn: nat) returns (ok: bool, addr: nat)
      requires Shaped(S()) && i < |inodes| && bn < MAXFILE
      modifies this`bitmap, this`data, this`logged, this`inodes
      ensures ok == Bmap(old(S()), i, bn).Done?
      ensures ok ==> S() == Bmap(old(S()), i, bn).s && addr == Bmap(old(S()), i, bn).addr
    {
      if bn < NDIRECT {
        ok, addr := MapAddr(i, bn);
      } else {
        ok, addr := MapAddr(i, NDIRECT);
        if ok {
          if inodes[i].addrs[NDIRECT] == 0 {
            ok := false;
          } else {
            ok, addr := MapAddr(i, bn + 1);
          }
        }
      }
    }

    // One round of writei.
    method WriteBlock(i: nat, bn: nat, pos: nat, bytes: seq<Byte>) returns (ok: bool)
      requires Shaped(S()) && i < |inodes| && bn < MAXFILE && pos + |bytes| <= BSIZE
      modifies this`bitmap, this`data, this`logged, this`inodes
      ensures ok == Round(old(S()), i, bn, pos, bytes).Done?
      ensures ok ==> S() == Round(old(S()), i, bn, pos, bytes).s
    {
      var c;
      ok, c := MapBlock(i, bn);
      if ok {
        if c >= |data| {
          ok := false;
        } else {
          data := data[c := Overwrite(data[c], pos, bytes)];
          logged := logged + {c};
        }
      }
    }

    // iupdate.
    method Update(i: nat)
      requires i < |inodes| == |dinodes|
      modifies this`dinodes, this`logged
      ensures S() == Iupdate(old(S()), i)
      ensures dinodes == old(dinodes)[i := inodes[i]] && logged == old(logged) + {i / IPB + inodestart}
    {
      dinodes := dinodes[i := inodes[i]];
      logged := logged + {i / IPB + inodestart};
    }

    // The loop of writei. False is a panic inside.
    method WriteBytes(i: nat, off: nat, src: seq<Byte>) returns (ok: bool)
      requires Shaped(S()) && i < |inodes| && off + |src| <= MAXFILE * BSIZE
      modifies this`bitmap, this`data, this`logged, this`inodes
      ensures ok == WriteLoop(old(S()), i, off / BSIZE, off % BSIZE, src).Done?
      ensures ok ==> S() == WriteLoop(old(S()), i, off / BSIZE, off % BSIZE, src).s
    {
      ghost var w := WriteLoop(S(), i, off / BSIZE, off % BSIZE, src);
      var tot, o := 0, off;
      assert src[0..] == src;
      while tot < |src|
        invariant 0 <= tot <= |src| && o == off + tot && WriteAt(w, S(), i, o, src, tot)
      {
        ghost var s := S();
        var bn, pos := o / BSIZE, o % BSIZE;
        var m := Min(|src| - tot, BSIZE - pos);
        var piece := src[tot..tot + m];
        ok := WriteBlock(i, bn, pos, piece);
        var o', tot' := o + m, tot + m;
        WriteAdvance(w, s, S(), i, o, o', bn, pos, src, tot, tot', m, piece, ok);
        if !ok {
          return false;
        }
        tot, o := tot', o';
      }
      ok := true;
    }

    // writei on a file that is not a device: a result of -1 is a rejected call, false a panic.
    method WriteInode(i: nat, off: nat, src: seq<Byte>) returns (ok: bool, n: int)
      requires Shaped(S()) && i < |inodes| && off < WORD && |src| < WORD
      modifies this`bitmap, this`data, this`logged, this`inodes, this`dinodes
      ensures ok == Writei(old(S()), i, off, src).Returned?
      ensures ok ==> S() == Writei(old(S()), i, off, src).s && n == Writei(old(S()), i, off, src).n
    {
      if off > inodes[i].size || Add32(off, |src|) < off {
        return true, -1;
      }
      if Add32(off, |src|) > MAXFILE * BSIZE {
        return true, -1;
      }
      ok := WriteBytes(i, off, src);
      if !ok {
        return false, -1;
      }
      if |src| > 0 && off + |src| > inodes[i].size {
        inodes := inodes[i := inodes[i].(size := off + |src|)];
        Update(i);
      }
      return true, |src|;
    }

    // readi on a file that is not a device. bmap may allocate for a hole, so this too can change
    // the state; ReadiSlices shows that between operations it does not.
    method ReadInode(i: nat, off: nat, n: nat) returns (ok: bool, len: int, bytes: seq<Byte>)
      requires Shaped(S()) && i < |inodes| && inodes[i].size <= MAXFILE * BSIZE && off < WORD && n < WORD
      modifies this`bitmap, this`data, this`logged, this`inodes
      ensures ok == Readi(old(S()), i, off, n).Returned?
      ensures ok ==> Readi(old(S()), i, off, n) == Returned(S(), len, bytes)
    {
      if off > inodes[i].size || Add32(off, n) < off {
        return true, -1, [];
      }
      len := n;
      if Add32(off, n) > inodes[i].size {
        len := inodes[i].size - off;
      }
      ok, bytes := ReadBytes(i, off, len);
    }

    // The loop of readi.
    method ReadBytes(i: nat, off: nat, n: nat) returns (ok: bool, bytes: seq<Byte>)
      requires Shaped(S()) && i < |inodes| && off + n <= MAXFILE * BSIZE
      modifies this`bitmap, this`data, this`logged, this`inodes
      ensures ok == ReadLoop(old(S()), i, off / BSIZE, off % BSIZE, n).Returned?
      ensures ok ==> ReadLoop(old(S()), i, off / BSIZE, off % BSIZE, n) == Returned(S(), 0, bytes)
    {
      ghost var r := ReadLoop(S(), i, off / BSIZE, off % BSIZE, n);
      var tot, o := 0, off;
      bytes := [];
      ReadStart(r);
      while tot < n
        invariant 0 <= tot <= n && o == off + tot && ReadAt(r, S(), i, o, n, tot, bytes)
      {
        ghost var s := S();
        var bn, pos := o / BSIZE, o % BSIZE;
        var m := Min(n - tot, BSIZE - pos);
        var piece;
        ok, piece := ReadBlock(i, bn, pos, m);
        var o', tot', bytes' := o + m, tot + m, bytes + piece;
        ReadAdvance(r, s, S(), i, o, o', bn, pos, n, tot, tot', m, bytes, piece, bytes', ok);
        if !ok {
          return false, [];
        }
        tot, o, bytes := tot', o', bytes';
      }
      ok := true;
    }

    // One round of readi.
    method ReadBlock(i: nat, bn: nat, pos: nat, m: nat) returns (ok: bool, piece: seq<Byte>)
      requires Shaped(S()) && i < |inodes| && bn < MAXFILE && pos + m <= BSIZE
      modifies this`bitmap, this`data, this`logged, this`inodes
      ensures ok == ReadRound(old(S()), i, bn, pos, m).Returned?
      ensures ok ==> ReadRound(old(S()), i, bn, pos, m) == Returned(S(), m, piece)
    {
      var c;
      piece := [];
      ok, c := MapBlock(i, bn);
      if ok {
        if c >= |data| {
          ok := false;
        } else {
          piece := data[c][pos..pos + m];
        }
      }
    }

    // The direct blocks of itrunc.
    method FreeDirect(i: nat) returns (ok: bool)
      requires Shaped(S()) && i < |inodes|
      modifies this`bitmap, this`logged, this`inodes
      ensures ok == TruncDirect(old(S()), i, 0).Done?
      ensures ok ==> S() == TruncDirect(old(S()), i, 0).s
    {
      ghost var w := TruncDirect(S(), i, 0);
      for k: nat := 0 to NDIRECT
        invariant Shaped(S()) && i < |inodes| && w == TruncDirect(S(), i, k)
      {
        var b := inodes[i].addrs[k];
        if b != 0 {
          if b < nmeta || b >= |bitmap| {
            return false;
          }
          ok := Bfree(b);
          if !ok {
            return false;
          }
          inodes := inodes[i := inodes[i].(addrs := inodes[i].addrs[k := 0])];
        }
      }
      ok := true;
    }

    // The blocks named in the indirect block ind.
    method FreeIndirect(ind: nat) returns (ok: bool)
      requires Shaped(S()) && ind < |data|
      modifies this`bitmap, this`logged
      ensures ok == FreeEntries(old(S()), ind, 0).Done?
      ensures ok ==> S() == FreeEntries(old(S()), ind, 0).s
    {
      ghost var w := FreeEntries(S(), ind, 0);
      for j: nat := 0 to NINDIRECT
        invariant Shaped(S()) && w == FreeEntries(S(), ind, j)
      {
        var b := GetWord(data[ind], j);
        if b != 0 {
          if b < nmeta || b >= |bitmap| {
            return false;
          }
          ok := Bfree(b);
          if !ok {
            return false;
          }
        }
      }
      ok := true;
    }

    // itrunc. False is the panic "freeing free block", which ItruncEffect rules out between operations.
    method Truncate(i: nat) returns (ok: bool)
      requires Shaped(S()) && i < |inodes|
      modifies this`bitmap, this`logged, this`inodes, this`dinodes
      ensures ok == Itrunc(old(S()), i).Done?
      ensures ok ==> S() == Itrunc(old(S()), i).s
    {
      ok := FreeDirect(i);
      if !ok {
        return false;
      }
      var ind := inodes[i].addrs[NDIRECT];
      if ind != 0 {
        ok := FreeIndirect(ind);
        if !ok || ind < nmeta {
          return false;
        }
        ok := Bfree(ind);
        if !ok {
          return false;
        }
        inodes := inodes[i := inodes[i].(addrs := inodes[i].addrs[NDIRECT := 0])];
      }
      inodes := inodes[i := inodes[i].(size := 0)];
      Update(i);
      ok := true;
    }

    // One transaction of filewrite: begin_op, writei, end_op.
    method WriteChunk(i: nat, off: nat, piece: seq<Byte>) returns (ok: bool, n: int)
      requires Shaped(S()) && i < |inodes| && off < WORD && |piece| < WORD
      modifies this`bitmap, this`data, this`logged, this`inodes, this`dinodes
      ensures Shaped(old(S()).(logged := {})) && ok == Writei(old(S()).(logged := {}), i, off, piece).Returned?
      ensures ok ==> S() == Writei(old(S()).(logged := {}), i, off, piece).s
      ensures ok ==> n == Writei(old(S()).(logged := {}), i, off, piece).n
    {
      logged := {};
      ok, n := WriteInode(i, off, piece);
    }

    // The loop of filewrite on an inode: begin_op, writei and end_op for each chunk. off is f->off;
    // the result is n or -1, and false stands for a panic.
    method WriteFile(i: nat, off: nat, src: seq<Byte>) returns (ok: bool, newOff: nat, n: int)
      requires Shaped(S()) && i < |inodes| && off + |src| < WORD
      modifies this`bitmap, this`data, this`logged, this`inodes, this`dinodes
      ensures ok == FileLoop(old(S()), i, off, src).Out?
      ensures ok ==> var r := FileLoop(old(S()), i, off, src);
                     S() == r.s && newOff == off + r.written && n == if r.complete then |src| else -1
    {
      hide Shaped;
      ghost var w := FileLoop(S(), i, off, src);
      var k := 0;
      newOff := off;
      assert src[0..] == src;
      while k < |src|
        invariant 0 <= k <= |src| && newOff == off + k && FileAt(w, S(), i, newOff, src, k)
      {
        ghost var s := S();
        var m := Min(|src| - k, MAXCHUNK);
        var piece := src[k..k + m];
        var r;
        ok, r := WriteChunk(i, newOff, piece);
        var next, o := k + m, newOff + m;
        FileAdvance(w, s, S(), i, newOff, o, src, k, next, m, piece, ok, r);
        if !ok {
          return false, 0, -1;
        }
        if r < 0 {
          return true, newOff, -1;
        }
        newOff := o;
        k := next;
      }
      return true, newOff, |src|;
    }
  }


  // The write that is to end in w has tot bytes of src in place and goes on at offset o.
  ghost predicate WriteAt(w: Outcome, s: State, i: nat, o: nat, src: seq<Byte>, tot: nat) {
    && tot <= |src| && Shaped(s) && i < |s.inodes| && o + |src| - tot <= MAXFILE * BSIZE
    && if tot == |src| then w.Done? && w.s == s else w == WriteLoop(s, i, o / BSIZE, o % BSIZE, src[tot..])
  }

  lemma NextBlock(o: nat, m: nat)
    requires o % BSIZE + m == BSIZE
    ensures (o + m) / BSIZE == o / BSIZE + 1 && (o + m) % BSIZE == 0
  {
  }

  lemma WriteAdvance(w: Outcome, s: State, v: State, i: nat, o: nat, o': nat, bn: nat, pos: nat, src: seq<Byte>,
          tot: nat, tot': nat,
                     m: nat, piece: seq<Byte>, ok: bool)
    requires WriteAt(w, s, i, o, src, tot) && tot < |src| && bn == o / BSIZE && pos == o % BSIZE
    requires m == Min(|src| - tot, BSIZE - pos) && o' == o + m && tot' == tot + m && piece == src[tot..tot']
    requires ok == Round(s, i, bn, pos, piece).Done? && (ok ==> v == Round(s, i, bn, pos, piece).s)
    ensures if ok then WriteAt(w, v, i, o', src, tot') else w == Panic
  {
    hide Shaped, Round;
    var rest := src[tot..];
    assert rest[..m] == piece && rest[m..] == src[tot + m..];
    var r := Round(s, i, bn, pos, rest[..m]);
    if r.Done? {
      LoopUnroll(s, i, bn, pos, rest, m, r.s, r.addr);
      if tot + m < |src| { NextBlock(o, m); }
    }
  }

  // The read that is to end in r has the first tot bytes and goes on at offset o.
  ghost predicate ReadAt(r: IoResult, s: State, i: nat, o: nat, n: nat, tot: nat, bytes: seq<Byte>) {
    && tot <= n && Shaped(s) && i < |s.inodes| && o + n - tot <= MAXFILE * BSIZE
    && if tot == n then r == Returned(s, 0, bytes) else Prepends(bytes, ReadLoop(s, i, o / BSIZE, o % BSIZE, n - tot),
       r)
  }

  lemma ReadStart(r: IoResult)
    ensures r.Returned? ==> [] + r.bytes == r.bytes
  {
  }

  lemma ReadAdvance(r: IoResult, s: State, v: State, i: nat, o: nat, o': nat, bn: nat, pos: nat, n: nat, tot: nat,
          tot': nat, m: nat,
                    bytes: seq<Byte>, piece: seq<Byte>, bytes': seq<Byte>, ok: bool)
    requires ReadAt(r, s, i, o, n, tot, bytes) && tot < n && bn == o / BSIZE && pos == o % BSIZE
    requires m == Min(n - tot, BSIZE - pos)
    requires o' == o + m && tot' == tot + m && bytes' == bytes + piece
    requires ok == ReadRound(s, i, bn, pos, m).Returned?
    requires ok ==> ReadRound(s, i, bn, pos, m) == Returned(v, m, piece)
    ensures if ok then ReadAt(r, v, i, o', n, tot', bytes') else r == Panicked
  {
    hide Shaped, ReadRound;
    if ok {
      ReadUnroll(s, i, bn, pos, n - tot, m, v, piece, bytes, r);
      if tot' < n { NextBlock(o, m); }
    }
  }

  // r is the read `rest` with `bytes` in front.
  predicate Prepends(bytes: seq<Byte>, rest: IoResult, r: IoResult) {
    match rest
    case Panicked => r == Panicked
    case Returned(u, _, tail) => r == Returned(u, 0, bytes + tail)
  }

  lemma ReadUnroll(s: State, i: nat, bn: nat, pos: nat, n: nat, m: nat, t: State, piece: seq<Byte>, bytes: seq<Byte>,
          r: IoResult)
    requires Shaped(s) && i < |s.inodes| && pos < BSIZE && bn * BSIZE + pos + n <= MAXFILE * BSIZE
    requires n > 0 && m == Min(n, BSIZE - pos) && ReadRound(s, i, bn, pos, m) == Returned(t, m, piece)
    requires Prepends(bytes, ReadLoop(s, i, bn, pos, n), r)
    ensures Shaped(t) && i < |t.inodes|
    ensures n > m ==> Prepends(bytes + piece, ReadLoop(t, i, bn + 1, 0, n - m), r)
    ensures n == m ==> r == Returned(t, 0, bytes + piece)
  {
    var rest := ReadLoop(t, i, bn + 1, 0, n - m);
    if rest.Returned? {
      assert bytes + (piece + rest.bytes) == bytes + piece + rest.bytes;
      if n == m { assert bytes + piece + [] == bytes + piece; }
    }
  }

  // The write that is to end in w has its first k bytes in the file and goes on at offset o.
  ghost predicate FileAt(w: FileOut, s: State, i: nat, o: nat, src: seq<Byte>, k: nat) {
    && k <= |src| && Shaped(s) && i < |s.inodes| && o + |src| - k < WORD
    && w == After(k, FileLoop(s, i, o, src[k..]))
  }

  lemma FileAdvance(w: FileOut, s: State, v: State, i: nat, o: nat, o': nat, src: seq<Byte>, k: nat, k': nat, m: nat,
                    piece: seq<Byte>, ok: bool, r: int)
    requires FileAt(w, s, i, o, src, k) && k < |src| && m == Min(|src| - k, MAXCHUNK)
    requires k' == k + m && o' == o + m && piece == src[k..k']
    requires ok == Writei(s.(logged := {}), i, o, piece).Returned?
    requires ok ==> v == Writei(s.(logged := {}), i, o, piece).s && r == Writei(s.(logged := {}), i, o, piece).n
    ensures !ok ==> w == Dead
    ensures ok && r < 0 ==> w == Out(v, k, false)
    ensures ok && r >= 0 ==> FileAt(w, v, i, o', src, k')
  {
    var rest := src[k..];
    assert rest[..m] == piece && rest[m..] == src[k'..];
    FileUnroll(s, i, o, o', rest, m, piece, src[k'..]);
  }

  lemma FileUnroll(s: State, i: nat, o: nat, o': nat, src: seq<Byte>, m: nat, a: seq<Byte>, b: seq<Byte>)
    requires Shaped(s) && i < |s.inodes| && o + |src| < WORD && src != [] && o' == o + m
    requires m == Min(|src|, MAXCHUNK) && a == src[..m] && b == src[m..]
    ensures var q, f := Writei(s.(logged := {}), i, o, a), FileLoop(s, i, o, src);
            if q.Panicked? then f == Dead
            else if q.n < 0 then f == Out(q.s, 0, false)
            else f == After(m, FileLoop(q.s, i, o', b))
  {
  }
}
