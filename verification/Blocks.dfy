// Disk blocks, 32-bit words inside a block, and sequences of block writes (fs.h, memide.c), with the
// limits of param.h that several modules share.

module Blocks {
  import opened Common

  const BSIZE := 512
  const WORDS_PER_BLOCK := 128
  const MAXOPBLOCKS := 10
  const LOGSIZE := 30 // MAXOPBLOCKS * 3
  const NBUF := 30    // MAXOPBLOCKS * 3

  type Byte = x: int | 0 <= x < 256
  type Block = b: seq<Byte> | |b| == BSIZE witness seq(BSIZE, _ => 0)
  type Disk = seq<Block>

  // One atomic block write. The laws of write sequences hold whatever a block holds.
  datatype Write<T> = Write(bno: nat, data: T)

  // The little-endian word number i of a block.
  function GetWord(b: Block, i: nat): (w: nat)
    requires i < WORDS_PER_BLOCK
    ensures w < WORD
  {
    var b0: int, b1: int, b2: int, b3: int := b[4 * i], b[4 * i + 1], b[4 * i + 2], b[4 * i + 3];
    b0 + 0x100 * b1 + 0x1_0000 * b2 + 0x100_0000 * b3
  }

  // Stores w as word number i.
  function PutWord(b: Block, i: nat, w: nat): (r: Block)
    requires i < WORDS_PER_BLOCK && w < WORD
  {
    b[4 * i := w % 0x100]
     [4 * i + 1 := w / 0x100 % 0x100]
     [4 * i + 2 := w / 0x1_0000 % 0x100]
     [4 * i + 3 := w / 0x100_0000]
  }

  // A stored word reads back, and every other word of the block is untouched.
  lemma WordRoundTrip(b: Block, i: nat, w: nat, j: nat)
    requires i < WORDS_PER_BLOCK && j < WORDS_PER_BLOCK && w < WORD
    ensures GetWord(PutWord(b, i, w), j) == if i == j then w else GetWord(b, j)
  {
    if i == j {
      Digits(w);
    }
  }

  lemma Digits(w: nat)
    requires w < WORD
    ensures w % 0x100 + 0x100 * (w / 0x100 % 0x100) + 0x1_0000 * (w / 0x1_0000 % 0x100)
            + 0x100_0000 * (w / 0x100_0000) == w
  {
    var q1 := w / 0x100;
    var q2 := w / 0x1_0000;
    var q3 := w / 0x100_0000;
    assert q2 == q1 / 0x100;
    assert q3 == q2 / 0x100;
  }

  predicate Fits<T>(ws: seq<Write<T>>, size: nat) {
    forall i :: 0 <= i < |ws| ==> ws[i].bno < size
  }

  // The disk after the writes ws reached it in order.
  function Apply<T>(d: seq<T>, ws: seq<Write<T>>): (r: seq<T>)
    requires Fits(ws, |d|)
    ensures |r| == |d|
  {
    if ws == [] then d
    else
      var last := ws[|ws| - 1];
      Apply(d, ws[..|ws| - 1])[last.bno := last.data]
  }

  lemma {:induction false} ApplyConcat<T>(d: seq<T>, a: seq<Write<T>>, b: seq<Write<T>>)
    requires Fits(a, |d|) && Fits(b, |d|)
    ensures Apply(d, a + b) == Apply(Apply(d, a), b)
    decreases |b|
  {
    if b == [] {
      assert a + b == a;
    } else {
      var n := |b| - 1;
      assert (a + b)[..|a + b| - 1] == a + b[..n];
      ApplyConcat(d, a, b[..n]);
    }
  }

  lemma {:induction false} ApplyLast<T>(d: seq<T>, ws: seq<Write<T>>, w: Write<T>)
    requires Fits(ws, |d|) && w.bno < |d|
    ensures Fits(ws + [w], |d|) && Apply(d, ws + [w]) == Apply(d, ws)[w.bno := w.data]
  {
    assert (ws + [w])[..|ws|] == ws;
  }

  // Blocks that no write names keep their contents.
  lemma {:induction false} ApplyFrame<T>(d: seq<T>, ws: seq<Write<T>>, b: nat)
    requires Fits(ws, |d|) && b < |d|
    requires forall i :: 0 <= i < |ws| ==> ws[i].bno != b
    ensures Apply(d, ws)[b] == d[b]
    decreases |ws|
  {
    if ws != [] {
      ApplyFrame(d, ws[..|ws| - 1], b);
    }
  }

  // What a block holds after a run of writes to pairwise different blocks.
  lemma {:induction false} ApplyDistinct<T>(d: seq<T>, ws: seq<Write<T>>, i: nat)
    requires Fits(ws, |d|) && i < |ws|
    requires forall j :: i < j < |ws| ==> ws[j].bno != ws[i].bno
    ensures Apply(d, ws)[ws[i].bno] == ws[i].data
    decreases |ws|
  {
    if i < |ws| - 1 {
      ApplyDistinct(d, ws[..|ws| - 1], i);
    }
  }
}
