// The kernel heap (vm/liballoc.c): page ranges ("majors") carved into allocated blocks ("minors"),
// kept in address order inside their major; a request takes the first gap that is large enough.
// Addresses and sizes are in bytes. Here the linked lists are sequences, in list order; LiballocDriver
// has the records and pointers that make them up.

module Liballoc {
  import opened Common
  import opened Regions

  const PAGE := 4096
  const MIN_PAGES := 16
  const HEADER := 24 // both headers: six 4-byte words
  const ALIGNMENT := 16
  const ALIGN_INFO := 16
  const MAGIC := 0xc001c0de
  const DEAD := 0xdeaddead

  // A minor: its header is at addr, followed by size bytes, of which req were asked for.
  datatype Minor = Minor(addr: nat, size: nat, req: nat) {
    function End(): (e: nat) { addr + HEADER + size }
  }

  datatype Major = Major(base: nat, pages: nat, usage: nat, minors: seq<Minor>) {
    function Size(): (n: nat) { pages * PAGE }

    function Low(): (x: nat) { base + HEADER }

    function High(): (x: nat) { base + Size() }
  }

  // ---------- the minors of one major, between lo and hi ----------

  // In address order, disjoint, and inside [lo, hi).
  predicate Packed(ms: seq<Minor>, lo: nat, hi: nat)
    decreases |ms|
  {
    if ms == [] then lo <= hi else lo <= ms[0].addr && Packed(ms[1..], ms[0].End(), hi)
  }

  // The bytes the minors take, headers included.
  function Used(ms: seq<Minor>): (n: nat) {
    if ms == [] then 0 else HEADER + ms[0].size + Used(ms[1..])
  }

  // Where a minor placed at position j starts: right after the one before it.
  function Start(ms: seq<Minor>, lo: nat, j: nat): (x: nat)
    requires j <= |ms|
  {
    if j == 0 then lo else ms[j - 1].End()
  }

  // The free bytes before position j.
  function Gap(ms: seq<Minor>, lo: nat, hi: nat, j: nat): (n: int)
    requires j <= |ms|
  {
    (if j < |ms| then ms[j].addr else hi) - Start(ms, lo, j)
  }

  // The first position with a gap of need bytes, or |ms| + 1.
  function FirstGap(ms: seq<Minor>, lo: nat, hi: nat, need: nat): (j: nat)
    decreases |ms|
  {
    if Gap(ms, lo, hi, 0) >= need then 0
    else if ms == [] then 1
    else 1 + FirstGap(ms[1..], ms[0].End(), hi, need)
  }

  lemma {:induction false} FirstGapIs(ms: seq<Minor>, lo: nat, hi: nat, need: nat)
    ensures var j := FirstGap(ms, lo, hi, need);
            && j <= |ms| + 1 && (j <= |ms| ==> Gap(ms, lo, hi, j) >= need)
            && (forall i :: 0 <= i < j ==> Gap(ms, lo, hi, i) < need)
    decreases |ms|
  {
    if Gap(ms, lo, hi, 0) < need && ms != [] {
      var t := ms[1..];
      FirstGapIs(t, ms[0].End(), hi, need);
      forall i | 0 <= i <= |t|
        ensures Gap(ms, lo, hi, i + 1) == Gap(t, ms[0].End(), hi, i)
      {
      }
      forall i | 0 <= i < FirstGap(ms, lo, hi, need)
        ensures Gap(ms, lo, hi, i) < need
      {
        if i > 0 { assert Gap(t, ms[0].End(), hi, i - 1) < need; }
      }
    }
  }

  lemma {:induction false} FirstGapUnique(ms: seq<Minor>, lo: nat, hi: nat, need: nat, j: nat)
    requires j <= |ms| && Gap(ms, lo, hi, j) >= need && forall i :: 0 <= i < j ==> Gap(ms, lo, hi, i) < need
    ensures FirstGap(ms, lo, hi, need) == j
  {
    FirstGapIs(ms, lo, hi, need);
  }

  // The gaps and the minors fill the space, so no gap is larger than the free space.
  lemma {:induction false} GapBound(ms: seq<Minor>, lo: nat, hi: nat, j: nat)
    requires Packed(ms, lo, hi) && j <= |ms|
    ensures 0 <= Gap(ms, lo, hi, j) <= hi - lo - Used(ms)
    decreases |ms|
  {
    if ms != [] {
      GapBound(ms[1..], ms[0].End(), hi, if j > 0 then j - 1 else 0);
    }
  }

  // ms with a minor of the given size at position j.
  function Place(ms: seq<Minor>, lo: nat, j: nat, size: nat, req: nat): (r: seq<Minor>)
    requires j <= |ms|
  {
    ms[..j] + [Minor(Start(ms, lo, j), size, req)] + ms[j..]
  }

  lemma {:induction false} PlaceKeeps(ms: seq<Minor>, lo: nat, hi: nat, j: nat, size: nat, req: nat)
    requires Packed(ms, lo, hi) && j <= |ms| && Gap(ms, lo, hi, j) >= size + HEADER
    ensures Packed(Place(ms, lo, j, size, req), lo, hi) && Used(Place(ms, lo, j, size, req)) == Used(ms) + HEADER + size
    decreases |ms|
  {
    var r := Place(ms, lo, j, size, req);
    if j == 0 {
      assert r[1..] == ms;
    } else {
      PlaceKeeps(ms[1..], ms[0].End(), hi, j - 1, size, req);
      assert r[1..] == Place(ms[1..], ms[0].End(), j - 1, size, req);
    }
  }

  function Cut(ms: seq<Minor>, j: nat): (r: seq<Minor>)
    requires j < |ms|
  {
    ms[..j] + ms[j + 1..]
  }

  lemma {:induction false} CutKeeps(ms: seq<Minor>, lo: nat, hi: nat, j: nat)
    requires Packed(ms, lo, hi) && j < |ms|
    ensures Packed(Cut(ms, j), lo, hi) && Used(Cut(ms, j)) == Used(ms) - HEADER - ms[j].size
    decreases |ms|
  {
    if j == 0 {
      assert Cut(ms, j) == ms[1..];
      Lower(ms[1..], ms[0].End(), lo, hi);
    } else {
      CutKeeps(ms[1..], ms[0].End(), hi, j - 1);
      assert Cut(ms, j)[1..] == Cut(ms[1..], j - 1);
    }
  }

  lemma Lower(ms: seq<Minor>, lo: nat, lower: nat, hi: nat)
    requires Packed(ms, lo, hi) && lower <= lo
    ensures Packed(ms, lower, hi)
  {
    if ms == [] {} else {}
  }

  // Address x lies in none of the minors.
  predicate Avoids(ms: seq<Minor>, x: nat) {
    ms == [] || ((x < ms[0].addr || ms[0].End() <= x) && Avoids(ms[1..], x))
  }

  lemma {:induction false} OutsideAvoids(ms: seq<Minor>, lo: nat, hi: nat, x: nat)
    requires Packed(ms, lo, hi) && (x < lo || hi <= x)
    ensures Avoids(ms, x)
    decreases |ms|
  {
    if ms != [] {
      GapBound(ms[1..], ms[0].End(), hi, 0);
      OutsideAvoids(ms[1..], ms[0].End(), hi, x);
    }
  }

  lemma {:induction false} GapAvoids(ms: seq<Minor>, lo: nat, hi: nat, j: nat, x: nat)
    requires Packed(ms, lo, hi) && j <= |ms| && Start(ms, lo, j) <= x < Start(ms, lo, j) + Gap(ms, lo, hi, j)
    ensures Avoids(ms, x)
    decreases |ms|
  {
    if ms != [] {
      if j == 0 {
        OutsideAvoids(ms[1..], ms[0].End(), hi, x);
      } else {
        GapAvoids(ms[1..], ms[0].End(), hi, j - 1, x);
        StartAbove(ms[1..], ms[0].End(), hi, j - 1);
      }
    }
  }

  lemma {:induction false} StartAbove(ms: seq<Minor>, lo: nat, hi: nat, j: nat)
    requires Packed(ms, lo, hi) && j <= |ms|
    ensures lo <= Start(ms, lo, j) <= hi
    decreases |ms|
  {
    if j > 0 {
      StartAbove(ms[1..], ms[0].End(), hi, j - 1);
    } else {
      GapBound(ms, lo, hi, 0);
    }
  }

  // ---------- the pointer handed out for a minor ----------

  // ALIGN applied to the first byte after the header at address a.
  function Ptr(a: nat): (p: nat) {
    var d := a + HEADER + ALIGN_INFO;
    if d % ALIGNMENT == 0 then d else d + ALIGNMENT - d % ALIGNMENT
  }

  // The pointer is aligned; it and req bytes after it lie inside the minor, and so does the byte that
  // UNALIGN reads, which the user's bytes do not reach. The offset stored there always passes the test
  // of UNALIGN and fits a char.
  lemma PtrInside(m: Minor)
    requires m.size == m.req + ALIGNMENT + ALIGN_INFO
    ensures Ptr(m.addr) % ALIGNMENT == 0
    ensures m.addr + HEADER <= Ptr(m.addr) - ALIGN_INFO < Ptr(m.addr) && Ptr(m.addr) + m.req < m.End()
    ensures ALIGN_INFO <= Ptr(m.addr) - (m.addr + HEADER) < ALIGNMENT + ALIGN_INFO
  {
  }

  // ---------- memory: the offset bytes and the header words, by address ----------

  datatype Hdr = Hdr(magic: nat, block: nat)

  datatype Mem = Mem(align: map<nat, nat>, hdr: map<nat, Hdr>)

  // The words of a live minor of the major at `block`.
  predicate Tagged(mem: Mem, m: Minor, block: nat) {
    && m.size == m.req + ALIGNMENT + ALIGN_INFO && m.addr in mem.hdr && mem.hdr[m.addr] == Hdr(MAGIC, block)
    && Ptr(m.addr) - ALIGN_INFO in mem.align && mem.align[Ptr(m.addr) - ALIGN_INFO] == Ptr(m.addr) - m.addr - HEADER
  }

  predicate AllTagged(mem: Mem, ms: seq<Minor>, block: nat) {
    ms == [] || (Tagged(mem, ms[0], block) && AllTagged(mem, ms[1..], block))
  }

  // What malloc writes for a new minor at address a.
  function Tag(mem: Mem, a: nat, block: nat): (r: Mem) {
    Mem(mem.align[Ptr(a) - ALIGN_INFO := Ptr(a) - a - HEADER], mem.hdr[a := Hdr(MAGIC, block)])
  }

  lemma {:induction false} TagFrame(mem: Mem, ms: seq<Minor>, block: nat, a: nat, b: nat)
    requires AllTagged(mem, ms, block) && Avoids(ms, a) && Avoids(ms, Ptr(a) - ALIGN_INFO)
    ensures AllTagged(Tag(mem, a, b), ms, block)
  {
    if ms != [] {
      PtrInside(ms[0]);
      TagFrame(mem, ms[1..], block, a, b);
    }
  }

  function Kill(mem: Mem, a: nat): (r: Mem)
    requires a in mem.hdr
  {
    mem.(hdr := mem.hdr[a := mem.hdr[a].(magic := DEAD)])
  }

  lemma {:induction false} KillFrame(mem: Mem, ms: seq<Minor>, block: nat, a: nat)
    requires AllTagged(mem, ms, block) && Avoids(ms, a) && a in mem.hdr
    ensures AllTagged(Kill(mem, a), ms, block)
  {
    if ms != [] { KillFrame(mem, ms[1..], block, a); }
  }

  // The memory of a released major is unmapped.
  function Unmap(mem: Mem, lo: nat, hi: nat): (r: Mem) {
    Mem(
      map x | x in mem.align && !(lo <= x < hi) :: mem.align[x],
      map x | x in mem.hdr && !(lo <= x < hi) :: mem.hdr[x])
  }

  // Two memories that differ at most inside y.
  ghost predicate AgreeOff(mem: Mem, r: Mem, y: Region) {
    && (forall x :: x < y.addr || y.End() <= x ==> (x in mem.align <==> x in r.align) && (x in mem.hdr <==> x in r.hdr))
    && (forall x :: (x < y.addr || y.End() <= x) && x in mem.align && x in r.align ==> mem.align[x] == r.align[x])
    && (forall x :: (x < y.addr || y.End() <= x) && x in mem.hdr && x in r.hdr ==> mem.hdr[x] == r.hdr[x])
  }

  lemma {:induction false} AgreeTagged(mem: Mem, r: Mem, ms: seq<Minor>, block: nat, lo: nat, hi: nat, y: Region)
    requires AllTagged(mem, ms, block) && Packed(ms, lo, hi) && AgreeOff(mem, r, y) && (hi <= y.addr || y.End() <= lo)
    ensures AllTagged(r, ms, block)
    decreases |ms|
  {
    if ms != [] {
      PtrInside(ms[0]);
      GapBound(ms[1..], ms[0].End(), hi, 0);
      AgreeTagged(mem, r, ms[1..], block, ms[0].End(), hi, y);
    }
  }

  lemma {:induction false} PlaceTagged(mem: Mem, ms: seq<Minor>, lo: nat, j: nat, req: nat, block: nat)
    requires j <= |ms| && AllTagged(mem, ms, block)
    requires var a := Start(ms, lo, j); mem.align == Tag(mem, a, block).align && mem.hdr == Tag(mem, a, block).hdr
    ensures AllTagged(mem, Place(ms, lo, j, req + ALIGNMENT + ALIGN_INFO, req), block)
    decreases |ms|
  {
    var a, size := Start(ms, lo, j), req + ALIGNMENT + ALIGN_INFO;
    var r := Place(ms, lo, j, size, req);
    assert mem.hdr[a] == Tag(mem, a, block).hdr[a];
    assert mem.align[Ptr(a) - ALIGN_INFO] == Tag(mem, a, block).align[Ptr(a) - ALIGN_INFO];
    if j == 0 {
      assert r[1..] == ms;
    } else {
      PlaceTagged(mem, ms[1..], ms[0].End(), j - 1, req, block);
      assert r[1..] == Place(ms[1..], ms[0].End(), j - 1, size, req);
    }
  }

  lemma {:induction false} CutTagged(mem: Mem, ms: seq<Minor>, j: nat, block: nat)
    requires j < |ms| && AllTagged(mem, ms, block)
    ensures AllTagged(mem, Cut(ms, j), block)
  {
    if j == 0 {
      assert Cut(ms, j) == ms[1..];
    } else {
      CutTagged(mem, ms[1..], j - 1, block);
      assert Cut(ms, j)[1..] == Cut(ms[1..], j - 1);
    }
  }

  // A removed minor's header is in none of the others.
  lemma {:induction false} CutAvoids(ms: seq<Minor>, lo: nat, hi: nat, j: nat, x: nat)
    requires Packed(ms, lo, hi) && j < |ms| && ms[j].addr <= x < ms[j].End()
    ensures Avoids(Cut(ms, j), x)
    decreases |ms|
  {
    if j == 0 {
      assert Cut(ms, j) == ms[1..];
      OutsideAvoids(ms[1..], ms[0].End(), hi, x);
    } else {
      CutAvoids(ms[1..], ms[0].End(), hi, j - 1, x);
      InBounds(ms[1..], ms[0].End(), hi, j - 1);
      assert Cut(ms, j)[1..] == Cut(ms[1..], j - 1);
    }
  }

  lemma {:induction false} InBounds(ms: seq<Minor>, lo: nat, hi: nat, j: nat)
    requires Packed(ms, lo, hi) && j < |ms|
    ensures lo <= ms[j].addr && ms[j].End() <= hi
    decreases |ms|
  {
    if j > 0 {
      InBounds(ms[1..], ms[0].End(), hi, j - 1);
    } else {
      GapBound(ms[1..], ms[0].End(), hi, 0);
    }
  }

  // ---------- which addresses are headers of live minors ----------

  predicate Holds(ms: seq<Minor>, a: nat) {
    ms != [] && (ms[0].addr == a || Holds(ms[1..], a))
  }

  function FindMinor(ms: seq<Minor>, a: nat): (j: nat)
    requires Holds(ms, a)
    ensures j < |ms| && ms[j].addr == a
  {
    if ms[0].addr == a then 0 else 1 + FindMinor(ms[1..], a)
  }

  lemma {:induction false} PlaceHolds(ms: seq<Minor>, lo: nat, j: nat, size: nat, req: nat, a: nat)
    requires j <= |ms| && (Holds(ms, a) || a == Start(ms, lo, j))
    ensures Holds(Place(ms, lo, j, size, req), a)
    decreases |ms|
  {
    var r := Place(ms, lo, j, size, req);
    if j == 0 {
      assert r[1..] == ms;
    } else {
      assert r[1..] == Place(ms[1..], ms[0].End(), j - 1, size, req);
      if ms[0].addr != a {
        PlaceHolds(ms[1..], ms[0].End(), j - 1, size, req, a);
      }
    }
  }

  lemma {:induction false} CutHolds(ms: seq<Minor>, j: nat, a: nat)
    requires j < |ms| && Holds(ms, a) && a != ms[j].addr
    ensures Holds(Cut(ms, j), a)
  {
    if j == 0 {
      assert Cut(ms, j) == ms[1..];
    } else {
      assert Cut(ms, j)[1..] == Cut(ms[1..], j - 1);
      if ms[0].addr != a { CutHolds(ms[1..], j - 1, a); }
    }
  }

  // ---------- the list of majors ----------

  function Span(m: Major): (y: Region) { Region(m.base, m.Size()) }

  function Spans(majors: seq<Major>): (r: seq<Region>)
    ensures |r| == |majors|
  {
    if majors == [] then [] else [Span(majors[0])] + Spans(majors[1..])
  }

  predicate Good(mem: Mem, m: Major) {
    && m.base > 0 && m.pages >= 1
    && Packed(m.minors, m.Low(), m.High()) && m.usage == HEADER + Used(m.minors) && AllTagged(mem, m.minors, m.base)
  }

  predicate AllGood(mem: Mem, majors: seq<Major>) {
    majors == [] || (Good(mem, majors[0]) && AllGood(mem, majors[1..]))
  }

  lemma {:induction false} GoodAt(mem: Mem, majors: seq<Major>, i: nat)
    requires AllGood(mem, majors) && i < |majors|
    ensures Good(mem, majors[i]) && Spans(majors)[i] == Span(majors[i])
  {
    if i > 0 { GoodAt(mem, majors[1..], i - 1); }
  }

  lemma {:induction false} AgreeGood(mem: Mem, r: Mem, majors: seq<Major>, y: Region)
    requires AllGood(mem, majors) && ApartFrom(Spans(majors), y) && AgreeOff(mem, r, y)
    ensures AllGood(r, majors)
  {
    if majors != [] {
      var m := majors[0];
      assert Spans(majors)[1..] == Spans(majors[1..]);
      AgreeTagged(mem, r, m.minors, m.base, m.Low(), m.High(), y);
      AgreeGood(mem, r, majors[1..], y);
    }
  }

  // One major changes inside; the others do not notice.
  lemma {:induction false} UpdateGood(mem: Mem, r: Mem, majors: seq<Major>, i: nat, m: Major)
    requires AllGood(mem, majors) && Scattered(Spans(majors)) && i < |majors|
    requires Good(r, m) && m.base == majors[i].base && m.pages == majors[i].pages && AgreeOff(mem, r, Span(m))
    ensures AllGood(r, majors[i := m]) && Spans(majors[i := m]) == Spans(majors)
  {
    var t := majors[1..];
    assert Spans(majors)[1..] == Spans(t);
    if i == 0 {
      assert majors[i := m][1..] == t;
      AgreeGood(mem, r, t, Span(m));
    } else {
      assert majors[i := m][1..] == t[i - 1 := m];
      UpdateGood(mem, r, t, i - 1, m);
      GoodAt(mem, majors, i);
      ApartAt(Spans(t), Span(majors[0]), i - 1);
      var x := majors[0];
      AgreeTagged(mem, r, x.minors, x.base, x.Low(), x.High(), Span(m));
    }
  }

  function Without(majors: seq<Major>, i: nat): (r: seq<Major>)
    requires i < |majors|
  {
    majors[..i] + majors[i + 1..]
  }

  lemma {:induction false} WithoutGood(mem: Mem, r: Mem, majors: seq<Major>, i: nat)
    requires AllGood(mem, majors) && Scattered(Spans(majors)) && i < |majors| && AgreeOff(mem, r, Span(majors[i]))
    ensures AllGood(r, Without(majors, i)) && Spans(Without(majors, i)) == Remove(Spans(majors), i)
  {
    hide AgreeOff, AllTagged, Packed;
    var t := majors[1..];
    assert Spans(majors)[1..] == Spans(t);
    if i == 0 {
      assert Without(majors, i) == t;
      AgreeGood(mem, r, t, Span(majors[0]));
    } else {
      var w := Without(majors, i);
      assert w[1..] == Without(t, i - 1);
      WithoutGood(mem, r, t, i - 1);
      GoodAt(mem, majors, i);
      ApartAt(Spans(t), Span(majors[0]), i - 1);
      var x := majors[0];
      AgreeTagged(mem, r, x.minors, x.base, x.Low(), x.High(), Span(majors[i]));
    }
  }

  lemma {:induction false} AppendGood(mem: Mem, majors: seq<Major>, m: Major)
    requires AllGood(mem, majors) && Scattered(Spans(majors)) && Good(mem, m) && ApartFrom(Spans(majors), Span(m))
    ensures AllGood(mem, majors + [m]) && Scattered(Spans(majors + [m]))
    ensures Spans(majors + [m]) == Spans(majors) + [Span(m)]
  {
    if majors == [] {
      assert majors + [m] == [m];
    } else {
      var t := majors[1..];
      assert Spans(majors)[1..] == Spans(t) && (majors + [m])[1..] == t + [m];
      AppendGood(mem, t, m);
      ApartAppend(Spans(t), Span(m), Span(majors[0]));
      assert Spans(majors + [m])[1..] == Spans(t) + [Span(m)];
    }
  }

  lemma {:induction false} ApartAppend(rs: seq<Region>, x: Region, y: Region)
    requires ApartFrom(rs, y) && Apart(x, y)
    ensures ApartFrom(rs + [x], y)
  {
    if rs == [] {
      assert rs + [x] == [x];
    } else {
      assert (rs + [x])[1..] == rs[1..] + [x];
      ApartAppend(rs[1..], x, y);
    }
  }

  // a is the header of a minor of the major at block.
  predicate LiveAt(majors: seq<Major>, block: nat, a: nat) {
    majors != [] && ((majors[0].base == block && Holds(majors[0].minors, a)) || LiveAt(majors[1..], block, a))
  }

  lemma {:induction false} LiveUpdate(majors: seq<Major>, i: nat, m: Major, block: nat, a: nat)
    requires i < |majors| && m.base == majors[i].base && LiveAt(majors, block, a)
    requires block == m.base && Holds(majors[i].minors, a) ==> Holds(m.minors, a)
    ensures LiveAt(majors[i := m], block, a)
  {
    if i == 0 {
      assert majors[i := m][1..] == majors[1..];
    } else {
      assert majors[i := m][1..] == majors[1..][i - 1 := m];
      if !(majors[0].base == block && Holds(majors[0].minors, a)) {
        LiveUpdate(majors[1..], i - 1, m, block, a);
      }
    }
  }

  lemma {:induction false} LiveHere(majors: seq<Major>, i: nat, a: nat)
    requires i < |majors| && Holds(majors[i].minors, a)
    ensures LiveAt(majors, majors[i].base, a)
  {
    if i > 0 { LiveHere(majors[1..], i - 1, a); }
  }

  lemma {:induction false} LiveAppend(majors: seq<Major>, m: Major, block: nat, a: nat)
    requires LiveAt(majors, block, a)
    ensures LiveAt(majors + [m], block, a)
  {
    assert (majors + [m])[1..] == majors[1..] + [m];
    if !(majors[0].base == block && Holds(majors[0].minors, a)) {
      LiveAppend(majors[1..], m, block, a);
    }
  }

  lemma {:induction false} LiveWithout(majors: seq<Major>, i: nat, block: nat, a: nat)
    requires i < |majors| && LiveAt(majors, block, a) && !(majors[i].base == block && Holds(majors[i].minors, a))
    ensures LiveAt(Without(majors, i), block, a)
  {
    if i == 0 {
      assert Without(majors, i) == majors[1..];
    } else {
      assert Without(majors, i)[1..] == Without(majors[1..], i - 1);
      if !(majors[0].base == block && Holds(majors[0].minors, a)) {
        LiveWithout(majors[1..], i - 1, block, a);
      }
    }
  }

  // The position of the major at address base, or |majors|.
  function Find(majors: seq<Major>, base: nat): (i: nat)
    ensures i <= |majors| && (i < |majors| ==> majors[i].base == base)
  {
    if majors == [] || majors[0].base == base then 0 else 1 + Find(majors[1..], base)
  }

  lemma {:induction false} FindHere(majors: seq<Major>, i: nat)
    requires i < |majors|
    ensures Find(majors, majors[i].base) <= i
  {
    if i > 0 { FindHere(majors[1..], i - 1); }
  }

  lemma {:induction false} FindUnique(mem: Mem, majors: seq<Major>, i: nat)
    requires AllGood(mem, majors) && Scattered(Spans(majors)) && i < |majors|
    ensures Find(majors, majors[i].base) == i
  {
    if i > 0 {
      assert Spans(majors)[1..] == Spans(majors[1..]);
      GoodAt(mem, majors, i);
      ApartAt(Spans(majors[1..]), Span(majors[0]), i - 1);
      FindUnique(mem, majors[1..], i - 1);
    }
  }

  lemma {:induction false} LiveFound(mem: Mem, majors: seq<Major>, block: nat, a: nat)
    requires LiveAt(majors, block, a) && AllGood(mem, majors) && Scattered(Spans(majors))
    ensures Find(majors, block) < |majors| && Holds(majors[Find(majors, block)].minors, a)
  {
    if majors[0].base != block {
      assert Spans(majors)[1..] == Spans(majors[1..]);
      LiveFound(mem, majors[1..], block, a);
    } else if !Holds(majors[0].minors, a) {
      assert Spans(majors)[1..] == Spans(majors[1..]);
      LiveFound(mem, majors[1..], block, a);
      var i := Find(majors[1..], block);
      GoodAt(mem, majors[1..], i);
      ApartAt(Spans(majors[1..]), Span(majors[0]), i);
      assert false;
    }
  }

  // ---------- the running totals ----------

  function Sizes(ms: seq<Minor>): (n: nat) {
    if ms == [] then 0 else ms[0].size + Sizes(ms[1..])
  }

  function InUse(majors: seq<Major>): (n: nat) {
    if majors == [] then 0 else Sizes(majors[0].minors) + InUse(majors[1..])
  }

  function Allocated(majors: seq<Major>): (n: nat) {
    if majors == [] then 0 else majors[0].Size() + Allocated(majors[1..])
  }

  lemma {:induction false} PlaceSizes(ms: seq<Minor>, lo: nat, j: nat, size: nat, req: nat)
    requires j <= |ms|
    ensures Sizes(Place(ms, lo, j, size, req)) == Sizes(ms) + size
    decreases |ms|
  {
    var r := Place(ms, lo, j, size, req);
    if j == 0 {
      assert r[1..] == ms;
    } else {
      assert r[1..] == Place(ms[1..], ms[0].End(), j - 1, size, req);
      PlaceSizes(ms[1..], ms[0].End(), j - 1, size, req);
    }
  }

  lemma {:induction false} CutSizes(ms: seq<Minor>, j: nat)
    requires j < |ms|
    ensures Sizes(Cut(ms, j)) == Sizes(ms) - ms[j].size
  {
    if j == 0 {
      assert Cut(ms, j) == ms[1..];
    } else {
      assert Cut(ms, j)[1..] == Cut(ms[1..], j - 1);
      CutSizes(ms[1..], j - 1);
    }
  }

  lemma {:induction false} UpdateTotals(majors: seq<Major>, i: nat, m: Major)
    requires i < |majors|
    ensures InUse(majors[i := m]) == InUse(majors) - Sizes(majors[i].minors) + Sizes(m.minors)
    ensures Allocated(majors[i := m]) == Allocated(majors) - majors[i].Size() + m.Size()
  {
    if i == 0 {
      assert majors[i := m][1..] == majors[1..];
    } else {
      assert majors[i := m][1..] == majors[1..][i - 1 := m];
      UpdateTotals(majors[1..], i - 1, m);
    }
  }

  lemma {:induction false} AppendTotals(majors: seq<Major>, m: Major)
    ensures InUse(majors + [m]) == InUse(majors) + Sizes(m.minors)
    ensures Allocated(majors + [m]) == Allocated(majors) + m.Size()
  {
    if majors == [] {
      assert majors + [m] == [m];
    } else {
      assert (majors + [m])[1..] == majors[1..] + [m];
      AppendTotals(majors[1..], m);
    }
  }

  lemma {:induction false} WithoutTotals(majors: seq<Major>, i: nat)
    requires i < |majors|
    ensures InUse(Without(majors, i)) == InUse(majors) - Sizes(majors[i].minors)
    ensures Allocated(Without(majors, i)) == Allocated(majors) - majors[i].Size()
  {
    if i == 0 {
      assert Without(majors, i) == majors[1..];
    } else {
      assert Without(majors, i)[1..] == Without(majors[1..], i - 1);
      WithoutTotals(majors[1..], i - 1);
    }
  }

  // ---------- the heap ----------

  datatype Heap = Heap(majors: seq<Major>, best: nat, inuse: int, total: int, mem: Mem)

  // The words marked MAGIC are exactly those of live minors.
  ghost predicate OnlyLive(mem: Mem, majors: seq<Major>) {
    forall a :: a in mem.hdr && mem.hdr[a].magic == MAGIC ==> LiveAt(majors, mem.hdr[a].block, a)
  }

  // Minors lie in order, disjoint, inside their majors, with the words UNALIGN and free will read; usage
  // and the two totals are true sums; l_bestBet is null or a live major.
  ghost predicate Inv(h: Heap) {
    && AllGood(h.mem, h.majors) && Scattered(Spans(h.majors)) && OnlyLive(h.mem, h.majors)
    && h.inuse == InUse(h.majors) && h.total == Allocated(h.majors)
    && (h.best == 0 || Find(h.majors, h.best) < |h.majors|)
  }

  predicate NoneEmpty(majors: seq<Major>) {
    majors == [] || (majors[0].minors != [] && NoneEmpty(majors[1..]))
  }

  predicate Fits(m: Major, need: nat) { FirstGap(m.minors, m.Low(), m.High(), need) <= |m.minors| }

  // The major with one more minor, in its first gap that is large enough.
  function Filled(m: Major, size: nat, req: nat): (r: Major)
    requires Fits(m, size + HEADER)
  {
    var j := FirstGap(m.minors, m.Low(), m.High(), size + HEADER);
    m.(usage := m.usage + size + HEADER, minors := Place(m.minors, m.Low(), j, size, req))
  }

  // The address of that minor.
  function FillAddr(m: Major, size: nat): (a: nat)
    requires Fits(m, size + HEADER)
  {
    Start(m.minors, m.Low(), FirstGap(m.minors, m.Low(), m.High(), size + HEADER))
  }

  lemma {:induction false} FillTagged(mem: Mem, ms: seq<Minor>, lo: nat, hi: nat, j: nat, req: nat, size: nat,
          block: nat)
    requires Packed(ms, lo, hi) && AllTagged(mem, ms, block) && j <= |ms|
    requires size == req + ALIGNMENT + ALIGN_INFO && Gap(ms, lo, hi, j) >= size + HEADER
    ensures AllTagged(Tag(mem, Start(ms, lo, j), block), Place(ms, lo, j, size, req), block)
  {
    var a := Start(ms, lo, j);
    PtrInside(Minor(a, size, req));
    GapAvoids(ms, lo, hi, j, a);
    GapAvoids(ms, lo, hi, j, Ptr(a) - ALIGN_INFO);
    TagFrame(mem, ms, block, a, block);
    PlaceTagged(Tag(mem, a, block), ms, lo, j, req, block);
  }

  lemma {:induction false} FilledGood(mem: Mem, m: Major, req: nat, size: nat)
    requires size == req + ALIGNMENT + ALIGN_INFO && Good(mem, m) && Fits(m, size + HEADER)
    ensures var a := FillAddr(m, size);
            && Good(Tag(mem, a, m.base), Filled(m, size, req)) && m.Low() <= a && a + HEADER + size <= m.High()
  {
    var ms, lo, hi := m.minors, m.Low(), m.High();
    var j := FirstGap(ms, lo, hi, size + HEADER);
    FirstGapIs(ms, lo, hi, size + HEADER);
    PlaceKeeps(ms, lo, hi, j, size, req);
    FillTagged(mem, ms, lo, hi, j, req, size, m.base);
    StartAbove(ms, lo, hi, j);
    if j < |ms| { InBounds(ms, lo, hi, j); }
  }

  function Put(h: Heap, i: nat, size: nat, req: nat): (r: Heap)
    requires i < |h.majors| && Fits(h.majors[i], size + HEADER)
  {
    var m := h.majors[i];
    h.(majors := h.majors[i := Filled(m, size, req)], inuse := h.inuse + size,
        mem := Tag(h.mem, FillAddr(m, size), m.base))
  }

  lemma {:induction false} FindUpdate(majors: seq<Major>, i: nat, m: Major, base: nat)
    requires i < |majors| && m.base == majors[i].base
    ensures Find(majors[i := m], base) == Find(majors, base)
  {
    if i == 0 {
      assert majors[i := m][1..] == majors[1..];
    } else {
      assert majors[i := m][1..] == majors[1..][i - 1 := m];
      FindUpdate(majors[1..], i - 1, m, base);
    }
  }

  lemma {:induction false} FilledHolds(m: Major, size: nat, req: nat, a: nat)
    requires Fits(m, size + HEADER) && (Holds(m.minors, a) || a == FillAddr(m, size))
    ensures Holds(Filled(m, size, req).minors, a)
  {
    PlaceHolds(m.minors, m.Low(), FirstGap(m.minors, m.Low(), m.High(), size + HEADER), size, req, a);
  }

  // A minor placed in the first gap that fits keeps the invariant.
  lemma {:induction false} PutKeeps(h: Heap, i: nat, size: nat, req: nat)
    requires Inv(h) && i < |h.majors| && size == req + ALIGNMENT + ALIGN_INFO && Fits(h.majors[i], size + HEADER)
    ensures Inv(Put(h, i, size, req))
  {
    var m, r := h.majors[i], Put(h, i, size, req);
    var f, a := Filled(m, size, req), FillAddr(m, size);
    GoodAt(h.mem, h.majors, i);
    FilledGood(h.mem, m, req, size);
    PtrInside(Minor(a, size, req));
    UpdateGood(h.mem, r.mem, h.majors, i, f);
    UpdateTotals(h.majors, i, f);
    PlaceSizes(m.minors, m.Low(), FirstGap(m.minors, m.Low(), m.High(), size + HEADER), size, req);
    FindUpdate(h.majors, i, f, h.best);
    forall x | x in r.mem.hdr && r.mem.hdr[x].magic == MAGIC
      ensures LiveAt(r.majors, r.mem.hdr[x].block, x)
    {
      if x == a {
        FilledHolds(m, size, req, a);
        LiveHere(r.majors, i, a);
      } else {
        if Holds(m.minors, x) { FilledHolds(m, size, req, x); }
        LiveUpdate(h.majors, i, f, h.mem.hdr[x].block, x);
      }
    }
  }

  function Fresh(base: nat, pages: nat): (m: Major) { Major(base, pages, HEADER, []) }

  function Grown(h: Heap, base: nat, pages: nat): (r: Heap) {
    h.(majors := h.majors + [Fresh(base, pages)], total := h.total + pages * PAGE)
  }

  lemma {:induction false} FindAppend(majors: seq<Major>, m: Major, base: nat)
    ensures Find(majors, base) < |majors| ==> Find(majors + [m], base) == Find(majors, base)
    ensures base == m.base ==> Find(majors + [m], base) <= |majors|
  {
    if majors != [] {
      assert (majors + [m])[1..] == majors[1..] + [m];
      FindAppend(majors[1..], m, base);
    }
  }

  // A new major, apart from the others, keeps the invariant.
  lemma {:induction false} GrownKeeps(h: Heap, base: nat, pages: nat)
    requires Inv(h) && base > 0 && pages >= 1 && ApartFrom(Spans(h.majors), Region(base, pages * PAGE))
    ensures Inv(Grown(h, base, pages))
  {
    var m, r := Fresh(base, pages), Grown(h, base, pages);
    AppendGood(h.mem, h.majors, m);
    AppendTotals(h.majors, m);
    FindAppend(h.majors, m, h.best);
    forall x | x in r.mem.hdr && r.mem.hdr[x].magic == MAGIC
      ensures LiveAt(r.majors, r.mem.hdr[x].block, x)
    {
      LiveAppend(h.majors, m, h.mem.hdr[x].block, x);
    }
  }

  // The free bytes of a major.
  function Room(m: Major): (n: int) { m.Size() - m.usage }

  function Emptied(m: Major, j: nat): (r: Major)
    requires j < |m.minors| && m.usage >= m.minors[j].size + HEADER
  {
    m.(usage := m.usage - (m.minors[j].size + HEADER), minors := Cut(m.minors, j))
  }

  lemma {:induction false} EmptiedGood(mem: Mem, m: Major, j: nat)
    requires Good(mem, m) && j < |m.minors|
    ensures m.usage >= m.minors[j].size + HEADER && m.minors[j].addr in mem.hdr
    ensures Good(Kill(mem, m.minors[j].addr), Emptied(m, j))
    ensures m.Low() <= m.minors[j].addr && m.minors[j].End() <= m.High()
    ensures mem.hdr[m.minors[j].addr] == Hdr(MAGIC, m.base)
  {
    var ms, lo, hi, a := m.minors, m.Low(), m.High(), m.minors[j].addr;
    TaggedAt(mem, ms, m.base, j);
    CutKeeps(ms, lo, hi, j);
    CutTagged(mem, ms, j, m.base);
    CutAvoids(ms, lo, hi, j, a);
    KillFrame(mem, Cut(ms, j), m.base, a);
    InBounds(ms, lo, hi, j);
  }

  lemma {:induction false} TaggedAt(mem: Mem, ms: seq<Minor>, block: nat, j: nat)
    requires AllTagged(mem, ms, block) && j < |ms|
    ensures Tagged(mem, ms[j], block)
  {
    if j > 0 { TaggedAt(mem, ms[1..], block, j - 1); }
  }

  // l_bestBet after a minor of major i was freed.
  function Better(majors: seq<Major>, best: nat, i: nat): (r: nat)
    requires i < |majors|
  {
    var k := Find(majors, best);
    if best != 0 && k < |majors| && Room(majors[i]) > Room(majors[k]) then majors[i].base else best
  }

  // kheap_free of minor j of major i: a major left empty goes back to the page allocator.
  function Drop(h: Heap, i: nat, j: nat): (r: Heap)
    requires i < |h.majors| && j < |h.majors[i].minors| && h.majors[i].usage >= h.majors[i].minors[j].size + HEADER
    requires h.majors[i].minors[j].addr in h.mem.hdr
  {
    var m := h.majors[i];
    var n := m.minors[j];
    var e, mem, inuse := Emptied(m, j), Kill(h.mem, n.addr), h.inuse - n.size;
    if e.minors == [] then
      Heap(Without(h.majors, i), if h.best == m.base then 0 else h.best, inuse, h.total - m.Size(),
          Unmap(mem, m.base, m.High()))
    else
      Heap(h.majors[i := e], Better(h.majors[i := e], h.best, i), inuse, h.total, mem)
  }

  lemma {:induction false} FindWithout(majors: seq<Major>, i: nat, base: nat)
    requires i < |majors| && base != majors[i].base && Find(majors, base) < |majors|
    ensures Find(Without(majors, i), base) < |majors| - 1
  {
    if i == 0 {
      assert Without(majors, i) == majors[1..];
    } else {
      assert Without(majors, i)[1..] == Without(majors[1..], i - 1);
      if majors[0].base != base { FindWithout(majors[1..], i - 1, base); }
    }
  }

  // Only the killed header stops being live.
  lemma {:induction false} CutLive(h: Heap, i: nat, j: nat, x: nat)
    requires Inv(h) && i < |h.majors| && j < |h.majors[i].minors| && x != h.majors[i].minors[j].addr
    requires x in h.mem.hdr && h.mem.hdr[x].magic == MAGIC && h.majors[i].usage >= h.majors[i].minors[j].size + HEADER
    ensures LiveAt(h.majors[i := Emptied(h.majors[i], j)], h.mem.hdr[x].block, x)
  {
    if Holds(h.majors[i].minors, x) { CutHolds(h.majors[i].minors, j, x); }
    LiveUpdate(h.majors, i, Emptied(h.majors[i], j), h.mem.hdr[x].block, x);
  }

  // kheap_free before it looks at the major and at l_bestBet.
  function Unplaced(h: Heap, i: nat, j: nat): (r: Heap)
    requires i < |h.majors| && j < |h.majors[i].minors| && h.majors[i].usage >= h.majors[i].minors[j].size + HEADER
    requires h.majors[i].minors[j].addr in h.mem.hdr
  {
    var n := h.majors[i].minors[j];
    h.(majors := h.majors[i := Emptied(h.majors[i], j)], inuse := h.inuse - n.size, mem := Kill(h.mem, n.addr))
  }

  lemma {:induction false} UnplacedKeeps(h: Heap, i: nat, j: nat)
    requires Inv(h) && i < |h.majors| && j < |h.majors[i].minors|
    requires h.majors[i].usage >= h.majors[i].minors[j].size + HEADER && h.majors[i].minors[j].addr in h.mem.hdr
    ensures Inv(Unplaced(h, i, j)) && Find(Unplaced(h, i, j).majors, h.majors[i].base) <= i
  {
    var m, r := h.majors[i], Unplaced(h, i, j);
    var e := Emptied(m, j);
    GoodAt(h.mem, h.majors, i);
    EmptiedGood(h.mem, m, j);
    UpdateGood(h.mem, r.mem, h.majors, i, e);
    UpdateTotals(h.majors, i, e);
    CutSizes(m.minors, j);
    FindUpdate(h.majors, i, e, h.best);
    FindHere(r.majors, i);
    forall x | x in r.mem.hdr && r.mem.hdr[x].magic == MAGIC
      ensures LiveAt(r.majors, r.mem.hdr[x].block, x)
    {
      CutLive(h, i, j, x);
    }
  }

  lemma {:induction false} DropKeepsMajor(h: Heap, i: nat, j: nat)
    requires Inv(h) && i < |h.majors| && j < |h.majors[i].minors|
    requires h.majors[i].usage >= h.majors[i].minors[j].size + HEADER && h.majors[i].minors[j].addr in h.mem.hdr
    requires Emptied(h.majors[i], j).minors != []
    ensures Inv(Drop(h, i, j))
  {
    UnplacedKeeps(h, i, j);
    assert Drop(h, i, j) == Unplaced(h, i, j).(best := Drop(h, i, j).best);
  }

  lemma {:induction false} DropReleases(h: Heap, i: nat, j: nat)
    requires Inv(h) && i < |h.majors| && j < |h.majors[i].minors|
    requires h.majors[i].usage >= h.majors[i].minors[j].size + HEADER && h.majors[i].minors[j].addr in h.mem.hdr
    requires Emptied(h.majors[i], j).minors == []
    ensures Inv(Drop(h, i, j))
  {
    var m, r := h.majors[i], Drop(h, i, j);
    GoodAt(h.mem, h.majors, i);
    EmptiedGood(h.mem, m, j);
    WithoutGood(h.mem, r.mem, h.majors, i);
    RemoveKeeps(Spans(h.majors), i);
    WithoutTotals(h.majors, i);
    assert m.minors == [m.minors[j]];
    if h.best != 0 && h.best != m.base { FindWithout(h.majors, i, h.best); }
    forall x | x in r.mem.hdr && r.mem.hdr[x].magic == MAGIC
      ensures LiveAt(r.majors, r.mem.hdr[x].block, x)
    {
      assert !Holds(m.minors, x);
      LiveWithout(h.majors, i, h.mem.hdr[x].block, x);
    }
  }

  // Freeing a live minor keeps the invariant.
  lemma {:induction false} DropKeeps(h: Heap, i: nat, j: nat)
    requires Inv(h) && i < |h.majors| && j < |h.majors[i].minors|
    ensures h.majors[i].usage >= h.majors[i].minors[j].size + HEADER && h.majors[i].minors[j].addr in h.mem.hdr
    ensures Inv(Drop(h, i, j))
  {
    GoodAt(h.mem, h.majors, i);
    EmptiedGood(h.mem, h.majors[i], j);
    if Emptied(h.majors[i], j).minors == [] {
      DropReleases(h, i, j);
    } else {
      DropKeepsMajor(h, i, j);
    }
  }

  // ---------- the search ----------

  // CASE 1: a major without enough free bytes has no gap that is large enough.
  lemma {:induction false} Skip(m: Major, need: nat)
    requires Packed(m.minors, m.Low(), m.High()) && m.usage == HEADER + Used(m.minors) && Room(m) < need
    ensures !Fits(m, need)
  {
    FirstGapIs(m.minors, m.Low(), m.High(), need);
    var j := FirstGap(m.minors, m.Low(), m.High(), need);
    if j <= |m.minors| { GapBound(m.minors, m.Low(), m.High(), j); }
  }

  // The first major from position i on that has a gap of need bytes, or |majors|.
  function FirstFitting(majors: seq<Major>, i: nat, need: nat): (k: nat)
    requires i <= |majors|
    ensures i <= k <= |majors| && (k < |majors| ==> Fits(majors[k], need))
    ensures forall q :: i <= q < k ==> !Fits(majors[q], need)
    decreases |majors| - i
  {
    if i == |majors| || Fits(majors[i], need) then i else FirstFitting(majors, i + 1, need)
  }

  // Where kheap_malloc ends up: from position s to the end, then from the root.
  function Choice(majors: seq<Major>, s: nat, need: nat): (k: nat)
    requires s <= |majors|
    ensures k <= |majors| && (k < |majors| ==> Fits(majors[k], need))
  {
    var k := FirstFitting(majors, s, need);
    if k < |majors| then k else FirstFitting(majors, 0, need)
  }

  // A new major is asked for exactly when no head, middle or tail gap of any major is large enough,
  // wherever the search starts.
  lemma {:induction false} ChoiceNone(majors: seq<Major>, s: nat, need: nat)
    requires s <= |majors|
    ensures Choice(majors, s, need) == |majors| <==>
            forall i, j :: 0 <= i < |majors| && 0 <= j <= |majors[i].minors| ==>
                             Gap(majors[i].minors, majors[i].Low(), majors[i].High(), j) < need
  {
    if Choice(majors, s, need) == |majors| {
      forall i, j | 0 <= i < |majors| && 0 <= j <= |majors[i].minors|
        ensures Gap(majors[i].minors, majors[i].Low(), majors[i].High(), j) < need
      {
        FirstGapIs(majors[i].minors, majors[i].Low(), majors[i].High(), need);
        assert !Fits(majors[i], need);
      }
    } else {
      var i := Choice(majors, s, need);
      FirstGapIs(majors[i].minors, majors[i].Low(), majors[i].High(), need);
    }
  }

  // ---------- new majors ----------

  // The pages allocate_new_page asks for, in 32-bit arithmetic.
  function PagesFor(size: nat): (n: nat)
    ensures n >= MIN_PAGES
  {
    var st := (size + 2 * HEADER) % WORD;
    var n := if st % PAGE == 0 then st / PAGE else st / PAGE + 1;
    if n < MIN_PAGES then MIN_PAGES else n
  }

  // They hold a major header, a minor header and size bytes exactly when the sum does not wrap; then they are
  // the fewest that do, but never fewer than l_pageCount.
  lemma PagesForIff(size: nat)
    requires size < WORD
    ensures PagesFor(size) * PAGE >= size + 2 * HEADER <==> size + 2 * HEADER < WORD
    ensures size + 2 * HEADER < WORD ==>
              PagesFor(size) == MIN_PAGES || (PagesFor(size) - 1) * PAGE < size + 2 * HEADER
    ensures size + 2 * HEADER >= WORD ==> PagesFor(size) == MIN_PAGES
  {
  }

  // So size bytes fit in a new major.
  lemma {:induction false} FreshFits(base: nat, size: nat)
    requires size + 2 * HEADER < WORD
    ensures Fits(Fresh(base, PagesFor(size)), size + HEADER)
    ensures FillAddr(Fresh(base, PagesFor(size)), size) == base + HEADER
  {
    PagesForIff(size);
  }

  // ---------- kheap_malloc and kheap_free ----------

  lemma {:induction false} NoneEmptyUpdate(majors: seq<Major>, i: nat, m: Major)
    requires NoneEmpty(majors) && i < |majors| && m.minors != []
    ensures NoneEmpty(majors[i := m])
  {
    if i == 0 {
      assert majors[i := m][1..] == majors[1..];
    } else {
      assert majors[i := m][1..] == majors[1..][i - 1 := m];
      NoneEmptyUpdate(majors[1..], i - 1, m);
    }
  }

  lemma {:induction false} NoneEmptyAppend(majors: seq<Major>, m: Major)
    requires NoneEmpty(majors) && m.minors != []
    ensures NoneEmpty(majors + [m])
  {
    if majors == [] {
      assert majors + [m] == [m];
    } else {
      assert (majors + [m])[1..] == majors[1..] + [m];
      NoneEmptyAppend(majors[1..], m);
    }
  }

  lemma {:induction false} NoneEmptyWithout(majors: seq<Major>, i: nat)
    requires NoneEmpty(majors) && i < |majors|
    ensures NoneEmpty(Without(majors, i))
  {
    if i == 0 {
      assert Without(majors, i) == majors[1..];
    } else {
      assert Without(majors, i)[1..] == Without(majors[1..], i - 1);
      NoneEmptyWithout(majors[1..], i - 1);
    }
  }

  // The heap between calls: no major is empty.
  ghost predicate Settled(h: Heap) { Inv(h) && NoneEmpty(h.majors) }

  lemma {:induction false} PutSettles(h: Heap, i: nat, size: nat, req: nat)
    requires Settled(h) && i < |h.majors| && size == req + ALIGNMENT + ALIGN_INFO && Fits(h.majors[i], size + HEADER)
    ensures Settled(Put(h, i, size, req))
  {
    PutKeeps(h, i, size, req);
    NoneEmptyUpdate(h.majors, i, Filled(h.majors[i], size, req));
  }

  // A new major with its first minor.
  function Extended(h: Heap, base: nat, size: nat, req: nat): (r: Heap)
    requires size + 2 * HEADER < WORD
  {
    FreshFits(base, size);
    Put(Grown(h, base, PagesFor(size)), |h.majors|, size, req)
  }

  lemma {:induction false} ExtendedSettles(h: Heap, base: nat, size: nat, req: nat)
    requires Settled(h) && size == req + ALIGNMENT + ALIGN_INFO && size + 2 * HEADER < WORD
    requires base > 0 && ApartFrom(Spans(h.majors), Region(base, PagesFor(size) * PAGE))
    ensures Settled(Extended(h, base, size, req))
    ensures Fits(Fresh(base, PagesFor(size)), size + HEADER)
    ensures Extended(h, base, size, req).majors == h.majors + [Filled(Fresh(base, PagesFor(size)), size, req)]
  {
    var n := PagesFor(size);
    FreshFits(base, size);
    GrownKeeps(h, base, n);
    PutKeeps(Grown(h, base, n), |h.majors|, size, req);
    NoneEmptyAppend(h.majors, Filled(Fresh(base, n), size, req));
    var f := Filled(Fresh(base, n), size, req);
    assert (h.majors + [Fresh(base, n)])[|h.majors| := f] == h.majors + [f];
  }

  lemma {:induction false} DropSettles(h: Heap, i: nat, j: nat)
    requires Settled(h) && i < |h.majors| && j < |h.majors[i].minors|
    ensures h.majors[i].usage >= h.majors[i].minors[j].size + HEADER && h.majors[i].minors[j].addr in h.mem.hdr
    ensures Settled(Drop(h, i, j))
  {
    DropKeeps(h, i, j);
    if Emptied(h.majors[i], j).minors == [] {
      NoneEmptyWithout(h.majors, i);
    } else {
      NoneEmptyUpdate(h.majors, i, Emptied(h.majors[i], j));
    }
  }

  // The position the search starts from: l_bestBet when it has more than enough free bytes, or the root.
  function StartAt(h: Heap, need: nat): (s: nat)
    ensures s <= |h.majors|
  {
    var k := Find(h.majors, h.best);
    if h.best != 0 && k < |h.majors| && Room(h.majors[k]) > need then k else 0
  }

  // Major i is the one a request of need bytes goes into: the first with a large enough gap, counted from the best
  // bet on and round again when that has more than need free bytes, and from the root otherwise. With i past
  // the end there is none.
  predicate Serves(h: Heap, need: nat, i: nat) {
    var k := Find(h.majors, h.best);
    var bet := h.best != 0 && k < |h.majors| && Room(h.majors[k]) > need;
    if i < |h.majors| then
      && (exists j :: 0 <= j <= |h.majors[i].minors|
                      && Gap(h.majors[i].minors, h.majors[i].Low(), h.majors[i].High(), j) >= need)
      && forall q :: 0 <= q < |h.majors| && q != i && Fits(h.majors[q], need) ==>
           if bet && q >= k then k <= i < q else (bet && i >= k) || i < q
    else forall q :: 0 <= q < |h.majors| ==> !Fits(h.majors[q], need)
  }

  lemma {:induction false} ServesChoice(h: Heap, need: nat)
    ensures Serves(h, need, Choice(h.majors, StartAt(h, need), need))
  {
    hide Fits, Find;
    var i := Choice(h.majors, StartAt(h, need), need);
    if i < |h.majors| { HasGap(h.majors[i], need); }
  }

  lemma {:induction false} HasGap(m: Major, need: nat)
    requires Fits(m, need)
    ensures exists j :: 0 <= j <= |m.minors| && Gap(m.minors, m.Low(), m.High(), j) >= need
  {
    FirstGapIs(m.minors, m.Low(), m.High(), need);
  }

  // UNALIGN.
  function Unaligned(mem: Mem, ptr: nat): (q: int)
    requires ptr - ALIGN_INFO in mem.align
  {
    var diff := mem.align[ptr - ALIGN_INFO];
    if diff < ALIGNMENT + ALIGN_INFO then ptr - diff else ptr
  }

  // UNALIGN leads back from the pointer handed out to the minor's header.
  lemma UnalignedPtr(mem: Mem, m: Minor, block: nat)
    requires Tagged(mem, m, block)
    ensures Unaligned(mem, Ptr(m.addr)) - HEADER == m.addr
  {
    PtrInside(m);
  }

  // Address a is the header of a minor of the major its block word names.
  predicate IsMinor(h: Heap, a: nat) {
    && a in h.mem.hdr && Find(h.majors, h.mem.hdr[a].block) < |h.majors|
    && Holds(h.majors[Find(h.majors, h.mem.hdr[a].block)].minors, a)
    && var m := h.majors[Find(h.majors, h.mem.hdr[a].block)];
       m.usage >= m.minors[FindMinor(m.minors, a)].size + HEADER
  }

  function MajorOf(h: Heap, a: nat): (i: nat)
    requires IsMinor(h, a)
  {
    Find(h.majors, h.mem.hdr[a].block)
  }

  function MinorOf(h: Heap, a: nat): (j: nat)
    requires IsMinor(h, a)
  {
    FindMinor(h.majors[MajorOf(h, a)].minors, a)
  }

  // A header word that reads MAGIC belongs to a live minor.
  lemma {:induction false} MagicIsLive(h: Heap, a: nat)
    requires Inv(h) && a in h.mem.hdr && h.mem.hdr[a].magic == MAGIC
    ensures IsMinor(h, a)
  {
    LiveFound(h.mem, h.majors, h.mem.hdr[a].block, a);
    var i := Find(h.majors, h.mem.hdr[a].block);
    DropKeeps(h, i, FindMinor(h.majors[i].minors, a));
  }

  // ---------- what callers get ----------

  // The bytes a caller may use.
  function Bytes(m: Minor): (y: Region) { Region(Ptr(m.addr), m.req) }

  lemma {:induction false} PackedApart(ms: seq<Minor>, lo: nat, hi: nat, j: nat, k: nat)
    requires Packed(ms, lo, hi) && j < k < |ms|
    ensures ms[j].End() <= ms[k].addr
    decreases |ms|
  {
    if j == 0 {
      InBounds(ms[1..], ms[0].End(), hi, k - 1);
    } else {
      PackedApart(ms[1..], ms[0].End(), hi, j - 1, k - 1);
    }
  }

  lemma {:induction false} SpansApart(mem: Mem, majors: seq<Major>, i: nat, k: nat)
    requires AllGood(mem, majors) && Scattered(Spans(majors)) && i < k < |majors|
    ensures Apart(Span(majors[i]), Span(majors[k]))
  {
    assert Spans(majors)[1..] == Spans(majors[1..]);
    if i == 0 {
      GoodAt(mem, majors, k);
      ApartAt(Spans(majors[1..]), Span(majors[0]), k - 1);
    } else {
      SpansApart(mem, majors[1..], i - 1, k - 1);
    }
  }

  lemma {:induction false} BytesInside(mem: Mem, m: Major, j: nat)
    requires Good(mem, m) && j < |m.minors|
    ensures var n := m.minors[j];
            && m.Low() <= n.addr < Bytes(n).addr && Bytes(n).End() < n.End() <= m.High()
            && Ptr(n.addr) % ALIGNMENT == 0
  {
    InBounds(m.minors, m.Low(), m.High(), j);
    TaggedAt(mem, m.minors, m.base, j);
    PtrInside(m.minors[j]);
  }

  // Two live allocations never share a byte, and every pointer handed out is 16-byte aligned.
  lemma {:induction false} BytesApart(h: Heap, i: nat, j: nat, k: nat, l: nat)
    requires Inv(h) && i < |h.majors| && k < |h.majors| && j < |h.majors[i].minors| && l < |h.majors[k].minors|
    requires i < k || (i == k && j < l)
    ensures Apart(Bytes(h.majors[i].minors[j]), Bytes(h.majors[k].minors[l]))
    ensures Ptr(h.majors[i].minors[j].addr) % ALIGNMENT == 0 && Ptr(h.majors[k].minors[l].addr) % ALIGNMENT == 0
  {
    GoodAt(h.mem, h.majors, i);
    GoodAt(h.mem, h.majors, k);
    BytesInside(h.mem, h.majors[i], j);
    BytesInside(h.mem, h.majors[k], l);
    if i < k {
      SpansApart(h.mem, h.majors, i, k);
    } else {
      PackedApart(h.majors[i].minors, h.majors[i].Low(), h.majors[i].High(), j, l);
    }
  }

  // Freeing what malloc just returned gives back the heap it started from.
  lemma {:induction false} FreeUndoesMalloc(h: Heap, i: nat, size: nat, req: nat)
    requires Settled(h) && i < |h.majors| && size == req + ALIGNMENT + ALIGN_INFO && Fits(h.majors[i], size + HEADER)
    ensures var m := h.majors[i];
            var r, a := Put(h, i, size, req), FillAddr(m, size);
            && Ptr(a) - ALIGN_INFO in r.mem.align && Unaligned(r.mem, Ptr(a)) - HEADER == a
            && IsMinor(r, a) && MajorOf(r, a) == i
            && Drop(r, i, MinorOf(r, a)).majors == h.majors
            && Drop(r, i, MinorOf(r, a)).inuse == h.inuse && Drop(r, i, MinorOf(r, a)).total == h.total
  {
    hide Inv, FirstGap, AllGood, Good, Packed;
    var m := h.majors[i];
    var r, f, a := Put(h, i, size, req), Filled(m, size, req), FillAddr(m, size);
    var j := FirstGap(m.minors, m.Low(), m.High(), size + HEADER);
    PutKeeps(h, i, size, req);
    PtrInside(Minor(a, size, req));
    MagicIsLive(r, a);
    FindUnique(r.mem, r.majors, i);
    GoodAt(r.mem, r.majors, i);
    NoneEmptyAt(h.majors, i);
    FoundAt(f.minors, f.Low(), f.High(), j);
    assert Cut(f.minors, j) == m.minors;
    assert Emptied(f, j) == m;
    assert r.majors[i := m] == h.majors;
  }

  lemma {:induction false} NoneEmptyAt(majors: seq<Major>, i: nat)
    requires NoneEmpty(majors) && i < |majors|
    ensures majors[i].minors != []
  {
    if i > 0 { NoneEmptyAt(majors[1..], i - 1); }
  }

  lemma {:induction false} FoundAt(ms: seq<Minor>, lo: nat, hi: nat, j: nat)
    requires Packed(ms, lo, hi) && j < |ms|
    ensures Holds(ms, ms[j].addr) && FindMinor(ms, ms[j].addr) == j
    decreases |ms|
  {
    if j > 0 {
      PackedApart(ms, lo, hi, 0, j);
      FoundAt(ms[1..], ms[0].End(), hi, j - 1);
    }
  }

  // A second free of the same pointer finds the dead header, unless the whole major went back.
  lemma {:induction false} DoubleFree(h: Heap, i: nat, j: nat)
    requires Inv(h) && i < |h.majors| && j < |h.majors[i].minors|
    ensures h.majors[i].usage >= h.majors[i].minors[j].size + HEADER && h.majors[i].minors[j].addr in h.mem.hdr
    ensures var a, r := h.majors[i].minors[j].addr, Drop(h, i, j);
            if |h.majors[i].minors| == 1 then a !in r.mem.hdr
            else && Ptr(a) - ALIGN_INFO in r.mem.align && Unaligned(r.mem, Ptr(a)) - HEADER == a
                 && a in r.mem.hdr && r.mem.hdr[a].magic == DEAD
  {
    DropKeeps(h, i, j);
    GoodAt(h.mem, h.majors, i);
    var m := h.majors[i];
    TaggedAt(h.mem, m.minors, m.base, j);
    InBounds(m.minors, m.Low(), m.High(), j);
    PtrInside(m.minors[j]);
  }

  // After a free that leaves a best bet, it has at least the free bytes of the major that was freed into
  // and of the best bet before.
  lemma {:induction false} BetterRoom(majors: seq<Major>, best: nat, i: nat)
    requires i < |majors| && best != 0 && Find(majors, best) < |majors|
    ensures var b := Better(majors, best, i);
            && (b == best || b == majors[i].base) && Find(majors, b) < |majors|
            && (Find(majors, majors[i].base) == i ==> Room(majors[Find(majors, b)]) >= Room(majors[i]))
            && (Find(majors, majors[i].base) == i ==> Room(majors[Find(majors, b)]) >= Room(majors[Find(majors, best)]))
  {
    FindHere(majors, i);
  }

  // ---------- l_bestBet after a request ----------

  // The best bet so far and its free bytes.
  datatype Bet = Bet(base: nat, room: int)

  // The walk looks at major m: one with more free bytes is remembered.
  function Visit(b: Bet, m: Major): (c: Bet) { if b.room < Room(m) then Bet(m.base, Room(m)) else b }

  // The walk from position i on, up to the first major that has a gap.
  function Bets(majors: seq<Major>, i: nat, need: nat, b: Bet): (c: Bet)
    requires i <= |majors|
    decreases |majors| - i
  {
    if i == |majors| then b
    else if Fits(majors[i], need) then Visit(b, majors[i])
    else Bets(majors, i + 1, need, Visit(b, majors[i]))
  }

  function OldBet(h: Heap): (b: Bet) {
    var k := Find(h.majors, h.best);
    Bet(h.best, if h.best != 0 && k < |h.majors| then Room(h.majors[k]) else 0)
  }

  // The search began at l_bestBet.
  predicate FromBest(h: Heap, need: nat) { h.best != 0 && Find(h.majors, h.best) < |h.majors| && OldBet(h).room > need }

  // The best bet when the search is over.
  function SearchBet(h: Heap, need: nat): (b: Bet) {
    var s := StartAt(h, need);
    var b := Bets(h.majors, s, need, OldBet(h));
    if FromBest(h, need) && FirstFitting(h.majors, s, need) == |h.majors| then Bets(h.majors, 0, need, b) else b
  }

  // l_bestBet after kheap_malloc. A new major is looked at when it is the first one, or when the last
  // major had enough free bytes but no gap (CASE 5).
  function BestBet(h: Heap, req: nat, grant: nat): (base: nat)
    requires req + ALIGNMENT + ALIGN_INFO + 2 * HEADER < WORD
  {
    var size := req + ALIGNMENT + ALIGN_INFO;
    var need := size + HEADER;
    if h.majors == [] then (if grant == 0 then h.best else grant)
    else
      var b := SearchBet(h, need);
      if Choice(h.majors, StartAt(h, need), need) == |h.majors| && grant != 0
         && Room(h.majors[|h.majors| - 1]) >= need && b.room < PagesFor(size) * PAGE - HEADER then grant
      else b.base
  }

  // A bet that names a live major, and how much room that has.
  predicate TrueBet(majors: seq<Major>, b: Bet) {
    b.base == 0 || (Find(majors, b.base) < |majors| && Room(majors[Find(majors, b.base)]) == b.room)
  }

  // The walk keeps the bet true, and no major it visits has more room.
  lemma {:induction false} BetsTrue(mem: Mem, majors: seq<Major>, i: nat, need: nat, b: Bet)
    requires AllGood(mem, majors) && Scattered(Spans(majors)) && i <= |majors| && TrueBet(majors, b)
    ensures var c := Bets(majors, i, need, b);
            && TrueBet(majors, c) && c.room >= b.room
            && (forall q :: i <= q < |majors| && q <= FirstFitting(majors, i, need) ==> Room(majors[q]) <= c.room)
    decreases |majors| - i
  {
    hide AllGood, Fits, Find;
    if i < |majors| {
      FindUnique(mem, majors, i);
      if !Fits(majors[i], need) { BetsTrue(mem, majors, i + 1, need, Visit(b, majors[i])); }
    }
  }

  lemma {:induction false} SearchTrue(h: Heap, need: nat)
    requires Inv(h)
    ensures TrueBet(h.majors, SearchBet(h, need))
    ensures forall q :: StartAt(h, need) <= q <= Choice(h.majors, StartAt(h, need), need) && q < |h.majors| ==>
              Room(h.majors[q]) <= SearchBet(h, need).room
  {
    hide AllGood, Fits, Spans, OnlyLive, InUse, Allocated, Bets, FirstFitting;
    var s := StartAt(h, need);
    BetsTrue(h.mem, h.majors, s, need, OldBet(h));
    var b := Bets(h.majors, s, need, OldBet(h));
    if FromBest(h, need) && FirstFitting(h.majors, s, need) == |h.majors| { BetsTrue(h.mem, h.majors, 0, need, b); }
  }

  // l_bestBet is null or a live major after every request.
  lemma {:induction false} BestLive(h: Heap, req: nat, grant: nat)
    requires Inv(h) && req + ALIGNMENT + ALIGN_INFO + 2 * HEADER < WORD
    ensures var b, r := BestBet(h, req, grant), Served(h, req, grant).majors;
            b == 0 || Find(r, b) < |r|
  {
    hide Inv, SearchBet, StartAt, Choice, PagesFor, Find, Place, FirstGap;
    var size := req + ALIGNMENT + ALIGN_INFO;
    var b := SearchBet(h, size + HEADER).base;
    var i := Choice(h.majors, StartAt(h, size + HEADER), size + HEADER);
    SearchTrue(h, size + HEADER);
    BestWas(h);
    if i < |h.majors| {
      FindUpdate(h.majors, i, Filled(h.majors[i], size, req), b);
    } else if grant != 0 {
      var n := Fresh(grant, PagesFor(size));
      FreshFits(grant, size);
      var f := Filled(n, size, req);
      ExtendedIs(h, grant, size, req);
      FindAppend(h.majors, f, b);
      FindAppend(h.majors, f, grant);
    }
  }

  lemma BestWas(h: Heap)
    requires Inv(h)
    ensures h.best == 0 || Find(h.majors, h.best) < |h.majors|
    ensures h.majors == [] ==> h.best == 0
  {
  }

  lemma ExtendedIs(h: Heap, base: nat, size: nat, req: nat)
    requires size + 2 * HEADER < WORD
    ensures Fits(Fresh(base, PagesFor(size)), size + HEADER)
    ensures Extended(h, base, size, req).majors == h.majors + [Filled(Fresh(base, PagesFor(size)), size, req)]
  {
    hide PagesFor, Fits, Filled;
    var n := PagesFor(size);
    FreshFits(base, size);
    var f := Filled(Fresh(base, n), size, req);
    assert (h.majors + [Fresh(base, n)])[|h.majors| := f] == h.majors + [f];
  }

  // ---------- every run ----------

  // kheap_malloc(req) when liballoc_alloc would answer grant; kheap_free of minor j of major i.
  datatype Op = Get(req: nat, grant: nat) | Give(i: nat, j: nat)

  // The heap after a request, but for l_bestBet.
  function Served(h: Heap, req: nat, grant: nat): (r: Heap)
    requires req + ALIGNMENT + ALIGN_INFO + 2 * HEADER < WORD
  {
    var size := req + ALIGNMENT + ALIGN_INFO;
    var i := Choice(h.majors, StartAt(h, size + HEADER), size + HEADER);
    if i < |h.majors| then Put(h, i, size, req) else if grant == 0 then h else Extended(h, grant, size, req)
  }

  // The heap after kheap_malloc.
  function Malloced(h: Heap, req: nat, grant: nat): (r: Heap)
    requires req + ALIGNMENT + ALIGN_INFO + 2 * HEADER < WORD
  {
    Served(h, req, grant).(best := BestBet(h, req, grant))
  }

  predicate Asks(h: Heap, op: Op) {
    match op
    case Get(req, grant) =>
      && req + ALIGNMENT + ALIGN_INFO + 2 * HEADER < WORD
      && (grant > 0 ==> ApartFrom(Spans(h.majors), Region(grant, PagesFor(req + ALIGNMENT + ALIGN_INFO) * PAGE)))
    case Give(i, j) =>
      && i < |h.majors| && j < |h.majors[i].minors| && h.majors[i].usage >= h.majors[i].minors[j].size + HEADER
      && h.majors[i].minors[j].addr in h.mem.hdr
  }

  function Next(h: Heap, op: Op): (r: Heap)
    requires Asks(h, op)
  {
    match op
    case Get(req, grant) => Malloced(h, req, grant)
    case Give(i, j) => Drop(h, i, j)
  }

  predicate AsksAll(h: Heap, ops: seq<Op>)
    decreases |ops|
  {
    ops == [] || (Asks(h, ops[0]) && AsksAll(Next(h, ops[0]), ops[1..]))
  }

  function Run(h: Heap, ops: seq<Op>): (r: Heap)
    requires AsksAll(h, ops)
    decreases |ops|
  {
    if ops == [] then h else Run(Next(h, ops[0]), ops[1..])
  }

  lemma {:induction false} BestSettles(h: Heap, best: nat)
    requires Settled(h) && (best == 0 || Find(h.majors, best) < |h.majors|)
    ensures Settled(h.(best := best))
  {
  }

  lemma {:induction false} ServedSettles(h: Heap, req: nat, grant: nat)
    requires Settled(h) && req + ALIGNMENT + ALIGN_INFO + 2 * HEADER < WORD
    requires grant > 0 ==> ApartFrom(Spans(h.majors), Region(grant, PagesFor(req + ALIGNMENT + ALIGN_INFO) * PAGE))
    ensures Settled(Served(h, req, grant))
  {
    hide Settled, Put, Extended;
    var size := req + ALIGNMENT + ALIGN_INFO;
    var i := Choice(h.majors, StartAt(h, size + HEADER), size + HEADER);
    if i < |h.majors| {
      PutSettles(h, i, size, req);
    } else if grant > 0 {
      ExtendedSettles(h, grant, size, req);
    }
  }

  lemma {:induction false} MallocSettles(h: Heap, req: nat, grant: nat)
    requires Settled(h) && req + ALIGNMENT + ALIGN_INFO + 2 * HEADER < WORD
    requires grant > 0 ==> ApartFrom(Spans(h.majors), Region(grant, PagesFor(req + ALIGNMENT + ALIGN_INFO) * PAGE))
    ensures Settled(Malloced(h, req, grant))
  {
    hide Inv, Served, BestBet;
    ServedSettles(h, req, grant);
    BestLive(h, req, grant);
    BestSettles(Served(h, req, grant), BestBet(h, req, grant));
  }

  lemma {:induction false} NextSettles(h: Heap, op: Op)
    requires Settled(h) && Asks(h, op)
    ensures Settled(Next(h, op))
  {
    hide Settled, Malloced, Drop;
    match op
    case Get(req, grant) => MallocSettles(h, req, grant);
    case Give(i, j) => DropSettles(h, i, j);
  }

  lemma {:induction false} RunSettles(h: Heap, ops: seq<Op>)
    requires Settled(h) && AsksAll(h, ops)
    ensures Settled(Run(h, ops))
    decreases |ops|
  {
    if ops != [] {
      NextSettles(h, ops[0]);
      RunSettles(Next(h, ops[0]), ops[1..]);
    }
  }

  function Boot(): (h: Heap) { Heap([], 0, 0, 0, Mem(map[], map[])) }

  // What holds of minor j of major i: the major holds its minors in address order, disjoint and inside, its
  // usage is its header plus theirs, both totals are true sums, l_bestBet is null or live, and the pointer is
  // aligned, holds its bytes inside its own minor, and leads back to it.
  ghost predicate Sound(h: Heap, i: nat, j: nat)
    requires i < |h.majors| && j < |h.majors[i].minors|
  {
    var m, n := h.majors[i], h.majors[i].minors[j];
    && Packed(m.minors, m.Low(), m.High()) && m.usage == HEADER + Used(m.minors)
    && h.inuse == InUse(h.majors) && h.total == Allocated(h.majors)
    && (h.best == 0 || Find(h.majors, h.best) < |h.majors|)
    && Ptr(n.addr) % ALIGNMENT == 0 && n.addr + HEADER <= Ptr(n.addr) && Ptr(n.addr) + n.req <= n.End()
    && Ptr(n.addr) - ALIGN_INFO in h.mem.align && Unaligned(h.mem, Ptr(n.addr)) - HEADER == n.addr
  }

  lemma {:induction false} SettledSound(h: Heap, i: nat, j: nat)
    requires Settled(h) && i < |h.majors| && j < |h.majors[i].minors|
    ensures Sound(h, i, j)
  {
    var m := h.majors[i];
    GoodAt(h.mem, h.majors, i);
    TaggedAt(h.mem, m.minors, m.base, j);
    UnalignedPtr(h.mem, m.minors[j], m.base);
    PtrInside(m.minors[j]);
  }

  // Every minor of every reachable heap is sound.
  lemma {:induction false} HeapRun(ops: seq<Op>, i: nat, j: nat)
    requires AsksAll(Boot(), ops)
    requires i < |Run(Boot(), ops).majors| && j < |Run(Boot(), ops).majors[i].minors|
    ensures Sound(Run(Boot(), ops), i, j)
  {
    hide Settled, Sound, AsksAll, Run;
    BootSettled();
    RunSettles(Boot(), ops);
    SettledSound(Run(Boot(), ops), i, j);
  }

  lemma BootSettled()
    ensures Settled(Boot())
  {
  }
}
