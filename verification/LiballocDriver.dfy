// vm/liballoc.c itself: the records of majors and minors, the pointers between them, and the operations
// that change both in place, proved to keep the lists of Liballoc.

module LiballocDriver {
  import opened Common
  import Regions
  import opened Liballoc

  // ---------- doubly linked lists in memory ----------

  // struct liballoc_major and struct liballoc_minor; magic and block are in Liballoc.Mem.
  datatype Rec =
    | MajorRec(prev: nat, next: nat, pages: nat, usage: nat, first: nat)
    | MinorRec(prev: nat, next: nat, size: nat, req: nat)

  type Cells = map<nat, Rec>

  function AtOr0(xs: seq<nat>, i: int): (x: nat) { if 0 <= i < |xs| then xs[i] else 0 }

  predicate LinkedAt(cells: Cells, xs: seq<nat>, i: nat)
    requires i < |xs|
  {
    && xs[i] != 0 && xs[i] in cells
    && cells[xs[i]].prev == AtOr0(xs, i - 1) && cells[xs[i]].next == AtOr0(xs, i + 1)
  }

  // The records at xs form a list in that order.
  predicate Linked(cells: Cells, xs: seq<nat>) {
    Distinct(xs) && forall i: nat :: i < |xs| ==> LinkedAt(cells, xs, i)
  }

  function SetNext(cells: Cells, p: nat, a: nat): (r: Cells) {
    if p in cells then cells[p := cells[p].(next := a)] else cells
  }

  function SetPrev(cells: Cells, n: nat, a: nat): (r: Cells) {
    if n in cells then cells[n := cells[n].(prev := a)] else cells
  }

  // a goes between p and n.
  function Hook(cells: Cells, a: nat, rec: Rec): (r: Cells) {
    SetPrev(SetNext(cells[a := rec], rec.prev, a), rec.next, a)
  }

  // The record at a is taken out.
  function Unhook(cells: Cells, a: nat): (r: Cells)
    requires a in cells
  {
    var p, n := cells[a].prev, cells[a].next;
    SetNext(SetPrev(cells, n, p), p, n)
  }

  lemma DifferentInsert(xs: seq<nat>, j: nat, a: nat)
    requires Distinct(xs) && j <= |xs| && a !in xs
    ensures Distinct(xs[..j] + [a] + xs[j..])
  {
    var r := xs[..j] + [a] + xs[j..];
    forall i, k | 0 <= i < k < |r|
      ensures r[i] != r[k]
    {
      assert i != j ==> r[i] == xs[if i < j then i else i - 1];
      assert k != j ==> r[k] == xs[if k < j then k else k - 1];
    }
  }

  lemma DifferentRemove(xs: seq<nat>, j: nat)
    requires Distinct(xs) && j < |xs|
    ensures Distinct(xs[..j] + xs[j + 1..])
  {
    var r := xs[..j] + xs[j + 1..];
    forall i, k | 0 <= i < k < |r|
      ensures r[i] != r[k]
    {
      assert r[i] == xs[if i < j then i else i + 1] && r[k] == xs[if k < j then k else k + 1];
    }
  }

  lemma AtOr0In(cells: Cells, xs: seq<nat>, i: int)
    requires Linked(cells, xs)
    ensures AtOr0(xs, i) == 0 <==> !(0 <= i < |xs|)
    ensures AtOr0(xs, i) != 0 ==> AtOr0(xs, i) in cells
  {
    if 0 <= i < |xs| { assert LinkedAt(cells, xs, i); }
  }

  lemma HookAt(cells: Cells, xs: seq<nat>, j: nat, a: nat, rec: Rec, i: nat)
    requires Linked(cells, xs) && j <= |xs| && a !in xs && a != 0 && 0 !in cells && i <= |xs|
    requires rec.prev == AtOr0(xs, j - 1) && rec.next == AtOr0(xs, j)
    ensures LinkedAt(Hook(cells, a, rec), xs[..j] + [a] + xs[j..], i)
  {
    var r := xs[..j] + [a] + xs[j..];
    AtOr0In(cells, xs, j - 1);
    AtOr0In(cells, xs, j);
    if i != j {
      var o := if i < j then i else i - 1;
      assert LinkedAt(cells, xs, o) && r[i] == xs[o];
      assert i != j - 1 ==> AtOr0(r, i + 1) == AtOr0(xs, o + 1);
      assert i != j + 1 ==> AtOr0(r, i - 1) == AtOr0(xs, o - 1);
    }
  }

  // Hooking a in at position j gives the list with a there.
  lemma HookLinked(cells: Cells, xs: seq<nat>, j: nat, a: nat, rec: Rec)
    requires Linked(cells, xs) && j <= |xs| && a !in xs && a != 0 && 0 !in cells
    requires rec.prev == AtOr0(xs, j - 1) && rec.next == AtOr0(xs, j)
    ensures Linked(Hook(cells, a, rec), xs[..j] + [a] + xs[j..])
  {
    hide LinkedAt, Hook;
    DifferentInsert(xs, j, a);
    var q, r := Hook(cells, a, rec), xs[..j] + [a] + xs[j..];
    forall i: nat | i < |r|
      ensures LinkedAt(q, r, i)
    {
      HookAt(cells, xs, j, a, rec, i);
    }
  }

  lemma UnhookAt(cells: Cells, xs: seq<nat>, j: nat, i: nat)
    requires Linked(cells, xs) && j < |xs| && 0 !in cells && i < |xs| - 1
    ensures xs[j] in cells && LinkedAt(Unhook(cells, xs[j]), xs[..j] + xs[j + 1..], i)
  {
    var r := xs[..j] + xs[j + 1..];
    assert LinkedAt(cells, xs, j);
    AtOr0In(cells, xs, j - 1);
    AtOr0In(cells, xs, j + 1);
    var o := if i < j then i else i + 1;
    assert LinkedAt(cells, xs, o) && r[i] == xs[o];
    assert i != j - 1 ==> AtOr0(r, i + 1) == AtOr0(xs, o + 1);
    assert i != j ==> AtOr0(r, i - 1) == AtOr0(xs, o - 1);
  }

  // Unhooking the record at position j gives the list without it.
  lemma UnhookLinked(cells: Cells, xs: seq<nat>, j: nat)
    requires Linked(cells, xs) && j < |xs| && 0 !in cells
    ensures xs[j] in cells && Linked(Unhook(cells, xs[j]), xs[..j] + xs[j + 1..])
  {
    hide Unhook;
    assert LinkedAt(cells, xs, j);
    DifferentRemove(xs, j);
    var q, r := Unhook(cells, xs[j]), xs[..j] + xs[j + 1..];
    forall i: nat | i < |r|
      ensures LinkedAt(q, r, i)
    {
      UnhookAt(cells, xs, j, i);
    }
  }

  predicate SameLinks(cells: Cells, q: Cells, x: nat) {
    x in cells ==> x in q && q[x].prev == cells[x].prev && q[x].next == cells[x].next
  }

  lemma LinkedAgree(cells: Cells, q: Cells, xs: seq<nat>)
    requires Linked(cells, xs) && forall i :: 0 <= i < |xs| ==> SameLinks(cells, q, xs[i])
    ensures Linked(q, xs)
  {
    forall i: nat | i < |xs|
      ensures LinkedAt(q, xs, i)
    {
      assert LinkedAt(cells, xs, i);
    }
  }

  // ---------- the image of a heap ----------

  function Addrs(ms: seq<Minor>): (xs: seq<nat>)
    ensures |xs| == |ms| && forall j :: 0 <= j < |ms| ==> xs[j] == ms[j].addr
  {
    seq(|ms|, j requires 0 <= j < |ms| => ms[j].addr)
  }

  function Bases(majors: seq<Major>): (xs: seq<nat>)
    ensures |xs| == |majors| && forall i :: 0 <= i < |majors| ==> xs[i] == majors[i].base
  {
    seq(|majors|, i requires 0 <= i < |majors| => majors[i].base)
  }

  predicate MinorShown(cells: Cells, m: Minor) {
    m.addr in cells && cells[m.addr].MinorRec? && cells[m.addr].size == m.size && cells[m.addr].req == m.req
  }

  predicate HeadShown(cells: Cells, m: Major) {
    && m.base in cells && cells[m.base].MajorRec? && cells[m.base].pages == m.pages && cells[m.base].usage == m.usage
    && cells[m.base].first == AtOr0(Addrs(m.minors), 0)
  }

  predicate MajorShown(cells: Cells, m: Major) {
    && HeadShown(cells, m) && Linked(cells, Addrs(m.minors))
    && forall j :: 0 <= j < |m.minors| ==> MinorShown(cells, m.minors[j])
  }

  // The records and pointers in memory make up the majors and minors of the list.
  predicate Shows(root: nat, cells: Cells, majors: seq<Major>) {
    && 0 !in cells && root == AtOr0(Bases(majors), 0) && Linked(cells, Bases(majors))
    && forall i :: 0 <= i < |majors| ==> MajorShown(cells, majors[i])
  }

  predicate AgreeOutside(cells: Cells, q: Cells, lo: nat, hi: nat) {
    forall x :: x in cells && !(lo <= x < hi) ==> x in q && q[x] == cells[x]
  }

  lemma ShownFrame(mem: Mem, cells: Cells, q: Cells, m: Major, lo: nat, hi: nat)
    requires Good(mem, m) && MajorShown(cells, m) && AgreeOutside(cells, q, lo, hi) && (hi <= m.base || m.High() <= lo)
    ensures MajorShown(q, m)
  {
    forall j | 0 <= j < |m.minors|
      ensures m.minors[j].addr in cells && q.Keys >= {m.minors[j].addr}
      ensures q[m.minors[j].addr] == cells[m.minors[j].addr]
    {
      InBounds(m.minors, m.Low(), m.High(), j);
      assert MinorShown(cells, m.minors[j]);
    }
    LinkedAgree(cells, q, Addrs(m.minors));
  }

  // ---------- one minor more or less ----------

  // The fields of a major record that change with its minors.
  function SetHead(cells: Cells, base: nat, first: nat, usage: nat): (r: Cells) {
    if base in cells && cells[base].MajorRec? then cells[base := cells[base].(first := first, usage := usage)]
        else cells
  }

  function SetFirst(cells: Cells, base: nat, first: nat): (r: Cells) {
    if base in cells && cells[base].MajorRec? then cells[base := cells[base].(first := first)] else cells
  }

  function SetUsage(cells: Cells, base: nat, usage: nat): (r: Cells) {
    if base in cells && cells[base].MajorRec? then cells[base := cells[base].(usage := usage)] else cells
  }

  // The orders in which the code makes these assignments.
  lemma HeadOrder(cells: Cells, base: nat, first: nat, usage: nat)
    ensures SetUsage(SetFirst(cells, base, first), base, usage) == SetHead(cells, base, first, usage)
  {
  }

  lemma UsageOrder(cells: Cells, base: nat, usage: nat)
    requires base in cells && cells[base].MajorRec?
    ensures SetUsage(cells, base, usage) == SetHead(cells, base, cells[base].first, usage)
  {
  }

  lemma FrontOrder(cells: Cells, a: nat, rec: Rec)
    requires 0 !in cells && rec.prev == 0 && a != 0 && (rec.next == 0 || (a != rec.next && rec.next in cells))
    ensures SetPrev(cells, rec.next, a)[a := rec] == Hook(cells, a, rec)
  {
  }

  lemma LastOrder(cells: Cells, a: nat, rec: Rec)
    requires 0 !in cells && rec.next == 0 && a != 0 && a != rec.prev && rec.prev in cells
    ensures SetNext(cells, rec.prev, a)[a := rec] == Hook(cells, a, rec)
  {
  }

  lemma BetweenOrder(cells: Cells, a: nat, rec: Rec)
    requires a != rec.prev && a != rec.next && rec.prev != rec.next
    ensures SetNext(SetPrev(cells[a := rec], rec.next, a), rec.prev, a) == Hook(cells, a, rec)
  {
  }

  // kheap_free changes usage first.
  lemma UnhookOrder(cells: Cells, base: nat, usage: nat, a: nat)
    requires 0 !in cells && a in cells && base in cells && cells[base].MajorRec?
    requires a != base && cells[a].prev != base && cells[a].next != base
    ensures var q, p, n := SetUsage(cells, base, usage), cells[a].prev, cells[a].next;
            && SetNext(SetPrev(q, n, p), p, n) == SetUsage(Unhook(cells, a), base, usage)
            && Unhook(cells, a)[base] == cells[base] && 0 !in q
  {
  }

  // CASES 2, 3, 4.1 and 4.2: a new minor at a, between p and n, either of which may be null.
  function LinkMinor(cells: Cells, m: Major, a: nat, p: nat, n: nat, size: nat, req: nat): (r: Cells) {
    SetHead(Hook(cells, a, MinorRec(p, n, size, req)), m.base,
            if p == 0 then a else AtOr0(Addrs(m.minors), 0), m.usage + size + HEADER)
  }

  // kheap_free: the minor at a goes.
  function UnlinkMinor(cells: Cells, m: Major, a: nat, usage: nat): (r: Cells)
    requires a in cells
  {
    SetHead(Unhook(cells, a), m.base, if cells[a].prev == 0 then cells[a].next else AtOr0(Addrs(m.minors), 0), usage)
  }

  lemma {:induction false} AvoidsAddr(ms: seq<Minor>, x: nat, j: nat)
    requires Avoids(ms, x) && j < |ms|
    ensures x != ms[j].addr
  {
    if j > 0 { AvoidsAddr(ms[1..], x, j - 1); }
  }

  // Only addresses of this major's minors are touched besides its record.
  lemma AddrsInside(mem: Mem, m: Major, i: int)
    requires Good(mem, m)
    ensures AtOr0(Addrs(m.minors), i) == 0 || m.Low() <= AtOr0(Addrs(m.minors), i) < m.High()
    ensures m.base !in Addrs(m.minors)
  {
    forall j | 0 <= j < |m.minors|
      ensures m.Low() <= m.minors[j].addr < m.High()
    {
      InBounds(m.minors, m.Low(), m.High(), j);
    }
  }

  // A change inside major i, to records that make up f, shows in the whole heap.
  lemma UpdateShows(h: Heap, root: nat, cells: Cells, q: Cells, i: nat, f: Major)
    requires Inv(h) && Shows(root, cells, h.majors) && i < |h.majors| && f.base == h.majors[i].base
    requires MajorShown(q, f) && AgreeOutside(cells, q, f.base, h.majors[i].High()) && SameLinks(cells, q, f.base)
    requires 0 !in q
    ensures Shows(root, q, h.majors[i := f])
  {
    hide MajorShown, Good, Inv;
    var majors := h.majors[i := f];
    forall k | 0 <= k < |majors|
      ensures MajorShown(q, majors[k]) && SameLinks(cells, q, majors[k].base)
    {
      if k != i {
        SpanFrame(h, i, k);
        ShownFrame(h.mem, cells, q, h.majors[k], f.base, h.majors[i].High());
      }
    }
    assert Bases(majors) == Bases(h.majors);
    LinkedAgree(cells, q, Bases(majors));
  }

  // Two majors do not overlap.
  lemma SpanFrame(h: Heap, i: nat, k: nat)
    requires Inv(h) && i < |h.majors| && k < |h.majors| && i != k
    ensures Good(h.mem, h.majors[i]) && Good(h.mem, h.majors[k]) && h.majors[k].base != h.majors[i].base
    ensures h.majors[i].High() <= h.majors[k].base || h.majors[k].High() <= h.majors[i].base
  {
    GoodAt(h.mem, h.majors, i);
    GoodAt(h.mem, h.majors, k);
    if i < k { SpansApart(h.mem, h.majors, i, k); } else { SpansApart(h.mem, h.majors, k, i); }
  }

  // The new minor in its own major.
  lemma LinkInside(mem: Mem, cells: Cells, m: Major, j: nat, size: nat, req: nat)
    requires Good(mem, m) && MajorShown(cells, m) && 0 !in cells && j <= |m.minors|
    requires Gap(m.minors, m.Low(), m.High(), j) >= size + HEADER
    ensures var a, xs := Start(m.minors, m.Low(), j), Addrs(m.minors);
            var q := LinkMinor(cells, m, a, AtOr0(xs, j - 1), AtOr0(xs, j), size, req);
            && MajorShown(q, m.(usage := m.usage + size + HEADER, minors := Place(m.minors, m.Low(), j, size, req)))
            && AgreeOutside(cells, q, m.base, m.High()) && SameLinks(cells, q, m.base) && 0 !in q
  {
    hide Packed, AllTagged, Used, Linked, Gap, Start, Hook;
    var ms, lo, hi, xs := m.minors, m.Low(), m.High(), Addrs(m.minors);
    var a, p, n := Start(ms, lo, j), AtOr0(xs, j - 1), AtOr0(xs, j);
    GapAddress(mem, m, j, size + HEADER);
    AddrsInside(mem, m, j - 1);
    AddrsInside(mem, m, j);
    HookLinked(cells, xs, j, a, MinorRec(p, n, size, req));
    var c := Hook(cells, a, MinorRec(p, n, size, req));
    var q := LinkMinor(cells, m, a, p, n, size, req);
    HookFrame(cells, a, MinorRec(p, n, size, req));
    var f := m.(usage := m.usage + size + HEADER, minors := Place(ms, lo, j, size, req));
    PlaceAddrs(ms, lo, j, size, req);
    AtOr0In(cells, xs, j - 1);
    LinkedAgree(c, q, Addrs(f.minors));
    forall k | 0 <= k < |f.minors|
      ensures MinorShown(q, f.minors[k])
    {
      if k != j { assert MinorShown(cells, ms[if k < j then k else k - 1]); }
      assert f.minors[k].addr != m.base;
    }
  }

  // What Hook leaves alone, and what it keeps of the records it changes.
  lemma HookFrame(cells: Cells, a: nat, rec: Rec)
    requires 0 !in cells && a != 0 && a != rec.prev && a != rec.next
    ensures var q := Hook(cells, a, rec);
            && 0 !in q && a in q && q[a].MinorRec? == rec.MinorRec?
            && (rec.MinorRec? ==> q[a].size == rec.size && q[a].req == rec.req)
            && (forall x :: x in cells && x != a && x != rec.prev && x != rec.next ==> x in q && q[x] == cells[x])
            && (forall x :: x in cells && x != a && cells[x].MinorRec? ==>
                  x in q && q[x].MinorRec? && q[x].size == cells[x].size && q[x].req == cells[x].req)
            && (forall x :: x in cells && x != a && cells[x].MajorRec? ==>
                  x in q && q[x].MajorRec? && q[x].pages == cells[x].pages && q[x].usage == cells[x].usage
                  && q[x].first == cells[x].first)
            && (rec.MajorRec? ==> q[a].pages == rec.pages && q[a].usage == rec.usage && q[a].first == rec.first)
  {
  }

  // The place of a new minor is inside the major and not one of its headers.
  lemma GapAddress(mem: Mem, m: Major, j: nat, need: nat)
    requires Good(mem, m) && j <= |m.minors| && Gap(m.minors, m.Low(), m.High(), j) >= need >= HEADER
    ensures var a := Start(m.minors, m.Low(), j);
            a !in Addrs(m.minors) && m.Low() <= a < m.High() && a != 0
  {
    var ms, lo, hi := m.minors, m.Low(), m.High();
    var a := Start(ms, lo, j);
    GapAvoids(ms, lo, hi, j, a);
    StartAbove(ms, lo, hi, j);
    if j < |ms| { InBounds(ms, lo, hi, j); }
    forall k | 0 <= k < |ms|
      ensures a != ms[k].addr
    {
      AvoidsAddr(ms, a, k);
    }
  }

  lemma PlaceAddrs(ms: seq<Minor>, lo: nat, j: nat, size: nat, req: nat)
    requires j <= |ms|
    ensures var a, xs := Start(ms, lo, j), Addrs(ms);
            Addrs(Place(ms, lo, j, size, req)) == xs[..j] + [a] + xs[j..]
  {
  }

  lemma CutAddrs(ms: seq<Minor>, j: nat)
    requires j < |ms|
    ensures Addrs(Cut(ms, j)) == Addrs(ms)[..j] + Addrs(ms)[j + 1..]
  {
  }

  // What Unhook leaves alone, and what it keeps of the records it changes.
  lemma UnhookFrame(cells: Cells, a: nat)
    requires 0 !in cells && a in cells
    ensures var q, p, n := Unhook(cells, a), cells[a].prev, cells[a].next;
            && 0 !in q && q.Keys == cells.Keys
            && (forall x :: x in cells && x != p && x != n ==> q[x] == cells[x])
            && (forall x :: x in cells && cells[x].MinorRec? ==>
                  q[x].MinorRec? && q[x].size == cells[x].size && q[x].req == cells[x].req)
            && (forall x :: x in cells && cells[x].MajorRec? ==>
                  q[x].MajorRec? && q[x].pages == cells[x].pages && q[x].usage == cells[x].usage &&
                      q[x].first == cells[x].first)
  {
  }

  // A minor less in its own major.
  lemma UnlinkInside(mem: Mem, cells: Cells, m: Major, j: nat)
    requires Good(mem, m) && MajorShown(cells, m) && 0 !in cells && j < |m.minors|
    requires m.usage >= m.minors[j].size + HEADER
    ensures m.minors[j].addr in cells
    ensures var e := Emptied(m, j);
            var q := UnlinkMinor(cells, m, m.minors[j].addr, e.usage);
            MajorShown(q, e) && AgreeOutside(cells, q, m.base, m.High()) && SameLinks(cells, q, m.base) && 0 !in q
  {
    hide Packed, AllTagged, Used, Linked, Unhook;
    var ms, xs, a := m.minors, Addrs(m.minors), m.minors[j].addr;
    assert MinorShown(cells, ms[j]);
    LinksOf(cells, xs, j);
    AddrsInside(mem, m, j - 1);
    AddrsInside(mem, m, j + 1);
    UnhookLinked(cells, xs, j);
    UnhookFrame(cells, a);
    var c, e := Unhook(cells, a), Emptied(m, j);
    var q := UnlinkMinor(cells, m, a, e.usage);
    CutAddrs(ms, j);
    AtOr0In(cells, xs, j - 1);
    LinkedAgree(c, q, Addrs(e.minors));
    forall k | 0 <= k < |e.minors|
      ensures MinorShown(q, e.minors[k])
    {
      assert MinorShown(cells, ms[if k < j then k else k + 1]);
    }
  }

  lemma LinksOf(cells: Cells, xs: seq<nat>, j: nat)
    requires Linked(cells, xs) && j < |xs|
    ensures xs[j] in cells && cells[xs[j]].prev == AtOr0(xs, j - 1) && cells[xs[j]].next == AtOr0(xs, j + 1)
    ensures xs[j] != 0
  {
    assert LinkedAt(cells, xs, j);
  }

  // Malloc and free inside one major, on the whole heap.
  lemma LinkShows(h: Heap, root: nat, cells: Cells, i: nat, size: nat, req: nat)
    requires Inv(h) && Shows(root, cells, h.majors) && i < |h.majors| && Fits(h.majors[i], size + HEADER)
    ensures var m := h.majors[i];
            var j, xs := FirstGap(m.minors, m.Low(), m.High(), size + HEADER), Addrs(m.minors);
            Shows(root, LinkMinor(cells, m, FillAddr(m, size), AtOr0(xs, j - 1), AtOr0(xs, j), size, req),
                  h.majors[i := Filled(m, size, req)])
  {
    hide MajorShown, Good, Inv, LinkMinor;
    var m := h.majors[i];
    var j: int, xs := FirstGap(m.minors, m.Low(), m.High(), size + HEADER), Addrs(m.minors);
    MajorGood(h, i);
    FirstGapIs(m.minors, m.Low(), m.High(), size + HEADER);
    LinkInside(h.mem, cells, m, j, size, req);
    UpdateShows(h, root, cells, LinkMinor(cells, m, FillAddr(m, size), AtOr0(xs, j - 1), AtOr0(xs, j), size, req),
                i, Filled(m, size, req));
  }

  lemma MajorGood(h: Heap, i: nat)
    requires Inv(h) && i < |h.majors|
    ensures Good(h.mem, h.majors[i])
  {
    GoodAt(h.mem, h.majors, i);
  }

  lemma UnlinkShows(h: Heap, root: nat, cells: Cells, i: nat, j: nat)
    requires Inv(h) && Shows(root, cells, h.majors) && i < |h.majors| && j < |h.majors[i].minors|
    requires h.majors[i].usage >= h.majors[i].minors[j].size + HEADER
    ensures h.majors[i].minors[j].addr in cells
    ensures var m := h.majors[i];
            var e := Emptied(m, j);
            Shows(root, UnlinkMinor(cells, m, m.minors[j].addr, e.usage), h.majors[i := e])
  {
    hide MajorShown, Good, Inv, UnlinkMinor;
    var m := h.majors[i];
    MajorGood(h, i);
    UnlinkInside(h.mem, cells, m, j);
    UpdateShows(h, root, cells, UnlinkMinor(cells, m, m.minors[j].addr, Emptied(m, j).usage), i, Emptied(m, j));
  }

  // ---------- one major more or less ----------

  // allocate_new_page and the pointers to the new major, which comes after `last` (or is the root).
  function LinkMajor(cells: Cells, last: nat, base: nat, pages: nat): (r: Cells) {
    Hook(cells, base, MajorRec(last, 0, pages, HEADER, 0))
  }

  // A major goes, and its memory with it.
  function UnlinkMajor(cells: Cells, m: Major): (r: Cells)
    requires m.base in cells
  {
    var c := Unhook(cells, m.base);
    map x | x in c && !(m.base <= x < m.High()) :: c[x]
  }

  // No record of the heap lies in a range apart from the majors.
  lemma ApartBases(h: Heap, y: Regions.Region, i: nat)
    requires Inv(h) && Regions.ApartFrom(Spans(h.majors), y) && y.size >= 1 && i < |h.majors|
    ensures Good(h.mem, h.majors[i]) && (y.End() <= h.majors[i].base || h.majors[i].High() <= y.addr)
    ensures h.majors[i].base != y.addr
  {
    GoodAt(h.mem, h.majors, i);
    Regions.ApartAt(Spans(h.majors), y, i);
  }

  lemma MinorNotBase(h: Heap, k: nat, j: nat)
    requires Inv(h) && k < |h.majors| && j < |h.majors[k].minors|
    ensures h.majors[k].minors[j].addr !in Bases(h.majors)
  {
    GoodAt(h.mem, h.majors, k);
    InBounds(h.majors[k].minors, h.majors[k].Low(), h.majors[k].High(), j);
    forall i | 0 <= i < |h.majors|
      ensures h.majors[k].minors[j].addr != h.majors[i].base
    {
      if i != k { SpanFrame(h, k, i); }
    }
  }

  lemma GrownShows(h: Heap, root: nat, cells: Cells, base: nat, pages: nat)
    requires Inv(h) && Shows(root, cells, h.majors) && base > 0 && pages >= 1
    requires Regions.ApartFrom(Spans(h.majors), Regions.Region(base, pages * PAGE))
    ensures var last := AtOr0(Bases(h.majors), |h.majors| - 1);
            Shows(if last == 0 then base else root, LinkMajor(cells, last, base, pages), Grown(h, base, pages).majors)
  {
    hide Inv, MajorShown, Good, Linked, Spans;
    var xs, n := Bases(h.majors), |h.majors|;
    var last := AtOr0(xs, n - 1);
    var rec := MajorRec(last, 0, pages, HEADER, 0);
    var q, majors := LinkMajor(cells, last, base, pages), Grown(h, base, pages).majors;
    forall i | 0 <= i < n
      ensures xs[i] != base
    {
      ApartBases(h, Regions.Region(base, pages * PAGE), i);
    }
    AtOr0In(cells, xs, n - 1);
    HookLinked(cells, xs, n, base, rec);
    assert Bases(majors) == xs[..n] + [base] + xs[n..];
    HookFrame(cells, base, rec);
    forall k | 0 <= k < |majors|
      ensures MajorShown(q, majors[k])
    {
      if k < n { GrownOther(h, cells, base, pages, rec, k); } else { FreshShown(q, base, pages); }
    }
  }

  lemma FreshShown(q: Cells, base: nat, pages: nat)
    requires base in q && q[base].MajorRec? && q[base].pages == pages && q[base].usage == HEADER && q[base].first == 0
    ensures MajorShown(q, Fresh(base, pages))
  {
  }

  lemma GrownOther(h: Heap, cells: Cells, base: nat, pages: nat, rec: Rec, k: nat)
    requires Inv(h) && k < |h.majors| && MajorShown(cells, h.majors[k]) && base > 0 && pages >= 1 && 0 !in cells
    requires Regions.ApartFrom(Spans(h.majors), Regions.Region(base, pages * PAGE)) && rec.next == 0
    requires rec.prev in Bases(h.majors) || rec.prev == 0
    ensures MajorShown(Hook(cells, base, rec), h.majors[k])
  {
    hide Inv, Linked, Spans, Hook;
    var q, m := Hook(cells, base, rec), h.majors[k];
    var y := Regions.Region(base, pages * PAGE);
    ApartBases(h, y, k);
    if rec.prev != 0 {
      var i :| 0 <= i < |h.majors| && h.majors[i].base == rec.prev;
      ApartBases(h, y, i);
    }
    HookFrame(cells, base, rec);
    forall j | 0 <= j < |m.minors|
      ensures MinorShown(q, m.minors[j]) && SameLinks(cells, q, m.minors[j].addr)
    {
      assert MinorShown(cells, m.minors[j]);
      MinorNotBase(h, k, j);
      InBounds(m.minors, m.Low(), m.High(), j);
    }
    LinkedAgree(cells, q, Addrs(m.minors));
  }

  lemma DroppedShows(h: Heap, root: nat, cells: Cells, i: nat)
    requires Inv(h) && Shows(root, cells, h.majors) && i < |h.majors|
    ensures h.majors[i].base in cells
    ensures var m := h.majors[i];
            Shows(if root == m.base then cells[m.base].next else root, UnlinkMajor(cells, m), Without(h.majors, i))
  {
    hide Inv, MajorShown, Good, Linked, Unhook;
    var m, xs := h.majors[i], Bases(h.majors);
    LinksOf(cells, xs, i);
    UnhookLinked(cells, xs, i);
    UnhookFrame(cells, m.base);
    var c, q, majors := Unhook(cells, m.base), UnlinkMajor(cells, m), Without(h.majors, i);
    assert Bases(majors) == xs[..i] + xs[i + 1..];
    forall k | 0 <= k < |majors|
      ensures MajorShown(q, majors[k]) && SameLinks(c, q, majors[k].base)
    {
      var o := if k < i then k else k + 1;
      DroppedOther(h, cells, i, o);
    }
    LinkedAgree(c, q, Bases(majors));
    RootIs(cells, xs, i);
  }

  lemma RootIs(cells: Cells, xs: seq<nat>, i: nat)
    requires Linked(cells, xs) && i < |xs|
    ensures xs[i] in cells
    ensures (if xs[0] == xs[i] then cells[xs[i]].next else xs[0]) == AtOr0(xs[..i] + xs[i + 1..], 0)
  {
    LinksOf(cells, xs, i);
  }

  lemma DroppedOther(h: Heap, cells: Cells, i: nat, k: nat)
    requires Inv(h) && i < |h.majors| && k < |h.majors| && i != k && 0 !in cells && Linked(cells, Bases(h.majors))
    requires MajorShown(cells, h.majors[k]) && MajorShown(cells, h.majors[i])
    ensures MajorShown(UnlinkMajor(cells, h.majors[i]), h.majors[k])
    ensures SameLinks(Unhook(cells, h.majors[i].base), UnlinkMajor(cells, h.majors[i]), h.majors[k].base)
  {
    hide Inv, Linked, Unhook;
    var m, n := h.majors[i], h.majors[k];
    var q, c := UnlinkMajor(cells, m), Unhook(cells, m.base);
    SpanFrame(h, i, k);
    UnhookFrame(cells, m.base);
    BaseLinks(h, cells, i);
    forall j | 0 <= j < |n.minors|
      ensures MinorShown(q, n.minors[j]) && SameLinks(cells, q, n.minors[j].addr)
    {
      assert MinorShown(cells, n.minors[j]);
      MinorNotBase(h, k, j);
      InBounds(n.minors, n.Low(), n.High(), j);
    }
    LinkedAgree(cells, q, Addrs(n.minors));
  }

  // The neighbours of a major are majors.
  lemma BaseLinks(h: Heap, cells: Cells, i: nat)
    requires i < |h.majors| && Linked(cells, Bases(h.majors))
    ensures var b := h.majors[i].base;
            && b in cells && (cells[b].prev == 0 || cells[b].prev in Bases(h.majors))
            && (cells[b].next == 0 || cells[b].next in Bases(h.majors))
  {
    LinksOf(cells, Bases(h.majors), i);
  }

  // The lowest byte of a word is that of its two, or its three, lowest bytes.
  lemma LowByte(x: nat)
    ensures x % 0x10000 % 0x100 == x % 0x100 && x % 0x1000000 % 0x100 == x % 0x100
  {
    var r, t := x % 0x10000, x % 0x1000000;
    assert x == 0x100 * (0x100 * (x / 0x10000) + r / 0x100) + r % 0x100;
    assert x == 0x100 * (0x10000 * (x / 0x1000000) + t / 0x100) + t % 0x100;
  }

  // ---------- the code ----------

  class KernelHeap {
    var root: nat  // l_memRoot
    var best: nat  // l_bestBet
    var cells: Cells
    var mem: Mem
    var inuse: int
    var total: int
    var warnings: nat
    var errors: nat
    var overruns: nat
    ghost var heap: Heap

    // The memory holds the heap.
    ghost predicate Synced()
      reads this
    {
      && Inv(heap) && Shows(root, cells, heap.majors) && best == heap.best && mem == heap.mem
      && inuse == heap.inuse && total == heap.total
    }

    ghost predicate Valid()
      reads this
    {
      Synced() && NoneEmpty(heap.majors)
    }

    constructor ()
      ensures Valid() && heap == Boot() && heap.majors == [] && root == 0 && best == 0 && inuse == 0 && total == 0
    {
      root, best, cells, mem, inuse, total := 0, 0, map[], Mem(map[], map[]), 0, 0;
      warnings, errors, overruns := 0, 0, 0;
      heap := Boot();
    }

    // CASES 2 and 3: space in front of the minors, if there are any.
    method PlaceFront(maj: nat, size: nat, req: nat, ghost m: Major) returns (a: nat)
      requires maj == m.base && HeadShown(cells, m) && 0 !in cells
      requires m.minors != [] ==> m.minors[0].addr in cells && m.minors[0].addr !in {0, maj, maj + HEADER}
      modifies this`cells
      ensures a == maj + HEADER && cells == LinkMinor(old(cells), m, a, 0, AtOr0(Addrs(m.minors), 0), size, req)
    {
      hide SetNext, SetPrev, SetHead, SetFirst, SetUsage, Hook;
      a := maj + HEADER;
      var usage, f := cells[maj].usage, cells[maj].first;
      if f != 0 {
        FrontOrder(cells, a, MinorRec(0, f, size, req));
        cells := SetPrev(cells, f, a);
      } else {
        LoneOrder(cells, a, MinorRec(0, 0, size, req));
      }
      cells := cells[a := MinorRec(0, f, size, req)];
      HeadOrder(cells, maj, a, usage + size + HEADER);
      cells := SetFirst(cells, maj, a);
      cells := SetUsage(cells, maj, usage + size + HEADER);
    }

    // CASES 4.1 and 4.2: space after min, which is minor k.
    method PlaceAfter(maj: nat, min: nat, size: nat, req: nat, ghost m: Major, ghost k: nat) returns (a: nat)
      requires maj == m.base && HeadShown(cells, m) && Linked(cells, Addrs(m.minors)) && k < |m.minors|
      requires min == m.minors[k].addr && MinorShown(cells, m.minors[k]) && 0 !in cells && maj !in Addrs(m.minors)
      requires var a := min + HEADER + m.minors[k].size; a !in Addrs(m.minors) && a != maj
      modifies this`cells
      ensures a == min + HEADER + m.minors[k].size
      ensures cells == LinkMinor(old(cells), m, a, min, AtOr0(Addrs(m.minors), k + 1), size, req)
    {
      hide SetNext, SetPrev, SetHead, SetFirst, SetUsage, Hook, Linked;
      ghost var xs := Addrs(m.minors);
      LinksOf(cells, xs, k);
      AtOr0In(cells, xs, k + 1);
      NextDiffers(cells, xs, k);
      a := min + HEADER + cells[min].size;
      var usage, n := cells[maj].usage, cells[min].next;
      ghost var rec, was := MinorRec(min, n, size, req), cells;
      if n == 0 {
        LastOrder(cells, a, rec);
        cells := SetNext(cells, min, a);
        cells := cells[a := MinorRec(min, 0, size, req)];
      } else {
        BetweenOrder(cells, a, rec);
        cells := cells[a := MinorRec(min, n, size, req)];
        cells := SetPrev(cells, n, a);
        cells := SetNext(cells, min, a);
      }
      HookFrame(was, a, rec);
      UsageOrder(cells, maj, usage + size + HEADER);
      cells := SetUsage(cells, maj, usage + size + HEADER);
    }

    // The words of the new minor, the offset byte and the total; the minor is in place.
    method Finish(maj: nat, a: nat, size: nat, req: nat, ghost i: nat, ghost was: Cells)
      requires Inv(heap) && Shows(root, was, heap.majors) && best == heap.best && mem == heap.mem
      requires inuse == heap.inuse && total == heap.total
      requires i < |heap.majors| && heap.majors[i].base == maj && size == req + ALIGNMENT + ALIGN_INFO
      requires Fits(heap.majors[i], size + HEADER) && a == FillAddr(heap.majors[i], size)
      requires var m := heap.majors[i];
               var j, xs := FirstGap(m.minors, m.Low(), m.High(), size + HEADER), Addrs(m.minors);
               cells == LinkMinor(was, m, a, AtOr0(xs, j - 1), AtOr0(xs, j), size, req)
      modifies this`mem, this`inuse, this`heap
      ensures Synced() && heap == Put(old(heap), i, size, req)
    {
      hide Inv, Shows, Fits, LinkMinor;
      LinkShows(heap, root, was, i, size, req);
      PutKeeps(heap, i, size, req);
      mem := Mem(mem.align, mem.hdr[a := Hdr(MAGIC, maj)]);
      inuse := inuse + size;
      mem := Mem(mem.align[Ptr(a) - ALIGN_INFO := Ptr(a) - a - HEADER], mem.hdr);
      heap := Put(heap, i, size, req);
    }

    // CASES 2, 3 and 4 on the major at maj: the address of the new minor, or 0 when no gap is large enough.
    method Squeeze(maj: nat, size: nat, req: nat, ghost i: nat) returns (a: nat)
      requires Synced() && i < |heap.majors| && heap.majors[i].base == maj && size == req + ALIGNMENT + ALIGN_INFO
      requires Room(heap.majors[i]) >= size + HEADER
      modifies this`cells, this`mem, this`inuse, this`heap
      ensures Synced()
      ensures if Fits(old(heap).majors[i], size + HEADER)
              then a != 0 && a == FillAddr(old(heap).majors[i], size) && heap == Put(old(heap), i, size, req)
              else a == 0 && heap == old(heap) && cells == old(cells)
    {
      hide Inv, Shows, LinkMinor, FirstGap, Linked, Packed, AllTagged, Used;
      ghost var m := heap.majors[i];
      ghost var was := cells;
      Facts(i);
      FirstGapIs(m.minors, m.Low(), m.High(), size + HEADER);
      if cells[maj].first == 0 || cells[maj].first - maj - HEADER >= size + HEADER {
        if m.minors == [] {
          EmptyGap(heap.mem, m, size + HEADER);
        } else {
          assert MinorShown(cells, m.minors[0]);
          FirstGapUnique(m.minors, m.Low(), m.High(), size + HEADER, 0);
          GapAddress(heap.mem, m, 0, size + HEADER);
        }
        a := PlaceFront(maj, size, req, m);
        assert AtOr0(Addrs(m.minors), -1) == 0;
        Finish(maj, a, size, req, i, was);
        return;
      }
      a := SqueezeAfter(maj, size, req, i);
    }

    // The loop of CASE 4: after the last minor, or between two.
    method SqueezeAfter(maj: nat, size: nat, req: nat, ghost i: nat) returns (a: nat)
      requires Synced() && i < |heap.majors| && heap.majors[i].base == maj && size == req + ALIGNMENT + ALIGN_INFO
      requires var m := heap.majors[i]; m.minors != [] && Gap(m.minors, m.Low(), m.High(), 0) < size + HEADER
      modifies this`cells, this`mem, this`inuse, this`heap
      ensures Synced()
      ensures if Fits(old(heap).majors[i], size + HEADER)
              then a != 0 && a == FillAddr(old(heap).majors[i], size) && heap == Put(old(heap), i, size, req)
              else a == 0 && heap == old(heap) && cells == old(cells)
    {
      hide Inv, Shows, LinkMinor, FirstGap, Linked, Packed, AllTagged, Used;
      ghost var m := heap.majors[i];
      ghost var was, xs, k := cells, Addrs(m.minors), 0;
      Facts(i);
      FirstGapIs(m.minors, m.Low(), m.High(), size + HEADER);
      AtOr0In(cells, xs, 0);
      var min := cells[maj].first;
      while min != 0
        invariant unchanged(this) && 0 <= k <= |xs| && min == AtOr0(xs, k) && (min == 0 <==> k == |xs|)
        invariant forall q :: 0 <= q <= k ==> Gap(m.minors, m.Low(), m.High(), q) < size + HEADER
        decreases |xs| - k
      {
        assert MinorShown(cells, m.minors[k]);
        LinksOf(cells, xs, k);
        AtOr0In(cells, xs, k + 1);
        var end := if cells[min].next == 0 then maj + cells[maj].pages * PAGE else cells[min].next;
        var diff := end - min - HEADER - cells[min].size;
        assert diff == Gap(m.minors, m.Low(), m.High(), k + 1);
        if diff >= size + HEADER {
          FirstGapUnique(m.minors, m.Low(), m.High(), size + HEADER, k + 1);
          GapAddress(heap.mem, m, k + 1, size + HEADER);
          a := PlaceAfter(maj, min, size, req, m, k);
          Finish(maj, a, size, req, i, was);
          return;
        }
        min := cells[min].next;
        k := k + 1;
      }
      return 0;
    }

    // One trip around the loop of kheap_malloc, at major k: maybe remember it, and squeeze the minor in.
    method Look(maj: nat, size: nat, req: nat, room: int, ghost k: nat) returns (a: nat, bs: int)
      requires Synced() && k < |heap.majors| && maj == heap.majors[k].base && size == req + ALIGNMENT + ALIGN_INFO
      modifies this`best, this`cells, this`mem, this`inuse, this`heap
      ensures Synced()
      ensures var h, m := old(heap), old(heap).majors[k];
              var b := Visit(Bet(h.best, room), m);
              && bs == b.room && bs == (if Room(m) > room then Room(m) else room)
              && best == (if Room(m) > room then maj else old(best))
              && (if Fits(m, size + HEADER)
                  then a != 0 && a == FillAddr(m, size) && heap == Put(h, k, size, req).(best := b.base)
                  else a == 0 && heap == h.(best := b.base) && cells == old(cells))
    {
      hide Inv, Shows, Fits, Put, FillAddr, Packed, Used;
      ghost var h := heap;
      RecordOf(k);
      var diff := cells[maj].pages * PAGE - cells[maj].usage;
      bs := room;
      if bs < diff {
        NewBest(heap, k);
        best, bs := maj, diff;
        heap := heap.(best := maj);
      }
      if diff < size + HEADER {
        Skip(h.majors[k], size + HEADER);
        return 0, bs;
      }
      a := Squeeze(maj, size, req, k);
      if a != 0 { PutBest(h, best, k, size, req); }
    }

    // One pass over the majors from the one at start, which is number s. `last` is the last major looked at
    // when none has a gap.
    method Pass(start: nat, size: nat, req: nat, room: int, ghost s: nat) returns (a: nat, bs: int, last: nat)
      requires Synced() && s <= |heap.majors| && start == AtOr0(Bases(heap.majors), s)
      requires size == req + ALIGNMENT + ALIGN_INFO
      modifies this`best, this`cells, this`mem, this`inuse, this`heap
      ensures Synced()
      ensures var h, need := old(heap), size + HEADER;
              var i, b := FirstFitting(h.majors, s, need), Bets(h.majors, s, need, Bet(h.best, room));
              && bs == b.room
              && (if i < |h.majors|
                  then a != 0 && a == FillAddr(h.majors[i], size) && heap == Put(h, i, size, req).(best := b.base)
                  else && a == 0 && heap == h.(best := b.base) && cells == old(cells)
                       && (s < |h.majors| ==> last == h.majors[|h.majors| - 1].base))
    {
      hide Inv, Shows, Fits, Put, HeadShown, Linked, FillAddr, Visit;
      ghost var h, k := heap, s;
      var maj := start;
      bs, last := room, 0;
      StartIn(s);
      while maj != 0
        invariant Synced() && heap == h.(best := best) && cells == old(cells)
        invariant s <= k <= |h.majors| && maj == AtOr0(Bases(h.majors), k) && (maj == 0 <==> k == |h.majors|)
        invariant Bets(h.majors, s, size + HEADER, Bet(h.best, room)) == Bets(h.majors, k, size + HEADER, Bet(best, bs))
        invariant FirstFitting(h.majors, s, size + HEADER) == FirstFitting(h.majors, k, size + HEADER)
        invariant k > s ==> last == h.majors[k - 1].base
        decreases |h.majors| - k
      {
        ghost var b := best;
        a, bs := Look(maj, size, req, bs, k);
        if a != 0 {
          PutBest(h, b, k, size, req);
          return;
        }
        RecordOf(k);
        last := maj;
        maj := cells[maj].next;
        k := k + 1;
        StartIn(k);
      }
      a := 0;
    }

    // The record of major k.
    lemma RecordOf(k: nat)
      requires Synced() && k < |heap.majors|
      ensures var m := heap.majors[k];
              && m.base in cells && cells[m.base].MajorRec? && cells[m.base].pages == m.pages
              && cells[m.base].usage == m.usage
              && cells[m.base].next == AtOr0(Bases(heap.majors), k + 1)
              && Packed(m.minors, m.Low(), m.High()) && m.usage == HEADER + Used(m.minors)
    {
      MajorGood(heap, k);
      assert MajorShown(cells, heap.majors[k]);
      LinksOf(cells, Bases(heap.majors), k);
    }

    lemma StartIn(k: nat)
      requires Synced() && k <= |heap.majors|
      ensures AtOr0(Bases(heap.majors), k) == 0 <==> k == |heap.majors|
      ensures root == AtOr0(Bases(heap.majors), 0)
    {
      AtOr0In(cells, Bases(heap.majors), k);
    }

    // The search of kheap_malloc: from l_bestBet or the root to the end, and from the root again when it
    // started at l_bestBet.
    method Search(size: nat, req: nat) returns (a: nat, bs: int, last: nat)
      requires Synced() && heap.majors != [] && size == req + ALIGNMENT + ALIGN_INFO
      modifies this`best, this`cells, this`mem, this`inuse, this`heap
      ensures Synced()
      ensures var h, need := old(heap), size + HEADER;
              var i, b := Choice(h.majors, StartAt(h, need), need), SearchBet(h, need);
              && bs == b.room
              && (if i < |h.majors|
                  then a != 0 && a == FillAddr(h.majors[i], size) && heap == Put(h, i, size, req).(best := b.base)
                  else && a == 0 && heap == h.(best := b.base) && cells == old(cells)
                       && last == h.majors[|h.majors| - 1].base)
    {
      hide Inv, Shows, Fits, Put, HeadShown, Linked, FillAddr, Bets, FirstFitting;
      ghost var h, s := heap, 0;
      var start, startedBet := root, false;
      bs := 0;
      StartIn(0);
      BestWas(h);
      if best != 0 {
        ghost var k := Find(h.majors, h.best);
        RecordOf(k);
        bs := cells[best].pages * PAGE - cells[best].usage;
        if bs > size + HEADER {
          start, startedBet, s := best, true, k;
        }
      }
      a, bs, last := Pass(start, size, req, bs, s);
      ghost var b := heap.best;
      if a == 0 && startedBet {
        StartIn(0);
        a, bs, last := Pass(root, size, req, bs, 0);
        ghost var i := FirstFitting(h.majors, 0, size + HEADER);
        if i < |h.majors| { PutBest(h, b, i, size, req); }
      }
    }

    // allocate_new_page, and the pointers that append the new major after `last`. grant is what
    // liballoc_alloc answers.
    method NewMajor(last: nat, size: nat, grant: nat) returns (base: nat)
      requires Synced() && last == AtOr0(Bases(heap.majors), |heap.majors| - 1)
      requires grant > 0 ==> Regions.ApartFrom(Spans(heap.majors), Regions.Region(grant, PagesFor(size) * PAGE))
      modifies this`root, this`cells, this`total, this`warnings, this`heap
      ensures Synced() && base == grant
      ensures if grant == 0 then heap == old(heap) && warnings == old(warnings) + 1
              else heap == Grown(old(heap), grant, PagesFor(size)) && warnings == old(warnings)
    {
      hide Inv, Shows, PagesFor, Spans, LinkMajor;
      var pages := PagesFor(size);
      if grant == 0 {
        warnings := warnings + 1;
        return 0;
      }
      GrownKeeps(heap, grant, pages);
      GrownShows(heap, root, cells, grant, pages);
      LastIn(Regions.Region(grant, pages * PAGE));
      total := total + pages * PAGE;
      AppendRecord(last, grant, pages);
      heap := Grown(heap, grant, pages);
      return grant;
    }

    // The record of a new major, and the pointers to and from it.
    method AppendRecord(last: nat, base: nat, pages: nat)
      requires 0 !in cells && base != 0 && (last != 0 ==> last in cells && last != base)
      modifies this`root, this`cells
      ensures cells == LinkMajor(old(cells), last, base, pages) && root == (if last == 0 then base else old(root))
    {
      cells := cells[base := MajorRec(0, 0, pages, HEADER, 0)];
      if last == 0 {
        root := base;
      } else {
        cells := SetNext(cells, last, base);
        cells := SetPrev(cells, base, last);
      }
    }

    lemma LastIn(y: Regions.Region)
      requires Synced() && Regions.ApartFrom(Spans(heap.majors), y) && y.size >= 1
      ensures var last := AtOr0(Bases(heap.majors), |heap.majors| - 1);
              0 !in cells && (last == 0 <==> heap.majors == []) && (last != 0 ==> last in cells) &&
                  (last != 0 ==> last != y.addr)
    {
      var n := |heap.majors| - 1;
      AtOr0In(cells, Bases(heap.majors), n);
      if n >= 0 { ApartBases(heap, y, n); }
    }

    // The new major takes the request: CASE 2 with or without a look at it as a candidate for l_bestBet.
    method FillNew(base: nat, size: nat, req: nat, room: int, look: bool, ghost h: Heap) returns (p: nat)
      requires Synced() && size == req + ALIGNMENT + ALIGN_INFO && size + 2 * HEADER < WORD
      requires heap == Grown(h, base, PagesFor(size))
      modifies this`best, this`cells, this`mem, this`inuse, this`heap
      ensures Synced() && p == Ptr(base + HEADER)
      ensures var best := if look && room < PagesFor(size) * PAGE - HEADER then base else h.best;
              heap == Extended(h, base, size, req).(best := best)
    {
      hide Inv, Shows, Fits, PagesFor, FillAddr, Put;
      ghost var n := |h.majors|;
      FreshFits(base, size);
      FreshRoom(base, size);
      var a, bs := 0, room;
      if look {
        a, bs := Look(base, size, req, room, n);
      } else {
        a := Squeeze(base, size, req, n);
      }
      return Ptr(a);
    }

    method Malloc(req: nat, grant: nat) returns (p: nat)
      requires Valid() && req + ALIGNMENT + ALIGN_INFO + 2 * HEADER < WORD
      requires grant > 0 ==>
                 Regions.ApartFrom(Spans(heap.majors), Regions.Region(grant,
                     PagesFor(req + ALIGNMENT + ALIGN_INFO) * PAGE))
      modifies this
      ensures Valid() && heap == Malloced(old(heap), req, grant) && errors == old(errors) && overruns == old(overruns)
      ensures var size := req + ALIGNMENT + ALIGN_INFO;
              var h := old(heap);
              var i := Choice(h.majors, StartAt(h, size + HEADER), size + HEADER);
              && Serves(h, size + HEADER, i)
              && if i < |h.majors| then p == Ptr(FillAddr(h.majors[i], size)) && warnings == old(warnings)
                 else if grant == 0 then p == 0 && warnings == old(warnings) + 1
                 else p == Ptr(grant + HEADER) && warnings == old(warnings)
    {
      hide Inv, Shows, Fits, Put, FillAddr, PagesFor, Find, Spans, SearchBet, Grown, Extended, Malloced, Choice,
           StartAt, Serves;
      ghost var h := heap;
      MallocSettles(h, req, grant);
      MallocedIs(h, req, grant);
      ServesChoice(h, req + ALIGNMENT + ALIGN_INFO + HEADER);
      var size := req + ALIGNMENT + ALIGN_INFO;
      RootNull();
      var bs, last, look := 0, 0, true;
      if root != 0 {
        var a;
        a, bs, last := Search(size, req);
        if a != 0 {
          return Ptr(a);
        }
        RecordOf(|h.majors| - 1);
        look := cells[last].pages * PAGE - cells[last].usage >= size + HEADER;
      }
      ghost var h1 := heap;
      var base := NewMajor(last, size, grant);
      if base == 0 {
        return 0;
      }
      p := FillNew(base, size, req, bs, look, h1);
      ExtendedBest(h, h1.best, grant, size, req);
    }

    // A root of null is a heap without majors, and then there is no best bet.
    lemma RootNull()
      requires Synced()
      ensures root == 0 <==> heap.majors == []
      ensures heap.majors == [] ==> heap.best == 0 && Spans(heap.majors) == []
    {
      StartIn(0);
      BestWas(heap);
    }

    // The minor at a leaves its major: counts, magic word, and the pointers around it.
    method TakeOut(maj: nat, a: nat, ghost i: nat, ghost j: nat)
      requires Synced() && i < |heap.majors| && j < |heap.majors[i].minors|
      requires maj == heap.majors[i].base && a == heap.majors[i].minors[j].addr
      requires heap.majors[i].usage >= heap.majors[i].minors[j].size + HEADER && a in heap.mem.hdr
      modifies this`cells, this`mem, this`inuse, this`heap
      ensures Synced() && heap == Unplaced(old(heap), i, j)
      ensures maj in cells && cells[maj].MajorRec? && (cells[maj].first == 0 <==> heap.majors[i].minors == [])
    {
      hide Inv, Shows, Linked;
      ghost var was, m := cells, heap.majors[i];
      UnplacedKeeps(heap, i, j);
      UnlinkShows(heap, root, cells, i, j);
      Neighbours(i, j);
      inuse := inuse - cells[a].size;
      Detach(maj, a, m, j);
      mem := mem.(hdr := mem.hdr[a := mem.hdr[a].(magic := DEAD)]);
      heap := Unplaced(heap, i, j);
      Facts(i);
    }

    // The neighbours of minor j are minors of the same major, or null.
    lemma Neighbours(i: nat, j: nat)
      requires Synced() && i < |heap.majors| && j < |heap.majors[i].minors|
      ensures var m := heap.majors[i];
              HeadShown(cells, m) && MinorShown(cells, m.minors[j]) && 0 !in cells && Beside(cells, m, j)
    {
      Facts(i);
      var m := heap.majors[i];
      assert MinorShown(cells, m.minors[j]);
      LinksOf(cells, Addrs(m.minors), j);
      AddrsInside(heap.mem, m, j - 1);
      AddrsInside(heap.mem, m, j + 1);
      AtOr0In(cells, Addrs(m.minors), j - 1);
      AtOr0In(cells, Addrs(m.minors), j + 1);
    }

    // kheap_free on the records: usage, then the two neighbours, then first.
    method Detach(maj: nat, a: nat, ghost m: Major, ghost j: nat)
      requires j < |m.minors| && maj == m.base && a == m.minors[j].addr && m.usage >= m.minors[j].size + HEADER
      requires HeadShown(cells, m) && MinorShown(cells, m.minors[j]) && 0 !in cells && Beside(cells, m, j)
      modifies this`cells
      ensures a in old(cells) && cells == UnlinkMinor(old(cells), m, a, m.usage - (m.minors[j].size + HEADER))
    {
      hide SetNext, SetPrev, SetHead, SetFirst, SetUsage, Unhook, AtOr0;
      var rec, usage := cells[a], cells[maj].usage;
      ghost var was := cells;
      UnhookOrder(cells, maj, usage - (rec.size + HEADER), a);
      NullOrder(SetUsage(cells, maj, usage - (rec.size + HEADER)), rec);
      cells := SetUsage(cells, maj, usage - (rec.size + HEADER));
      if rec.next != 0 {
        cells := SetPrev(cells, rec.next, rec.prev);
      }
      if rec.prev != 0 {
        cells := SetNext(cells, rec.prev, rec.next);
      }
      UnhookFrame(was, a);
      FirstOrder(Unhook(was, a), maj, rec.next, usage - (rec.size + HEADER));
      if rec.prev == 0 {
        cells := SetFirst(cells, maj, rec.next);
      }
    }

    // The majors around a point at each other.
    method Bypass(rec: Rec, ghost a: nat)
      requires a in cells && cells[a] == rec && 0 !in cells && (rec.prev != 0 ==> rec.prev != rec.next)
      modifies this`cells
      ensures cells == Unhook(old(cells), a)
    {
      if rec.prev != 0 { cells := SetNext(cells, rec.prev, rec.next); }
      if rec.next != 0 { cells := SetPrev(cells, rec.next, rec.prev); }
    }

    // An empty major leaves the list and goes back to liballoc_free.
    method GiveBack(maj: nat, ghost i: nat, ghost r: Heap) returns (released: seq<Regions.Region>)
      requires Synced() && i < |heap.majors| && maj == heap.majors[i].base && Inv(r)
      requires r == Heap(Without(heap.majors, i), if heap.best == maj then 0 else heap.best, heap.inuse,
                         heap.total - heap.majors[i].Size(), Unmap(heap.mem, maj, heap.majors[i].High()))
      modifies this
      ensures Synced() && heap == r && released == [Span(old(heap).majors[i])]
      ensures warnings == old(warnings) && errors == old(errors) && overruns == old(overruns)
    {
      hide Inv, Shows, Linked, Unhook;
      ghost var m := heap.majors[i];
      RecordOf(i);
      NextMajors(i);
      DroppedShows(heap, root, cells, i);
      var rec := cells[maj];
      var high := maj + rec.pages * PAGE;
      if root == maj { root := rec.next; }
      if best == maj { best := 0; }
      Bypass(rec, maj);
      total := total - rec.pages * PAGE;
      cells := map x | x in cells && !(maj <= x < high) :: cells[x];
      mem := Unmap(mem, maj, high);
      heap := r;
      return [Regions.Region(maj, rec.pages * PAGE)];
    }

    lemma NextMajors(i: nat)
      requires Synced() && i < |heap.majors|
      ensures var b := heap.majors[i].base;
              && 0 !in cells && b in cells && (cells[b].prev != 0 ==> cells[b].prev in cells && cells[b].prev != b)
              && (cells[b].next != 0 ==> cells[b].next in cells && cells[b].next != b)
              && (cells[b].prev != 0 ==> cells[b].prev != cells[b].next)
    {
      var xs := Bases(heap.majors);
      LinksOf(cells, xs, i);
      AtOr0In(cells, xs, i - 1);
      AtOr0In(cells, xs, i + 1);
    }

    // A major that is left may become l_bestBet.
    method Reconsider(maj: nat, ghost i: nat)
      requires Synced() && i < |heap.majors| && maj == heap.majors[i].base
      modifies this`best, this`heap
      ensures Synced() && heap == old(heap).(best := Better(old(heap).majors, old(heap).best, i))
      ensures var h := old(heap);
              var k := Find(h.majors, h.best);
              if h.best != 0 && k < |h.majors| && Room(h.majors[i]) > Room(h.majors[k]) then best == maj
              else best == old(best)
    {
      hide Inv, Shows;
      BestWas(heap);
      if best != 0 {
        RecordOf(Find(heap.majors, best));
        RecordOf(i);
        var bestSize := cells[best].pages * PAGE - cells[best].usage;
        var majSize := cells[maj].pages * PAGE - cells[maj].usage;
        if majSize > bestSize {
          NewBest(heap, i);
          best := maj;
          heap := heap.(best := maj);
        }
      }
    }

    // kheap_free, answering with the page range given back to liballoc_free, if any. ptr must be null or
    // an address whose offset byte and header words are mapped.
    method Free(ptr: nat) returns (released: seq<Regions.Region>)
      requires Valid()
      requires ptr != 0 ==> && ptr - ALIGN_INFO in mem.align && Unaligned(mem, ptr) >= HEADER
                            && Unaligned(mem, ptr) - HEADER in mem.hdr
      modifies this
      ensures Valid()
      ensures if ptr == 0 then
                && heap == old(heap) && released == []
                && warnings == old(warnings) + 1 && errors == old(errors) && overruns == old(overruns)
              else
                var h := old(heap);
                var a := Unaligned(h.mem, ptr) - HEADER;
                if h.mem.hdr[a].magic != MAGIC then
                  && heap == h && released == [] && warnings == old(warnings) && errors == old(errors) + 1
                  && overruns == old(overruns) + if h.mem.hdr[a].magic % 0x100 == MAGIC % 0x100 then 1 else 0
                else
                  && warnings == old(warnings) && errors == old(errors) && overruns == old(overruns)
                  && IsMinor(h, a) && heap == Drop(h, MajorOf(h, a), MinorOf(h, a))
                  && released == (if |h.majors[MajorOf(h, a)].minors| == 1 then [Span(h.majors[MajorOf(h, a)])] else [])
    {
      hide Inv, Shows, NoneEmpty;
      if ptr == 0 {
        warnings := warnings + 1;
        return [];
      }
      var a := Unaligned(mem, ptr) - HEADER;
      var magic := mem.hdr[a].magic;
      if magic != MAGIC {
        errors := errors + 1;
        LowByte(magic);
        LowByte(MAGIC);
        if || magic % 0x1000000 == MAGIC % 0x1000000
           || magic % 0x10000 == MAGIC % 0x10000
           || magic % 0x100 == MAGIC % 0x100
        {
          overruns := overruns + 1;
        }
        return [];
      }
      MagicIsLive(heap, a);
      released := FreeMinor(a);
    }

    method FreeMinor(a: nat) returns (released: seq<Regions.Region>)
      requires Valid() && IsMinor(heap, a)
      modifies this
      ensures Valid() && warnings == old(warnings) && errors == old(errors) && overruns == old(overruns)
      ensures var h := old(heap);
              && heap == Drop(h, MajorOf(h, a), MinorOf(h, a))
              && released == (if |h.majors[MajorOf(h, a)].minors| == 1 then [Span(h.majors[MajorOf(h, a)])] else [])
    {
      hide Inv, Shows, NoneEmpty, Find, Holds, FindMinor;
      ghost var h, i, j := heap, MajorOf(heap, a), MinorOf(heap, a);
      DropSettles(h, i, j);
      var maj := mem.hdr[a].block;
      TakeOut(maj, a, i, j);
      if cells[maj].first == 0 {
        assert Without(heap.majors, i) == Without(h.majors, i);
        released := GiveBack(maj, i, Drop(h, i, j));
      } else {
        Reconsider(maj, i);
        released := [];
      }
    }

    // What the image says about major i.
    lemma Facts(i: nat)
      requires Synced() && i < |heap.majors|
      ensures var m := heap.majors[i];
              && Good(heap.mem, m) && MajorShown(cells, m) && 0 !in cells && m.base !in Addrs(m.minors)
              && (cells[m.base].first == 0 <==> m.minors == [])
    {
      MajorGood(heap, i);
      AddrsInside(heap.mem, heap.majors[i], 0);
      AtOr0In(cells, Addrs(heap.majors[i].minors), 0);
    }
  }

  // The whole of an empty major is one gap.
  lemma EmptyGap(mem: Mem, m: Major, need: nat)
    requires Good(mem, m) && m.minors == [] && Room(m) >= need
    ensures FirstGap(m.minors, m.Low(), m.High(), need) == 0 && Fits(m, need)
    ensures Start(m.minors, m.Low(), 0) == m.base + HEADER
  {
  }

  lemma NewBest(h: Heap, k: nat)
    requires Inv(h) && k < |h.majors|
    ensures Inv(h.(best := h.majors[k].base))
  {
    FindHere(h.majors, k);
  }

  lemma PutBest(h: Heap, best: nat, i: nat, size: nat, req: nat)
    requires i < |h.majors| && Fits(h.majors[i], size + HEADER)
    ensures Put(h.(best := best), i, size, req) == Put(h, i, size, req).(best := best)
  {
  }

  lemma FreshRoom(base: nat, size: nat)
    requires size + 2 * HEADER < WORD
    ensures Room(Fresh(base, PagesFor(size))) == PagesFor(size) * PAGE - HEADER >= size + HEADER
  {
    PagesForIff(size);
  }

  lemma ExtendedBest(h: Heap, best: nat, base: nat, size: nat, req: nat)
    requires size + 2 * HEADER < WORD
    ensures Extended(h.(best := best), base, size, req) == Extended(h, base, size, req).(best := best)
  {
    FreshFits(base, size);
  }

  // The pointers of minor j, and what they point at.
  predicate Beside(cells: Cells, m: Major, j: nat)
    requires j < |m.minors| && m.minors[j].addr in cells
  {
    var rec, xs := cells[m.minors[j].addr], Addrs(m.minors);
    && rec.prev == AtOr0(xs, j - 1) && rec.next == AtOr0(xs, j + 1)
    && (rec.prev != 0 ==> rec.prev in cells && rec.prev != m.base)
    && (rec.next != 0 ==> rec.next in cells && rec.next != m.base)
    && m.minors[j].addr != m.base
  }

  lemma LoneOrder(cells: Cells, a: nat, rec: Rec)
    requires 0 !in cells && rec.prev == 0 && rec.next == 0 && a != 0
    ensures cells[a := rec] == Hook(cells, a, rec)
  {
  }

  lemma NextDiffers(cells: Cells, xs: seq<nat>, k: nat)
    requires Linked(cells, xs) && k < |xs|
    ensures AtOr0(xs, k + 1) != xs[k] && xs[k] in xs && (AtOr0(xs, k + 1) != 0 ==> AtOr0(xs, k + 1) in xs)
  {
    assert LinkedAt(cells, xs, k);
  }

  // Writes through a null pointer are not made.
  lemma NullOrder(q: Cells, rec: Rec)
    requires 0 !in q
    ensures rec.next == 0 ==> SetPrev(q, rec.next, rec.prev) == q
    ensures var c := SetPrev(q, rec.next, rec.prev); rec.prev == 0 ==> SetNext(c, rec.prev, rec.next) == c
  {
  }

  lemma FirstOrder(cells: Cells, base: nat, first: nat, usage: nat)
    requires base in cells && cells[base].MajorRec?
    ensures SetFirst(SetUsage(cells, base, usage), base, first) == SetHead(cells, base, first, usage)
    ensures SetUsage(cells, base, usage) == SetHead(cells, base, cells[base].first, usage)
  {
  }

  // The three outcomes of kheap_malloc.
  lemma MallocedIs(h: Heap, req: nat, grant: nat)
    requires req + ALIGNMENT + ALIGN_INFO + 2 * HEADER < WORD
    ensures var size := req + ALIGNMENT + ALIGN_INFO;
            var need := size + HEADER;
            var i, b, r := Choice(h.majors, StartAt(h, need), need), SearchBet(h, need), Malloced(h, req, grant);
            if h.majors == [] then
              i == 0 && r == if grant == 0 then h else Extended(h, grant, size, req).(best := grant)
            else if i < |h.majors| then
              r == Put(h, i, size, req).(best := b.base)
            else if grant == 0 then
              r == h.(best := b.base)
            else
              var look := Room(h.majors[|h.majors| - 1]) >= need && b.room < PagesFor(size) * PAGE - HEADER;
              r == Extended(h, grant, size, req).(best := if look then grant else b.base)
  {
  }
}
