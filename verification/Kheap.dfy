// The page-range allocator under the kernel heap (vm/kheap.c): a singly linked, address-ordered list
// of free ranges, first fit, with coalescing on free. The list nodes live in slots of metadata pages
// that count their slots up and down. Addresses and sizes are in pages.

module Kheap {
  import opened Common
  import opened Regions

  const KHEAP_START := 0x8E000 // P2V(PHYSTOP) / PGSIZE
  const KHEAP_END := 0xFE000   // DEVSPACE / PGSIZE
  const REGIONS_PER_PAGE := 255 // (PGSIZE - 8) / 16

  // ---------- metadata pages ----------

  // A pointer to a node: slot number `slot` of the metadata page at address `page`.
  datatype Ref = Null | At(page: nat, slot: nat)

  datatype Meta = Meta(id: nat, count: nat)

  // The first metadata page whose counter leaves room, or |metas|.
  function FirstRoom(metas: seq<Meta>): (k: nat)
    ensures k <= |metas| && (k < |metas| ==> metas[k].count < REGIONS_PER_PAGE)
    ensures forall j :: 0 <= j < k ==> metas[j].count >= REGIONS_PER_PAGE
  {
    if metas == [] || metas[0].count < REGIONS_PER_PAGE then 0 else 1 + FirstRoom(metas[1..])
  }

  // get_new_vmem_region: the slot it hands out, and the pages afterwards. `extra` is the page kalloc
  // gives when a new one is needed.
  function NewSlot(metas: seq<Meta>, extra: nat): (r: Ref) {
    var k := FirstRoom(metas);
    if k < |metas| then At(metas[k].id, metas[k].count) else At(extra, 0)
  }

  function Counted(metas: seq<Meta>, extra: nat): (r: seq<Meta>) {
    var k := FirstRoom(metas);
    if k < |metas| then metas[k := Meta(metas[k].id, metas[k].count + 1)] else [Meta(extra, 1)] + metas
  }

  // The position of page id in the list of metadata pages, or |metas|.
  function PageAt(metas: seq<Meta>, id: nat): (k: nat)
    ensures k <= |metas| && (k < |metas| ==> metas[k].id == id)
    ensures forall j :: 0 <= j < k ==> metas[j].id != id
  {
    if metas == [] || metas[0].id == id then 0 else 1 + PageAt(metas[1..], id)
  }

  // recycle_vmem_region of a slot of page id: the page is freed when its counter reaches 0.
  function Recycled(metas: seq<Meta>, id: nat): (r: seq<Meta>) {
    var k := PageAt(metas, id);
    if k == |metas| then metas
    else if metas[k].count <= 1 then metas[..k] + metas[k + 1..]
    else metas[k := Meta(id, metas[k].count - 1)]
  }

  // The live slots of page id.
  function On(live: set<Ref>, id: nat): (r: set<Ref>) { set r | r in live && r.At? && r.page == id }

  // Every counter is the number of live slots of its page, and live slots lie in listed pages.
  predicate MetaOk(metas: seq<Meta>, live: set<Ref>) {
    && (forall i, j :: 0 <= i < j < |metas| ==> metas[i].id != metas[j].id)
    && (forall i :: 0 <= i < |metas| ==> metas[i].count == |On(live, metas[i].id)| >= 1)
    && (forall r :: r in live ==> r.At? && PageAt(metas, r.page) < |metas|)
  }

  lemma PageAtIs(metas: seq<Meta>, k: nat)
    requires k < |metas| && forall i, j :: 0 <= i < j < |metas| ==> metas[i].id != metas[j].id
    ensures PageAt(metas, metas[k].id) == k
  {
  }

  lemma OnList(metas: seq<Meta>, id: nat, k: nat)
    requires k < |metas| && metas[k].id == id
    ensures PageAt(metas, id) < |metas|
  {
  }

  lemma OnAdd(live: set<Ref>, r: Ref, id: nat)
    requires r.At? && r !in live
    ensures On(live + {r}, id) == if r.page == id then On(live, id) + {r} else On(live, id)
    ensures |On(live + {r}, id)| == |On(live, id)| + if r.page == id then 1 else 0
  {
    assert On(live + {r}, id) == if r.page == id then On(live, id) + {r} else On(live, id);
  }

  lemma OnSome(live: set<Ref>, q: Ref)
    requires q in live && q.At?
    ensures |On(live, q.page)| >= 1
  {
    assert q in On(live, q.page);
  }

  lemma OnDrop(live: set<Ref>, r: Ref, id: nat)
    requires r.At? && r in live
    ensures |On(live - {r}, id)| == |On(live, id)| - if r.page == id then 1 else 0
  {
    assert On(live - {r}, id) == if r.page == id then On(live, id) - {r} else On(live, id);
    assert r.page == id ==> r in On(live, id);
  }

  lemma OnNone(metas: seq<Meta>, live: set<Ref>, id: nat)
    requires MetaOk(metas, live) && PageAt(metas, id) == |metas|
    ensures |On(live, id)| == 0
  {
    assert On(live, id) == {};
  }

  // The next slot of a page with room.
  lemma CountUpKeeps(metas: seq<Meta>, live: set<Ref>, k: nat, r: Ref)
    requires MetaOk(metas, live) && k < |metas| && r == At(metas[k].id, metas[k].count) && r !in live
    ensures MetaOk(metas[k := Meta(metas[k].id, metas[k].count + 1)], live + {r})
  {
    hide On, PageAt;
    var after := metas[k := Meta(metas[k].id, metas[k].count + 1)];
    forall i | 0 <= i < |after|
      ensures after[i].count == |On(live + {r}, after[i].id)| >= 1
    {
      OnAdd(live, r, metas[i].id);
    }
    forall q | q in live + {r}
      ensures q.At? && PageAt(after, q.page) < |after|
    {
      OnList(after, q.page, if q == r then k else PageAt(metas, q.page));
    }
  }

  // The first slot of a new page.
  lemma AddPageKeeps(metas: seq<Meta>, live: set<Ref>, extra: nat)
    requires MetaOk(metas, live) && PageAt(metas, extra) == |metas|
    ensures At(extra, 0) !in live && MetaOk([Meta(extra, 1)] + metas, live + {At(extra, 0)})
  {
    hide On, PageAt;
    var after, r := [Meta(extra, 1)] + metas, At(extra, 0);
    OnNone(metas, live, extra);
    forall i | 0 <= i < |after|
      ensures after[i].count == |On(live + {r}, after[i].id)| >= 1
    {
      OnAdd(live, r, after[i].id);
    }
    forall q | q in live + {r}
      ensures q.At? && PageAt(after, q.page) < |after|
    {
      OnList(after, q.page, if q == r then 0 else PageAt(metas, q.page) + 1);
    }
  }

  // Handing out an unused slot keeps the counters right.
  lemma NewSlotKeeps(metas: seq<Meta>, live: set<Ref>, extra: nat)
    requires MetaOk(metas, live) && PageAt(metas, extra) == |metas| && NewSlot(metas, extra) !in live
    ensures MetaOk(Counted(metas, extra), live + {NewSlot(metas, extra)})
  {
    hide MetaOk;
    var k := FirstRoom(metas);
    if k < |metas| {
      CountUpKeeps(metas, live, k, NewSlot(metas, extra));
    } else {
      AddPageKeeps(metas, live, extra);
    }
  }

  // Recycling a live slot keeps them right; a page is given back only when no slot of it is live.
  lemma RecycleKeeps(metas: seq<Meta>, live: set<Ref>, r: Ref)
    requires MetaOk(metas, live) && r in live
    ensures MetaOk(Recycled(metas, r.page), live - {r})
  {
    hide On, PageAt;
    var k, after := PageAt(metas, r.page), Recycled(metas, r.page);
    var gone := metas[k].count <= 1;
    OnDrop(live, r, r.page);
    forall i | 0 <= i < |after|
      ensures after[i].count == |On(live - {r}, after[i].id)| >= 1
    {
      var o := if gone && i >= k then i + 1 else i;
      assert after[i].id == metas[o].id;
      OnDrop(live, r, metas[o].id);
    }
    forall q | q in live - {r}
      ensures q.At? && PageAt(after, q.page) < |after|
    {
      var o := PageAt(metas, q.page);
      if gone && o == k {
        OnSome(live - {r}, q);
      } else {
        OnList(after, q.page, if gone && o > k then o - 1 else o);
      }
    }
  }

  // ---------- the linked list in memory ----------

  datatype Cell = Cell(base: nat, pages: nat, next: Ref)

  // vmem_free_list_head, the nodes, and the list of metadata pages.
  datatype Mem = Mem(head: Ref, cells: map<Ref, Cell>, metas: seq<Meta>)

  // The list the memory is meant to hold: the free ranges in order, and the node of each.
  datatype Rows = Rows(free: seq<Region>, refs: seq<Ref>)
  type List = l: Rows | |l.free| == |l.refs| witness Rows([], [])

  function RefAt(refs: seq<Ref>, k: int): (r: Ref) { if 0 <= k < |refs| then refs[k] else Null }

  function CellAt(l: List, k: nat): (c: Cell)
    requires k < |l.free|
  {
    Cell(l.free[k].addr, l.free[k].size, RefAt(l.refs, k + 1))
  }

  // Node k of the list is in memory.
  predicate HoldsAt(m: Mem, l: List, k: nat)
    requires k < |l.free|
  {
    l.refs[k].At? && l.refs[k] in m.cells && m.cells[l.refs[k]] == CellAt(l, k)
  }

  predicate Encodes(m: Mem, l: List) {
    && m.head == RefAt(l.refs, 0) && Distinct(l.refs)
    && (forall k: nat :: k < |l.refs| ==> HoldsAt(m, l, k))
  }

  // What a read through a pointer gives.
  function Load(m: Mem, r: Ref): (c: Cell) { if r in m.cells then m.cells[r] else Cell(0, 0, Null) }

  function Store(m: Mem, r: Ref, c: Cell): (q: Mem) { m.(cells := m.cells[r := c]) }

  // Points prev, or the head when there is no node before, at r.
  function PointTo(m: Mem, prev: Ref, r: Ref): (q: Mem) {
    if prev == Null then m.(head := r) else Store(m, prev, Load(m, prev).(next := r))
  }

  // The writes of liballoc_alloc once `current`, with `prev` before it, has been found large enough.
  function AllocMem(m: Mem, prev: Ref, current: Ref, n: nat): (q: Mem) {
    var c := Load(m, current);
    if current == Null || c.pages < n then m
    else if c.pages == n then PointTo(m, prev, c.next).(metas := Recycled(m.metas, current.page))
    else Store(m, current, Cell(c.base + n, c.pages - n, c.next))
  }

  // The steps of liballoc_free once the place between prev and current has been found: extend prev,
  // or link a new node in; then swallow current when it touches.
  function GrowMem(m: Mem, prev: Ref, n: nat): (q: Mem) {
    Store(m, prev, Load(m, prev).(pages := Load(m, prev).pages + n))
  }

  function LinkMem(m: Mem, prev: Ref, current: Ref, b: Region, extra: nat): (q: Mem) {
    var r := NewSlot(m.metas, extra);
    PointTo(Store(m, r, Cell(b.addr, b.size, current)).(metas := Counted(m.metas, extra)), prev, r)
  }

  function MergeMem(m: Mem, node: Ref, current: Ref): (q: Mem) {
    var x, c := Load(m, node), Load(m, current);
    if current.At? && x.base + x.pages == c.base
    then Store(m, node, Cell(x.base, x.pages + c.pages, c.next)).(metas := Recycled(m.metas, current.page))
    else m
  }

  predicate Joins(m: Mem, prev: Ref, b: Region) {
    prev != Null && Load(m, prev).base + Load(m, prev).pages == b.addr
  }

  function FreeMem(m: Mem, prev: Ref, current: Ref, b: Region, extra: nat): (q: Mem) {
    if Joins(m, prev, b) then MergeMem(GrowMem(m, prev, b.size), prev, current)
    else MergeMem(LinkMem(m, prev, current, b, extra), NewSlot(m.metas, extra), current)
  }

  // ---------- the same steps on the list ----------

  function DropAt(l: List, k: nat): (r: List)
    requires k < |l.free|
  {
    Rows(l.free[..k] + l.free[k + 1..], l.refs[..k] + l.refs[k + 1..])
  }

  function SizeAt(l: List, k: nat, x: Region): (r: List)
    requires k < |l.free|
  {
    Rows(l.free[k := x], l.refs)
  }

  function LinkAt(l: List, k: nat, b: Region, r: Ref): (q: List)
    requires k <= |l.free|
  {
    Rows(l.free[..k] + [b] + l.free[k..], l.refs[..k] + [r] + l.refs[k..])
  }

  predicate TouchesNext(l: List, k: nat) {
    k + 1 < |l.free| && l.free[k].End() == l.free[k + 1].addr
  }

  function MergeAt(l: List, k: nat): (r: List)
    requires k < |l.free|
  {
    if TouchesNext(l, k)
    then DropAt(SizeAt(l, k, Region(l.free[k].addr, l.free[k].size + l.free[k + 1].size)), k + 1)
    else l
  }

  function AllocAt(l: List, k: nat, n: nat): (r: List)
    requires k < |l.free| && n <= l.free[k].size
  {
    if l.free[k].size == n then DropAt(l, k) else SizeAt(l, k, Region(l.free[k].addr + n, l.free[k].size - n))
  }

  // The place of address va: how many ranges, from the first on, start below it.
  function Spot(free: seq<Region>, va: nat): (k: nat)
    ensures k <= |free| && (forall j :: 0 <= j < k ==> free[j].addr < va) && (k < |free| ==> free[k].addr >= va)
  {
    if free == [] || free[0].addr >= va then 0 else 1 + Spot(free[1..], va)
  }

  predicate TouchesPrev(l: List, k: nat, b: Region) {
    0 < k <= |l.free| && l.free[k - 1].End() == b.addr
  }

  function FreeAt(l: List, k: nat, b: Region, r: Ref): (q: List)
    requires k <= |l.free|
  {
    if TouchesPrev(l, k, b)
    then MergeAt(SizeAt(l, k - 1, Region(l.free[k - 1].addr, l.free[k - 1].size + b.size)), k - 1)
    else MergeAt(LinkAt(l, k, b, r), k)
  }

  // On ranges these are Take and Insert.
  lemma {:induction false} TakeAt(free: seq<Region>, k: nat, n: nat)
    requires k < |free| && n <= free[k].size
    ensures Take(free, k, n, Low) ==
              if free[k].size == n then free[..k] + free[k + 1..]
              else free[k := Region(free[k].addr + n, free[k].size - n)]
  {
    if k > 0 {
      TakeAt(free[1..], k - 1, n);
    }
  }

  lemma MergeAtIs(l: List, a: seq<Region>, x: Region, c: seq<Region>)
    requires l.free == a + ([x] + c)
    ensures MergeAt(l, |a|).free == a + MergeUp(x, c)
  {
    var k := |a|;
    assert l.free[k] == x;
    if c != [] {
      assert l.free[k + 1] == c[0];
      assert l.free[k + 2..] == c[1..];
    }
  }

  lemma FreeAtInserts(l: List, b: Region, r: Ref)
    requires Gapped(l.free) && b.size >= 1 && ApartFrom(l.free, b)
    ensures FreeAt(l, Spot(l.free, b.addr), b, r).free == Insert(l.free, b)
  {
    hide Spot, Insert, MergeUp, Gapped, ApartFrom, MergeAt;
    var f, k := l.free, Spot(l.free, b.addr);
    InsertHere(f, b, k);
    if TouchesPrev(l, k, b) {
      var x := Region(f[k - 1].addr, f[k - 1].size + b.size);
      assert f[k - 1 := x] == f[..k - 1] + ([x] + f[k..]);
      MergeAtIs(SizeAt(l, k - 1, x), f[..k - 1], x, f[k..]);
    } else {
      assert f[..k] + [b] + f[k..] == f[..k] + ([b] + f[k..]);
      MergeAtIs(LinkAt(l, k, b, r), f[..k], b, f[k..]);
    }
  }

  // ---------- the memory follows the list ----------

  lemma CellKept(m: Mem, l: List, k: nat)
    requires Encodes(m, l) && k < |l.refs|
    ensures l.refs[k].At? && l.refs[k] in m.cells && m.cells[l.refs[k]] == CellAt(l, k)
  {
    assert HoldsAt(m, l, k);
  }

  // The metadata counters are not part of the list.
  lemma OtherMetas(m: Mem, l: List, q: Mem)
    requires Encodes(m, l) && q.head == m.head && q.cells == m.cells
    ensures Encodes(q, l)
  {
    forall k: nat | k < |l.refs|
      ensures HoldsAt(q, l, k)
    {
      assert HoldsAt(m, l, k);
    }
  }

  lemma DistinctDrop(refs: seq<Ref>, k: nat)
    requires Distinct(refs) && k < |refs|
    ensures Distinct(refs[..k] + refs[k + 1..])
  {
    var r := refs[..k] + refs[k + 1..];
    forall i, j | 0 <= i < j < |r|
      ensures r[i] != r[j]
    {
      assert r[i] == refs[if i < k then i else i + 1] && r[j] == refs[if j < k then j else j + 1];
    }
  }

  lemma DistinctLink(refs: seq<Ref>, k: nat, x: Ref)
    requires Distinct(refs) && k <= |refs| && x !in refs
    ensures Distinct(refs[..k] + [x] + refs[k..])
  {
    var r := refs[..k] + [x] + refs[k..];
    forall i, j | 0 <= i < j < |r|
      ensures r[i] != r[j]
    {
      assert i != k ==> r[i] == refs[if i < k then i else i - 1];
      assert j != k ==> r[j] == refs[if j < k then j else j - 1];
    }
  }

  // Nodes before and after the place k of the list.
  lemma SpotRefs(m: Mem, l: List, k: nat)
    requires Encodes(m, l) && k <= |l.refs|
    ensures RefAt(l.refs, k - 1) != Null ==> RefAt(l.refs, k - 1) in m.cells
    ensures RefAt(l.refs, k) != Null ==> RefAt(l.refs, k) in m.cells
    ensures RefAt(l.refs, k - 1) == Null <==> k == 0
    ensures RefAt(l.refs, k) == Null <==> k == |l.refs|
  {
    if k > 0 { CellKept(m, l, k - 1); }
    if k < |l.refs| { CellKept(m, l, k); }
  }

  lemma DropEncodes(m: Mem, l: List, k: nat)
    requires Encodes(m, l) && k < |l.refs|
    ensures Encodes(PointTo(m, RefAt(l.refs, k - 1), RefAt(l.refs, k + 1)), DropAt(l, k))
  {
    SpotRefs(m, l, k);
    var q, r := PointTo(m, RefAt(l.refs, k - 1), RefAt(l.refs, k + 1)), DropAt(l, k);
    DistinctDrop(l.refs, k);
    forall i: nat | i < |r.refs|
      ensures HoldsAt(q, r, i)
    {
      DropHolds(m, l, k, i);
    }
  }

  lemma DropHolds(m: Mem, l: List, k: nat, i: nat)
    requires Encodes(m, l) && k < |l.refs| && i < |l.refs| - 1
    ensures HoldsAt(PointTo(m, RefAt(l.refs, k - 1), RefAt(l.refs, k + 1)), DropAt(l, k), i)
  {
    hide Encodes;
    var o := if i < k then i else i + 1;
    CellKept(m, l, o);
    var r := DropAt(l, k);
    assert r.refs[i] == l.refs[o] && r.free[i] == l.free[o];
    RefDistinct(m, l, k, o);
    assert i != k - 1 ==> RefAt(r.refs, i + 1) == RefAt(l.refs, o + 1);
    assert i == k - 1 ==> RefAt(r.refs, i + 1) == RefAt(l.refs, k + 1);
  }

  lemma RefDistinct(m: Mem, l: List, k: nat, o: nat)
    requires Encodes(m, l) && o < |l.refs|
    ensures 0 < k <= |l.refs| ==> (l.refs[o] == l.refs[k - 1] <==> o == k - 1)
    ensures l.refs[o] != Null
  {
    assert HoldsAt(m, l, o);
  }

  lemma SizeEncodes(m: Mem, l: List, k: nat, x: Region)
    requires Encodes(m, l) && k < |l.refs|
    ensures Encodes(m.(cells := m.cells[l.refs[k] := Cell(x.addr, x.size, RefAt(l.refs, k + 1))]), SizeAt(l, k, x))
  {
    var q, r := m.(cells := m.cells[l.refs[k] := Cell(x.addr, x.size, RefAt(l.refs, k + 1))]), SizeAt(l, k, x);
    forall i: nat | i < |r.refs|
      ensures HoldsAt(q, r, i)
    {
      CellKept(m, l, i);
    }
  }

  lemma LinkEncodes(m: Mem, l: List, k: nat, b: Region, extra: nat)
    requires Encodes(m, l) && k <= |l.refs| && NewSlot(m.metas, extra) !in l.refs
    ensures Encodes(LinkMem(m, RefAt(l.refs, k - 1), RefAt(l.refs, k), b, extra),
                    LinkAt(l, k, b, NewSlot(m.metas, extra)))
  {
    hide NewSlot, Counted;
    SpotRefs(m, l, k);
    NewSlotAt(m.metas, extra);
    var n := NewSlot(m.metas, extra);
    var q, r := LinkMem(m, RefAt(l.refs, k - 1), RefAt(l.refs, k), b, extra), LinkAt(l, k, b, n);
    DistinctLink(l.refs, k, n);
    forall i: nat | i < |r.refs|
      ensures HoldsAt(q, r, i)
    {
      LinkHolds(m, l, k, b, extra, i);
    }
  }

  lemma LinkHolds(m: Mem, l: List, k: nat, b: Region, extra: nat, i: nat)
    requires Encodes(m, l) && k <= |l.refs| && NewSlot(m.metas, extra) !in l.refs && i < |l.refs| + 1
    ensures HoldsAt(LinkMem(m, RefAt(l.refs, k - 1), RefAt(l.refs, k), b, extra),
            LinkAt(l, k, b, NewSlot(m.metas, extra)), i)
  {
    hide Encodes, NewSlot, Counted;
    NewSlotAt(m.metas, extra);
    var r := LinkAt(l, k, b, NewSlot(m.metas, extra));
    if i == k {
      if k > 0 { RefDistinct(m, l, k, k - 1); }
    } else {
      var o := if i < k then i else i - 1;
      CellKept(m, l, o);
      RefDistinct(m, l, k, o);
      assert r.refs[i] == l.refs[o] && r.free[i] == l.free[o];
      assert i != k - 1 ==> RefAt(r.refs, i + 1) == RefAt(l.refs, o + 1);
    }
  }

  lemma NewSlotAt(metas: seq<Meta>, extra: nat)
    ensures NewSlot(metas, extra).At?
  {
  }

  lemma MergeEncodes(m: Mem, l: List, k: nat)
    requires Encodes(m, l) && k < |l.refs|
    ensures Encodes(MergeMem(m, l.refs[k], RefAt(l.refs, k + 1)), MergeAt(l, k))
  {
    hide Recycled, Distinct, HoldsAt;
    CellKept(m, l, k);
    if k + 1 < |l.refs| {
      CellKept(m, l, k + 1);
      if TouchesNext(l, k) {
        var x := Region(l.free[k].addr, l.free[k].size + l.free[k + 1].size);
        SizeEncodes(m, l, k, x);
        var m1 := m.(cells := m.cells[l.refs[k] := Cell(x.addr, x.size, RefAt(l.refs, k + 1))]);
        DropEncodes(m1, SizeAt(l, k, x), k + 1);
        var m2 := PointTo(m1, l.refs[k], RefAt(l.refs, k + 2));
        assert m2.cells == MergeMem(m, l.refs[k], l.refs[k + 1]).cells;
        OtherMetas(m2, MergeAt(l, k), MergeMem(m, l.refs[k], l.refs[k + 1]));
      }
    }
  }

  // liballoc_alloc on memory does what it does on the list.
  lemma AllocEncodes(m: Mem, l: List, k: nat, n: nat)
    requires Encodes(m, l) && k < |l.refs| && n <= l.free[k].size
    ensures n <= Load(m, l.refs[k]).pages && l.refs[k].At?
    ensures Encodes(AllocMem(m, RefAt(l.refs, k - 1), l.refs[k], n), AllocAt(l, k, n))
  {
    hide Recycled;
    CellKept(m, l, k);
    SpotRefs(m, l, k);
    if l.free[k].size == n {
      DropEncodes(m, l, k);
      var q := PointTo(m, RefAt(l.refs, k - 1), RefAt(l.refs, k + 1));
      OtherMetas(q, DropAt(l, k), q.(metas := Recycled(m.metas, l.refs[k].page)));
    } else {
      SizeEncodes(m, l, k, Region(l.free[k].addr + n, l.free[k].size - n));
    }
  }

  // liballoc_free on memory does what it does on the list, when the node it gets is unused.
  lemma FreeEncodes(m: Mem, l: List, k: nat, b: Region, extra: nat)
    requires Encodes(m, l) && k <= |l.refs| && (TouchesPrev(l, k, b) || NewSlot(m.metas, extra) !in l.refs)
    ensures Joins(m, RefAt(l.refs, k - 1), b) <==> TouchesPrev(l, k, b)
    ensures Encodes(FreeMem(m, RefAt(l.refs, k - 1), RefAt(l.refs, k), b, extra),
            FreeAt(l, k, b, NewSlot(m.metas, extra)))
  {
    hide Encodes, NewSlot;
    SpotRefs(m, l, k);
    JoinsIff(m, l, k, b);
    if TouchesPrev(l, k, b) {
      var x := Region(l.free[k - 1].addr, l.free[k - 1].size + b.size);
      CellKept(m, l, k - 1);
      SizeEncodes(m, l, k - 1, x);
      MergeEncodes(GrowMem(m, l.refs[k - 1], b.size), SizeAt(l, k - 1, x), k - 1);
    } else {
      LinkEncodes(m, l, k, b, extra);
      var q := LinkAt(l, k, b, NewSlot(m.metas, extra));
      assert q.refs[k] == NewSlot(m.metas, extra) && RefAt(q.refs, k + 1) == RefAt(l.refs, k);
      MergeEncodes(LinkMem(m, RefAt(l.refs, k - 1), RefAt(l.refs, k), b, extra), q, k);
    }
  }

  lemma JoinsIff(m: Mem, l: List, k: nat, b: Region)
    requires Encodes(m, l) && k <= |l.refs|
    ensures Joins(m, RefAt(l.refs, k - 1), b) <==> TouchesPrev(l, k, b)
  {
    if k > 0 { CellKept(m, l, k - 1); }
  }

  // ---------- the counters over whole calls ----------

  function Live(refs: seq<Ref>): (s: set<Ref>) { set r | r in refs }

  lemma LiveDrop(refs: seq<Ref>, k: nat)
    requires Distinct(refs) && k < |refs|
    ensures Live(refs[..k] + refs[k + 1..]) == Live(refs) - {refs[k]} && refs[k] in Live(refs)
  {
    var r := refs[..k] + refs[k + 1..];
    forall x | x in Live(refs) - {refs[k]}
      ensures x in r
    {
      var i :| 0 <= i < |refs| && refs[i] == x;
      assert r[if i < k then i else i - 1] == x;
    }
  }

  lemma LiveLink(refs: seq<Ref>, k: nat, x: Ref)
    requires k <= |refs|
    ensures Live(refs[..k] + [x] + refs[k..]) == Live(refs) + {x}
  {
    assert refs == refs[..k] + refs[k..];
  }

  lemma MergeMeta(m: Mem, l: List, k: nat)
    requires Encodes(m, l) && k < |l.refs| && MetaOk(m.metas, Live(l.refs))
    ensures MetaOk(MergeMem(m, l.refs[k], RefAt(l.refs, k + 1)).metas, Live(MergeAt(l, k).refs))
  {
    hide MetaOk, Recycled, HoldsAt, Live;
    CellKept(m, l, k);
    if k + 1 < |l.refs| {
      CellKept(m, l, k + 1);
      LiveDrop(l.refs, k + 1);
      RecycleKeeps(m.metas, Live(l.refs), l.refs[k + 1]);
    }
  }

  lemma AllocMeta(m: Mem, l: List, k: nat, n: nat)
    requires Encodes(m, l) && k < |l.refs| && MetaOk(m.metas, Live(l.refs)) && n <= l.free[k].size
    ensures n <= Load(m, l.refs[k]).pages && l.refs[k].At?
    ensures MetaOk(AllocMem(m, RefAt(l.refs, k - 1), l.refs[k], n).metas, Live(AllocAt(l, k, n).refs))
  {
    hide MetaOk, Recycled, HoldsAt, Live;
    CellKept(m, l, k);
    LiveDrop(l.refs, k);
    RecycleKeeps(m.metas, Live(l.refs), l.refs[k]);
  }

  lemma GrowMeta(m: Mem, l: List, k: nat, b: Region, extra: nat)
    requires Encodes(m, l) && k <= |l.refs| && TouchesPrev(l, k, b) && MetaOk(m.metas, Live(l.refs))
    ensures MetaOk(FreeMem(m, RefAt(l.refs, k - 1), RefAt(l.refs, k), b, extra).metas,
                   Live(FreeAt(l, k, b, NewSlot(m.metas, extra)).refs))
  {
    hide Encodes, NewSlot, MetaOk, Counted, MergeMem, MergeAt, PageAt, Live, LinkMem, LinkAt;
    JoinsIff(m, l, k, b);
    var x := Region(l.free[k - 1].addr, l.free[k - 1].size + b.size);
    CellKept(m, l, k - 1);
    SizeEncodes(m, l, k - 1, x);
    MergeMeta(GrowMem(m, l.refs[k - 1], b.size), SizeAt(l, k - 1, x), k - 1);
  }

  lemma LinkMeta(m: Mem, l: List, k: nat, b: Region, extra: nat)
    requires Encodes(m, l) && k <= |l.refs| && !TouchesPrev(l, k, b) && NewSlot(m.metas, extra) !in l.refs
    requires MetaOk(m.metas, Live(l.refs)) && PageAt(m.metas, extra) == |m.metas|
    ensures MetaOk(FreeMem(m, RefAt(l.refs, k - 1), RefAt(l.refs, k), b, extra).metas,
                   Live(FreeAt(l, k, b, NewSlot(m.metas, extra)).refs))
  {
    hide Encodes, NewSlot, MetaOk, Counted, MergeMem, MergeAt, PageAt;
    JoinsIff(m, l, k, b);
    var r := NewSlot(m.metas, extra);
    LinkEncodes(m, l, k, b, extra);
    NewSlotKeeps(m.metas, Live(l.refs), extra);
    LiveLink(l.refs, k, r);
    var q := LinkAt(l, k, b, r);
    assert q.refs[k] == r && RefAt(q.refs, k + 1) == RefAt(l.refs, k);
    MergeMeta(LinkMem(m, RefAt(l.refs, k - 1), RefAt(l.refs, k), b, extra), q, k);
  }

  lemma FreeMeta(m: Mem, l: List, k: nat, b: Region, extra: nat)
    requires Encodes(m, l) && k <= |l.refs| && (TouchesPrev(l, k, b) || NewSlot(m.metas, extra) !in l.refs)
    requires MetaOk(m.metas, Live(l.refs)) && PageAt(m.metas, extra) == |m.metas|
    ensures MetaOk(FreeMem(m, RefAt(l.refs, k - 1), RefAt(l.refs, k), b, extra).metas,
                   Live(FreeAt(l, k, b, NewSlot(m.metas, extra)).refs))
  {
    hide Encodes, NewSlot, MetaOk, FreeMem, FreeAt, PageAt, Live;
    if TouchesPrev(l, k, b) {
      GrowMeta(m, l, k, b, extra);
    } else {
      LinkMeta(m, l, k, b, extra);
    }
  }

  // ---------- the pages a walk of the list meets ----------

  // Node number i of a walk from the head.
  function Nth(m: Mem, i: nat): (r: Ref) {
    if i == 0 then m.head else Load(m, Nth(m, i - 1)).next
  }

  predicate HasPage(c: Cell, page: nat) { c.base <= page < c.base + c.pages }

  // The list leads to a node whose range holds the page.
  ghost predicate Listed(m: Mem, page: nat) {
    exists i: nat :: Nth(m, i) != Null && HasPage(Load(m, Nth(m, i)), page)
  }

  lemma {:induction false} NthIs(m: Mem, l: List, i: nat)
    requires Encodes(m, l) && Null !in m.cells
    ensures Nth(m, i) == RefAt(l.refs, i)
  {
    if i > 0 {
      NthIs(m, l, i - 1);
      if i <= |l.refs| { CellKept(m, l, i - 1); }
    }
  }

  lemma {:induction false} HasAt(rs: seq<Region>, u: nat)
    ensures Has(rs, u) <==> exists k :: 0 <= k < |rs| && rs[k].addr <= u < rs[k].End()
  {
    if rs != [] {
      HasAt(rs[1..], u);
      if k :| 0 <= k < |rs| && rs[k].addr <= u < rs[k].End() {
        assert k > 0 ==> rs[1..][k - 1] == rs[k];
      }
    }
  }

  // On an intact list the walk meets exactly the free ranges.
  lemma ListedIff(m: Mem, l: List, page: nat)
    requires Encodes(m, l) && Null !in m.cells
    ensures Listed(m, page) <==> Has(l.free, page)
  {
    hide Encodes;
    HasAt(l.free, page);
    if Listed(m, page) {
      var i: nat :| Nth(m, i) != Null && HasPage(Load(m, Nth(m, i)), page);
      NthIs(m, l, i);
      CellKept(m, l, i);
      assert l.free[i].addr <= page < l.free[i].End();
    }
    if k :| 0 <= k < |l.free| && l.free[k].addr <= page < l.free[k].End() {
      NthIs(m, l, k);
      CellKept(m, l, k);
      assert HasPage(Load(m, Nth(m, k)), page);
    }
  }

  // ---------- a node in use is handed out ----------

  // Every pointer of the nodes in `live` stays among them, and none of them holds the page.
  predicate Confined(m: Mem, live: set<Ref>, page: nat) {
    && (m.head == Null || m.head in live) && Null !in live
    && (forall r :: r in live ==> (Load(m, r).next == Null || Load(m, r).next in live) && !HasPage(Load(m, r), page))
  }

  lemma {:induction false} ConfinedNth(m: Mem, live: set<Ref>, page: nat, i: nat)
    requires Confined(m, live, page) && Null !in m.cells
    ensures Nth(m, i) == Null || Nth(m, i) in live
  {
    if i > 0 { ConfinedNth(m, live, page, i - 1); }
  }

  lemma ConfinedLost(m: Mem, live: set<Ref>, page: nat)
    requires Confined(m, live, page) && Null !in m.cells
    ensures !Listed(m, page)
  {
    hide Nth;
    forall i: nat
      ensures Nth(m, i) == Null || !HasPage(Load(m, Nth(m, i)), page)
    {
      ConfinedNth(m, live, page, i);
    }
  }

  lemma MergeConfined(m: Mem, live: set<Ref>, page: nat, node: Ref, current: Ref)
    requires Confined(m, live, page) && node in live && (current == Null || current in live)
    ensures Confined(MergeMem(m, node, current), live, page)
  {
    hide Recycled;
  }

  lemma {:induction false} InOrder(free: seq<Region>, i: nat, j: nat)
    requires Gapped(free) && i < j < |free|
    ensures free[i].End() < free[j].addr
  {
    if i == 0 { Below(free, j); } else { InOrder(free[1..], i - 1, j - 1); }
  }

  // The node j is overwritten with the freed range b, so its old range is nowhere.
  lemma OverwriteConfined(m: Mem, l: List, k: nat, b: Region, j: nat, page: nat)
    requires Encodes(m, l) && Gapped(l.free) && ApartFrom(l.free, b) && k <= |l.refs| && j < |l.refs|
    requires l.free[j].addr <= page < l.free[j].End()
    ensures Confined(Store(m, l.refs[j], Cell(b.addr, b.size, RefAt(l.refs, k))), Live(l.refs), page)
  {
    var q, live := Store(m, l.refs[j], Cell(b.addr, b.size, RefAt(l.refs, k))), Live(l.refs);
    ApartAt(l.free, b, j);
    if |l.refs| > 0 { CellKept(m, l, 0); }
    forall r | r in live
      ensures r != Null && (Load(q, r).next == Null || Load(q, r).next in live) && !HasPage(Load(q, r), page)
    {
      var i :| 0 <= i < |l.refs| && l.refs[i] == r;
      CellKept(m, l, i);
      if i < j { InOrder(l.free, i, j); } else if j < i { InOrder(l.free, j, i); }
    }
  }

  // When the new node is node j of the list, every page of its old range is lost.
  lemma FreeLoses(m: Mem, l: List, k: nat, b: Region, extra: nat, j: nat, page: nat)
    requires Encodes(m, l) && Gapped(l.free) && ApartFrom(l.free, b) && k <= |l.refs| && Null !in m.cells
    requires !TouchesPrev(l, k, b) && j < |l.refs| && l.refs[j] == NewSlot(m.metas, extra)
    requires l.free[j].addr <= page < l.free[j].End()
    ensures !Listed(FreeMem(m, RefAt(l.refs, k - 1), RefAt(l.refs, k), b, extra), page)
  {
    hide Encodes, Gapped, ApartFrom, Listed, NewSlot, Counted, MergeMem;
    var r, prev, current := NewSlot(m.metas, extra), RefAt(l.refs, k - 1), RefAt(l.refs, k);
    var live, q := Live(l.refs), LinkMem(m, prev, current, b, extra);
    JoinsIff(m, l, k, b);
    OverwriteConfined(m, l, k, b, j, page);
    assert Confined(q, live, page) && Null !in q.cells;
    MergeConfined(q, live, page, r, current);
    NullStays(q, r, current);
    ConfinedLost(MergeMem(q, r, current), live, page);
  }

  lemma NullStays(m: Mem, node: Ref, current: Ref)
    requires Null !in m.cells && node != Null
    ensures Null !in MergeMem(m, node, current).cells
  {
  }

  // ---------- every run ----------

  // liballoc_alloc of n pages, or liballoc_free of the j-th outstanding range, in which kalloc gives
  // `extra` if a new metadata page is needed.
  datatype Op = Get(n: nat) | Put(j: nat, extra: nat)

  // The memory, the list it is meant to hold, and the ranges handed out. A call that is handed a node
  // in use leaves a torn list, and the run ends.
  datatype World = Intact(mem: Mem, list: List, used: seq<Region>) | Torn(mem: Mem, used: seq<Region>)

  function Whole(): (r: seq<Region>) { [Region(KHEAP_START, KHEAP_END - KHEAP_START)] }

  // After kheap_init, with the first metadata page at address `page`.
  function Boot(page: nat): (w: World) {
    var r := At(page, 0);
    Intact(Mem(r, map[r := Cell(KHEAP_START, KHEAP_END - KHEAP_START, Null)], [Meta(page, 1)]), Rows(Whole(), [r]), [])
  }

  // Callers free what they hold, and kalloc gives pages that are not in use.
  predicate Asks(w: World, op: Op) {
    && w.Intact?
    && (op.Put? ==> op.j < |w.used| && PageAt(w.mem.metas, op.extra) == |w.mem.metas|)
  }

  // The call links a new node in, and the slot the counter names is a node of the free list.
  predicate Clashes(w: World, op: Op)
    requires Asks(w, op)
  {
    op.Put? &&
    var b := w.used[op.j];
    !TouchesPrev(w.list, Spot(w.list.free, b.addr), b) && NewSlot(w.mem.metas, op.extra) in w.list.refs
  }

  function Next(w: World, op: Op): (v: World)
    requires Asks(w, op)
  {
    var l := w.list;
    match op
    case Get(n) =>
      var k := FirstFit(l.free, n);
      if n > 0 && k < |l.free|
      then Intact(AllocMem(w.mem, RefAt(l.refs, k - 1), l.refs[k], n), AllocAt(l, k, n),
          [Taken(l.free, k, n, Low)] + w.used)
      else w
    case Put(j, extra) =>
      var b := w.used[j];
      var k := Spot(l.free, b.addr);
      var q := FreeMem(w.mem, RefAt(l.refs, k - 1), RefAt(l.refs, k), b, extra);
      if Clashes(w, op) then Torn(q, Remove(w.used, j))
      else Intact(q, FreeAt(l, k, b, NewSlot(w.mem.metas, extra)), Remove(w.used, j))
  }

  predicate CanRun(w: World, ops: seq<Op>)
    decreases |ops|
  {
    ops == [] || (Asks(w, ops[0]) && CanRun(Next(w, ops[0]), ops[1..]))
  }

  function Run(w: World, ops: seq<Op>): (v: World)
    requires CanRun(w, ops)
    decreases |ops|
  {
    if ops == [] then w else Run(Next(w, ops[0]), ops[1..])
  }

  predicate NoClash(w: World, ops: seq<Op>)
    requires CanRun(w, ops)
    decreases |ops|
  {
    ops == [] || (!Clashes(w, ops[0]) && NoClash(Next(w, ops[0]), ops[1..]))
  }

  ghost predicate Good(w: World) {
    && w.Intact? && Encodes(w.mem, w.list) && Null !in w.mem.cells
    && MetaOk(w.mem.metas, Live(w.list.refs)) && Inv(Pool(w.list.free, w.used, Whole()))
  }

  // What the heap is for: every page of it is on the free list or handed out, and not both.
  ghost predicate Partitioned(w: World) {
    forall page: nat ::
      && (KHEAP_START <= page < KHEAP_END <==> Listed(w.mem, page) || Has(w.used, page))
      && !(Listed(w.mem, page) && Has(w.used, page))
  }

  lemma BootGood(page: nat)
    ensures Good(Boot(page))
  {
    var w := Boot(page);
    assert On(Live(w.list.refs), page) == {At(page, 0)};
  }

  lemma GetGood(w: World, n: nat)
    requires Good(w)
    ensures Good(Next(w, Get(n)))
  {
    hide Encodes, MetaOk, Inv, Live, AllocAt, FirstFit;
    var l, k := w.list, FirstFit(w.list.free, n);
    if n > 0 && k < |l.free| {
      AllocEncodes(w.mem, l, k, n);
      AllocMeta(w.mem, l, k, n);
      AllocateKeeps(Pool(l.free, w.used, Whole()), k, n, Low);
      AllocAtTakes(l, k, n);
      SpotRefs(w.mem, l, k);
    }
  }

  lemma AllocAtTakes(l: List, k: nat, n: nat)
    requires k < |l.free| && n <= l.free[k].size
    ensures AllocAt(l, k, n).free == Take(l.free, k, n, Low)
  {
    TakeAt(l.free, k, n);
  }

  // A range in use lies apart from the free ranges.
  lemma UsedApart(p: Pool, j: nat)
    requires Inv(p) && j < |p.used|
    ensures Gapped(p.free) && p.used[j].size >= 1 && ApartFrom(p.free, p.used[j])
  {
    AllApartAt(p.free, p.used, j);
    ScatteredAt(p.used, j);
  }

  lemma FreeNulls(m: Mem, prev: Ref, current: Ref, b: Region, extra: nat)
    requires Null !in m.cells
    ensures Null !in FreeMem(m, prev, current, b, extra).cells
  {
    NewSlotAt(m.metas, extra);
  }

  lemma PutGood(w: World, j: nat, extra: nat)
    requires Good(w) && Asks(w, Put(j, extra)) && !Clashes(w, Put(j, extra))
    ensures Good(Next(w, Put(j, extra)))
  {
    hide Encodes, MetaOk, Inv, Live, FreeAt, FreeMem, Spot, PageAt, NewSlot, Insert;
    var l, b, p := w.list, w.used[j], Pool(w.list.free, w.used, Whole());
    var k: int := Spot(l.free, b.addr);
    FreeEncodes(w.mem, l, k, b, extra);
    FreeMeta(w.mem, l, k, b, extra);
    FreeNulls(w.mem, RefAt(l.refs, k - 1), RefAt(l.refs, k), b, extra);
    UsedApart(p, j);
    FreeAtInserts(l, b, NewSlot(w.mem.metas, extra));
    ReleaseKeeps(p, j);
  }

  lemma NextGood(w: World, op: Op)
    requires Good(w) && Asks(w, op) && !Clashes(w, op)
    ensures Good(Next(w, op))
  {
    hide Good;
    match op {
      case Get(n) => GetGood(w, n);
      case Put(j, extra) => PutGood(w, j, extra);
    }
  }

  lemma WholeHas(page: nat)
    ensures Has(Whole(), page) <==> KHEAP_START <= page < KHEAP_END
  {
    assert Whole()[1..] == [];
  }

  lemma GoodPartitioned(w: World)
    requires Good(w)
    ensures Partitioned(w)
  {
    hide Encodes, MetaOk, Inv, Live, Whole, Has, Listed;
    forall page: nat
      ensures KHEAP_START <= page < KHEAP_END <==> Listed(w.mem, page) || Has(w.used, page)
      ensures !(Listed(w.mem, page) && Has(w.used, page))
    {
      ListedIff(w.mem, w.list, page);
      Partition(Pool(w.list.free, w.used, Whole()), page);
      WholeHas(page);
    }
  }

  lemma {:induction false} RemoveHas(used: seq<Region>, j: nat, u: nat)
    requires j < |used| && Has(Remove(used, j), u)
    ensures Has(used, u)
  {
    if j > 0 && !(used[0].addr <= u < used[0].End()) {
      var r := Remove(used, j);
      assert r[1..] == Remove(used[1..], j - 1);
      RemoveHas(used[1..], j - 1, u);
    }
  }

  // A call that is handed a node in use loses the range of that node for good.
  lemma ClashTears(w: World, op: Op)
    requires Good(w) && Asks(w, op) && Clashes(w, op)
    ensures !Partitioned(Next(w, op))
  {
    hide Encodes, MetaOk, Inv, Live, Whole, Has, Listed, FreeMem, Spot, PageAt, NewSlot, Insert;
    var l, b, p := w.list, w.used[op.j], Pool(w.list.free, w.used, Whole());
    var k := Spot(l.free, b.addr);
    UsedApart(p, op.j);
    var i :| 0 <= i < |l.refs| && l.refs[i] == NewSlot(w.mem.metas, op.extra);
    var page := l.free[i].addr;
    GappedSizes(l.free, i);
    HasAt(l.free, page);
    Partition(p, page);
    WholeHas(page);
    FreeLoses(w.mem, l, k, b, op.extra, i, page);
    if Has(Remove(w.used, op.j), page) {
      RemoveHas(w.used, op.j, page);
    }
  }

  lemma {:induction false} RunFrom(w: World, ops: seq<Op>)
    requires Good(w) && CanRun(w, ops)
    ensures Partitioned(Run(w, ops)) <==> NoClash(w, ops)
    ensures NoClash(w, ops) ==> Good(Run(w, ops))
    decreases |ops|
  {
    hide Good, Partitioned, Clashes, Asks;
    if ops == [] {
      GoodPartitioned(w);
    } else if Clashes(w, ops[0]) {
      ClashTears(w, ops[0]);
      TornEnds(w, ops[0], ops[1..]);
    } else {
      NextGood(w, ops[0]);
      RunFrom(Next(w, ops[0]), ops[1..]);
    }
  }

  lemma TornEnds(w: World, op: Op, ops: seq<Op>)
    requires Asks(w, op) && Clashes(w, op) && CanRun(Next(w, op), ops)
    ensures ops == []
  {
  }

  // THE HEAP IS PARTITIONED, over every run from boot, exactly as long as no call that links a new node
  // in finds the slot its counter names still on the free list. A caller can look that up before the
  // call.
  lemma PartitionIff(page: nat, ops: seq<Op>)
    requires CanRun(Boot(page), ops)
    ensures Partitioned(Run(Boot(page), ops)) <==> NoClash(Boot(page), ops)
  {
    BootGood(page);
    RunFrom(Boot(page), ops);
  }

  // Then the list is also ordered, disjoint and fully coalesced, the sizes add up, and the counters
  // of the metadata pages are right.
  lemma HeapRun(page: nat, ops: seq<Op>)
    requires CanRun(Boot(page), ops) && NoClash(Boot(page), ops)
    ensures var w := Run(Boot(page), ops);
            && w.Intact? && Encodes(w.mem, w.list) && Gapped(w.list.free) && Scattered(w.used)
            && Units(w.list.free) + Units(w.used) == KHEAP_END - KHEAP_START
            && MetaOk(w.mem.metas, Live(w.list.refs))
  {
    hide Encodes, MetaOk, Live, Gapped, Scattered, Run, NoClash;
    BootGood(page);
    RunFrom(Boot(page), ops);
    assert Whole()[1..] == [];
  }

  // ---------- when the counters name unused slots ----------

  // The live slots of each page are the first ones, as many as its counter says.
  predicate Packed(metas: seq<Meta>, live: set<Ref>) {
    && (forall r :: r in live ==>
          r.At? && PageAt(metas, r.page) < |metas| && r.slot < metas[PageAt(metas, r.page)].count)
    && (forall i: nat, s: nat :: i < |metas| && s < metas[i].count ==> At(metas[i].id, s) in live)
  }

  // r is the last slot its page has counted.
  predicate Top(metas: seq<Meta>, r: Ref) {
    r.At? && var k := PageAt(metas, r.page); k < |metas| && metas[k].count == r.slot + 1
  }

  lemma PackedCountUp(metas: seq<Meta>, live: set<Ref>, k: nat)
    requires MetaOk(metas, live) && Packed(metas, live) && k < |metas|
    ensures At(metas[k].id, metas[k].count) !in live
    ensures Packed(metas[k := Meta(metas[k].id, metas[k].count + 1)], live + {At(metas[k].id, metas[k].count)})
  {
    hide PageAt, On;
    PageAtIs(metas, k);
    var r, after := At(metas[k].id, metas[k].count), metas[k := Meta(metas[k].id, metas[k].count + 1)];
    forall q | q in live + {r}
      ensures q.At? && PageAt(after, q.page) < |after| && q.slot < after[PageAt(after, q.page)].count
    {
      var i := if q == r then k else PageAt(metas, q.page);
      PageAtIs(after, i);
    }
  }

  lemma PackedAddPage(metas: seq<Meta>, live: set<Ref>, extra: nat)
    requires MetaOk(metas, live) && Packed(metas, live) && PageAt(metas, extra) == |metas|
    ensures At(extra, 0) !in live && Packed([Meta(extra, 1)] + metas, live + {At(extra, 0)})
  {
    hide PageAt, MetaOk;
    var r, after := At(extra, 0), [Meta(extra, 1)] + metas;
    DistinctIds(metas, live, extra);
    forall q | q in live + {r}
      ensures q.At? && PageAt(after, q.page) < |after| && q.slot < after[PageAt(after, q.page)].count
    {
      var i := if q == r then 0 else PageAt(metas, q.page) + 1;
      PageAtIs(after, i);
    }
    forall i: nat, s: nat | i < |after| && s < after[i].count
      ensures At(after[i].id, s) in live + {r}
    {
      assert i > 0 ==> after[i] == metas[i - 1];
    }
  }

  lemma DistinctIds(metas: seq<Meta>, live: set<Ref>, extra: nat)
    requires MetaOk(metas, live) && PageAt(metas, extra) == |metas|
    ensures var after := [Meta(extra, 1)] + metas; forall i, j :: 0 <= i < j < |after| ==> after[i].id != after[j].id
  {
    hide PageAt, On;
  }

  // The slot handed out is then unused, and handing it out keeps the pages packed.
  lemma PackedNew(metas: seq<Meta>, live: set<Ref>, extra: nat)
    requires MetaOk(metas, live) && Packed(metas, live) && PageAt(metas, extra) == |metas|
    ensures NewSlot(metas, extra) !in live && Packed(Counted(metas, extra), live + {NewSlot(metas, extra)})
  {
    hide MetaOk, Packed, PageAt;
    var k := FirstRoom(metas);
    if k < |metas| {
      PackedCountUp(metas, live, k);
    } else {
      PackedAddPage(metas, live, extra);
    }
  }

  // Recycling keeps them packed exactly when the slot given back is the top one of its page.
  lemma PackedRecycle(metas: seq<Meta>, live: set<Ref>, r: Ref)
    requires MetaOk(metas, live) && Packed(metas, live) && r in live
    ensures Packed(Recycled(metas, r.page), live - {r}) <==> Top(metas, r)
  {
    hide PageAt, On, MetaOk, Packed;
    PackedAt(metas, live, r);
    if Top(metas, r) {
      TopKeepsPacked(metas, live, r);
    } else {
      HoleBreaksPacked(metas, live, r);
    }
  }

  lemma PackedAt(metas: seq<Meta>, live: set<Ref>, r: Ref)
    requires Packed(metas, live) && r in live
    ensures r.At? && PageAt(metas, r.page) < |metas| && r.slot < metas[PageAt(metas, r.page)].count
  {
  }

  lemma TopKeepsPacked(metas: seq<Meta>, live: set<Ref>, r: Ref)
    requires MetaOk(metas, live) && Packed(metas, live) && r in live && Top(metas, r)
    ensures Packed(Recycled(metas, r.page), live - {r})
  {
    hide PageAt, On;
    var k, after := PageAt(metas, r.page), Recycled(metas, r.page);
    var gone := metas[k].count <= 1;
    forall q | q in live - {r}
      ensures q.At? && PageAt(after, q.page) < |after| && q.slot < after[PageAt(after, q.page)].count
    {
      var o := PageAt(metas, q.page);
      PageAtIs(after, if gone && o > k then o - 1 else o);
    }
    forall i: nat, s: nat | i < |after| && s < after[i].count
      ensures At(after[i].id, s) in live - {r}
    {
      var o := if gone && i >= k then i + 1 else i;
      assert At(metas[o].id, s) in live;
    }
  }

  lemma HoleBreaksPacked(metas: seq<Meta>, live: set<Ref>, r: Ref)
    requires MetaOk(metas, live) && Packed(metas, live) && r in live && !Top(metas, r)
    ensures !Packed(Recycled(metas, r.page), live - {r})
  {
    hide PageAt, On;
    var k, after := PageAt(metas, r.page), Recycled(metas, r.page);
    assert r.slot < metas[k].count && metas[k].count > 1;
    assert after[k] == Meta(r.page, metas[k].count - 1) && r.slot < after[k].count;
    assert At(after[k].id, r.slot) == r;
  }

  // What a call recycles is the top slot of its page at that moment. A caller can look that up too.
  predicate Tidy(w: World, op: Op)
    requires Asks(w, op)
  {
    var l := w.list;
    match op
    case Get(n) =>
      var k := FirstFit(l.free, n);
      n > 0 && k < |l.free| && l.free[k].size == n ==> Top(w.mem.metas, l.refs[k])
    case Put(j, extra) =>
      var b := w.used[j];
      var k := Spot(l.free, b.addr);
      k < |l.free| && b.End() == l.free[k].addr ==>
        Top(if TouchesPrev(l, k, b) then w.mem.metas else Counted(w.mem.metas, extra), l.refs[k])
  }

  predicate Tight(w: World) { w.Intact? && Packed(w.mem.metas, Live(w.list.refs)) }

  lemma GetTight(w: World, n: nat)
    requires Good(w) && Tight(w)
    ensures Tight(Next(w, Get(n))) <==> Tidy(w, Get(n))
  {
    hide MetaOk, Packed, Recycled, Inv, HoldsAt, Top, Live;
    var l, k := w.list, FirstFit(w.list.free, n);
    if n > 0 && k < |l.free| {
      CellKept(w.mem, l, k);
      LiveDrop(l.refs, k);
      PackedRecycle(w.mem.metas, Live(l.refs), l.refs[k]);
    }
  }

  lemma MergeTight(m: Mem, l: List, k: nat)
    requires Encodes(m, l) && k < |l.refs| && MetaOk(m.metas, Live(l.refs)) && Packed(m.metas, Live(l.refs))
    ensures Packed(MergeMem(m, l.refs[k], RefAt(l.refs, k + 1)).metas, Live(MergeAt(l, k).refs)) <==>
            (TouchesNext(l, k) ==> Top(m.metas, l.refs[k + 1]))
  {
    hide MetaOk, Packed, Recycled, HoldsAt, Live, Top;
    CellKept(m, l, k);
    if k + 1 < |l.refs| {
      CellKept(m, l, k + 1);
      LiveDrop(l.refs, k + 1);
      PackedRecycle(m.metas, Live(l.refs), l.refs[k + 1]);
    }
  }

  lemma LinkTight(m: Mem, l: List, k: nat, b: Region, extra: nat)
    requires Encodes(m, l) && MetaOk(m.metas, Live(l.refs)) && Packed(m.metas, Live(l.refs)) && k <= |l.refs|
    requires PageAt(m.metas, extra) == |m.metas| && !TouchesPrev(l, k, b)
    ensures NewSlot(m.metas, extra) !in l.refs
    ensures Packed(FreeMem(m, RefAt(l.refs, k - 1), RefAt(l.refs, k), b, extra).metas,
                   Live(FreeAt(l, k, b, NewSlot(m.metas, extra)).refs)) <==>
            (k < |l.free| && b.End() == l.free[k].addr ==> Top(Counted(m.metas, extra), l.refs[k]))
  {
    hide Encodes, NewSlot, MetaOk, Counted, MergeMem, MergeAt, PageAt, Packed, Top;
    JoinsIff(m, l, k, b);
    PackedNew(m.metas, Live(l.refs), extra);
    var r := NewSlot(m.metas, extra);
    LinkEncodes(m, l, k, b, extra);
    NewSlotKeeps(m.metas, Live(l.refs), extra);
    LiveLink(l.refs, k, r);
    var q, n := LinkMem(m, RefAt(l.refs, k - 1), RefAt(l.refs, k), b, extra), LinkAt(l, k, b, r);
    assert n.refs[k] == r && RefAt(n.refs, k + 1) == RefAt(l.refs, k);
    assert n.free[k] == b && (k < |l.free| ==> n.free[k + 1] == l.free[k] && n.refs[k + 1] == l.refs[k]);
    MergeTight(q, n, k);
  }

  lemma GrowTight(m: Mem, l: List, k: nat, b: Region, extra: nat)
    requires Encodes(m, l) && MetaOk(m.metas, Live(l.refs)) && Packed(m.metas, Live(l.refs)) && k <= |l.refs|
    requires TouchesPrev(l, k, b)
    ensures Packed(FreeMem(m, RefAt(l.refs, k - 1), RefAt(l.refs, k), b, extra).metas,
                   Live(FreeAt(l, k, b, NewSlot(m.metas, extra)).refs)) <==>
            (k < |l.free| && b.End() == l.free[k].addr ==> Top(m.metas, l.refs[k]))
  {
    hide Encodes, NewSlot, MetaOk, Counted, MergeMem, MergeAt, PageAt, Packed, Top;
    JoinsIff(m, l, k, b);
    var x := Region(l.free[k - 1].addr, l.free[k - 1].size + b.size);
    CellKept(m, l, k - 1);
    SizeEncodes(m, l, k - 1, x);
    MergeTight(GrowMem(m, l.refs[k - 1], b.size), SizeAt(l, k - 1, x), k - 1);
  }

  lemma StepTight(w: World, op: Op)
    requires Good(w) && Tight(w) && Asks(w, op)
    ensures !Clashes(w, op) && (Tight(Next(w, op)) <==> Tidy(w, op))
  {
    hide Encodes, NewSlot, MetaOk, Counted, FreeMem, FreeAt, PageAt, Packed, Top, Live, Inv, Spot;
    match op {
      case Get(n) => GetTight(w, n);
      case Put(j, extra) =>
        var b: Region, l := w.used[j], w.list;
        var k := Spot(l.free, b.addr);
        if TouchesPrev(l, k, b) {
          GrowTight(w.mem, l, k, b, extra);
        } else {
          LinkTight(w.mem, l, k, b, extra);
        }
    }
  }

  predicate AlwaysTight(w: World, ops: seq<Op>)
    requires CanRun(w, ops)
    decreases |ops|
  {
    Tight(w) && (ops != [] ==> AlwaysTight(Next(w, ops[0]), ops[1..]))
  }

  predicate AllTidy(w: World, ops: seq<Op>)
    requires CanRun(w, ops)
    decreases |ops|
  {
    ops != [] ==> Tidy(w, ops[0]) && AllTidy(Next(w, ops[0]), ops[1..])
  }

  lemma {:induction false} TidyFrom(w: World, ops: seq<Op>)
    requires Good(w) && Tight(w) && CanRun(w, ops)
    ensures AlwaysTight(w, ops) <==> AllTidy(w, ops)
    ensures AllTidy(w, ops) ==> NoClash(w, ops)
    decreases |ops|
  {
    hide Good, Tight, Tidy, Clashes, Asks;
    if ops != [] {
      StepTight(w, ops[0]);
      NextGood(w, ops[0]);
      if Tidy(w, ops[0]) {
        TidyFrom(Next(w, ops[0]), ops[1..]);
      } else {
        NotAlways(Next(w, ops[0]), ops[1..]);
      }
    }
  }

  lemma NotAlways(w: World, ops: seq<Op>)
    requires CanRun(w, ops) && !Tight(w)
    ensures !AlwaysTight(w, ops)
  {
  }

  // Over every run from boot the metadata pages stay packed exactly when every slot the calls recycle
  // is the top one of its page, and then no call is handed a node in use.
  lemma TidyIff(page: nat, ops: seq<Op>)
    requires CanRun(Boot(page), ops)
    ensures AlwaysTight(Boot(page), ops) <==> AllTidy(Boot(page), ops)
    ensures AllTidy(Boot(page), ops) ==> NoClash(Boot(page), ops) && Partitioned(Run(Boot(page), ops))
  {
    BootGood(page);
    BootTight(page);
    TidyFrom(Boot(page), ops);
    PartitionIff(page, ops);
  }

  lemma BootTight(page: nat)
    ensures Tight(Boot(page))
  {
  }

  // ---------- the run that tears the list ----------

  lemma TwoCalls(w: World, a: Op, b: Op)
    requires Asks(w, a) && Asks(Next(w, a), b)
    ensures CanRun(w, [a, b]) && Run(w, [a, b]) == Next(Next(w, a), b)
    ensures NoClash(w, [a, b]) <==> !Clashes(w, a) && !Clashes(Next(w, a), b)
  {
    hide Asks, Next, Clashes;
    var ops, one, v := [a, b], [b], Next(w, a);
    assert ops[1..] == one && one[1..] == [];
    assert CanRun(v, one) && Run(v, one) == Run(Next(v, b), []) && (NoClash(v, one) <==> !Clashes(v, b));
  }

  // The memory with one node, at r, and a counter of 1.
  predicate OneNode(w: World, r: Ref, c: Cell) {
    && w.Intact? && r.At? && w.mem.head == r && w.mem.metas == [Meta(r.page, 1)] && Load(w.mem, r) == c
    && w.list == Rows([Region(c.base, c.pages)], [r]) && c.next == Null
  }

  // The first page of the heap is handed out.
  lemma FirstPage(w: World, r: Ref)
    requires OneNode(w, r, Cell(KHEAP_START, KHEAP_END - KHEAP_START, Null)) && w.used == []
    ensures var v := Next(w, Get(1));
            && Asks(w, Get(1)) && !Clashes(w, Get(1))
            && OneNode(v, r, Cell(KHEAP_START + 1, KHEAP_END - KHEAP_START - 1, Null))
            && v.used == [Region(KHEAP_START, 1)]
  {
  }

  // Giving it back takes slot 1, swallows slot 0, and leaves a counter that names slot 1.
  lemma FirstFree(w: World, page: nat, e: nat)
    requires OneNode(w, At(page, 0), Cell(KHEAP_START + 1, KHEAP_END - KHEAP_START - 1, Null)) && e != page
    requires w.used == [Region(KHEAP_START, 1)]
    ensures Asks(w, Put(0, e)) && !Clashes(w, Put(0, e))
    ensures var v := Next(w, Put(0, e));
            && OneNode(v, At(page, 1), Cell(KHEAP_START, KHEAP_END - KHEAP_START, Null)) && v.used == []
  {
    var b, r := w.used[0], At(page, 1);
    assert NewSlot(w.mem.metas, e) == r && Counted(w.mem.metas, e) == [Meta(page, 2)];
    assert Recycled([Meta(page, 2)], page) == [Meta(page, 1)];
    var l := LinkAt(w.list, 0, b, r);
    assert l.free == [b, w.list.free[0]] && l.refs == [r, At(page, 0)];
    var q := LinkMem(w.mem, Null, At(page, 0), b, e);
    assert Load(q, r) == Cell(KHEAP_START, 1, At(page, 0)) && Load(q, At(page, 0)) == Load(w.mem, At(page, 0));
  }

  // The second time it is handed slot 1, which is the head of the list.
  lemma SecondFree(w: World, page: nat, e: nat)
    requires OneNode(w, At(page, 1), Cell(KHEAP_START + 1, KHEAP_END - KHEAP_START - 1, Null)) && e != page
    requires w.used == [Region(KHEAP_START, 1)]
    ensures Asks(w, Put(0, e)) && Clashes(w, Put(0, e))
    ensures var v := Next(w, Put(0, e));
            v.mem.head == At(page, 1) && Load(v.mem, At(page, 1)) == Cell(KHEAP_START, 1, At(page, 1))
  {
    var r := At(page, 1);
    assert w.list.refs[0] == NewSlot(w.mem.metas, e) == r;
  }

  lemma {:induction false} Loops(m: Mem, r: Ref, i: nat)
    requires m.head == r && Load(m, r).next == r
    ensures Nth(m, i) == r
  {
    if i > 0 { Loops(m, r, i - 1); }
  }

  lemma {:induction false} RunAppend(w: World, a: seq<Op>, b: seq<Op>)
    requires CanRun(w, a) && CanRun(Run(w, a), b)
    ensures CanRun(w, a + b) && Run(w, a + b) == Run(Run(w, a), b)
    ensures NoClash(w, a + b) <==> NoClash(w, a) && NoClash(Run(w, a), b)
    decreases |a|
  {
    hide Asks, Next, Clashes;
    if a == [] {
      assert a + b == b;
    } else {
      assert (a + b)[1..] == a[1..] + b;
      RunAppend(Next(w, a[0]), a[1..], b);
    }
  }

  lemma BootNode(page: nat)
    ensures var w := Boot(page);
            OneNode(w, At(page, 0), Cell(KHEAP_START, KHEAP_END - KHEAP_START, Null)) && w.used == []
  {
  }

  // Allocating one page and freeing it, twice, tears the list: its only node is one page that points
  // at itself, so a search for two pages never ends.
  lemma FourCalls(page: nat, e: nat) returns (ops: seq<Op>)
    requires e != page
    ensures ops == [Get(1), Put(0, e), Get(1), Put(0, e)] && CanRun(Boot(page), ops)
    ensures !NoClash(Boot(page), ops) && !Partitioned(Run(Boot(page), ops))
    ensures var m := Run(Boot(page), ops).mem;
            forall i: nat :: Nth(m, i) == At(page, 1) && Load(m, Nth(m, i)).pages == 1
  {
    hide OneNode, Next, Clashes, Asks, Run, CanRun, NoClash;
    var w0, half := Boot(page), [Get(1), Put(0, e)];
    ops := half + half;
    BootNode(page);
    FirstPage(w0, At(page, 0));
    var w1 := Next(w0, Get(1));
    FirstFree(w1, page, e);
    TwoCalls(w0, Get(1), Put(0, e));
    var w2 := Next(w1, Put(0, e));
    FirstPage(w2, At(page, 1));
    var w3 := Next(w2, Get(1));
    SecondFree(w3, page, e);
    TwoCalls(w2, Get(1), Put(0, e));
    RunAppend(w0, half, half);
    PartitionIff(page, ops);
    forall i: nat
      ensures Nth(Run(Boot(page), ops).mem, i) == At(page, 1)
    {
      Loops(Run(Boot(page), ops).mem, At(page, 1), i);
    }
  }

  // ---------- the code ----------

  class KHeap {
    var head: Ref
    var cells: map<Ref, Cell>
    var metas: seq<Meta>
    ghost var list: List

    ghost function Memory(): (m: Mem)
      reads this
    {
      Mem(head, cells, metas)
    }

    ghost predicate Valid()
      reads this
    {
      Encodes(Memory(), list) && Null !in cells && MetaOk(metas, Live(list.refs))
    }

    // kheap_init: one node, in the first slot of a first metadata page, covers the whole heap.
    constructor (page: nat)
      ensures Valid() && Memory() == Boot(page).mem && list == Boot(page).list
      ensures list.free == [Region(KHEAP_START, KHEAP_END - KHEAP_START)] && list.refs == [At(page, 0)]
      ensures metas == [Meta(page, 1)]
    {
      head, cells, metas := Null, map[], [];
      list := Rows([], []);
      new;
      var r := GetRegion(page);
      cells := cells[r := Cell(KHEAP_START, KHEAP_END - KHEAP_START, Null)];
      head := r;
      list := Rows(Whole(), [r]);
      BootGood(page);
    }

    // get_new_vmem_region
    method GetRegion(extra: nat) returns (r: Ref)
      modifies this`metas
      ensures r == NewSlot(old(metas), extra) && metas == Counted(old(metas), extra)
      ensures var was, k := old(metas), FirstRoom(old(metas));
              if k < |was| then
                r == At(was[k].id, was[k].count) && metas == was[k := Meta(was[k].id, was[k].count + 1)]
              else r == At(extra, 0) && metas == [Meta(extra, 1)] + was
    {
      var k := 0;
      while k < |metas|
        invariant k <= FirstRoom(metas) && metas == old(metas)
      {
        if metas[k].count < REGIONS_PER_PAGE {
          r := At(metas[k].id, metas[k].count);
          metas := metas[k := Meta(metas[k].id, metas[k].count + 1)];
          return;
        }
        k := k + 1;
      }
      metas := [Meta(extra, 1)] + metas;
      r := At(extra, 0);
    }

    // recycle_vmem_region
    method Recycle(r: Ref)
      modifies this`metas
      ensures metas == if r == Null then old(metas) else Recycled(old(metas), r.page)
      ensures r != Null ==>
                var was, k := old(metas), PageAt(old(metas), r.page);
                metas == if k == |was| then was
                         else if was[k].count <= 1 then was[..k] + was[k + 1..]
                         else was[k := Meta(r.page, was[k].count - 1)]
    {
      if r == Null {
        return;
      }
      var k := 0;
      while k < |metas| && metas[k].id != r.page
        invariant k <= PageAt(metas, r.page) && metas == old(metas)
      {
        k := k + 1;
      }
      if k < |metas| {
        if metas[k].count <= 1 {
          metas := metas[..k] + metas[k + 1..];
        } else {
          metas := metas[k := Meta(metas[k].id, metas[k].count - 1)];
        }
      }
    }

    method SetNext(prev: Ref, r: Ref)
      requires prev != Null ==> prev in cells
      modifies this`head, this`cells
      ensures Memory() == PointTo(old(Memory()), prev, r)
    {
      if prev == Null {
        head := r;
      } else {
        cells := cells[prev := cells[prev].(next := r)];
      }
    }

    // liballoc_alloc, without the mapping of physical pages: 0 stands for failure.
    method Alloc(n: nat) returns (addr: nat)
      requires Valid()
      modifies this
      ensures Valid()
      ensures var l, k := old(list), FirstFit(old(list.free), n);
              if n > 0 && k < |l.free| then
                && addr == l.free[k].addr && list == AllocAt(l, k, n) && list.free == Take(l.free, k, n, Low)
                && Memory() == AllocMem(old(Memory()), RefAt(l.refs, k - 1), l.refs[k], n)
              else list == l && addr == 0 && Memory() == old(Memory())
    {
      hide MetaOk, Live, Distinct, AllocAt, AllocMem, Take;
      if n == 0 {
        return 0;
      }
      var current, prev := head, Null;
      ghost var k := 0;
      while current != Null
        invariant 0 <= k <= |list.refs| && unchanged(this)
        invariant current == RefAt(list.refs, k) && prev == RefAt(list.refs, k - 1)
        invariant forall j :: 0 <= j < k ==> list.free[j].size < n
        decreases |list.refs| - k
      {
        CellKept(Memory(), list, k);
        if cells[current].pages >= n {
          addr := cells[current].base;
          Carve(prev, current, n, k);
          return;
        }
        prev := current;
        current := cells[current].next;
        k := k + 1;
      }
      SpotRefs(Memory(), list, k);
      NoneFits(list.free, n);
      return 0;
    }

    // Takes n pages from the node found.
    method Carve(prev: Ref, current: Ref, n: nat, ghost k: nat)
      requires Valid() && k < |list.refs| && current == list.refs[k] && prev == RefAt(list.refs, k - 1)
      requires 0 < n <= list.free[k].size && forall j :: 0 <= j < k ==> list.free[j].size < n
      modifies this
      ensures Valid() && FirstFit(old(list.free), n) == k && list == AllocAt(old(list), k, n)
      ensures list.free == Take(old(list.free), k, n, Low)
      ensures Memory() == AllocMem(old(Memory()), prev, current, n)
    {
      hide MetaOk, Live, Encodes, Recycled;
      FirstFitIs(list.free, n, k);
      AllocAtTakes(list, k, n);
      AllocEncodes(Memory(), list, k, n);
      AllocMeta(Memory(), list, k, n);
      CellKept(Memory(), list, k);
      SpotRefs(Memory(), list, k);
      if cells[current].pages == n {
        SetNext(prev, cells[current].next);
        Recycle(current);
      } else {
        cells := cells[current := Cell(cells[current].base + n, cells[current].pages - n, cells[current].next)];
      }
      list := AllocAt(list, k, n);
    }

    // The address-sorted place of va: prev lies below it, current does not.
    method Find(va: nat) returns (prev: Ref, current: Ref)
      requires Valid()
      ensures var k := Spot(list.free, va);
              prev == RefAt(list.refs, k - 1) && current == RefAt(list.refs, k)
    {
      hide MetaOk, Live, Spot;
      current, prev := head, Null;
      ghost var k := 0;
      SpotRefs(Memory(), list, 0);
      while current != Null && cells[current].base < va
        invariant 0 <= k <= |list.refs| && current == RefAt(list.refs, k) && prev == RefAt(list.refs, k - 1)
        invariant current != Null ==> current in cells
        invariant forall j :: 0 <= j < k ==> list.free[j].addr < va
        decreases |list.refs| - k
      {
        CellKept(Memory(), list, k);
        prev := current;
        current := cells[current].next;
        k := k + 1;
        SpotRefs(Memory(), list, k);
      }
      SpotRefs(Memory(), list, k);
      if k < |list.refs| { CellKept(Memory(), list, k); }
      SpotIs(list.free, va, k);
    }

    // Coalesces node with current when they touch.
    method MergeNext(node: Ref, current: Ref)
      requires node in cells && (current != Null ==> current in cells)
      modifies this`cells, this`metas
      ensures Memory() == MergeMem(old(Memory()), node, current)
    {
      hide Recycled;
      if current != Null && cells[node].base + cells[node].pages == cells[current].base {
        cells := cells[node := cells[node].(pages := cells[node].pages + cells[current].pages)];
        cells := cells[node := cells[node].(next := cells[current].next)];
        Recycle(current);
      }
    }

    // The freed range gets a node of its own.
    method LinkNew(prev: Ref, current: Ref, b: Region, extra: nat) returns (node: Ref)
      requires prev != Null ==> prev in cells
      modifies this`head, this`cells, this`metas
      ensures node == NewSlot(old(metas), extra) && Memory() == LinkMem(old(Memory()), prev, current, b, extra)
    {
      hide NewSlot, Counted;
      node := GetRegion(extra);
      cells := cells[node := Cell(b.addr, b.size, current)];
      SetNext(prev, node);
    }

    // liballoc_free, without the unmapping of physical pages. What it writes is stated for every call;
    // the list is kept unless the new node is one in use (ClashTears says what happens then).
    method Release(va: nat, n: nat, extra: nat) returns (r: int)
      requires Valid() && (va != 0 && n != 0 ==> Gapped(list.free) && ApartFrom(list.free, Region(va, n)))
      requires PageAt(metas, extra) == |metas|
      modifies this
      ensures va == 0 || n == 0 ==> r == -1 && Valid() && Memory() == old(Memory()) && list == old(list)
      ensures va != 0 && n != 0 ==>
                var l, b, k := old(list), Region(va, n), Spot(old(list.free), va);
                && r == 0 && Memory() == FreeMem(old(Memory()), RefAt(l.refs, k - 1), RefAt(l.refs, k), b, extra)
                && (TouchesPrev(l, k, b) || NewSlot(old(metas), extra) !in l.refs ==>
                      Valid() && list == FreeAt(l, k, b, NewSlot(old(metas), extra)) && list.free == Insert(l.free, b))
    {
      hide MetaOk, Live, Encodes, NewSlot, PageAt, Spot, Insert, LinkMem, MergeMem, FreeAt, Gapped, ApartFrom;
      if va == 0 || n == 0 {
        return -1;
      }
      ghost var l, b, m, k := list, Region(va, n), Memory(), Spot(list.free, va);
      var prev, current := Find(va);
      SpotRefs(m, l, k);
      JoinsIff(m, l, k, b);
      if prev != Null && cells[prev].base + cells[prev].pages == va {
        cells := cells[prev := cells[prev].(pages := cells[prev].pages + n)];
        MergeNext(prev, current);
      } else {
        var node := LinkNew(prev, current, Region(va, n), extra);
        LinkedCells(m, prev, current, b, extra);
        MergeNext(node, current);
      }
      if TouchesPrev(l, k, b) || NewSlot(m.metas, extra) !in l.refs {
        list := FreeAt(l, k, b, NewSlot(m.metas, extra));
        FreeEncodes(m, l, k, b, extra);
        FreeMeta(m, l, k, b, extra);
        FreeNulls(m, prev, current, b, extra);
        FreeAtInserts(l, b, NewSlot(m.metas, extra));
      }
      return 0;
    }
  }

  lemma SpotIs(free: seq<Region>, va: nat, k: nat)
    requires k <= |free| && (forall j :: 0 <= j < k ==> free[j].addr < va) && (k < |free| ==> free[k].addr >= va)
    ensures Spot(free, va) == k
  {
    var s := Spot(free, va);
  }

  lemma LinkedCells(m: Mem, prev: Ref, current: Ref, b: Region, extra: nat)
    requires current != Null ==> current in m.cells
    ensures var q := LinkMem(m, prev, current, b, extra);
            NewSlot(m.metas, extra) in q.cells && (current != Null ==> current in q.cells)
  {
  }
}
