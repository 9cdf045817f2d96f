// Address-ordered lists of disjoint free regions: inserting with coalescing and taking from one
// region. Both allocators, umalloc.c and vm/kheap.c, keep their free memory in such a list.

module Regions {
  datatype Region = Region(addr: nat, size: nat) {
    function End(): (e: nat) { addr + size }
  }

  predicate Apart(x: Region, y: Region) { x.End() <= y.addr || y.End() <= x.addr }

  // In address order, disjoint, non-empty, and with a gap between neighbours.
  predicate Gapped(free: seq<Region>) {
    free == [] ||
    (free[0].size >= 1 && (|free| > 1 ==> free[0].End() < free[1].addr) && Gapped(free[1..]))
  }

  predicate ApartFrom(free: seq<Region>, y: Region) {
    free == [] || (Apart(free[0], y) && ApartFrom(free[1..], y))
  }

  // The total size of the list.
  function Units(free: seq<Region>): (u: nat) {
    if free == [] then 0 else free[0].size + Units(free[1..])
  }

  // b in front of a list, merged with its first region when they touch.
  function MergeUp(b: Region, above: seq<Region>): (r: seq<Region>) {
    if above != [] && b.End() == above[0].addr then [Region(b.addr, b.size + above[0].size)] + above[1..]
    else [b] + above
  }

  // b in its place, merged with the region below and the region above when they touch.
  function Insert(free: seq<Region>, b: Region): (r: seq<Region>) {
    if free == [] || b.addr < free[0].addr then MergeUp(b, free)
    else if free[0].End() == b.addr then MergeUp(Region(free[0].addr, free[0].size + b.size), free[1..])
    else [free[0]] + Insert(free[1..], b)
  }

  lemma {:induction false} MergeUpKeeps(b: Region, above: seq<Region>)
    requires Gapped(above) && b.size >= 1 && (above != [] ==> b.End() <= above[0].addr)
    ensures Gapped(MergeUp(b, above)) && MergeUp(b, above)[0].addr == b.addr
    ensures Units(MergeUp(b, above)) == Units(above) + b.size
  {
    var r := MergeUp(b, above);
    assert r[1..] == if above != [] && b.End() == above[0].addr then above[1..] else above;
  }

  // Inserting a region apart from the list keeps it ordered, disjoint and fully coalesced, and adds
  // exactly its size.
  lemma {:induction false} InsertKeeps(free: seq<Region>, b: Region)
    requires Gapped(free) && b.size >= 1 && ApartFrom(free, b)
    ensures Gapped(Insert(free, b)) && Units(Insert(free, b)) == Units(free) + b.size
    ensures Insert(free, b) != []
    ensures Insert(free, b)[0].addr == if free == [] || b.addr < free[0].addr then b.addr else free[0].addr
  {
    if free == [] || b.addr < free[0].addr {
      MergeUpKeeps(b, free);
    } else if free[0].End() == b.addr {
      if |free| > 1 { assert Apart(free[1..][0], b); }
      MergeUpKeeps(Region(free[0].addr, free[0].size + b.size), free[1..]);
    } else {
      InsertKeeps(free[1..], b);
      var r := Insert(free, b);
      assert r[1..] == Insert(free[1..], b);
    }
  }

  lemma {:induction false} MergeUpCovers(b: Region, above: seq<Region>, y: Region)
    requires y.size >= 1 && b.size >= 1 && Gapped(above)
    ensures ApartFrom(MergeUp(b, above), y) <==> Apart(b, y) && ApartFrom(above, y)
  {
    var r := MergeUp(b, above);
    assert r[1..] == if above != [] && b.End() == above[0].addr then above[1..] else above;
  }

  // The new list covers exactly what the old list and b covered.
  lemma {:induction false} InsertCovers(free: seq<Region>, b: Region, y: Region)
    requires Gapped(free) && b.size >= 1 && y.size >= 1
    ensures ApartFrom(Insert(free, b), y) <==> ApartFrom(free, y) && Apart(b, y)
  {
    if free == [] || b.addr < free[0].addr {
      MergeUpCovers(b, free, y);
    } else if free[0].End() == b.addr {
      MergeUpCovers(Region(free[0].addr, free[0].size + b.size), free[1..], y);
    } else {
      InsertCovers(free[1..], b, y);
      var r := Insert(free, b);
      assert r[1..] == Insert(free[1..], b);
    }
  }

  // ---------- taking n units from region k ----------

  // From the low end (kheap.c) or from the high end (umalloc.c).
  datatype Side = Low | High

  function Take(free: seq<Region>, k: nat, n: nat, side: Side): (r: seq<Region>)
    requires k < |free| && n <= free[k].size
  {
    if k > 0 then [free[0]] + Take(free[1..], k - 1, n, side)
    else if free[0].size == n then free[1..]
    else [Region(if side == Low then free[0].addr + n else free[0].addr, free[0].size - n)] + free[1..]
  }

  // The region handed out.
  function Taken(free: seq<Region>, k: nat, n: nat, side: Side): (b: Region)
    requires k < |free| && n <= free[k].size
  {
    Region(if side == Low then free[k].addr else free[k].End() - n, n)
  }

  // Taking keeps the list ordered, disjoint and coalesced and removes exactly n units.
  lemma {:induction false} TakeKeeps(free: seq<Region>, k: nat, n: nat, side: Side)
    requires Gapped(free) && k < |free| && 1 <= n <= free[k].size
    ensures Gapped(Take(free, k, n, side)) && Units(Take(free, k, n, side)) == Units(free) - n
    ensures Take(free, k, n, side) != [] ==> Take(free, k, n, side)[0].addr >= free[0].addr
  {
    var r := Take(free, k, n, side);
    if k > 0 {
      TakeKeeps(free[1..], k - 1, n, side);
      assert r[1..] == Take(free[1..], k - 1, n, side);
    } else if free[0].size != n {
      assert r[1..] == free[1..];
    }
  }

  // What the list covered is now covered by the new list and the region handed out, disjointly.
  lemma {:induction false} TakeCovers(free: seq<Region>, k: nat, n: nat, side: Side, y: Region)
    requires Gapped(free) && k < |free| && 1 <= n <= free[k].size && y.size >= 1
    ensures ApartFrom(free, y) <==> ApartFrom(Take(free, k, n, side), y) && Apart(Taken(free, k, n, side), y)
  {
    var r := Take(free, k, n, side);
    if k > 0 {
      TakeCovers(free[1..], k - 1, n, side, y);
      assert r[1..] == Take(free[1..], k - 1, n, side);
    } else if free[0].size != n {
      assert r[1..] == free[1..];
    }
  }

  lemma {:induction false} TakenApart(free: seq<Region>, k: nat, n: nat, side: Side)
    requires Gapped(free) && k < |free| && 1 <= n <= free[k].size
    ensures ApartFrom(Take(free, k, n, side), Taken(free, k, n, side))
  {
    var r := Take(free, k, n, side);
    if k > 0 {
      TakenApart(free[1..], k - 1, n, side);
      Below(free, k);
      assert r[1..] == Take(free[1..], k - 1, n, side);
    } else {
      Above(free[1..], Taken(free, 0, n, side));
      if free[0].size != n { assert r[1..] == free[1..]; }
    }
  }

  // Order between distant regions.
  lemma {:induction false} Below(free: seq<Region>, k: nat)
    requires Gapped(free) && 0 < k < |free|
    ensures free[0].End() < free[k].addr
  {
    if k > 1 { Below(free[1..], k - 1); }
  }

  lemma {:induction false} Above(free: seq<Region>, b: Region)
    requires Gapped(free) && (free != [] ==> b.End() <= free[0].addr)
    ensures ApartFrom(free, b)
  {
    if free != [] { Above(free[1..], b); }
  }

  lemma {:induction false} ApartAt(free: seq<Region>, y: Region, k: nat)
    requires ApartFrom(free, y) && k < |free|
    ensures Apart(free[k], y)
  {
    if k > 0 { ApartAt(free[1..], y, k - 1); }
  }

  // ---------- where Insert works ----------

  // The regions of a below b are left alone.
  lemma {:induction false} InsertSkips(a: seq<Region>, c: seq<Region>, b: Region)
    requires Gapped(a + c) && forall k :: 0 <= k < |a| ==> a[k].addr <= b.addr && a[k].End() != b.addr
    ensures Insert(a + c, b) == a + Insert(c, b)
  {
    if a == [] {
      assert a + c == c && a + Insert(c, b) == Insert(c, b);
    } else {
      assert (a + c)[1..] == a[1..] + c;
      InsertSkips(a[1..], c, b);
    }
  }

  lemma {:induction false} TakeSkips(a: seq<Region>, c: seq<Region>, k: nat, n: nat, side: Side)
    requires c != [] && n <= c[0].size && k == |a|
    ensures (a + c)[k] == c[0] && Take(a + c, k, n, side) == a + Take(c, 0, n, side)
  {
    if a == [] {
      assert a + c == c && a + Take(c, 0, n, side) == Take(c, 0, n, side);
    } else {
      var t, rest := a + c, a[1..] + c;
      assert t[1..] == rest && t[0] == a[0];
      TakeSkips(a[1..], c, k - 1, n, side);
      assert Take(t, k, n, side) == [a[0]] + Take(rest, k - 1, n, side);
      assert [a[0]] + (a[1..] + Take(c, 0, n, side)) == a + Take(c, 0, n, side);
    }
  }

  // ---------- runs of an allocator ----------

  // free: the free list. used: the regions handed out. core: the memory the allocator was given.
  datatype Pool = Pool(free: seq<Region>, used: seq<Region>, core: seq<Region>)

  datatype Step =
    | Allocate(k: nat, n: nat, side: Side) // n units from free region k
    | Release(j: nat)                      // give back used region j
    | Grow(b: Region)                      // b is new memory, first seen as a region in use

  // Pairwise disjoint.
  predicate Scattered(used: seq<Region>) {
    used == [] || (used[0].size >= 1 && ApartFrom(used[1..], used[0]) && Scattered(used[1..]))
  }

  function Remove(used: seq<Region>, j: nat): (r: seq<Region>)
    requires j < |used|
  {
    if j == 0 then used[1..] else [used[0]] + Remove(used[1..], j - 1)
  }

  predicate Enabled(p: Pool, step: Step) {
    match step
    case Allocate(k, n, _) => k < |p.free| && 1 <= n <= p.free[k].size
    case Release(j) => j < |p.used|
    case Grow(b) => b.size >= 1 && ApartFrom(p.core, b)
  }

  function Next(p: Pool, step: Step): (q: Pool)
    requires Enabled(p, step)
  {
    match step
    case Allocate(k, n, side) => Pool(Take(p.free, k, n, side), [Taken(p.free, k, n, side)] + p.used, p.core)
    case Release(j) => Pool(Insert(p.free, p.used[j]), Remove(p.used, j), p.core)
    case Grow(b) => Pool(p.free, [b] + p.used, [b] + p.core)
  }

  predicate AllApart(free: seq<Region>, used: seq<Region>) {
    used == [] || (ApartFrom(free, used[0]) && AllApart(free, used[1..]))
  }

  // Free and used regions together cover the core and nothing else.
  ghost predicate Covers(p: Pool) {
    forall y: Region :: y.size >= 1 ==> (ApartFrom(p.core, y) <==> ApartFrom(p.free, y) && ApartFrom(p.used, y))
  }

  // The free list is ordered and coalesced, free and used regions partition the core, and the sizes
  // add up.
  ghost predicate Inv(p: Pool) {
    && Gapped(p.free) && Scattered(p.used) && AllApart(p.free, p.used) && Covers(p)
    && Units(p.free) + Units(p.used) == Units(p.core)
  }

  lemma {:induction false} AllApartAt(free: seq<Region>, used: seq<Region>, j: nat)
    requires AllApart(free, used) && j < |used|
    ensures ApartFrom(free, used[j])
  {
    if j > 0 { AllApartAt(free, used[1..], j - 1); }
  }

  lemma {:induction false} ScatteredAt(used: seq<Region>, j: nat)
    requires Scattered(used) && j < |used|
    ensures used[j].size >= 1
  {
    if j > 0 { ScatteredAt(used[1..], j - 1); }
  }

  // Removing a used region.
  lemma {:induction false} RemoveKeeps(used: seq<Region>, j: nat)
    requires Scattered(used) && j < |used|
    ensures Scattered(Remove(used, j)) && Units(Remove(used, j)) == Units(used) - used[j].size
    ensures ApartFrom(Remove(used, j), used[j])
  {
    if j > 0 {
      RemoveKeeps(used[1..], j - 1);
      RemoveApart(used[1..], j - 1, used[0]);
      ApartAt(used[1..], used[0], j - 1);
      var r := Remove(used, j);
      assert r[1..] == Remove(used[1..], j - 1);
    }
  }

  lemma {:induction false} RemoveApart(used: seq<Region>, j: nat, y: Region)
    requires j < |used|
    ensures ApartFrom(used, y) <==> ApartFrom(Remove(used, j), y) && Apart(used[j], y)
  {
    if j > 0 {
      RemoveApart(used[1..], j - 1, y);
      var r := Remove(used, j);
      assert r[1..] == Remove(used[1..], j - 1);
    }
  }

  // What a change of the free list does to every used region.
  lemma {:induction false} InsertAllApart(free: seq<Region>, used: seq<Region>, b: Region)
    requires Gapped(free) && b.size >= 1 && AllApart(free, used) && ApartFrom(used, b) && Scattered(used)
    ensures AllApart(Insert(free, b), used)
  {
    if used != [] {
      InsertCovers(free, b, used[0]);
      InsertAllApart(free, used[1..], b);
    }
  }

  lemma {:induction false} RemoveAllApart(free: seq<Region>, used: seq<Region>, j: nat)
    requires AllApart(free, used) && j < |used|
    ensures AllApart(free, Remove(used, j))
  {
    if j > 0 {
      RemoveAllApart(free, used[1..], j - 1);
      var r := Remove(used, j);
      assert r[1..] == Remove(used[1..], j - 1);
    }
  }

  lemma {:induction false} TakeAllApart(free: seq<Region>, used: seq<Region>, k: nat, n: nat, side: Side)
    requires Gapped(free) && k < |free| && 1 <= n <= free[k].size && AllApart(free, used) && Scattered(used)
    ensures AllApart(Take(free, k, n, side), used) && ApartFrom(used, Taken(free, k, n, side))
  {
    if used != [] {
      TakeCovers(free, k, n, side, used[0]);
      TakeAllApart(free, used[1..], k, n, side);
    }
  }

  lemma {:induction false} FreshAllApart(free: seq<Region>, used: seq<Region>, b: Region)
    requires ApartFrom(free, b) && AllApart(free, used)
    ensures AllApart(free, [b] + used)
  {
    assert ([b] + used)[1..] == used;
  }

  lemma AllocateKeeps(p: Pool, k: nat, n: nat, side: Side)
    requires Inv(p) && Enabled(p, Allocate(k, n, side))
    ensures Inv(Next(p, Allocate(k, n, side)))
  {
    var q, b := Next(p, Allocate(k, n, side)), Taken(p.free, k, n, side);
    assert q.used[1..] == p.used;
    TakeKeeps(p.free, k, n, side);
    TakenApart(p.free, k, n, side);
    TakeAllApart(p.free, p.used, k, n, side);
    FreshAllApart(q.free, p.used, b);
    forall y: Region | y.size >= 1
      ensures ApartFrom(q.core, y) <==> ApartFrom(q.free, y) && ApartFrom(q.used, y)
    {
      TakeCovers(p.free, k, n, side, y);
    }
  }

  lemma ReleaseKeeps(p: Pool, j: nat)
    requires Inv(p) && j < |p.used|
    ensures Inv(Next(p, Release(j)))
  {
    var q, b := Next(p, Release(j)), p.used[j];
    AllApartAt(p.free, p.used, j);
    ScatteredAt(p.used, j);
    InsertKeeps(p.free, b);
    RemoveKeeps(p.used, j);
    RemoveAllApart(p.free, p.used, j);
    InsertAllApart(p.free, q.used, b);
    forall y: Region | y.size >= 1
      ensures ApartFrom(q.core, y) <==> ApartFrom(q.free, y) && ApartFrom(q.used, y)
    {
      InsertCovers(p.free, b, y);
      RemoveApart(p.used, j, y);
    }
  }

  lemma GrowKeeps(p: Pool, b: Region)
    requires Inv(p) && b.size >= 1 && ApartFrom(p.core, b)
    ensures Inv(Next(p, Grow(b)))
  {
    var q := Next(p, Grow(b));
    assert q.used[1..] == p.used && q.core[1..] == p.core;
    FreshAllApart(p.free, p.used, b);
  }

  predicate CanRun(p: Pool, steps: seq<Step>)
    decreases |steps|
  {
    steps == [] || (Enabled(p, steps[0]) && CanRun(Next(p, steps[0]), steps[1..]))
  }

  function Run(p: Pool, steps: seq<Step>): (q: Pool)
    requires CanRun(p, steps)
    decreases |steps|
  {
    if steps == [] then p else Run(Next(p, steps[0]), steps[1..])
  }

  // Over any run that gives back only regions in use, the invariant holds.
  lemma {:induction false} RunKeeps(p: Pool, steps: seq<Step>)
    requires Inv(p) && CanRun(p, steps)
    ensures Inv(Run(p, steps))
    decreases |steps|
  {
    if steps != [] {
      match steps[0] {
        case Allocate(k, n, side) => AllocateKeeps(p, k, n, side);
        case Release(j) => ReleaseKeeps(p, j);
        case Grow(b) => GrowKeeps(p, b);
      }
      RunKeeps(Next(p, steps[0]), steps[1..]);
    }
  }

  // ---------- by position ----------

  lemma {:induction false} GapAt(free: seq<Region>, i: nat)
    requires Gapped(free) && i + 1 < |free|
    ensures free[i].End() < free[i + 1].addr
  {
    if i > 0 { GapAt(free[1..], i - 1); }
  }

  lemma {:induction false} GappedSizes(free: seq<Region>, i: nat)
    requires Gapped(free) && i < |free|
    ensures free[i].size >= 1
  {
    if i > 0 { GappedSizes(free[1..], i - 1); }
  }

  // Insert, by position: the ranges of a lie below b and do not touch it, those of c do not lie below b.
  lemma {:induction false} InsertBetween(a: seq<Region>, c: seq<Region>, b: Region)
    requires Gapped(a + c) && forall j :: 0 <= j < |a| ==> a[j].addr <= b.addr && a[j].End() != b.addr
    requires c != [] ==> b.addr < c[0].addr
    ensures Insert(a + c, b) == a + MergeUp(b, c)
  {
    InsertSkips(a, c, b);
  }

  // The range x just below b touches it.
  lemma {:induction false} InsertTouching(a: seq<Region>, x: Region, c: seq<Region>, b: Region)
    requires Gapped(a + ([x] + c)) && x.End() == b.addr && b.size >= 1
    requires forall j :: 0 <= j < |a| ==> a[j].addr <= b.addr && a[j].End() != b.addr
    ensures Insert(a + ([x] + c), b) == a + MergeUp(Region(x.addr, x.size + b.size), c)
  {
    InsertSkips(a, [x] + c, b);
    assert ([x] + c)[1..] == c;
  }

  // Only the last range below b can end where b starts.
  lemma {:induction false} EndsBelow(f: seq<Region>, b: Region, k: nat, i: nat)
    requires Gapped(f) && i + 1 < k <= |f| && f[i + 1].addr < b.addr
    ensures f[i].addr <= b.addr && f[i].End() != b.addr
  {
    GapAt(f, i);
  }

  // Insert at position k: the region below is extended, or b gets a place of its own.
  lemma {:induction false} InsertHere(f: seq<Region>, b: Region, k: nat)
    requires Gapped(f) && b.size >= 1 && ApartFrom(f, b) && k <= |f|
    requires (forall j :: 0 <= j < k ==> f[j].addr < b.addr) && (k < |f| ==> f[k].addr >= b.addr)
    ensures Insert(f, b) == if k > 0 && f[k - 1].End() == b.addr
                            then f[..k - 1] + MergeUp(Region(f[k - 1].addr, f[k - 1].size + b.size), f[k..])
                            else f[..k] + MergeUp(b, f[k..])
  {
    forall i | 0 <= i < k - 1
      ensures f[i].addr <= b.addr && f[i].End() != b.addr
    {
      EndsBelow(f, b, k, i);
    }
    var c := f[k..];
    if k > 0 && f[k - 1].End() == b.addr {
      var a := f[..k - 1];
      assert f == a + ([f[k - 1]] + c);
      InsertTouching(a, f[k - 1], c, b);
    } else {
      if k < |f| {
        ApartAt(f, b, k);
        GappedSizes(f, k);
      }
      var a := f[..k];
      assert f == a + c;
      InsertBetween(a, c, b);
    }
  }

  // ---------- first fit ----------

  // The first region of at least n units, or |free|.
  function FirstFit(free: seq<Region>, n: nat): (k: nat)
    ensures k <= |free| && (k < |free| ==> free[k].size >= n) && (forall j :: 0 <= j < k ==> free[j].size < n)
  {
    if free == [] || free[0].size >= n then 0 else 1 + FirstFit(free[1..], n)
  }

  lemma {:induction false} FirstFitIs(free: seq<Region>, n: nat, k: nat)
    requires k < |free| && free[k].size >= n && forall j :: 0 <= j < k ==> free[j].size < n
    ensures FirstFit(free, n) == k
  {
    if k > 0 {
      assert free[0].size < n;
      FirstFitIs(free[1..], n, k - 1);
    }
  }

  lemma NoneFits(free: seq<Region>, n: nat)
    requires forall j :: 0 <= j < |free| ==> free[j].size < n
    ensures FirstFit(free, n) == |free|
  {
  }

  // An allocation fails exactly when no free region is large enough.
  lemma {:induction false} FailsIff(free: seq<Region>, n: nat)
    ensures FirstFit(free, n) == |free| <==> forall k :: 0 <= k < |free| ==> free[k].size < n
  {
    if forall k :: 0 <= k < |free| ==> free[k].size < n {
      NoneFits(free, n);
    }
  }

  // ---------- unit by unit ----------

  // Some region of rs holds unit u.
  predicate Has(rs: seq<Region>, u: nat) {
    rs != [] && (rs[0].addr <= u < rs[0].End() || Has(rs[1..], u))
  }

  lemma {:induction false} HasApart(rs: seq<Region>, u: nat)
    ensures Has(rs, u) <==> !ApartFrom(rs, Region(u, 1))
  {
    if rs != [] { HasApart(rs[1..], u); }
  }

  lemma {:induction false} HasApartFrom(rs: seq<Region>, y: Region, u: nat)
    requires ApartFrom(rs, y) && y.addr <= u < y.End()
    ensures !Has(rs, u)
  {
    if rs != [] { HasApartFrom(rs[1..], y, u); }
  }

  lemma {:induction false} NotBoth(free: seq<Region>, used: seq<Region>, u: nat)
    requires AllApart(free, used) && Has(used, u)
    ensures !Has(free, u)
  {
    if used[0].addr <= u < used[0].End() {
      HasApartFrom(free, used[0], u);
    } else {
      NotBoth(free, used[1..], u);
    }
  }

  // Every unit obtained is either free or in use, never both, and no other unit is.
  lemma {:induction false} Partition(p: Pool, u: nat)
    requires Inv(p)
    ensures Has(p.core, u) <==> Has(p.free, u) || Has(p.used, u)
    ensures !(Has(p.free, u) && Has(p.used, u))
  {
    HasApart(p.core, u);
    HasApart(p.free, u);
    HasApart(p.used, u);
    if Has(p.used, u) {
      NotBoth(p.free, p.used, u);
    }
  }
}
