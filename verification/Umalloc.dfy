// The user-level allocator (umalloc.c): a circular, address-ordered list of free blocks threaded
// through their headers, entered at freep. Addresses and sizes are in units of one header (8 bytes);
// the header `base` has size 0 and lies below every block obtained from sbrk.

module Umalloc {
  import opened Common
  import opened Regions

  // The ptr and size words of the headers, by address.
  datatype Mem = Mem(ptr: map<nat, nat>, size: map<nat, nat>)

  function SetPtr(m: Mem, x: nat, v: nat): (r: Mem) { m.(ptr := m.ptr[x := v]) }

  function SetSize(m: Mem, x: nat, v: nat): (r: Mem) { m.(size := m.size[x := v]) }

  // From the header `from`, the ptr words lead through the blocks of rs, in order, to `to`.
  predicate Path(m: Mem, from: nat, rs: seq<Region>, to: nat)
    decreases |rs|
  {
    && from in m.ptr
    && if rs == [] then m.ptr[from] == to
       else && m.ptr[from] == rs[0].addr && rs[0].addr in m.size && m.size[rs[0].addr] == rs[0].size
            && Path(m, rs[0].addr, rs[1..], to)
  }

  function First(rs: seq<Region>, to: nat): (x: nat) { if rs == [] then to else rs[0].addr }

  function Last(from: nat, rs: seq<Region>): (x: nat) { if rs == [] then from else rs[|rs| - 1].addr }

  predicate Ascends(from: nat, rs: seq<Region>)
    decreases |rs|
  {
    rs == [] || (from < rs[0].addr && Ascends(rs[0].addr, rs[1..]))
  }

  predicate NotAt(rs: seq<Region>, x: nat) {
    rs == [] || (rs[0].addr != x && NotAt(rs[1..], x))
  }

  lemma {:induction false} GappedAscends(from: nat, rs: seq<Region>)
    requires Gapped(rs) && (rs != [] ==> from < rs[0].addr)
    ensures Ascends(from, rs)
    decreases |rs|
  {
    if rs != [] { GappedAscends(rs[0].addr, rs[1..]); }
  }

  lemma {:induction false} AscendsNotAt(from: nat, rs: seq<Region>, x: nat)
    requires Ascends(from, rs) && x <= from
    ensures NotAt(rs, x)
    decreases |rs|
  {
    if rs != [] { AscendsNotAt(rs[0].addr, rs[1..], x); }
  }

  lemma {:induction false} AscendsSplit(from: nat, a: seq<Region>, c: seq<Region>)
    requires Ascends(from, a + c)
    ensures Ascends(from, a) && Ascends(Last(from, a), c)
    decreases |a|
  {
    if a == [] {
      assert a + c == c;
    } else {
      assert (a + c)[1..] == a[1..] + c;
      AscendsSplit(a[0].addr, a[1..], c);
    }
  }

  // A block after the blocks of a is none of them.
  lemma {:induction false} AscendsOver(from: nat, a: seq<Region>, x: nat)
    requires Ascends(from, a) && Last(from, a) < x
    ensures NotAt(a, x) && from < x
    decreases |a|
  {
    if a != [] {
      AscendsOver(a[0].addr, a[1..], x);
    }
  }

  lemma {:induction false} PathSplit(m: Mem, from: nat, a: seq<Region>, c: seq<Region>, to: nat)
    requires Path(m, from, a + c, to)
    ensures Path(m, from, a, First(c, to)) && Path(m, Last(from, a), c, to)
    decreases |a|
  {
    if a == [] {
      assert a + c == c;
    } else {
      assert (a + c)[1..] == a[1..] + c;
      PathSplit(m, a[0].addr, a[1..], c, to);
    }
  }

  lemma {:induction false} PathJoin(m: Mem, from: nat, a: seq<Region>, c: seq<Region>, to: nat)
    requires Path(m, from, a, First(c, to)) && Path(m, Last(from, a), c, to)
    ensures Path(m, from, a + c, to)
    decreases |a|
  {
    if a == [] {
      assert a + c == c;
    } else {
      assert (a + c)[1..] == a[1..] + c;
      PathJoin(m, a[0].addr, a[1..], c, to);
    }
  }

  lemma {:induction false} PtrFrame(m: Mem, x: nat, v: nat, from: nat, rs: seq<Region>, to: nat)
    requires Path(m, from, rs, to) && x != from && NotAt(rs, x)
    ensures Path(SetPtr(m, x, v), from, rs, to)
    decreases |rs|
  {
    if rs != [] { PtrFrame(m, x, v, rs[0].addr, rs[1..], to); }
  }

  lemma {:induction false} SizeFrame(m: Mem, x: nat, v: nat, from: nat, rs: seq<Region>, to: nat)
    requires Path(m, from, rs, to) && NotAt(rs, x)
    ensures Path(SetSize(m, x, v), from, rs, to)
    decreases |rs|
  {
    if rs != [] { SizeFrame(m, x, v, rs[0].addr, rs[1..], to); }
  }

  // Writing the last ptr word leads the path elsewhere.
  lemma {:induction false} Retarget(m: Mem, from: nat, rs: seq<Region>, to: nat, v: nat)
    requires Path(m, from, rs, to) && Ascends(from, rs)
    ensures Path(SetPtr(m, Last(from, rs), v), from, rs, v)
    decreases |rs|
  {
    if rs != [] {
      Retarget(m, rs[0].addr, rs[1..], to, v);
      AscendsAt(from, rs, 0, |rs|);
    }
  }

  // The header at position i of the ring: base, then the free blocks.
  function Cell(base: nat, rs: seq<Region>, i: nat): (x: nat)
    requires i <= |rs|
  {
    if i == 0 then base else rs[i - 1].addr
  }

  lemma {:induction false} PathAt(m: Mem, from: nat, rs: seq<Region>, to: nat, i: nat)
    requires Path(m, from, rs, to) && i <= |rs|
    ensures Cell(from, rs, i) in m.ptr && m.ptr[Cell(from, rs, i)] == (if i < |rs| then rs[i].addr else to)
    ensures i < |rs| ==> rs[i].addr in m.size && m.size[rs[i].addr] == rs[i].size
    decreases |rs|
  {
    if i > 0 {
      PathAt(m, rs[0].addr, rs[1..], to, i - 1);
    }
  }

  lemma {:induction false} AscendsAt(from: nat, rs: seq<Region>, i: nat, j: nat)
    requires Ascends(from, rs) && i < j <= |rs|
    ensures Cell(from, rs, i) < Cell(from, rs, j)
    decreases |rs|
  {
    if i > 0 {
      AscendsAt(rs[0].addr, rs[1..], i - 1, j - 1);
    } else if j > 1 {
      AscendsAt(rs[0].addr, rs[1..], 0, j - 1);
    }
  }

  // ---------- free ----------

  // The first half of free(): bp takes over the successor of p, or swallows it when they touch.
  function LinkUp(m: Mem, p: nat, bp: nat): (r: Mem)
    requires p in m.ptr && bp in m.size
    requires bp + m.size[bp] == m.ptr[p] ==> m.ptr[p] in m.ptr && m.ptr[p] in m.size
  {
    var up := m.ptr[p];
    if bp + m.size[bp] == up then SetPtr(SetSize(m, bp, m.size[bp] + m.size[up]), bp, m.ptr[up])
    else SetPtr(m, bp, up)
  }

  // The second half: p points to bp, or swallows it when they touch.
  function LinkDown(m: Mem, p: nat, bp: nat): (r: Mem)
    requires p in m.size && bp in m.ptr && bp in m.size
  {
    if p + m.size[p] == bp then SetPtr(SetSize(m, p, m.size[p] + m.size[bp]), p, m.ptr[bp])
    else SetPtr(m, p, bp)
  }

  // After LinkUp, bp heads the blocks above it, merged with the first of them when they touch.
  lemma {:induction false} LinkUpPath(m: Mem, p: nat, c: seq<Region>, base: nat, b: Region)
    requires Path(m, p, c, base) && Gapped(c) && ApartFrom(c, b) && b.size >= 1
    requires base < b.addr && b.addr in m.size && m.size[b.addr] == b.size && (c != [] ==> b.addr < c[0].addr)
    ensures b.End() == m.ptr[p] ==> m.ptr[p] in m.ptr && m.ptr[p] in m.size
    ensures var r, x := LinkUp(m, p, b.addr), MergeUp(b, c);
            x[0].addr == b.addr && r.size[b.addr] == x[0].size && Path(r, b.addr, x[1..], base)
  {
    if c != [] {
      GappedAscends(b.addr, c);
      AscendsNotAt(b.addr, c, b.addr);
      var h, t := c[0].addr, c[1..];
      var v := m.ptr[h];
      SizeFrame(m, b.addr, b.size + c[0].size, h, t, base);
      PtrFrame(SetSize(m, b.addr, b.size + c[0].size), b.addr, v, h, t, base);
      PtrFrame(m, b.addr, h, h, t, base);
      assert MergeUp(b, c)[1..] == if b.End() == h then t else c;
    }
  }

  // p, the last header of a, points to x.
  lemma {:induction false} PointDown(m: Mem, base: nat, a: seq<Region>, to: nat, x: Region, t: seq<Region>)
    requires Path(m, base, a, to) && Path(m, x.addr, t, base) && x.addr in m.size && m.size[x.addr] == x.size
    requires Ascends(base, a + ([x] + t))
    ensures Path(SetPtr(m, Last(base, a), x.addr), base, a + ([x] + t), base)
  {
    var p, xt := Last(base, a), [x] + t;
    AscendsSplit(base, a, xt);
    assert xt[1..] == t;
    Retarget(m, base, a, to, x.addr);
    AscendsNotAt(x.addr, t, p);
    PtrFrame(m, p, x.addr, x.addr, t, base);
    PathJoin(SetPtr(m, p, x.addr), base, a, xt, base);
  }

  // y, the last block of the list, swallows x.
  lemma {:induction false} SwallowDown(m: Mem, base: nat, a: seq<Region>, y: Region, x: Region, t: seq<Region>, to: nat)
    requires Path(m, base, a + [y], to) && Path(m, x.addr, t, base) && x.addr in m.size && m.size[x.addr] == x.size
    requires Ascends(base, a + [y]) && Ascends(y.addr, [x] + t)
    ensures y.addr in m.size && m.size[y.addr] == y.size
    ensures Path(SetPtr(SetSize(m, y.addr, y.size + x.size), y.addr, m.ptr[x.addr]),
                 base, a + ([Region(y.addr, y.size + x.size)] + t), base)
  {
    var p, n, v, z := y.addr, y.size + x.size, m.ptr[x.addr], Region(y.addr, y.size + x.size);
    var m1 := SetSize(m, p, n);
    var r := SetPtr(m1, p, v);
    PathSplit(m, base, a, [y], to);
    AscendsSplit(base, a, [y]);
    AscendsOver(base, a, p);
    SizeFrame(m, p, n, base, a, p);
    PtrFrame(m1, p, v, base, a, p);
    assert ([x] + t)[1..] == t;
    AscendsNotAt(x.addr, t, p);
    if t != [] {
      SizeFrame(m, p, n, t[0].addr, t[1..], base);
      PtrFrame(m1, p, v, t[0].addr, t[1..], base);
    }
    PathAt(r, base, a, p, |a|);
    assert ([z] + t)[1..] == t;
    PathJoin(r, base, a, [z] + t, base);
  }

  // The header at position k is the one free() stops at for a block at address x.
  predicate Before(base: nat, free: seq<Region>, x: nat, k: nat) {
    k <= |free| && Cell(base, free, k) < x && (k < |free| ==> x < free[k].addr)
  }

  ghost predicate Ring(m: Mem, base: nat, free: seq<Region>) {
    && Path(m, base, free, base) && base in m.size && m.size[base] == 0
    && Gapped(free) && (free != [] ==> base < free[0].addr)
  }

  lemma {:induction false} InsertRing(base: nat, free: seq<Region>, k: nat, b: Region)
    requires Gapped(free) && (free != [] ==> base < free[0].addr) && Before(base, free, b.addr, k)
    requires ApartFrom(free, b) && b.size >= 1
    ensures Insert(free, b) == if k > 0 && free[k - 1].End() == b.addr
                               then free[..k - 1] + MergeUp(Region(free[k - 1].addr, free[k - 1].size + b.size),
                                   free[k..])
                               else free[..k] + MergeUp(b, free[k..])
    ensures Gapped(Insert(free, b)) && Insert(free, b) != []
  {
    GappedAscends(base, free);
    forall j | 0 <= j < k
      ensures free[j].addr < b.addr
    {
      if j + 1 < k { AscendsAt(base, free, j + 1, k); }
    }
    InsertHere(free, b, k);
    InsertKeeps(free, b);
  }

  // What LinkUp does to the whole ring: the blocks below are still threaded, bp heads those above.
  lemma {:induction false} LinkUpRing(m: Mem, base: nat, a: seq<Region>, c: seq<Region>, b: Region)
    requires Path(m, base, a + c, base) && Ascends(base, a + c) && Gapped(c) && ApartFrom(c, b) && b.size >= 1
    requires Last(base, a) < b.addr && b.addr in m.size && m.size[b.addr] == b.size && (c != [] ==> b.addr < c[0].addr)
    ensures var p := Last(base, a); p in m.ptr && (b.End() == m.ptr[p] ==> m.ptr[p] in m.ptr && m.ptr[p] in m.size)
    ensures var r, x := LinkUp(m, Last(base, a), b.addr), MergeUp(b, c);
            && Path(r, base, a, First(c, base)) && Path(r, b.addr, x[1..], base)
            && x[0].addr == b.addr && r.size[b.addr] == x[0].size && base < b.addr
  {
    var p := Last(base, a);
    PathSplit(m, base, a, c, base);
    AscendsSplit(base, a, c);
    AscendsOver(base, a, b.addr);
    LinkUpPath(m, p, c, base, b);
    var up := First(c, base);
    if b.End() == m.ptr[p] {
      SizeFrame(m, b.addr, b.size + m.size[up], base, a, up);
      PtrFrame(SetSize(m, b.addr, b.size + m.size[up]), b.addr, m.ptr[up], base, a, up);
    } else {
      PtrFrame(m, b.addr, up, base, a, up);
    }
  }

  // free() of a block that the block below does not touch.
  lemma {:induction false} FreeBetween(m: Mem, base: nat, a: seq<Region>, c: seq<Region>, b: Region)
    requires Path(m, base, a + c, base) && Ascends(base, a + c) && Gapped(c) && ApartFrom(c, b) && b.size >= 1
    requires Last(base, a) < b.addr && b.addr in m.size && m.size[b.addr] == b.size && (c != [] ==> b.addr < c[0].addr)
    requires base in m.size && m.size[base] == 0 && (a != [] ==> a[|a| - 1].End() != b.addr)
    requires Gapped(a + MergeUp(b, c)) && (a != [] ==> base < a[0].addr)
    ensures var p := Last(base, a);
            && p in m.ptr && p in m.size && (b.End() == m.ptr[p] ==> m.ptr[p] in m.ptr && m.ptr[p] in m.size)
            && Path(LinkDown(LinkUp(m, p, b.addr), p, b.addr), base, a + MergeUp(b, c), base)
  {
    LinkUpRing(m, base, a, c, b);
    PathSplit(m, base, a, c, base);
    var p, r, x := Last(base, a), LinkUp(m, Last(base, a), b.addr), MergeUp(b, c);
    PathAt(m, base, a, First(c, base), |a|);
    if a != [] { PathAt(m, base, a, First(c, base), |a| - 1); }
    assert x == [x[0]] + x[1..];
    GappedAscends(base, a + x);
    PointDown(r, base, a, First(c, base), x[0], x[1..]);
  }

  // free() of a block that starts where block y ends.
  lemma {:induction false} FreeTouching(m: Mem, base: nat, a: seq<Region>, y: Region, c: seq<Region>, b: Region)
    requires Path(m, base, a + [y] + c, base) && Ascends(base, a + [y] + c) && Gapped(c) && ApartFrom(c, b)
    requires b.size >= 1
    requires y.addr < b.addr && b.addr in m.size && m.size[b.addr] == b.size && (c != [] ==> b.addr < c[0].addr)
    requires y.End() == b.addr
    ensures var p := y.addr;
            && p in m.ptr && p in m.size && (b.End() == m.ptr[p] ==> m.ptr[p] in m.ptr && m.ptr[p] in m.size)
            && Path(LinkDown(LinkUp(m, p, b.addr), p, b.addr), base,
                    a + MergeUp(Region(y.addr, y.size + b.size), c), base)
  {
    var ay := a + [y];
    LinkUpRing(m, base, ay, c, b);
    PathSplit(m, base, ay, c, base);
    AscendsSplit(base, ay, c);
    PathAt(m, base, ay, First(c, base), |a|);
    var r, x := LinkUp(m, y.addr, b.addr), MergeUp(b, c);
    if c != [] { ApartAt(c, b, 0); GappedSizes(c, 0); }
    MergeUpKeeps(b, c);
    assert x == [x[0]] + x[1..];
    GappedAscends(y.addr, x);
    SwallowDown(r, base, a, y, x[0], x[1..], First(c, base));
    assert MergeUp(Region(y.addr, y.size + b.size), c) == [Region(y.addr, y.size + x[0].size)] + x[1..];
  }

  lemma {:induction false} FreePath(m: Mem, base: nat, free: seq<Region>, k: nat, b: Region)
    requires Ring(m, base, free) && Before(base, free, b.addr, k) && ApartFrom(free, b) && b.size >= 1
    requires b.addr in m.size && m.size[b.addr] == b.size
    ensures var p := Cell(base, free, k);
            && p in m.ptr && p in m.size && (b.End() == m.ptr[p] ==> m.ptr[p] in m.ptr && m.ptr[p] in m.size)
            && Path(LinkDown(LinkUp(m, p, b.addr), p, b.addr), base, Insert(free, b), base)
  {
    hide LinkUp, LinkDown, Insert, MergeUp, Path;
    InsertRing(base, free, k, b);
    GappedAscends(base, free);
    var a, c := free[..k], free[k..];
    assert free == a + c;
    GappedSuffix(a, c);
    ApartSuffix(a, c, b);
    if k > 0 && free[k - 1].End() == b.addr {
      var a0, y := free[..k - 1], free[k - 1];
      assert a == a0 + [y];
      FreeTouching(m, base, a0, y, c, b);
    } else {
      FreeBetween(m, base, a, c, b);
    }
  }

  lemma {:induction false} InsertCell(base: nat, free: seq<Region>, k: nat, b: Region)
    requires Gapped(free) && (free != [] ==> base < free[0].addr) && Before(base, free, b.addr, k)
    requires ApartFrom(free, b) && b.size >= 1 && base < b.addr
    ensures Gapped(Insert(free, b)) && base < Insert(free, b)[0].addr
    ensures k <= |Insert(free, b)| && Cell(base, Insert(free, b), k) == Cell(base, free, k)
  {
    InsertRing(base, free, k, b);
    InsertKeeps(free, b);
  }

  // free() threads the block into the ring: the free list becomes Insert(free, b) and the header it
  // stopped at keeps its position.
  lemma {:induction false} FreeRing(m: Mem, base: nat, free: seq<Region>, k: nat, b: Region)
    requires Ring(m, base, free) && Before(base, free, b.addr, k) && ApartFrom(free, b) && b.size >= 1
    requires b.addr in m.size && m.size[b.addr] == b.size && base < b.addr
    ensures var p := Cell(base, free, k);
            && p in m.ptr && p in m.size && (b.End() == m.ptr[p] ==> m.ptr[p] in m.ptr && m.ptr[p] in m.size)
            && Ring(LinkDown(LinkUp(m, p, b.addr), p, b.addr), base, Insert(free, b))
            && k <= |Insert(free, b)| && Cell(base, Insert(free, b), k) == p
  {
    FreePath(m, base, free, k, b);
    InsertCell(base, free, k, b);
    if k > 0 {
      GappedAscends(base, free);
      AscendsAt(base, free, 0, k);
    }
  }

  lemma {:induction false} GappedSuffix(a: seq<Region>, c: seq<Region>)
    requires Gapped(a + c)
    ensures Gapped(c)
  {
    if a == [] {
      assert a + c == c;
    } else {
      assert (a + c)[1..] == a[1..] + c;
      GappedSuffix(a[1..], c);
    }
  }

  lemma {:induction false} ApartSuffix(a: seq<Region>, c: seq<Region>, y: Region)
    requires ApartFrom(a + c, y)
    ensures ApartFrom(c, y)
  {
    if a == [] {
      assert a + c == c;
    } else {
      assert (a + c)[1..] == a[1..] + c;
      ApartSuffix(a[1..], c, y);
    }
  }

  // The loop of free() stops at position i exactly when the block belongs right after it.
  lemma {:induction false} StopsIff(base: nat, free: seq<Region>, x: nat, k: nat, i: nat)
    requires Ascends(base, free) && Before(base, free, x, k) && base < x && i <= |free|
    ensures var p, up := Cell(base, free, i), if i < |free| then free[i].addr else base;
            (p < x < up) || (p >= up && (x > p || x < up)) <==> i == k
  {
    if i < |free| { AscendsAt(base, free, i, i + 1); }
    if i > 0 { AscendsAt(base, free, 0, i); }
    if i < k {
      AscendsAt(base, free, i, k);
      if i + 1 < k { AscendsAt(base, free, i + 1, k); }
    } else if i > k {
      if i > k + 1 { AscendsAt(base, free, k + 1, i); }
    }
  }

  // The position free() looks for exists.
  lemma {:induction false} FindBefore(base: nat, free: seq<Region>, x: nat) returns (k: nat)
    requires Ascends(base, free) && base < x && NotAt(free, x)
    ensures Before(base, free, x, k)
    decreases |free|
  {
    if free == [] || x < free[0].addr {
      k := 0;
    } else {
      var j := FindBefore(free[0].addr, free[1..], x);
      k := j + 1;
    }
  }

  // What the loop of free() sees at position i.
  lemma {:induction false} AtPosition(m: Mem, base: nat, free: seq<Region>, x: nat, k: nat, i: nat)
    requires Ring(m, base, free) && Before(base, free, x, k) && base < x && i <= |free|
    ensures Cell(base, free, i) in m.ptr
    ensures var p := Cell(base, free, i);
            var up := m.ptr[p];
            && (up == if i < |free| then free[i].addr else base)
            && ((p < x < up) || (p >= up && (x > p || x < up)) <==> i == k)
  {
    GappedAscends(base, free);
    PathAt(m, base, free, base, i);
    StopsIff(base, free, x, k, i);
  }

  // The search loop of free(): from freep round the ring to the header after which bp belongs.
  method FindPlace(m: Mem, base: nat, freep: nat, bp: nat, ghost free: seq<Region>, ghost at: nat, ghost k: nat)
    returns (p: nat)
    requires Ring(m, base, free) && at <= |free| && freep == Cell(base, free, at)
    requires base < bp && Before(base, free, bp, k)
    ensures p == Cell(base, free, k)
  {
    p := freep;
    ghost var i: nat := at;
    AtPosition(m, base, free, bp, k, i);
    while !(bp > p && bp < m.ptr[p])
      invariant i <= |free| && p == Cell(base, free, i) && p in m.ptr
      invariant m.ptr[p] == if i < |free| then free[i].addr else base
      invariant (p < bp < m.ptr[p]) || (p >= m.ptr[p] && (bp > p || bp < m.ptr[p])) <==> i == k
      decreases if i <= k then k - i else k - i + |free| + 1
    {
      if p >= m.ptr[p] && (bp > p || bp < m.ptr[p]) {
        break;
      }
      p := m.ptr[p];
      i := if i < |free| then i + 1 else 0;
      AtPosition(m, base, free, bp, k, i);
    }
  }

  lemma {:induction false} ApartNotAt(free: seq<Region>, b: Region)
    requires Gapped(free) && ApartFrom(free, b) && b.size >= 1
    ensures NotAt(free, b.addr)
  {
    if free != [] { ApartNotAt(free[1..], b); }
  }

  // ---------- malloc ----------

  // prevp skips block x, which is handed out whole.
  lemma {:induction false} TakeWhole(m: Mem, base: nat, a: seq<Region>, x: Region, c: seq<Region>)
    requires Path(m, base, a + ([x] + c), base) && Ascends(base, a + ([x] + c))
    ensures x.addr in m.ptr && Path(SetPtr(m, Last(base, a), m.ptr[x.addr]), base, a + c, base)
  {
    var xc, p, v := [x] + c, Last(base, a), First(c, base);
    assert xc[1..] == c;
    PathSplit(m, base, a, xc, base);
    AscendsSplit(base, a, xc);
    Retarget(m, base, a, x.addr, v);
    var r := SetPtr(m, p, v);
    if c != [] {
      AscendsNotAt(x.addr, c, p);
      PtrFrame(m, p, v, c[0].addr, c[1..], base);
    }
    PathAt(r, base, a, v, |a|);
    PathJoin(r, base, a, c, base);
  }

  // Block x gives its last n units, which get a header of their own.
  lemma {:induction false} TakeTail(m: Mem, base: nat, a: seq<Region>, x: Region, c: seq<Region>, n: nat)
    requires Path(m, base, a + ([x] + c), base) && Ascends(base, a + ([x] + c)) && 1 <= n < x.size
    requires c != [] ==> x.End() < c[0].addr
    ensures var z := Region(x.addr, x.size - n);
            Path(SetSize(SetSize(m, x.addr, z.size), z.End(), n), base, a + ([z] + c), base)
  {
    var xc, z := [x] + c, Region(x.addr, x.size - n);
    var q := z.End();
    assert xc[1..] == c;
    PathSplit(m, base, a, xc, base);
    AscendsSplit(base, a, xc);
    AscendsOver(base, a, x.addr);
    AscendsOver(base, a, q);
    if c != [] {
      AscendsTo(x.addr, c, q);
      AscendsNotAt(q, c, q);
      AscendsNotAt(x.addr, c, x.addr);
    }
    var m1 := SetSize(m, x.addr, z.size);
    var r := SetSize(m1, q, n);
    SizeFrame(m, x.addr, z.size, base, a, x.addr);
    SizeFrame(m1, q, n, base, a, x.addr);
    SizeFrame(m, x.addr, z.size, x.addr, c, base);
    SizeFrame(m1, q, n, x.addr, c, base);
    PathAt(r, base, a, x.addr, |a|);
    assert ([z] + c)[1..] == c;
    PathJoin(r, base, a, [z] + c, base);
  }

  lemma AscendsTo(from: nat, c: seq<Region>, q: nat)
    requires Ascends(from, c) && c != [] && q < c[0].addr
    ensures Ascends(q, c)
  {
  }

  // The first block of at least n units, looking from position f on and then around, or |free|.
  function NextFit(free: seq<Region>, f: nat, n: nat): (k: nat)
    requires f <= |free|
    ensures k < |free| ==> free[k].size >= n
  {
    var j := FirstFit(free[f..], n);
    if f + j < |free| then f + j
    else var i := FirstFit(free[..f], n); if i < f then i else |free|
  }

  lemma {:induction false} NextFitIs(free: seq<Region>, f: nat, n: nat, k: nat)
    requires f <= |free| && k < |free| && free[k].size >= n
    requires forall q :: (if k >= f then f <= q < k else f <= q < |free| || 0 <= q < k) ==> free[q].size < n
    ensures NextFit(free, f, n) == k
  {
    if k >= f {
      FirstFitIs(free[f..], n, k - f);
    } else {
      NoneFits(free[f..], n);
      FirstFitIs(free[..f], n, k);
    }
  }

  lemma {:induction false} NextFitNone(free: seq<Region>, f: nat, n: nat)
    requires f <= |free|
    ensures NextFit(free, f, n) == |free| <==> forall q :: 0 <= q < |free| ==> free[q].size < n
  {
    if forall q :: 0 <= q < |free| ==> free[q].size < n {
      NoneFits(free[f..], n);
      NoneFits(free[..f], n);
    } else {
      var q :| 0 <= q < |free| && free[q].size >= n;
      if q >= f {
        assert free[f..][q - f] == free[q];
      } else {
        assert free[..f][q] == free[q];
      }
    }
  }

  // The blocks looked at between positions f and i of the ring are all too small.
  ghost predicate Passed(free: seq<Region>, f: nat, n: nat, i: nat) {
    forall q :: 0 <= q < |free| && (if i >= f then f <= q < i else f <= q || q < i) ==> free[q].size < n
  }

  // The search loop of malloc, one trip round the ring: the first block after freep that is large
  // enough, and the header before it.
  method Search(m: Mem, base: nat, freep: nat, n: nat, ghost free: seq<Region>, ghost at: nat)
    returns (prevp: nat, p: nat, found: bool)
    requires Ring(m, base, free) && at <= |free| && freep == Cell(base, free, at) && n >= 1
    ensures var k := NextFit(free, at, n);
            && found == (k < |free|)
            && (found ==> prevp == Cell(base, free, k) && p == free[k].addr)
  {
    GappedAscends(base, free);
    prevp := freep;
    ghost var i: nat := at;
    PathAt(m, base, free, base, i);
    p := m.ptr[prevp];
    while true
      invariant i <= |free| && prevp == Cell(base, free, i) && Passed(free, at, n, i)
      invariant p == if i < |free| then free[i].addr else base
      decreases if i >= at then |free| + at - i else at - i - 1
    {
      PathAt(m, base, free, base, i);
      if m.size[p] >= n {
        NextFitIs(free, at, n, i);
        return prevp, p, true;
      }
      if p == freep {
        RoundTrip(base, free, at, n, i);
        return prevp, p, false;
      }
      i := if i < |free| then i + 1 else 0;
      PathAt(m, base, free, base, i);
      prevp, p := p, m.ptr[p];
    }
  }

  // Back at freep with nothing found, every block is too small.
  lemma {:induction false} RoundTrip(base: nat, free: seq<Region>, f: nat, n: nat, i: nat)
    requires Ascends(base, free) && f <= |free| && i <= |free| && Passed(free, f, n, i)
    requires (if i < |free| then free[i].addr else base) == Cell(base, free, f)
    requires i < |free| ==> free[i].size < n
    ensures NextFit(free, f, n) == |free|
  {
    var j := if i < |free| then i + 1 else 0;
    if j < f { AscendsAt(base, free, j, f); } else if f < j { AscendsAt(base, free, f, j); }
    NextFitNone(free, f, n);
  }

  // The block p gives n units: it leaves the ring when it has no more, or keeps its lower part.
  function Carve(m: Mem, prevp: nat, p: nat, n: nat): (r: Mem)
    requires p in m.ptr && p in m.size && n <= m.size[p]
  {
    if m.size[p] == n then SetPtr(m, prevp, m.ptr[p])
    else SetSize(SetSize(m, p, m.size[p] - n), p + m.size[p] - n, n)
  }

  lemma {:induction false} CarvePath(m: Mem, base: nat, free: seq<Region>, k: nat, n: nat)
    requires Ring(m, base, free) && k < |free| && 1 <= n <= free[k].size
    ensures var p := free[k].addr;
            && p in m.ptr && p in m.size && m.size[p] == free[k].size
            && Path(Carve(m, Cell(base, free, k), p, n), base, Take(free, k, n, High), base)
  {
    var a, x, c := free[..k], free[k], free[k + 1..];
    assert free == a + ([x] + c) && ([x] + c)[1..] == c;
    GappedAscends(base, free);
    PathAt(m, base, free, base, k);
    PathAt(m, base, free, base, k + 1);
    TakeSkips(a, [x] + c, k, n, High);
    if x.size == n {
      TakeWhole(m, base, a, x, c);
    } else {
      if c != [] { GapAt(free, k); }
      TakeTail(m, base, a, x, c, n);
    }
  }

  // malloc takes its block out of the ring: the free list becomes Take(free, k, n, High), the header
  // before the block keeps its position, and base keeps its size.
  lemma {:induction false} CarveRing(m: Mem, base: nat, free: seq<Region>, k: nat, n: nat)
    requires Ring(m, base, free) && k < |free| && 1 <= n <= free[k].size
    ensures var p := free[k].addr;
            && p in m.ptr && p in m.size && m.size[p] == free[k].size
            && Ring(Carve(m, Cell(base, free, k), p, n), base, Take(free, k, n, High))
            && k <= |Take(free, k, n, High)| && Cell(base, Take(free, k, n, High), k) == Cell(base, free, k)
  {
    CarvePath(m, base, free, k, n);
    TakeKeeps(free, k, n, High);
    TakePrefix(free, k, n);
    GappedAscends(base, free);
    AscendsAt(base, free, 0, k + 1);
  }

  lemma {:induction false} TakePrefix(free: seq<Region>, k: nat, n: nat)
    requires k < |free| && n <= free[k].size
    ensures k <= |Take(free, k, n, High)| && (k > 0 ==> Take(free, k, n, High)[k - 1] == free[k - 1])
  {
    if k > 0 { TakePrefix(free[1..], k - 1, n); }
  }

  // The header count malloc computes for nbytes, in 32-bit unsigned arithmetic.
  function NUnits(nbytes: nat): (n: nat)
    ensures n >= 1
  {
    (nbytes + 7) % WORD / 8 + 1
  }

  // The units hold nbytes after the header exactly when nbytes + 7 does not wrap; then no fewer would, and
  // otherwise there is only the header.
  lemma RoomIff(nbytes: nat)
    requires nbytes < WORD
    ensures 8 * (NUnits(nbytes) - 1) >= nbytes <==> nbytes <= WORD - 8
    ensures if nbytes <= WORD - 8 then 8 * (NUnits(nbytes) - 2) < nbytes else NUnits(nbytes) == 1
  {
    if nbytes > WORD - 8 {
      assert (nbytes + 7) % WORD == nbytes + 7 - WORD;
    }
  }

  // The argument morecore passes to sbrk for nu units: nu * 8 in 32 bits, read as a signed int.
  function SbrkArg(nu: nat): (n: int) {
    var w := nu * 8 % WORD;
    if w < WORD / 2 then w else w - WORD
  }

  lemma SbrkArgIff(nu: nat)
    ensures SbrkArg(nu) == 8 * nu <==> nu < WORD / 16
  {
  }

  function CoreUnits(nu: nat): (n: nat) { if nu < 4096 then 4096 else nu }

  // ---------- the header of every block in use ----------

  // Each block in use carries its size in its header.
  predicate Headers(m: Mem, used: seq<Region>) {
    used == [] || (used[0].addr in m.size && m.size[used[0].addr] == used[0].size && Headers(m, used[1..]))
  }

  lemma {:induction false} HeadersAt(m: Mem, used: seq<Region>, j: nat)
    requires Headers(m, used) && j < |used|
    ensures used[j].addr in m.size && m.size[used[j].addr] == used[j].size
  {
    if j > 0 { HeadersAt(m, used[1..], j - 1); }
  }

  // A size word written inside a region apart from the blocks in use leaves their headers alone.
  lemma {:induction false} HeadersFrame(m: Mem, used: seq<Region>, y: Region, x: nat, v: nat)
    requires Headers(m, used) && ApartFrom(used, y) && y.addr <= x < y.End() && Scattered(used)
    ensures Headers(SetSize(m, x, v), used)
  {
    if used != [] { HeadersFrame(m, used[1..], y, x, v); }
  }

  lemma {:induction false} HeadersRemove(m: Mem, used: seq<Region>, j: nat)
    requires Headers(m, used) && j < |used|
    ensures Headers(m, Remove(used, j))
  {
    if j > 0 {
      HeadersRemove(m, used[1..], j - 1);
      assert Remove(used, j)[1..] == Remove(used[1..], j - 1);
    }
  }

  // Apart from a list of regions, in the other direction.
  lemma {:induction false} UsedApart(free: seq<Region>, used: seq<Region>, k: nat)
    requires AllApart(free, used) && k < |free|
    ensures ApartFrom(used, free[k])
  {
    if used != [] {
      ApartAt(free, used[0], k);
      UsedApart(free, used[1..], k);
    }
  }

  // Blocks obtained above base stay above it, free or in use.
  lemma {:induction false} AboveBase(rs: seq<Region>, base: nat, j: nat)
    requires ApartFrom(rs, Region(0, base + 1)) && j < |rs| && rs[j].size >= 1
    ensures base < rs[j].addr
  {
    ApartAt(rs, Region(0, base + 1), j);
  }

  // The ring holds the free blocks of the pool and freep is in it; the headers of the blocks in use
  // hold; free and used blocks partition what sbrk gave, all of it above base.
  ghost predicate Threaded(m: Mem, base: nat, freep: nat, p: Pool, at: nat) {
    && Inv(p) && ApartFrom(p.core, Region(0, base + 1)) && Headers(m, p.used)
    && Ring(m, base, p.free) && at <= |p.free| && freep == Cell(base, p.free, at)
  }

  class UHeap {
    const base: nat
    var mem: Mem
    var freep: nat // 0 before the first call of malloc
    ghost var pool: Pool // the free blocks in address order, the blocks in use, what sbrk gave
    ghost var at: nat    // the position of freep in the ring

    ghost predicate Valid()
      reads this
    {
      && base > 0
      && if freep == 0 then pool == Pool([], [], []) && at == 0 else Threaded(mem, base, freep, pool, at)
    }

    constructor (base: nat)
      requires base > 0
      ensures Valid() && freep == 0 && this.base == base
    {
      this.base := base;
      mem, freep, pool, at := Mem(map[], map[]), 0, Pool([], [], []), 0;
    }

    // The assignments of free() once the place is found.
    method Relink(p: nat, bp: nat)
      requires p in mem.ptr && p in mem.size && bp in mem.size
      requires bp + mem.size[bp] == mem.ptr[p] ==> mem.ptr[p] in mem.ptr && mem.ptr[p] in mem.size
      modifies this`mem
      ensures mem == LinkDown(LinkUp(old(mem), p, bp), p, bp)
    {
      var up := mem.ptr[p];
      if bp + mem.size[bp] == up {
        mem := SetPtr(SetSize(mem, bp, mem.size[bp] + mem.size[up]), bp, mem.ptr[up]);
      } else {
        mem := SetPtr(mem, bp, up);
      }
      if p + mem.size[p] == bp {
        mem := SetPtr(SetSize(mem, p, mem.size[p] + mem.size[bp]), p, mem.ptr[bp]);
      } else {
        mem := SetPtr(mem, p, bp);
      }
    }

    // free() of the j-th block in use. freep is left at the free block below it, or at base.
    method Free(ap: nat, ghost j: nat)
      requires Valid() && freep != 0 && j < |pool.used| && ap == pool.used[j].addr + 1
      modifies this
      ensures Valid() && freep != 0 && pool == Next(old(pool), Release(j))
      ensures Before(base, old(pool.free), ap - 1, at) && freep == Cell(base, old(pool.free), at)
    {
      var bp := ap - 1;
      ghost var k := FreeThreads(mem, base, freep, pool, at, j);
      var p := FindPlace(mem, base, freep, bp, pool.free, at, k);
      Relink(p, bp);
      freep := p;
      pool, at := Next(pool, Release(j)), k;
    }

    // morecore: brk is what sbrk answers, in header units, or -1.
    method Morecore(nu: nat, brk: int) returns (p: nat)
      requires Valid() && freep != 0 && CoreGiven(base, pool, nu, brk)
      modifies this
      ensures Valid() && freep != 0
      ensures if brk < 0 then p == 0 && mem == old(mem) && pool == old(pool) && at == old(at) && freep == old(freep)
              else p == freep && pool == Extended(old(pool), nu, brk)
      ensures brk >= 0 ==> pool.core == [Region(brk, if nu < 4096 then 4096 else nu)] + old(pool.core)
      ensures brk >= 0 ==> Before(base, old(pool.free), brk, at) && freep == Cell(base, old(pool.free), at)
    {
      if brk < 0 {
        return 0;
      }
      GrowThreads(mem, base, freep, pool, at, Region(brk, CoreUnits(nu)));
      mem := SetSize(mem, brk, CoreUnits(nu));
      pool := Next(pool, Grow(Region(brk, CoreUnits(nu))));
      Free(brk + 1, 0);
      p := freep;
    }

    // Takes the n units malloc found at position k out of the ring.
    method TakeBlock(prevp: nat, p: nat, n: nat, ghost k: nat) returns (ap: nat)
      requires Valid() && freep != 0 && k < |pool.free| && 1 <= n <= pool.free[k].size
      requires p == pool.free[k].addr && prevp == Cell(base, pool.free, k)
      modifies this
      ensures Valid() && freep != 0 && pool == Next(old(pool), Allocate(k, n, High)) && ap == pool.used[0].addr + 1
      ensures freep == prevp && at == k
    {
      CarveThreads(mem, base, freep, pool, at, k, n);
      var q := p;
      if mem.size[p] == n {
        mem := SetPtr(mem, prevp, mem.ptr[p]);
      } else {
        mem := SetSize(mem, p, mem.size[p] - n);
        q := p + mem.size[p];
        mem := SetSize(mem, q, n);
      }
      freep := prevp;
      pool, at := Next(pool, Allocate(k, n, High)), k;
      ap := q + 1;
    }

    // malloc, when sbrk would answer brk: the first block large enough after freep; when there is none, the
    // block that the memory from morecore is in; 0 when there is none and sbrk fails. freep is left before it.
    method Malloc(nbytes: nat, brk: int) returns (ap: nat)
      requires Valid() && CoreGiven(base, pool, NUnits(nbytes), brk)
      modifies this
      ensures Valid() && freep != 0
      ensures var n := NUnits(nbytes);
              var k := NextFit(old(pool.free), old(at), n);
              if k < |old(pool.free)| then
                && pool == Next(old(pool), Allocate(k, n, High)) && ap == pool.used[0].addr + 1
                && freep == Cell(base, old(pool.free), k)
              else if brk < 0 then pool == old(pool) && ap == 0 && freep == Cell(base, old(pool.free), old(at))
              else var grown := Extended(old(pool), n, brk);
                   var j := Holder(grown.free, brk);
                   && j < |grown.free| && n <= grown.free[j].size
                   && pool == Next(grown, Allocate(j, n, High)) && ap == pool.used[0].addr + 1
                   && freep == Cell(base, grown.free, j)
    {
      var n := NUnits(nbytes);
      if freep == 0 {
        mem := SetSize(SetPtr(mem, base, base), base, 0);
        freep := base;
      }
      var prevp, p, found := Search(mem, base, freep, n, pool.free, at);
      if !found {
        p := Morecore(n, brk);
        if p == 0 {
          return 0;
        }
        GrownFits(old(pool), n, brk, at);
        GrownUses(old(pool), n, brk, old(at), at);
        prevp, p, found := Search(mem, base, freep, n, pool.free, at);
      }
      ap := TakeBlock(prevp, p, n, NextFit(pool.free, at, n));
    }
  }

  // sbrk fails, or gives a new region above base.
  predicate CoreGiven(base: nat, p: Pool, nu: nat, brk: int) {
    brk < 0 || (base < brk && ApartFrom(p.core, Region(brk, CoreUnits(nu))))
  }

  // The pool after morecore: the new region is obtained and freed.
  function Extended(p: Pool, nu: nat, brk: nat): (q: Pool) {
    var b := Region(brk, CoreUnits(nu));
    Pool(Insert(p.free, b), p.used, [b] + p.core)
  }

  lemma {:induction false} GrowThreads(m: Mem, base: nat, freep: nat, p: Pool, at: nat, b: Region)
    requires Threaded(m, base, freep, p, at) && b.size >= 1 && ApartFrom(p.core, b) && base < b.addr
    ensures Threaded(SetSize(m, b.addr, b.size), base, freep, Next(p, Grow(b)), at)
    ensures Next(Next(p, Grow(b)), Release(0)) == Pool(Insert(p.free, b), p.used, [b] + p.core)
  {
    GrowKeeps(p, b);
    var q := Next(p, Grow(b));
    assert q.used[1..] == p.used && q.core[1..] == p.core;
    HeadersFrame(m, p.used, b, b.addr, b.size);
    ApartNotAt(p.free, b);
    SizeFrame(m, b.addr, b.size, base, p.free, base);
  }

  lemma {:induction false} CarveThreads(m: Mem, base: nat, freep: nat, p: Pool, at: nat, k: nat, n: nat)
    requires Threaded(m, base, freep, p, at) && base > 0 && k < |p.free| && 1 <= n <= p.free[k].size
    ensures var x, c := p.free[k], Cell(base, p.free, k);
            && c > 0 && x.addr in m.ptr && x.addr in m.size && m.size[x.addr] == x.size
            && Threaded(Carve(m, c, x.addr, n), base, c, Next(p, Allocate(k, n, High)), k)
  {
    var x, q := p.free[k], Next(p, Allocate(k, n, High));
    CarveRing(m, base, p.free, k, n);
    AllocateKeeps(p, k, n, High);
    assert q.used[1..] == p.used;
    UsedApart(p.free, p.used, k);
    CarveHeaders(m, Cell(base, p.free, k), p.used, x, n);
    if k > 0 {
      GappedAscends(base, p.free);
      AscendsAt(base, p.free, 0, k);
    }
  }

  lemma {:induction false} CarveHeaders(m: Mem, prevp: nat, used: seq<Region>, x: Region, n: nat)
    requires Headers(m, used) && Scattered(used) && ApartFrom(used, x) && 1 <= n <= x.size
    requires x.addr in m.ptr && x.addr in m.size && m.size[x.addr] == x.size
    ensures Headers(Carve(m, prevp, x.addr, n), used)
    ensures x.End() - n in Carve(m, prevp, x.addr, n).size && Carve(m, prevp, x.addr, n).size[x.End() - n] == n
  {
    if x.size == n {
      HeadersPtr(m, Carve(m, prevp, x.addr, n), used);
    } else {
      HeadersFrame(m, used, x, x.addr, x.size - n);
      HeadersFrame(SetSize(m, x.addr, x.size - n), used, x, x.End() - n, n);
    }
  }

  // After morecore some block is large enough.
  lemma {:induction false} GrownFits(p: Pool, n: nat, brk: nat, f: nat)
    requires f <= |Extended(p, n, brk).free|
    ensures NextFit(Extended(p, n, brk).free, f, n) < |Extended(p, n, brk).free|
  {
    var k := InsertHolds(p.free, Region(brk, CoreUnits(n)));
    NextFitNone(Extended(p, n, brk).free, f, n);
  }

  // The position of the block that holds unit u, or |free|.
  function Holder(free: seq<Region>, u: nat): (k: nat)
    ensures k <= |free| && (k < |free| ==> free[k].addr <= u < free[k].End())
    ensures forall j :: 0 <= j < k ==> !(free[j].addr <= u < free[j].End())
  {
    if free == [] || free[0].addr <= u < free[0].End() then 0 else 1 + Holder(free[1..], u)
  }

  // Every block of the list with b inserted holds b or was there before.
  lemma {:induction false} InsertOld(free: seq<Region>, b: Region, i: nat)
    requires i < |Insert(free, b)|
    ensures var x := Insert(free, b)[i]; x in free || (x.addr <= b.addr && b.End() <= x.End())
    decreases |free|
  {
    if !(free == [] || b.addr < free[0].addr || free[0].End() == b.addr) && i > 0 {
      InsertOld(free[1..], b, i - 1);
    }
  }

  lemma {:induction false} OneHolder(free: seq<Region>, u: nat, j: nat)
    requires Gapped(free) && j < |free| && free[j].addr <= u < free[j].End()
    ensures Holder(free, u) == j
  {
    if j > 0 {
      Below(free, j);
      OneHolder(free[1..], u, j - 1);
    }
  }

  // When no block was large enough, only the one with the new memory in it is.
  lemma {:induction false} GrownUses(p: Pool, n: nat, brk: nat, f: nat, g: nat)
    requires Inv(p) && ApartFrom(p.core, Region(brk, CoreUnits(n))) && n >= 1 && f <= |p.free|
    requires NextFit(p.free, f, n) == |p.free| && g <= |Extended(p, n, brk).free|
    ensures var free := Extended(p, n, brk).free; NextFit(free, g, n) == Holder(free, brk) < |free|
  {
    var b, free := Region(brk, CoreUnits(n)), Extended(p, n, brk).free;
    NextFitNone(p.free, f, n);
    GrownFits(p, n, brk, g);
    var j := NextFit(free, g, n);
    InsertOld(p.free, b, j);
    InsertKeeps(p.free, b);
    OneHolder(free, brk, j);
  }

  lemma {:induction false} InsertHolds(free: seq<Region>, b: Region) returns (k: nat)
    ensures k < |Insert(free, b)| && Insert(free, b)[k].size >= b.size
  {
    if free == [] || b.addr < free[0].addr || free[0].End() == b.addr {
      k := 0;
    } else {
      var j := InsertHolds(free[1..], b);
      k := j + 1;
    }
  }

  // free() of the j-th block in use finds the place k for it and leaves a threaded heap in which that
  // block is released.
  lemma {:induction false} FreeThreads(m: Mem, base: nat, freep: nat, p: Pool, at: nat, j: nat) returns (k: nat)
    requires Threaded(m, base, freep, p, at) && base > 0 && j < |p.used|
    ensures Before(base, p.free, p.used[j].addr, k) && base < p.used[j].addr
    ensures var bp, c := p.used[j].addr, Cell(base, p.free, k);
            && c > 0 && c in m.ptr && c in m.size && bp in m.size
            && (bp + m.size[bp] == m.ptr[c] ==> m.ptr[c] in m.ptr && m.ptr[c] in m.size)
            && Threaded(LinkDown(LinkUp(m, c, bp), c, bp), base, c, Next(p, Release(j)), k)
  {
    k := BlockPlace(m, base, p, j);
    FreeRing(m, base, p.free, k, p.used[j]);
    FreeHeaders(m, base, p, j, k);
    ReleaseKeeps(p, j);
    if k > 0 {
      GappedAscends(base, p.free);
      AscendsAt(base, p.free, 0, k);
    }
  }

  // Where the j-th block in use goes back.
  lemma {:induction false} BlockPlace(m: Mem, base: nat, p: Pool, j: nat) returns (k: nat)
    requires Inv(p) && ApartFrom(p.core, Region(0, base + 1)) && j < |p.used| && Headers(m, p.used)
    requires Ring(m, base, p.free)
    ensures var b := p.used[j];
            && Before(base, p.free, b.addr, k) && ApartFrom(p.free, b) && b.size >= 1 && base < b.addr
            && b.addr in m.size && m.size[b.addr] == b.size
  {
    AllApartAt(p.free, p.used, j);
    ScatteredAt(p.used, j);
    AboveBase(p.used, base, j);
    HeadersAt(m, p.used, j);
    GappedAscends(base, p.free);
    ApartNotAt(p.free, p.used[j]);
    k := FindBefore(base, p.free, p.used[j].addr);
  }

  // free() writes size words only in the block itself and in a free block or base, so the headers of
  // the other blocks in use are kept.
  lemma {:induction false} FreeHeaders(m: Mem, base: nat, p: Pool, j: nat, k: nat)
    requires Inv(p) && ApartFrom(p.core, Region(0, base + 1)) && j < |p.used| && Headers(m, p.used) && k <= |p.free|
    requires var bp, c := p.used[j].addr, Cell(base, p.free, k);
             && c in m.ptr && c in m.size && bp in m.size
             && (bp + m.size[bp] == m.ptr[c] ==> m.ptr[c] in m.ptr && m.ptr[c] in m.size)
    ensures var bp, c := p.used[j].addr, Cell(base, p.free, k);
            Headers(LinkDown(LinkUp(m, c, bp), c, bp), Remove(p.used, j))
  {
    var bp, c, rest := p.used[j].addr, Cell(base, p.free, k), Remove(p.used, j);
    HeadersRemove(m, p.used, j);
    var m1 := LinkUp(m, c, bp);
    var m2 := LinkDown(m1, c, bp);
    RestApart(p, base, j, k);
    var y := if k == 0 then Region(0, base + 1) else p.free[k - 1];
    if k > 0 { GappedSizes(p.free, k - 1); }
    HeadersFrame(m, rest, p.used[j], bp, m1.size[bp]);
    HeadersPtr(SetSize(m, bp, m1.size[bp]), m1, rest);
    HeadersFrame(m1, rest, y, c, m2.size[c]);
    HeadersPtr(SetSize(m1, c, m2.size[c]), m2, rest);
  }

  lemma {:induction false} HeadersPtr(m: Mem, r: Mem, used: seq<Region>)
    requires Headers(m, used) && m.size == r.size
    ensures Headers(r, used)
  {
    if used != [] { HeadersPtr(m, r, used[1..]); }
  }

  // The blocks left in use are apart from the block freed, from every free block and from base.
  lemma {:induction false} RestApart(p: Pool, base: nat, j: nat, k: nat)
    requires Inv(p) && ApartFrom(p.core, Region(0, base + 1)) && j < |p.used| && k <= |p.free|
    ensures Scattered(Remove(p.used, j)) && ApartFrom(Remove(p.used, j), p.used[j]) && p.used[j].size >= 1
    ensures ApartFrom(Remove(p.used, j), if k == 0 then Region(0, base + 1) else p.free[k - 1])
  {
    ScatteredAt(p.used, j);
    RemoveKeeps(p.used, j);
    var y := if k == 0 then Region(0, base + 1) else p.free[k - 1];
    if k > 0 { UsedApart(p.free, p.used, k - 1); }
    RemoveApart(p.used, j, y);
  }
}
