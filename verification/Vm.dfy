// Page tables and physical pages (vm/vm.c, vm/kalloc.c). Frames and virtual pages are numbers; the
// contents of physical memory are a map from frames to pages. A page directory is named by its frame.

module Vm {
  import opened Common

  const ENTRIES := 1024          // NPDENTRIES and NPTENTRIES
  const USER_TABLES := 512       // directory entries below KERNBASE
  const KERN_PAGE := 0x80000     // KERNBASE / PGSIZE
  const PTE_P := 1
  const PTE_W := 2
  const PTE_U := 4
  const TABLE_FLAGS := 7         // PTE_P | PTE_W | PTE_U
  const PGSIZE := 4096
  const KERNBASE := 0x8000_0000
  const USER_FLAGS := 6          // PTE_W | PTE_U

  datatype Entry = Absent | Present(frame: int, flags: int)

  datatype Page = Bytes(bytes: seq<int>) | Table(entries: seq<Entry>)

  // kmem.freelist and physical memory.
  datatype State = State(free: seq<int>, mem: map<int, Page>)

  function Zeros(): (p: Page) { Bytes(seq(4096, _ => 0)) }

  function Junk(): (p: Page) { Bytes(seq(4096, _ => 1)) }

  function EmptyTable(): (p: Page)
    ensures p.Table? && |p.entries| == ENTRIES && forall i :: 0 <= i < ENTRIES ==> p.entries[i] == Absent
  {
    Table(seq(ENTRIES, _ => Absent))
  }

  // Entry i of the table in frame f.
  function At(s: State, f: int, i: int): (e: Entry) {
    if f in s.mem && s.mem[f].Table? && 0 <= i < |s.mem[f].entries| then s.mem[f].entries[i] else Absent
  }

  // What the hardware finds for virtual page v under directory d.
  function Walk(s: State, d: int, v: int): (e: Entry) {
    var t := At(s, d, v / ENTRIES);
    if t.Absent? then Absent else At(s, t.frame, v % ENTRIES)
  }

  // The one use of a frame: on the free list, held by the running kernel code, a page directory (whose
  // entries below `gone` were freed by freevm), the page table that entry idx of directory `parent` names,
  // or the user page that entry idx of table `parent` names.
  datatype Role = Free | Held | Dir(gone: int) | Tab(parent: int, idx: int) | User(parent: int, idx: int)

  type Roles = map<int, Role>

  ghost predicate FreeOk(s: State, own: Roles) {
    && own.Keys == s.mem.Keys && Distinct(s.free)
    && (forall f :: f in s.free <==> f in own && own[f] == Free)
  }

  // Tables are tables and user pages are data.
  ghost predicate KindsOk(s: State, own: Roles) {
    forall f {:trigger own[f]} :: f in own ==>
      && f > 0 && f in s.mem
      && (own[f].Dir? || own[f].Tab? ==> s.mem[f].Table? && |s.mem[f].entries| == ENTRIES)
      && (own[f].User? ==> s.mem[f].Bytes?)
  }

  // A present directory entry names a page table that belongs to it; a present entry of a table of the
  // user half has PTE_P set and names a user page that belongs to it.
  ghost predicate DownOk(s: State, own: Roles) {
    forall p, i {:trigger At(s, p, i)} :: p in own && At(s, p, i).Present? ==>
      && (own[p].Dir? && i >= own[p].gone ==> var f := At(s, p, i).frame; f in own && own[f] == Tab(p, i))
      && (own[p].Tab? && own[p].idx < USER_TABLES ==>
            At(s, p, i).flags % 2 == 1 && var f := At(s, p, i).frame; f in own && own[f] == User(p, i))
  }

  // And every page table and user page is named there.
  ghost predicate UpOk(s: State, own: Roles) {
    forall f {:trigger own[f].parent} :: f in own ==>
      && (own[f].Tab? ==> var p := own[f].parent;
                          && p in own && own[p].Dir? && own[f].idx >= own[p].gone
                          && At(s, p, own[f].idx).Present? && At(s, p, own[f].idx).frame == f)
      && (own[f].User? ==> var p := own[f].parent;
                           p in own && own[p].Tab? && own[p].idx < USER_TABLES && At(s, p, own[f].idx).Present? &&
                               At(s, p, own[f].idx).frame == f)
  }

  // Every frame has exactly one use.
  ghost predicate Inv(s: State, own: Roles) {
    FreeOk(s, own) && KindsOk(s, own) && DownOk(s, own) && UpOk(s, own)
  }

  // ---------- kalloc and kfree ----------

  lemma {:induction false} KallocKeeps(s: State, own: Roles)
    requires Inv(s, own) && s.free != []
    ensures s.free[0] in own && own[s.free[0]] == Free
    ensures Inv(s.(free := s.free[1..]), own[s.free[0] := Held])
  {
    var f := s.free[0];
    var r, o := s.(free := s.free[1..]), own[f := Held];
    assert f in s.free;
    forall g
      ensures g in r.free <==> g in o && o[g] == Free
    {
      assert g in s.free <==> g == f || g in r.free;
    }
    Same(s, r);
  }

  // The entries of every table are the same.
  lemma Same(s: State, r: State)
    requires s.mem == r.mem
    ensures forall p, i {:trigger At(s, p, i)} {:trigger At(r, p, i)} :: At(s, p, i) == At(r, p, i)
  {
  }

  lemma {:induction false} KfreeKeeps(s: State, own: Roles, f: int)
    requires Inv(s, own) && f in own && own[f] == Held
    ensures Inv(State([f] + s.free, s.mem[f := Junk()]), own[f := Free])
  {
    var r, o := State([f] + s.free, s.mem[f := Junk()]), own[f := Free];
    assert r.free[1..] == s.free;
    forall g
      ensures g in r.free <==> g in o && o[g] == Free
    {
    }
    assert o.Keys == own.Keys && r.mem.Keys == s.mem.Keys;
    forall p, i | p in o && At(r, p, i).Present?
      ensures At(r, p, i) == At(s, p, i)
    {
    }
  }

  // ---------- entries ----------

  function SetEntry(s: State, p: int, i: int, e: Entry): (r: State)
    requires p in s.mem && s.mem[p].Table? && 0 <= i < |s.mem[p].entries|
  {
    s.(mem := s.mem[p := Table(s.mem[p].entries[i := e])])
  }

  lemma SetEntryAt(s: State, p: int, i: int, e: Entry)
    requires p in s.mem && s.mem[p].Table? && 0 <= i < |s.mem[p].entries|
    ensures var r := SetEntry(s, p, i, e);
            forall q, j {:trigger At(r, q, j)} {:trigger At(s, q, j)} ::
              At(r, q, j) == if q == p && j == i then e else At(s, q, j)
  {
  }

  // A held frame becomes an empty page table of directory d.
  function AddTable(s: State, d: int, x: int, f: int): (r: State)
    requires d in s.mem && s.mem[d].Table? && 0 <= x < |s.mem[d].entries| && d != f
  {
    SetEntry(s.(mem := s.mem[f := EmptyTable()]), d, x, Present(f, TABLE_FLAGS))
  }

  lemma {:induction false} AddTableAt(s: State, d: int, x: int, f: int)
    requires d in s.mem && s.mem[d].Table? && 0 <= x < |s.mem[d].entries| && d != f
    ensures var r := AddTable(s, d, x, f);
            && (f in s.mem ==> r.mem.Keys == s.mem.Keys)
            && forall q, j {:trigger At(r, q, j)} ::
                 At(r, q, j) ==
                 if q == f then Absent
                 else if q == d && j == x then Present(f, TABLE_FLAGS)
                 else At(s, q, j)
  {
    SetEntryAt(s.(mem := s.mem[f := EmptyTable()]), d, x, Present(f, TABLE_FLAGS));
  }

  lemma {:induction false} AddTableInv(s: State, own: Roles, d: int, x: int, f: int)
    requires Inv(s, own) && d in own && own[d] == Dir(0) && 0 <= x < ENTRIES && At(s, d, x).Absent?
    requires f in own && own[f] == Held
    ensures Inv(AddTable(s, d, x, f), own[f := Tab(d, x)])
  {
    var r, o := AddTable(s, d, x, f), own[f := Tab(d, x)];
    AddTableAt(s, d, x, f);
    assert o.Keys == own.Keys;
    forall g
      ensures g in r.free <==> g in o && o[g] == Free
    {
    }
  }

  lemma {:induction false} AddTableKeeps(s: State, own: Roles, d: int, x: int, f: int)
    requires Inv(s, own) && d in own && own[d] == Dir(0) && 0 <= x < ENTRIES && At(s, d, x).Absent?
    requires f in own && own[f] == Held
    ensures Inv(AddTable(s, d, x, f), own[f := Tab(d, x)])
    ensures forall e, v {:trigger Walk(AddTable(s, d, x, f), e, v)} ::
              e in own && own[e] == Dir(0) ==> Walk(AddTable(s, d, x, f), e, v) == Walk(s, e, v)
  {
    AddTableInv(s, own, d, x, f);
    AddTableAt(s, d, x, f);
    var r := AddTable(s, d, x, f);
    forall e, v | e in own && own[e] == Dir(0)
      ensures Walk(r, e, v) == Walk(s, e, v)
    {
      assert At(s, e, v / ENTRIES).Present? ==> At(s, e, v / ENTRIES).frame != f;
    }
  }

  // A held data frame g becomes the user page of an absent entry.
  lemma {:induction false} MapKeeps(s: State, own: Roles, t: int, i: int, g: int, flags: int)
    requires Inv(s, own) && t in own && own[t].Tab? && own[t].idx < USER_TABLES && 0 <= i < ENTRIES
    requires At(s, t, i).Absent?
    requires g in own && own[g] == Held && s.mem[g].Bytes? && flags % 2 == 1
    ensures Inv(SetEntry(s, t, i, Present(g, flags)), own[g := User(t, i)])
  {
    var r, o := SetEntry(s, t, i, Present(g, flags)), own[g := User(t, i)];
    SetEntryAt(s, t, i, Present(g, flags));
    assert o.Keys == own.Keys && r.mem.Keys == s.mem.Keys;
    forall f
      ensures f in r.free <==> f in o && o[f] == Free
    {
    }
  }

  // A present user entry is cleared; its frame is held by the caller.
  lemma {:induction false} UnmapKeeps(s: State, own: Roles, t: int, i: int)
    requires Inv(s, own) && t in own && own[t].Tab? && own[t].idx < USER_TABLES && At(s, t, i).Present?
    ensures var g := At(s, t, i).frame;
            && g in own && own[g] == User(t, i) && 0 <= i < ENTRIES
            && Inv(SetEntry(s, t, i, Absent), own[g := Held])
  {
    var g := At(s, t, i).frame;
    var r, o := SetEntry(s, t, i, Absent), own[g := Held];
    SetEntryAt(s, t, i, Absent);
    assert o.Keys == own.Keys && r.mem.Keys == s.mem.Keys;
    forall f
      ensures f in r.free <==> f in o && o[f] == Free
    {
    }
  }

  // Entries of the kernel half own nothing.
  lemma {:induction false} KernelKeeps(s: State, own: Roles, t: int, i: int, e: Entry)
    requires Inv(s, own) && t in own && own[t].Tab? && own[t].idx >= USER_TABLES && 0 <= i < ENTRIES
    ensures Inv(SetEntry(s, t, i, e), own)
  {
    SetEntryAt(s, t, i, e);
    assert SetEntry(s, t, i, e).mem.Keys == s.mem.Keys;
  }

  // Only virtual page v of directory d sees a write to the table entry it walks to.
  lemma {:induction false} SetEntryWalk(s: State, own: Roles, d: int, v: int, e: Entry)
    requires Inv(s, own) && d in own && own[d] == Dir(0) && At(s, d, v / ENTRIES).Present?
    ensures var t := At(s, d, v / ENTRIES).frame;
            && t in own && own[t] == Tab(d, v / ENTRIES)
            && forall c, w {:trigger Walk(SetEntry(s, t, v % ENTRIES, e), c, w)} :: c in own && own[c] == Dir(0) ==>
                 Walk(SetEntry(s, t, v % ENTRIES, e), c, w) == if c == d && w == v then e else Walk(s, c, w)
  {
    var t := At(s, d, v / ENTRIES).frame;
    var r := SetEntry(s, t, v % ENTRIES, e);
    SetEntryAt(s, t, v % ENTRIES, e);
    forall c, w | c in own && own[c] == Dir(0)
      ensures Walk(r, c, w) == if c == d && w == v then e else Walk(s, c, w)
    {
      assert At(r, c, w / ENTRIES) == At(s, c, w / ENTRIES);
      if At(s, c, w / ENTRIES).Present? && At(s, c, w / ENTRIES).frame == t {
        assert c == d && w / ENTRIES == v / ENTRIES;
      }
    }
  }

  // ---------- directories ----------

  // memset of a frame that will be a table.
  function Cleared(s: State, d: int): (r: State) { s.(mem := s.mem[d := EmptyTable()]) }

  lemma {:induction false} NewDirKeeps(s: State, own: Roles, d: int)
    requires Inv(s, own) && d in own && own[d] == Held
    ensures Inv(Cleared(s, d), own[d := Dir(0)])
    ensures forall v :: Walk(Cleared(s, d), d, v).Absent?
    ensures forall c, w :: c in own && own[c] == Dir(0) ==> Walk(Cleared(s, d), c, w) == Walk(s, c, w)
  {
    hide Distinct;
    var r := Cleared(s, d);
    NewDirInv(s, own, d);
    forall c, w | c in own && own[c] == Dir(0)
      ensures Walk(r, c, w) == Walk(s, c, w)
    {
      assert At(s, c, w / ENTRIES).Present? ==> At(s, c, w / ENTRIES).frame != d;
    }
  }

  lemma {:induction false} NewDirInv(s: State, own: Roles, d: int)
    requires Inv(s, own) && d in own && own[d] == Held
    ensures Inv(Cleared(s, d), own[d := Dir(0)])
  {
    hide Distinct, Walk;
    var r, o := Cleared(s, d), own[d := Dir(0)];
    assert forall q, j {:trigger At(r, q, j)} :: At(r, q, j) == if q == d then Absent else At(s, q, j);
    assert o.Keys == own.Keys && r.mem.Keys == s.mem.Keys;
    forall f
      ensures f in r.free <==> f in o && o[f] == Free
    {
    }
  }

  // freevm passes an absent entry x of the directory.
  lemma {:induction false} PassAbsent(s: State, own: Roles, d: int, x: int)
    requires Inv(s, own) && d in own && own[d] == Dir(x) && At(s, d, x).Absent?
    ensures Inv(s, own[d := Dir(x + 1)])
  {
    var o := own[d := Dir(x + 1)];
    assert o.Keys == own.Keys;
    forall f
      ensures f in s.free <==> f in o && o[f] == Free
    {
    }
  }

  // freevm passes entry x, which names a page table without user pages: the table is held by the caller.
  lemma {:induction false} PassTable(s: State, own: Roles, d: int, x: int, t: int)
    requires Inv(s, own) && d in own && own[d] == Dir(x) && At(s, d, x).Present? && t == At(s, d, x).frame
    requires x < USER_TABLES ==> forall i :: At(s, t, i).Absent?
    ensures t in own && own[t] == Tab(d, x) && Inv(s, own[t := Held][d := Dir(x + 1)])
  {
    var o := own[t := Held][d := Dir(x + 1)];
    PassTableFree(s, own, o, d, x, t);
    PassTableUp(s, own, o, d, x, t);
    assert DownOk(s, o);
  }

  lemma {:induction false} PassTableFree(s: State, own: Roles, o: Roles, d: int, x: int, t: int)
    requires Inv(s, own) && d in own && own[d] == Dir(x) && At(s, d, x).Present? && t == At(s, d, x).frame
    requires o == own[t := Held][d := Dir(x + 1)]
    ensures FreeOk(s, o) && KindsOk(s, o) && t in own && own[t] == Tab(d, x)
  {
    assert o.Keys == own.Keys;
    forall f
      ensures f in s.free <==> f in o && o[f] == Free
    {
    }
  }

  lemma {:induction false} PassTableUp(s: State, own: Roles, o: Roles, d: int, x: int, t: int)
    requires Inv(s, own) && d in own && own[d] == Dir(x) && At(s, d, x).Present? && t == At(s, d, x).frame
    requires x < USER_TABLES ==> forall i :: At(s, t, i).Absent?
    requires o == own[t := Held][d := Dir(x + 1)]
    ensures UpOk(s, o)
  {
  }

  lemma {:induction false} DirGone(s: State, own: Roles, d: int)
    requires Inv(s, own) && d in own && own[d] == Dir(ENTRIES)
    ensures Inv(s, own[d := Held])
  {
    var o := own[d := Held];
    assert o.Keys == own.Keys;
    forall f
      ensures f in s.free <==> f in o && o[f] == Free
    {
    }
  }

  // ---------- what a step leaves alone ----------

  // Frame f is directory d, a page table of d, or a user page of d.
  predicate Belongs(own: Roles, f: int, d: int) {
    && f in own
    && match own[f]
       case Dir(_) => f == d
       case Tab(p, _) => p == d
       case User(p, _) => p in own && own[p].Tab? && own[p].parent == d
       case _ => false
  }

  // Apart from frame h, roles change only from free to some use under d; user pages keep their contents,
  // and other directories keep their mappings.
  ghost predicate Kept(s: State, own: Roles, r: State, o: Roles, d: int, h: int) {
    && o.Keys == own.Keys && r.mem.Keys == s.mem.Keys
    && (forall f {:trigger o[f]} :: f in own && f != h ==> o[f] == own[f] || (own[f] == Free && Belongs(o, f, d)))
    && (forall f {:trigger r.mem[f]} :: f in own && f in s.mem && f in r.mem && f != h && own[f].User? ==>
          r.mem[f] == s.mem[f])
    && (forall c, w {:trigger Walk(r, c, w)} :: c in own && own[c] == Dir(0) && c != d && c != h ==>
          Walk(r, c, w) == Walk(s, c, w))
  }

  // pa | perm | PTE_P.
  function WithP(flags: int): (r: int) { if flags % 2 == 1 then flags else flags + PTE_P }

  // ---------- how many frames an operation takes ----------

  // The directory entries of d that have a page table.
  function Tables(s: State, d: int): (r: set<int>) { set x | 0 <= x < ENTRIES && At(s, d, x).Present? }

  // The directory entries that virtual pages [lo, hi) go through.
  function Reach(lo: int, hi: int): (r: set<int>) { set v | lo <= v < hi :: v / ENTRIES }

  // Frames taken off the free list have become page tables of d, except `extra` of them.
  predicate Paid(s: State, r: State, d: int, extra: int) {
    |r.free| + |Tables(r, d)| + extra == |s.free| + |Tables(s, d)|
  }

  lemma ReachNext(lo: int, a: int)
    requires lo <= a
    ensures Reach(lo, a + 1) == Reach(lo, a) + {a / ENTRIES} && Reach(lo, lo) == {}
  {
  }

  lemma ReachMore(lo: int, a: int, hi: int)
    requires lo <= a < hi
    ensures Reach(lo, a) <= Reach(lo, hi) && a / ENTRIES in Reach(lo, hi)
  {
  }

  lemma TablesSame(s: State, r: State, d: int)
    requires forall x :: At(r, d, x) == At(s, d, x)
    ensures Tables(r, d) == Tables(s, d)
  {
  }

  lemma TablesAdd(s: State, r: State, d: int, x: int)
    requires 0 <= x < ENTRIES && At(s, d, x).Absent? && At(r, d, x).Present?
    requires forall y :: y != x ==> At(r, d, y) == At(s, d, y)
    ensures Tables(r, d) == Tables(s, d) + {x} && |Tables(r, d)| == |Tables(s, d)| + 1
  {
    assert Tables(r, d) == Tables(s, d) + {x};
  }

  // A write into a page table of d changes no entry of d itself.
  lemma {:induction false} SetEntryTables(s: State, own: Roles, d: int, v: int, e: Entry)
    requires Inv(s, own) && d in own && own[d] == Dir(0) && At(s, d, v / ENTRIES).Present?
    ensures var t := At(s, d, v / ENTRIES).frame;
            && t in s.mem && s.mem[t].Table? && |s.mem[t].entries| == ENTRIES
            && Tables(SetEntry(s, t, v % ENTRIES, e), d) == Tables(s, d)
            && SetEntry(s, t, v % ENTRIES, e).free == s.free
  {
    var t := At(s, d, v / ENTRIES).frame;
    assert t in own && own[t] == Tab(d, v / ENTRIES);
    SetEntryAt(s, t, v % ENTRIES, e);
    TablesSame(s, SetEntry(s, t, v % ENTRIES, e), d);
  }

  // The next frame is missing, so all that are wanted do not fit.
  lemma {:induction false} TooFew(t0: set<int>, cur: set<int>, all: set<int>, x: int, done: nat, total: nat, free: nat,
          free0: nat)
    requires t0 <= cur && cur + {x} <= all && done < total && free + |cur| + done == free0 + |t0|
    requires free < 1 + (if x in cur then 0 else 1)
    ensures free0 + |t0| < total + |all|
  {
    SubsetSize(cur + {x}, all);
    assert x in cur ==> cur + {x} == cur;
  }

  lemma {:induction false} UnionSize(a: set<int>, b: set<int>)
    ensures |a + b| == |a| + |b - a|
  {
    assert a + b == a + (b - a) && a * (b - a) == {};
  }

  class Machine {
    var s: State
    ghost var own: Roles

    ghost predicate Valid()
      reads this
    {
      Inv(s, own)
    }

    // The physical pages past the kernel, none of them given to the allocator yet.
    constructor (frames: set<int>)
      requires forall f :: f in frames ==> f > 0
      ensures Valid() && own.Keys == frames && forall f :: f in own ==> own[f] == Held
    {
      s := State([], map f | f in frames :: Junk());
      own := map f | f in frames :: Held;
    }

    // freerange.
    method Freerange(lo: int, hi: int)
      requires Valid() && lo <= hi && forall f :: lo <= f < hi ==> f in own && own[f] == Held
      modifies this
      ensures Valid() && own.Keys == old(own).Keys
      ensures forall f :: f in own ==> own[f] == if lo <= f < hi then Free else old(own)[f]
    {
      hide Inv;
      var p := lo;
      while p < hi
        invariant lo <= p <= hi && Valid() && own.Keys == old(own).Keys
        invariant forall f :: f in own ==> own[f] == if lo <= f < p then Free else old(own)[f]
      {
        Kfree(p);
        p := p + 1;
      }
    }

    method Kalloc() returns (ok: bool, f: int)
      requires Valid()
      modifies this
      ensures Valid() && ok == (old(s.free) != []) && s.mem == old(s.mem)
      ensures if ok then
                && f in old(own) && old(own)[f] == Free && own == old(own)[f := Held]
                && f == old(s.free)[0] && s.free == old(s.free)[1..]
              else
                s == old(s) && own == old(own)
    {
      ok, f := s.free != [], 0;
      if ok {
        f := s.free[0];
        KallocKeeps(s, own);
        s, own := s.(free := s.free[1..]), own[f := Held];
      }
    }

    method Kfree(f: int)
      requires Valid() && f in own && own[f] == Held
      modifies this
      ensures Valid() && own == old(own)[f := Free] && s.free == [f] + old(s.free) && s.mem == old(s.mem)[f := Junk()]
      ensures s.mem[f] == Bytes(seq(PGSIZE, _ => 1))
    {
      KfreeKeeps(s, own, f);
      s, own := State([f] + s.free, s.mem[f := Junk()]), own[f := Free];
    }

    // walkpgdir: the table that holds the entry for v, created when alloc is set.
    method WalkPgdir(d: int, v: int, alloc: bool) returns (ok: bool, t: int)
      requires Valid() && d in own && own[d] == Dir(0) && 0 <= v / ENTRIES < ENTRIES
      modifies this
      ensures Valid() && Kept(old(s), old(own), s, own, d, -1) && own[d] == Dir(0)
      ensures forall w :: Walk(s, d, w) == Walk(old(s), d, w)
      ensures forall f :: f in old(own) && old(own)[f] == Held ==> own[f] == Held && s.mem[f] == old(s).mem[f]
      ensures if ok then At(s, d, v / ENTRIES).Present? && t == At(s, d, v / ENTRIES).frame
              else s == old(s) && own == old(own) && At(s, d, v / ENTRIES).Absent? && (alloc ==> s.free == [])
      ensures Paid(old(s), s, d, 0)
      ensures if ok then Tables(s, d) == Tables(old(s), d) + {v / ENTRIES} else v / ENTRIES !in Tables(s, d)
      ensures if At(old(s), d, v / ENTRIES).Present? then ok && s == old(s) && own == old(own)
              else ok ==> alloc && At(s, d, v / ENTRIES).flags == PTE_P + PTE_W + PTE_U
    {
      var e := At(s, d, v / ENTRIES);
      if e.Present? {
        return true, e.frame;
      }
      if !alloc {
        return false, 0;
      }
      ok, t := Kalloc();
      if ok {
        AddTableKept(old(s), old(own), d, v / ENTRIES, t);
        AddTableAt(s, d, v / ENTRIES, t);
        s, own := AddTable(s, d, v / ENTRIES, t), own[t := Tab(d, v / ENTRIES)];
        TablesAdd(old(s), s, d, v / ENTRIES);
      }
    }

    // mappages of one held data frame g at user page v. The entry has the bits of perm and PTE_P, which is bit 0.
    method MapPage(d: int, v: int, g: int, perm: int) returns (ok: bool)
      requires Valid() && d in own && own[d] == Dir(0) && 0 <= v < KERN_PAGE && Walk(s, d, v).Absent?
      requires g in own && own[g] == Held && s.mem[g].Bytes?
      modifies this
      ensures Valid() && Kept(old(s), old(own), s, own, d, g) && own[d] == Dir(0) && s.mem[g] == old(s).mem[g]
      ensures ok ==> Belongs(own, g, d) && own[g].User?
      ensures !ok ==> own[g] == Held
      ensures Paid(old(s), s, d, 0) && (ok ==> Tables(s, d) == Tables(old(s), d) + {v / ENTRIES})
      ensures !ok ==> s.free == old(s.free) == [] && v / ENTRIES !in Tables(old(s), d)
      ensures forall w :: Walk(s, d, w) == if ok && w == v then Present(g, WithP(perm)) else Walk(old(s), d, w)
      ensures ok ==> Walk(s, d, v) == Present(g, if perm % 2 == 0 then perm + PTE_P else perm)
    {
      hide Inv, Kept;
      var t;
      ok, t := WalkPgdir(d, v, true);
      if ok {
        ghost var r, o := s, own;
        MapKept(s, own, d, v, g, perm);
        SetEntryTables(s, own, d, v, Present(g, WithP(perm)));
        s, own := SetEntry(s, t, v % ENTRIES, Present(g, WithP(perm))), own[g := User(t, v % ENTRIES)];
        KeptWeaken(old(s), old(own), r, o, d, g);
        KeptTrans(old(s), old(own), r, o, s, own, d, g);
      } else {
        KeptWeaken(old(s), old(own), s, own, d, g);
      }
    }

    // The loop of deallocuvm from page lo: whole absent page tables are skipped.
    method UnmapRange(d: int, lo: int, oldsz: int)
      requires Valid() && d in own && own[d] == Dir(0) && 0 <= lo <= Up(oldsz) && oldsz <= KERNBASE
      modifies this
      ensures Valid() && Freed(old(s), old(own), s, own, d, lo, Up(oldsz))
    {
      hide Inv, Freed;
      var a := lo;
      ghost var hi := Up(oldsz);
      FreedNothing(s, own, d, lo);
      while a * PGSIZE < oldsz
        invariant lo <= a && Valid() && d in own && own[d] == Dir(0)
        invariant Freed(old(s), old(own), s, own, d, lo, if a < hi then a else hi)
        decreases oldsz - a * PGSIZE
      {
        var e := At(s, d, a / ENTRIES);
        if e.Absent? {
          var b := (a / ENTRIES + 1) * ENTRIES;
          FreedSkip(old(s), old(own), s, own, d, lo, a, if b < hi then b else hi);
          a := b - 1;
        } else {
          var pte := At(s, e.frame, a % ENTRIES);
          if pte.Present? {
            FreedOne(old(s), old(own), s, own, d, lo, a, e.frame, pte.frame);
            s, own := Unmapped(s, e.frame, a % ENTRIES, pte.frame), own[pte.frame := Free];
          } else {
            FreedSkip(old(s), old(own), s, own, d, lo, a, a + 1);
          }
        }
        a := a + 1;
      }
    }

    method DeallocUvm(d: int, oldsz: int, newsz: int) returns (r: int)
      requires Valid() && d in own && own[d] == Dir(0) && 0 <= newsz && 0 <= oldsz <= KERNBASE
      modifies this
      ensures Valid()
      ensures if newsz >= oldsz then r == oldsz && s == old(s) && own == old(own)
              else r == newsz && Freed(old(s), old(own), s, own, d, Up(newsz), Up(oldsz))
    {
      if newsz >= oldsz {
        return oldsz;
      }
      UnmapRange(d, Up(newsz), oldsz);
      return newsz;
    }

    // kalloc, fill, mappages: one new user page at v. When the page table cannot be had, the frame is still
    // held.
    method AddPage(d: int, v: int, fill: Page, perm: int) returns (ok: bool, held: bool, g: int)
      requires Valid() && d in own && own[d] == Dir(0) && 0 <= v < KERN_PAGE && Walk(s, d, v).Absent? && fill.Bytes?
      modifies this
      ensures Valid() && d in own && own[d] == Dir(0) && (ok ==> !held)
      ensures Kept(old(s), old(own), s, own, d, if held then g else -1)
      ensures held ==> g in own && old(own)[g] == Free && own[g] == Held
      ensures ok ==> g in s.mem && s.mem[g] == fill
      ensures forall w :: Walk(s, d, w) == if ok && w == v then Present(g, WithP(perm)) else Walk(old(s), d, w)
      ensures ok ==> Paid(old(s), s, d, 1) && Tables(s, d) == Tables(old(s), d) + {v / ENTRIES}
      ensures !ok ==> |old(s.free)| < 1 + (if v / ENTRIES in Tables(old(s), d) then 0 else 1)
    {
      held := false;
      ok, g := Kalloc();
      if !ok {
        return;
      }
      FillKept(old(s), old(own), g, fill, d);
      s := s.(mem := s.mem[g := fill]);
      TablesSame(old(s), s, d);
      ghost var r, o := s, own;
      ok := MapPage(d, v, g, perm);
      KeptTrans(old(s), old(own), r, o, s, own, d, g);
      held := !ok;
      if ok {
        KeptUsed(old(s), old(own), s, own, d, g);
      }
    }

    // allocuvm. It succeeds exactly when there are frames for the pages and for the page tables that are
    // missing. On success the pages from oldsz to newsz are new and zero; on failure no mapping of any
    // directory has changed.
    method AllocUvm(d: int, oldsz: int, newsz: int) returns (r: int)
      requires Valid() && d in own && own[d] == Dir(0) && 0 <= oldsz && 0 <= newsz
      requires newsz < KERNBASE ==> forall v :: Up(oldsz) <= v < Up(newsz) ==> Walk(s, d, v).Absent?
      modifies this
      ensures Valid() && Kept(old(s), old(own), s, own, d, -1)
      ensures if newsz >= KERNBASE || newsz < oldsz then
                r == (if newsz >= KERNBASE then 0 else oldsz) && s == old(s) && own == old(own)
              else
                var lo, hi := Up(oldsz), Up(newsz);
                if |old(s.free)| >= hi - lo + |Reach(lo, hi) - Tables(old(s), d)|
                then r == newsz && Extends(old(s), s, d, lo, hi)
                else r == 0 && forall w :: Walk(s, d, w) == Walk(old(s), d, w)
      ensures oldsz <= newsz == r ==> forall w {:trigger Walk(s, d, w)} :: Up(oldsz) <= w < Up(newsz) ==>
                ZeroPage(s, Walk(s, d, w)) && Walk(s, d, w).flags == PTE_P + PTE_W + PTE_U
    {
      hide Inv, Kept, Freed, Gone, Torn, Tables, Reach, Walk, Belongs, Distinct;
      KeptNothing(s, own, d);
      if newsz >= KERNBASE {
        return 0;
      }
      if newsz < oldsz {
        return oldsz;
      }
      var a := Up(oldsz);
      ghost var lo, hi := Up(oldsz), Up(newsz);
      ReachNext(lo, lo);
      UnionSize(Tables(s, d), Reach(lo, hi));
      while a * PGSIZE < newsz
        invariant lo <= a <= hi
        invariant Tables(s, d) == Tables(old(s), d) + Reach(lo, a) && Paid(old(s), s, d, a - lo)
        invariant Valid() && d in own && own[d] == Dir(0) && Kept(old(s), old(own), s, own, d, -1)
        invariant Extends(old(s), s, d, Up(oldsz), a)
        decreases newsz - a * PGSIZE
      {
        ghost var s1, own1 := s, own;
        var ok, held, g := AddPage(d, a, Zeros(), USER_FLAGS);
        KeptStep(old(s), old(own), s1, own1, s, own, d, held, g);
        ReachNext(lo, a);
        if !ok {
          ReachMore(lo, a, hi);
          TooFew(Tables(old(s), d), Tables(s1, d), Tables(old(s), d) + Reach(lo, hi), a / ENTRIES, a - lo, hi - lo,
              |s1.free|, |old(s.free)|);
          Undo(old(s), old(own), d, oldsz, newsz, a, held, g);
          return 0;
        }
        ExtendsStep(old(s), s1, own1, s, own, d, Up(oldsz), a, g);
        a := a + 1;
      }
      return newsz;
    }

    // The failure path of allocuvm: deallocuvm of the whole range, then kfree of the frame in hand.
    method Undo(ghost s0: State, ghost own0: Roles, d: int, oldsz: int, newsz: int, ghost a: int, held: bool, g: int)
      requires Valid() && Inv(s0, own0) && d in own && own[d] == Dir(0) && 0 <= oldsz <= newsz < KERNBASE
      requires Kept(s0, own0, s, own, d, if held then g else -1)
      requires (held ==> g in own && own0[g] == Free && own[g] == Held)
      requires forall v :: Up(oldsz) <= v < Up(newsz) ==> Walk(s0, d, v).Absent?
      requires forall w :: !(Up(oldsz) <= w < Up(newsz)) ==> Walk(s, d, w) == Walk(s0, d, w)
      requires d in own0 && own0[d] == Dir(0)
      modifies this
      ensures Valid() && Kept(s0, own0, s, own, d, -1) && forall w :: Walk(s, d, w) == Walk(s0, d, w)
    {
      ghost var s1, own1 := s, own;
      var r := DeallocUvm(d, newsz, oldsz);
      if oldsz == newsz {
        FreedNothing(s, own, d, Up(oldsz));
      }
      UndoKept(s0, own0, s1, own1, s, own, d, Up(oldsz), Up(newsz), if held then g else -1);
      if held {
        ghost var s2, own2 := s, own;
        Kfree(g);
        KfreeKept(s0, own0, s2, own2, s, own, d, g);
      }
    }

    // The second loop of freevm: every page table goes.
    method FreeTables(d: int)
      requires Valid() && d in own && own[d] == Dir(0)
      requires forall x, i :: 0 <= x < USER_TABLES && At(s, d, x).Present? ==> At(s, At(s, d, x).frame, i).Absent?
      modifies this
      ensures Valid() && Torn(old(s), old(own), s, own, d, ENTRIES) && d in own && own[d] == Dir(ENTRIES)
    {
      hide Inv, Kept, Freed, Gone, Torn;
      var x := 0;
      TornNothing(s, own, d);
      while x < ENTRIES
        invariant 0 <= x <= ENTRIES && Valid() && Torn(old(s), old(own), s, own, d, x) && d in own && own[d] == Dir(x)
      {
        TornSame(old(s), old(own), s, own, d, x);
        var e := At(s, d, x);
        if e.Present? {
          TornTable(old(s), old(own), s, own, d, x, e.frame);
          own := own[e.frame := Held][d := Dir(x + 1)];
          Kfree(e.frame);
        } else {
          TornAbsent(old(s), old(own), s, own, d, x);
          own := own[d := Dir(x + 1)];
        }
        x := x + 1;
      }
    }

    // freevm: every frame of the address space is free again, and nothing else has changed.
    method FreeVm(d: int)
      requires Valid() && d in own && own[d] == Dir(0)
      modifies this
      ensures Valid() && Gone(old(s), old(own), s, own, d)
    {
      hide Inv, Kept, Freed, Gone, Torn;
      var n := DeallocUvm(d, KERNBASE, 0);
      ghost var s1, own1 := s, own;
      NoUserPages(old(s), old(own), s, own, d);
      FreeTables(d);
      ghost var s2, own2 := s, own;
      DirGone(s, own, d);
      own := own[d := Held];
      Kfree(d);
      AllGone(old(s), old(own), s1, own1, s2, own2, s, own, d);
    }

    // mappages over one range of kmap.
    method MapKernel(d: int, k: Kmap) returns (ok: bool)
      requires Valid() && d in own && own[d] == Dir(0) && InKernel(k)
      requires forall v :: k.virt <= v < k.virt + k.pages ==> Walk(s, d, v).Absent?
      modifies this
      ensures Valid() && d in own && own[d] == Dir(0) && Kept(old(s), old(own), s, own, d, -1)
      ensures ok ==>
                forall w :: Walk(s, d, w) ==
                            if k.virt <= w < k.virt + k.pages then k.Entry(w) else Walk(old(s), d, w)
      ensures ok ==> forall w {:trigger Walk(s, d, w)} :: k.virt <= w < k.virt + k.pages ==>
                Walk(s, d, w) == Present(k.phys + (w - k.virt), if k.perm % 2 == 0 then k.perm + PTE_P else k.perm)
      ensures Paid(old(s), s, d, 0) && (ok ==> Tables(s, d) == Tables(old(s), d) + Reach(k.virt, k.virt + k.pages))
      ensures !ok ==> s.free == [] && Tables(s, d) < Tables(old(s), d) + Reach(k.virt, k.virt + k.pages)
    {
      hide Inv, Kept, Freed, Gone, Torn, Tables, Reach, Walk;
      var a := k.virt;
      ReachNext(a, a);
      KeptNothing(s, own, d);
      while a < k.virt + k.pages
        invariant k.virt <= a <= k.virt + k.pages && Valid() && d in own && own[d] == Dir(0)
        invariant Kept(old(s), old(own), s, own, d, -1)
        invariant forall w {:trigger Walk(s, d, w)} ::
                    Walk(s, d, w) == if k.virt <= w < a then k.Entry(w) else Walk(old(s), d, w)
        invariant Tables(s, d) == Tables(old(s), d) + Reach(k.virt, a) && Paid(old(s), s, d, 0)
      {
        ghost var s1, own1 := s, own;
        var t;
        ok, t := WalkPgdir(d, a, true);
        KeptAlso(old(s), old(own), s1, own1, s, own, d);
        ReachNext(k.virt, a);
        if !ok {
          ReachMore(k.virt, a, k.virt + k.pages);
          return;
        }
        ghost var s2, own2 := s, own;
        SetEntryTables(s, own, d, a, k.Entry(a));
        KernelKept(s, own, d, a, k.Entry(a));
        s := SetEntry(s, t, a % ENTRIES, k.Entry(a));
        KeptAlso(old(s), old(own), s2, own2, s, own, d);
        a := a + 1;
      }
      ok := true;
    }

    // setupkvm: a new directory with the kernel's mappings, or, exactly when there are too few frames for the
    // directory and its page tables, every frame given back.
    method SetupKvm(kmap: seq<Kmap>) returns (ok: bool, d: int)
      requires Valid() && KmapOk(kmap)
      modifies this
      ensures Valid()
      ensures ok ==> && d in own && own[d] == Dir(0) && d in old(own) && old(own)[d] == Free
                     && Kept(old(s), old(own), s, own, d, -1)
                     && MapsKernel(s, d, kmap) && forall w :: Walk(s, d, w) == Kernel(kmap, w)
      ensures !ok ==> Restored(old(s), old(own), s, own)
      ensures ok == (|old(s.free)| >= 1 + |KernelTables(kmap)|)
      ensures ok ==> Tables(s, d) == KernelTables(kmap) && |s.free| + 1 + |KernelTables(kmap)| == |old(s.free)|
    {
      hide Inv, Kept, Freed, Gone, Torn, Tables, Reach, Walk, Belongs, Kernel, KernelTables, Distinct;
      ok, d := Kalloc();
      if !ok {
        return;
      }
      DirKept(old(s), old(own), d);
      s, own := Cleared(s, d), own[d := Dir(0)];
      NoTables(s, d);
      NoKernel();
      var j := 0;
      while j < |kmap|
        invariant 0 <= j <= |kmap| && Valid() && d in own && own[d] == Dir(0) && Kept(old(s), old(own), s, own, d, -1)
        invariant forall w {:trigger Walk(s, d, w)} :: Walk(s, d, w) == Kernel(kmap[..j], w)
        invariant Tables(s, d) == KernelTables(kmap[..j]) && |s.free| + |Tables(s, d)| + 1 == |old(s.free)|
      {
        ghost var s1, own1 := s, own;
        KernelNext(kmap, j);
        ok := MapKernel(d, kmap[j]);
        KeptAlso(old(s), old(own), s1, own1, s, own, d);
        KernelTablesNext(kmap, j);
        if !ok {
          Smaller(Tables(s, d), KernelTables(kmap[..j + 1]), KernelTables(kmap));
          ghost var s2, own2 := s, own;
          FreeVm(d);
          GoneRestores(old(s), old(own), s2, own2, s, own, d);
          return;
        }
        j := j + 1;
      }
      assert kmap[..j] == kmap;
      KernelMaps(s, d, kmap);
      ok := true;
    }

    // The failure path of copyuvm: the frame in hand, then the whole new address space.
    method Abandon(ghost s0: State, ghost own0: Roles, c: int, held: bool, g: int)
      requires Valid() && Inv(s0, own0) && c in own && own[c] == Dir(0) && c in own0 && own0[c] == Free
      requires Kept(s0, own0, s, own, c, if held then g else -1)
      requires (held ==> g in own && own0[g] == Free && own[g] == Held)
      modifies this
      ensures Valid() && Restored(s0, own0, s, own)
    {
      hide Inv, Kept, Freed, Gone, Torn;
      if held {
        ghost var s1, own1 := s, own;
        Kfree(g);
        KfreeKept(s0, own0, s1, own1, s, own, c, g);
      }
      ghost var s2, own2 := s, own;
      FreeVm(c);
      GoneRestores(s0, own0, s2, own2, s, own, c);
    }

    // copyuvm of the first sz bytes of d, all of which must be mapped. It succeeds exactly when there are frames
    // for the directory, the pages and the page tables.
    method CopyUvm(d: int, sz: int, kmap: seq<Kmap>) returns (ok: bool, c: int)
      requires Valid() && KmapOk(kmap) && d in own && own[d] == Dir(0) && 0 <= sz <= KERNBASE
      requires forall v :: 0 <= v < Up(sz) ==> Walk(s, d, v).Present?
      modifies this
      ensures Valid()
      ensures ok ==> && c in own && own[c] == Dir(0) && c in old(own) && old(own)[c] == Free
                     && Kept(old(s), old(own), s, own, c, -1) && Copies(s, own, d, c, Up(sz))
                     && forall w :: !(0 <= w < Up(sz)) ==> Walk(s, c, w) == Kernel(kmap, w)
      ensures !ok ==> Restored(old(s), old(own), s, own)
      ensures ok == (|old(s.free)| >= 1 + Up(sz) + |KernelTables(kmap) + Reach(0, Up(sz))|)
    {
      hide Inv, Kept, Freed, Gone, Torn, Tables, Reach, Walk, Copies, Kernel, KernelTables, Restored, Belongs;
      ok, c := SetupKvm(kmap);
      ghost var kt := KernelTables(kmap);
      if !ok {
        SubsetSize(kt, kt + Reach(0, Up(sz)));
        return;
      }
      var i := 0;
      KernelUser(kmap);
      NoCopies(s, own, d, c);
      ReachNext(0, 0);
      while i * PGSIZE < sz
        invariant 0 <= i <= Up(sz) && Valid() && c in own && own[c] == Dir(0) && Kept(old(s), old(own), s, own, c, -1)
        invariant Tables(s, c) == kt + Reach(0, i) && |s.free| + |Tables(s, c)| + i + 1 == |old(s.free)|
        invariant Copies(s, own, d, c, i)
        invariant forall w {:trigger Walk(s, c, w)} :: !(0 <= w < i) ==> Walk(s, c, w) == Kernel(kmap, w)
        decreases sz - i * PGSIZE
      {
        ghost var s1 := s;
        KeptOther(old(s), old(own), s, own, c, d);
        var held, g;
        ok, held, g := CopyPage(old(s), old(own), d, c, i);
        ReachNext(0, i);
        if !ok {
          ReachMore(0, i, Up(sz));
          TooFew({}, Tables(s1, c), kt + Reach(0, Up(sz)), i / ENTRIES, i, Up(sz), |s1.free|, |old(s.free)| - 1);
          Abandon(old(s), old(own), c, held, g);
          return;
        }
        i := i + 1;
      }
      ok := true;
    }

    // One round of copyuvm.
    method CopyPage(ghost s0: State, ghost own0: Roles, d: int, c: int, i: int) returns (ok: bool, held: bool, g: int)
      requires Valid() && Inv(s0, own0) && d in own && own[d] == Dir(0) && c in own && own[c] == Dir(0) && c != d
      requires Kept(s0, own0, s, own, c, -1) && 0 <= i < KERN_PAGE && Copies(s, own, d, c, i)
      requires Walk(s, d, i).Present? && Walk(s, c, i).Absent?
      modifies this
      ensures Valid() && c in own && own[c] == Dir(0) && (ok ==> !held)
      ensures Kept(s0, own0, s, own, c, if held then g else -1)
      ensures held ==> g in own && own0[g] == Free && own[g] == Held
      ensures ok ==> && Copies(s, own, d, c, i + 1) && Paid(old(s), s, c, 1)
                     && Tables(s, c) == Tables(old(s), c) + {i / ENTRIES}
                     && forall w {:trigger Walk(s, c, w)} :: w != i ==> Walk(s, c, w) == Walk(old(s), c, w)
      ensures !ok ==> |old(s.free)| < 1 + (if i / ENTRIES in Tables(old(s), c) then 0 else 1)
    {
      hide Inv, Kept, Tables, Copies;
      ghost var s1, own1 := s, own;
      var e := Walk(s, d, i);
      WalkVpn(s, own, d, i);
      ok, held, g := AddPage(c, i, s.mem[e.frame], e.flags);
      KeptStep(s0, own0, s1, own1, s, own, c, held, g);
      if ok {
        CopiesStep(s1, own1, s, own, d, c, i, g);
      }
    }
  }

  // From r on, the pages [lo, hi) of d are new zero pages with flags P, W and U; the other mappings of d are those of
  // s.
  ghost predicate Extends(s: State, r: State, d: int, lo: int, hi: int) {
    forall w {:trigger Walk(r, d, w)} ::
      if lo <= w < hi then
        var e := Walk(r, d, w);
        e.Present? && e.flags == WithP(USER_FLAGS) && e.frame in r.mem && r.mem[e.frame] == Zeros()
      else Walk(r, d, w) == Walk(s, d, w)
  }

  // The entry leads to a page of zeros.
  predicate ZeroPage(s: State, e: Entry) {
    && e.Present? && e.frame in s.mem && s.mem[e.frame].Bytes? && |s.mem[e.frame].bytes| == PGSIZE
    && forall k :: 0 <= k < PGSIZE ==> s.mem[e.frame].bytes[k] == 0
  }

  // Page w of a range of kmap is mapped to the frame as far behind phys as w is behind virt, with the bits of
  // perm and PTE_P; outside all ranges nothing is mapped.
  ghost predicate MapsKernel(s: State, d: int, kmap: seq<Kmap>) {
    && (forall j, w {:trigger Walk(s, d, w), kmap[j]} ::
          0 <= j < |kmap| && kmap[j].virt <= w < kmap[j].virt + kmap[j].pages ==>
            var k := kmap[j];
            Walk(s, d, w) == Present(k.phys + (w - k.virt), if k.perm % 2 == 0 then k.perm + PTE_P else k.perm))
    && (forall w {:trigger Walk(s, d, w)} ::
          (forall j :: 0 <= j < |kmap| ==> !(kmap[j].virt <= w < kmap[j].virt + kmap[j].pages)) ==>
            Walk(s, d, w) == Absent)
  }

  lemma KeptNothing(s: State, own: Roles, d: int)
    requires Inv(s, own)
    ensures Kept(s, own, s, own, d, -1)
  {
  }

  lemma {:induction false} KeptStep(s0: State, own0: Roles, s: State, own: Roles, r: State, o: Roles, d: int,
          held: bool, g: int)
    requires Inv(s0, own0) && Kept(s0, own0, s, own, d, -1) && Kept(s, own, r, o, d, if held then g else -1)
    requires held ==> g in own && own[g] == Free
    ensures Kept(s0, own0, r, o, d, if held then g else -1) && (held ==> own0[g] == Free)
  {
    if held {
      KeptWeaken(s0, own0, s, own, d, g);
      KeptTrans(s0, own0, s, own, r, o, d, g);
    } else {
      KeptTrans(s0, own0, s, own, r, o, d, -1);
    }
  }

  lemma {:induction false} ExtendsStep(s0: State, s: State, own: Roles, r: State, o: Roles, d: int, lo: int, a: int,
          g: int)
    requires Inv(s, own) && d in own && own[d] == Dir(0) && 0 <= lo <= a < KERN_PAGE
    requires Extends(s0, s, d, lo, a) && Kept(s, own, r, o, d, -1) && g in r.mem && r.mem[g] == Zeros()
    requires forall w :: Walk(r, d, w) == if w == a then Present(g, WithP(USER_FLAGS)) else Walk(s, d, w)
    ensures Extends(s0, r, d, lo, a + 1)
  {
    forall w | lo <= w < a
      ensures Walk(r, d, w).Present? && Walk(r, d, w).flags == WithP(USER_FLAGS) && Walk(r, d, w).frame in r.mem
      ensures r.mem[Walk(r, d, w).frame] == Zeros()
    {
      assert Walk(s, d, w).Present?;
      WalkVpn(s, own, d, w);
    }
  }

  // Freeing the range again after a partial extension brings back the mappings.
  lemma {:induction false} UndoKept(s0: State, own0: Roles, s: State, own: Roles, r: State, o: Roles, d: int, lo: int,
          hi: int, h: int)
    requires Inv(s0, own0) && Inv(s, own) && d in own0 && own0[d] == Dir(0) && d in own && own[d] == Dir(0)
    requires Kept(s0, own0, s, own, d, h) && Freed(s, own, r, o, d, lo, hi) && (h in own ==> own[h] == Held)
    requires forall v :: lo <= v < hi ==> Walk(s0, d, v).Absent?
    requires forall w :: !(lo <= w < hi) ==> Walk(s, d, w) == Walk(s0, d, w)
    ensures Kept(s0, own0, r, o, d, h) && forall w :: Walk(r, d, w) == Walk(s0, d, w)
    ensures h in own ==> o[h] == Held
  {
    forall f | f in own0 && f != h
      ensures o[f] == own0[f] || (own0[f] == Free && Belongs(o, f, d))
      ensures own0[f].User? ==> !InRange(own, f, d, lo, hi)
    {
      if InRange(own, f, d, lo, hi) && own[f] == own0[f] {
        UndoNew(s0, own0, s, own, d, f, h);
      }
      if own[f] != own0[f] && own[f].User? {
        assert own[own[f].parent].Tab?;
      }
    }
  }

  lemma {:induction false} UndoNew(s0: State, own0: Roles, s: State, own: Roles, d: int, f: int, h: int)
    requires Inv(s0, own0) && Inv(s, own) && Kept(s0, own0, s, own, d, h) && (h in own ==> own[h] == Held)
    requires UserOf(own, f, d) && f in own0 && f != h && own0[f] == own[f]
    ensures 0 <= Vpn(own, f) && Walk(s0, d, Vpn(own, f)).Present?
  {
    var t := own0[f].parent;
    assert t in own0 && own0[t].Tab?;
    assert own[t] == own0[t];
    VpnWalk(s0, own0, d, f);
  }

  lemma {:induction false} KfreeKept(s0: State, own0: Roles, s: State, own: Roles, r: State, o: Roles, d: int, g: int)
    requires Inv(s0, own0) && Inv(s, own) && Kept(s0, own0, s, own, d, g) && g in own && own0[g] == Free
    requires own[g] == Held
    requires r.mem == s.mem[g := Junk()] && o == own[g := Free] && d in own && own[d] == Dir(0)
    ensures Kept(s0, own0, r, o, d, -1) && forall w :: Walk(r, d, w) == Walk(s, d, w)
  {
    SameTables(s, own, r, g);
    assert o.Keys == own.Keys && r.mem.Keys == s.mem.Keys;
    forall f | f in own0 && f != g
      ensures o[f] == own0[f] || (own0[f] == Free && Belongs(o, f, d))
    {
      assert own[f] == own0[f] || Belongs(own, f, d);
    }
    forall c, w | c in own0 && own0[c] == Dir(0) && c != d
      ensures Walk(r, c, w) == Walk(s0, c, w)
    {
      assert own[c] == own0[c];
    }
  }

  // A frame taken from the free list and filled.
  lemma {:induction false} FillKept(s: State, own: Roles, g: int, fill: Page, d: int)
    requires Inv(s, own) && s.free != [] && g == s.free[0] && fill.Bytes?
    ensures g in own && own[g] == Free && g in s.mem
    ensures var r, o := State(s.free[1..], s.mem[g := fill]), own[g := Held];
            && Inv(r, o) && Kept(s, own, r, o, d, g)
            && forall c, w {:trigger Walk(r, c, w)} :: c in own && own[c] == Dir(0) ==> Walk(r, c, w) == Walk(s, c, w)
  {
    KallocKeeps(s, own);
    var k, o := s.(free := s.free[1..]), own[g := Held];
    FillKeeps(k, o, g, fill);
    forall c, w | c in own && own[c] == Dir(0)
      ensures Walk(State(s.free[1..], s.mem[g := fill]), c, w) == Walk(s, c, w)
    {
      assert Walk(k, c, w) == Walk(s, c, w) && o[c] == Dir(0);
    }
  }

  lemma {:induction false} FillKeeps(s: State, own: Roles, g: int, fill: Page)
    requires Inv(s, own) && g in own && own[g] == Held && fill.Bytes?
    ensures Inv(s.(mem := s.mem[g := fill]), own)
    ensures forall c, w {:trigger Walk(s.(mem := s.mem[g := fill]), c, w)} :: c in own && own[c] == Dir(0) ==>
              Walk(s.(mem := s.mem[g := fill]), c, w) == Walk(s, c, w)
  {
    var r := s.(mem := s.mem[g := fill]);
    assert r.mem.Keys == s.mem.Keys;
    assert forall q, j {:trigger At(r, q, j)} :: q != g ==> At(r, q, j) == At(s, q, j);
    assert forall j {:trigger At(r, g, j)} :: At(r, g, j) == Absent;
    forall c, w | c in own && own[c] == Dir(0)
      ensures Walk(r, c, w) == Walk(s, c, w)
    {
      assert At(s, c, w / ENTRIES).Present? ==> At(s, c, w / ENTRIES).frame != g;
    }
  }

  // The exempt frame was free and is now in use under d: nothing is exempt.
  lemma {:induction false} KeptUsed(s: State, own: Roles, r: State, o: Roles, d: int, g: int)
    requires Kept(s, own, r, o, d, g) && g in own && own[g] == Free && (o[g] == Free || Belongs(o, g, d))
    ensures Kept(s, own, r, o, d, -1)
  {
  }

  // PGROUNDUP, in pages.
  function Up(n: int): (p: int)
    ensures n <= p * PGSIZE < n + PGSIZE
  {
    (n + PGSIZE - 1) / PGSIZE
  }

  lemma FreedNothing(s: State, own: Roles, d: int, lo: int)
    requires Inv(s, own)
    ensures Freed(s, own, s, own, d, lo, lo)
  {
  }

  lemma KeptWeaken(s: State, own: Roles, r: State, o: Roles, d: int, h: int)
    requires Kept(s, own, r, o, d, -1) && Inv(s, own)
    ensures Kept(s, own, r, o, d, h)
  {
  }

  lemma {:induction false} MapKept(s: State, own: Roles, d: int, v: int, g: int, perm: int)
    requires Inv(s, own) && d in own && own[d] == Dir(0) && 0 <= v < KERN_PAGE && Walk(s, d, v).Absent?
    requires At(s, d, v / ENTRIES).Present? && g in own && own[g] == Held && s.mem[g].Bytes?
    ensures var t := At(s, d, v / ENTRIES).frame;
            && t in own && own[t] == Tab(d, v / ENTRIES) && t != g && s.mem[t].Table? && |s.mem[t].entries| == ENTRIES
            && var r, o := SetEntry(s, t, v % ENTRIES, Present(g, WithP(perm))), own[g := User(t, v % ENTRIES)];
               && Inv(r, o) && Kept(s, own, r, o, d, g)
               && forall w :: Walk(r, d, w) == if w == v then Present(g, WithP(perm)) else Walk(s, d, w)
  {
    var t := At(s, d, v / ENTRIES).frame;
    MapKeeps(s, own, t, v % ENTRIES, g, WithP(perm));
    SetEntryWalk(s, own, d, v, Present(g, WithP(perm)));
  }

  lemma {:induction false} KeptTrans(s: State, own: Roles, r: State, o: Roles, q: State, p: Roles, d: int, h: int)
    requires Kept(s, own, r, o, d, h) && Kept(r, o, q, p, d, h) && (h in o ==> !o[h].Tab?)
    ensures Kept(s, own, q, p, d, h)
  {
    forall f | f in own && f != h
      ensures p[f] == own[f] || (own[f] == Free && Belongs(p, f, d))
    {
      assert o[f] == own[f] || Belongs(o, f, d);
    }
    forall f | f in own && f in s.mem && f != h && own[f].User?
      ensures q.mem[f] == s.mem[f]
    {
      assert o[f] == own[f] && r.mem[f] == s.mem[f];
    }
    forall c, w | c in own && own[c] == Dir(0) && c != d && c != h
      ensures Walk(q, c, w) == Walk(s, c, w)
    {
      assert o[c] == own[c] && Walk(r, c, w) == Walk(s, c, w);
    }
  }

  lemma {:induction false} KeptAlso(s: State, own: Roles, r: State, o: Roles, q: State, p: Roles, d: int)
    requires Inv(r, o) && Kept(s, own, r, o, d, -1) && Kept(r, o, q, p, d, -1)
    ensures Kept(s, own, q, p, d, -1)
  {
    KeptTrans(s, own, r, o, q, p, d, -1);
  }

  // Another directory does not notice.
  lemma {:induction false} KeptOther(s: State, own: Roles, r: State, o: Roles, d: int, c: int)
    requires Inv(s, own) && Kept(s, own, r, o, d, -1) && c in own && own[c] == Dir(0) && c != d
    ensures c in o && o[c] == Dir(0) && forall w :: Walk(r, c, w) == Walk(s, c, w)
  {
  }

  lemma {:induction false} AddTableKept(s: State, own: Roles, d: int, x: int, f: int)
    requires Inv(s, own) && d in own && own[d] == Dir(0) && 0 <= x < ENTRIES && At(s, d, x).Absent?
    requires s.free != [] && f == s.free[0]
    ensures f in own && own[f] == Free && d in s.mem && s.mem[d].Table? && |s.mem[d].entries| == ENTRIES
    ensures var r, o := AddTable(s.(free := s.free[1..]), d, x, f), own[f := Held][f := Tab(d, x)];
            && Inv(r, o) && Kept(s, own, r, o, d, -1) && (forall w :: Walk(r, d, w) == Walk(s, d, w))
            && At(r, d, x) == Present(f, TABLE_FLAGS)
            && (forall g :: g in own && own[g] == Held ==> r.mem[g] == s.mem[g])
  {
    var k, h := s.(free := s.free[1..]), own[f := Held];
    KallocKeeps(s, own);
    AddTableKeeps(k, h, d, x, f);
    var r, o := AddTable(k, d, x, f), h[f := Tab(d, x)];
    assert o.Keys == own.Keys;
    assert own[d] == Dir(0);
    forall c, w | c in own && own[c] == Dir(0)
      ensures Walk(r, c, w) == Walk(s, c, w)
    {
      assert Walk(k, c, w) == Walk(s, c, w);
    }
  }

  // ---------- deallocuvm ----------

  // The virtual page at which user frame f is mapped.
  function Vpn(own: Roles, f: int): (v: int)
    requires f in own && own[f].User? && own[f].parent in own && own[own[f].parent].Tab?
  {
    own[own[f].parent].idx * ENTRIES + own[f].idx
  }

  predicate UserOf(own: Roles, f: int, d: int) { Belongs(own, f, d) && own[f].User? }

  predicate InRange(own: Roles, f: int, d: int, lo: int, hi: int) { UserOf(own, f, d) && lo <= Vpn(own, f) < hi }

  lemma {:induction false} VpnWalk(s: State, own: Roles, d: int, f: int)
    requires Inv(s, own) && UserOf(own, f, d)
    ensures 0 <= Vpn(own, f) < KERN_PAGE && Walk(s, d, Vpn(own, f)).Present? && Walk(s, d, Vpn(own, f)).frame == f
  {
    var t, i := own[f].parent, own[f].idx;
    var x := own[t].idx;
    assert At(s, t, i).Present? && At(s, d, x).Present? && At(s, d, x).frame == t;
    assert (x * ENTRIES + i) / ENTRIES == x && (x * ENTRIES + i) % ENTRIES == i;
  }

  lemma {:induction false} WalkVpn(s: State, own: Roles, d: int, v: int)
    requires Inv(s, own) && d in own && own[d] == Dir(0) && 0 <= v < KERN_PAGE && Walk(s, d, v).Present?
    ensures var f := Walk(s, d, v).frame;
            && UserOf(own, f, d) && Vpn(own, f) == v && own[f] == User(At(s, d, v / ENTRIES).frame, v % ENTRIES)
            && f in s.mem && s.mem[f].Bytes?
  {
    var t := At(s, d, v / ENTRIES).frame;
    assert t in own && own[t] == Tab(d, v / ENTRIES);
    assert At(s, t, v % ENTRIES).Present?;
  }

  // The user pages of d in [lo, hi) are freed and unmapped; every other role, mapping, and user page is kept.
  ghost predicate Freed(s: State, own: Roles, r: State, o: Roles, d: int, lo: int, hi: int) {
    && o.Keys == own.Keys && r.mem.Keys == s.mem.Keys
    && (forall f {:trigger o[f]} :: f in own ==> o[f] == if InRange(own, f, d, lo, hi) then Free else own[f])
    && (forall f {:trigger r.mem[f]} ::
          f in own && f in s.mem && f in r.mem && (own[f].User? || own[f] == Held) && !InRange(own, f, d, lo, hi) ==>
          r.mem[f] == s.mem[f])
    && (forall c, w {:trigger Walk(r, c, w)} :: c in own && own[c] == Dir(0) ==>
          Walk(r, c, w) == if c == d && lo <= w < hi then Absent else Walk(s, c, w))
  }

  lemma {:induction false} FreedRange(s: State, own: Roles, r: State, o: Roles, d: int, lo: int, hi: int, f: int)
    requires Inv(s, own) && Inv(r, o) && Freed(s, own, r, o, d, lo, hi) && f in own
    requires UserOf(own, f, d) && !InRange(own, f, d, lo, hi)
    ensures UserOf(o, f, d) && Vpn(o, f) == Vpn(own, f)
  {
    var t := own[f].parent;
    assert t in own && own[t].Tab?;
    assert o[f] == own[f] && o[t] == own[t];
  }

  // Absent pages make no difference, so a missing page table can be skipped as a whole.
  lemma {:induction false} FreedSkip(s: State, own: Roles, r: State, o: Roles, d: int, lo: int, a: int, b: int)
    requires Inv(s, own) && Inv(r, o) && Freed(s, own, r, o, d, lo, a) && lo <= a <= b && d in own && own[d] == Dir(0)
    requires forall w :: a <= w < b ==> Walk(r, d, w).Absent?
    ensures Freed(s, own, r, o, d, lo, b)
  {
    forall f | f in own
      ensures InRange(own, f, d, lo, b) <==> InRange(own, f, d, lo, a)
    {
      if InRange(own, f, d, lo, b) && !InRange(own, f, d, lo, a) {
        FreedRange(s, own, r, o, d, lo, a, f);
        VpnWalk(r, o, d, f);
        assert false;
      }
    }
    forall c, w | c in own && own[c] == Dir(0)
      ensures Walk(r, c, w) == if c == d && lo <= w < b then Absent else Walk(s, c, w)
    {
    }
  }

  // kfree of the frame and clearing of the entry.
  function Unmapped(s: State, t: int, i: int, g: int): (r: State)
    requires t in s.mem && s.mem[t].Table? && 0 <= i < |s.mem[t].entries| && t != g
  {
    SetEntry(State([g] + s.free, s.mem[g := Junk()]), t, i, Absent)
  }

  lemma {:induction false} UnmapStep(s: State, own: Roles, d: int, v: int, t: int, g: int)
    requires Inv(s, own) && d in own && own[d] == Dir(0) && 0 <= v < KERN_PAGE && Walk(s, d, v).Present?
    requires t == At(s, d, v / ENTRIES).frame && g == Walk(s, d, v).frame
    ensures t in own && own[t] == Tab(d, v / ENTRIES) && g in own && own[g] == User(t, v % ENTRIES) && t != g && g != d
    ensures t in s.mem && s.mem[t].Table? && |s.mem[t].entries| == ENTRIES
    ensures Inv(Unmapped(s, t, v % ENTRIES, g), own[g := Free])
    ensures forall c, w {:trigger Walk(Unmapped(s, t, v % ENTRIES, g), c, w)} :: c in own && own[c] == Dir(0) ==>
              Walk(Unmapped(s, t, v % ENTRIES, g), c, w) == if c == d && w == v then Absent else Walk(s, c, w)
  {
    var i := v % ENTRIES;
    WalkVpn(s, own, d, v);
    UnmapKeeps(s, own, t, i);
    SetEntryWalk(s, own, d, v, Absent);
    var m, o := SetEntry(s, t, i, Absent), own[g := Held];
    KfreeKeeps(m, o, g);
    var r := Unmapped(s, t, i, g);
    assert r == State([g] + m.free, m.mem[g := Junk()]);
    assert own[g := Free] == o[g := Free];
    SameTables(m, o, r, g);
  }

  // Junk in a frame that is no table changes no mapping.
  lemma {:induction false} SameTables(s: State, own: Roles, r: State, g: int)
    requires Inv(s, own) && g in own && own[g] == Held && r.mem == s.mem[g := Junk()]
    ensures forall c, w {:trigger Walk(r, c, w)} :: c in own && own[c] == Dir(0) ==> Walk(r, c, w) == Walk(s, c, w)
  {
    assert forall q, j {:trigger At(r, q, j)} :: q != g ==> At(r, q, j) == At(s, q, j);
    forall c, w | c in own && own[c] == Dir(0)
      ensures Walk(r, c, w) == Walk(s, c, w)
    {
      assert At(s, c, w / ENTRIES).Present? ==> At(s, c, w / ENTRIES).frame != g;
    }
  }

  lemma SameKeys(s: State, own: Roles)
    requires Inv(s, own)
    ensures own.Keys == s.mem.Keys
  {
  }

  lemma {:induction false} FreedOne(s0: State, own0: Roles, s: State, own: Roles, d: int, lo: int, a: int, t: int,
          g: int)
    requires Inv(s0, own0) && Inv(s, own) && Freed(s0, own0, s, own, d, lo, a) && 0 <= lo <= a < KERN_PAGE
    requires d in own && own[d] == Dir(0) && Walk(s, d, a).Present? && t == At(s, d, a / ENTRIES).frame
    requires g == Walk(s, d, a).frame
    ensures t in s.mem && s.mem[t].Table? && |s.mem[t].entries| == ENTRIES && t != g && g != d
    ensures Inv(Unmapped(s, t, a % ENTRIES, g), own[g := Free])
    ensures Freed(s0, own0, Unmapped(s, t, a % ENTRIES, g), own[g := Free], d, lo, a + 1)
  {
    hide Inv, InRange, Walk;
    SameKeys(s0, own0);
    UnmapStep(s, own, d, a, t, g);
    FreedRoles(s0, own0, s, own, d, lo, a, g);
    FreedContents(s0, own0, s, own, d, lo, a, t, g);
    FreedWalks(s0, own0, s, own, d, lo, a, t, g);
  }

  lemma {:induction false} FreedContents(s0: State, own0: Roles, s: State, own: Roles, d: int, lo: int, a: int, t: int,
          g: int)
    requires Freed(s0, own0, s, own, d, lo, a) && own0.Keys == s0.mem.Keys && t in own && own[t].Tab? && g in own0
    requires t != g
    requires t in s.mem && s.mem[t].Table? && |s.mem[t].entries| == ENTRIES && InRange(own0, g, d, lo, a + 1)
    ensures var r := Unmapped(s, t, a % ENTRIES, g);
            && r.mem.Keys == s0.mem.Keys
            && forall f {:trigger r.mem[f]} ::
                 f in own0 && (own0[f].User? || own0[f] == Held) && !InRange(own0, f, d, lo, a + 1) ==>
                 r.mem[f] == s0.mem[f]
  {
    var r := Unmapped(s, t, a % ENTRIES, g);
    forall f | f in own0 && (own0[f].User? || own0[f] == Held) && !InRange(own0, f, d, lo, a + 1)
      ensures r.mem[f] == s0.mem[f]
    {
      assert own[f] == own0[f] && f != t && f != g;
      assert s.mem[f] == s0.mem[f];
    }
  }

  lemma {:induction false} FreedWalks(s0: State, own0: Roles, s: State, own: Roles, d: int, lo: int, a: int, t: int,
          g: int)
    requires Freed(s0, own0, s, own, d, lo, a) && lo <= a && d in own && own[d] == Dir(0)
    requires t in s.mem && s.mem[t].Table? && |s.mem[t].entries| == ENTRIES && t != g
    requires forall c, w {:trigger Walk(Unmapped(s, t, a % ENTRIES, g), c, w)} :: c in own && own[c] == Dir(0) ==>
               Walk(Unmapped(s, t, a % ENTRIES, g), c, w) == if c == d && w == a then Absent else Walk(s, c, w)
    ensures forall c, w {:trigger Walk(Unmapped(s, t, a % ENTRIES, g), c, w)} :: c in own0 && own0[c] == Dir(0) ==>
              Walk(Unmapped(s, t, a % ENTRIES, g), c, w) == if c == d && lo <= w < a + 1 then Absent else Walk(s0, c, w)
  {
    forall c, w | c in own0 && own0[c] == Dir(0)
      ensures Walk(Unmapped(s, t, a % ENTRIES, g), c, w) == if c == d && lo <= w < a + 1 then Absent else Walk(s0, c, w)
    {
      assert own[c] == own0[c];
      assert Walk(s, c, w) == if c == d && lo <= w < a then Absent else Walk(s0, c, w);
    }
  }

  lemma {:induction false} FreedRoles(s0: State, own0: Roles, s: State, own: Roles, d: int, lo: int, a: int, g: int)
    requires Inv(s0, own0) && Inv(s, own) && Freed(s0, own0, s, own, d, lo, a) && 0 <= lo <= a < KERN_PAGE
    requires d in own && own[d] == Dir(0) && Walk(s, d, a).Present? && g == Walk(s, d, a).frame
    ensures g in own
    ensures forall f :: f in own0 ==>
              own[g := Free][f] == if InRange(own0, f, d, lo, a + 1) then Free else own0[f]
    ensures g in own0 && InRange(own0, g, d, lo, a + 1)
  {
    hide Inv;
    WalkVpn(s, own, d, a);
    assert own[g] == own0[g];
    assert own[own[g].parent] == own0[own[g].parent];
    forall f | f in own0
      ensures own[g := Free][f] == if InRange(own0, f, d, lo, a + 1) then Free else own0[f]
    {
      if InRange(own0, f, d, lo, a + 1) && !InRange(own0, f, d, lo, a) {
        FreedRange(s0, own0, s, own, d, lo, a, f);
        VpnWalk(s, own, d, f);
      }
    }
  }

  // ---------- freevm ----------

  // The tables of d below entry x are freed; every other role, the user pages and the other directories are kept.
  ghost predicate Torn(s: State, own: Roles, r: State, o: Roles, d: int, x: int) {
    && o.Keys == own.Keys && r.mem.Keys == s.mem.Keys
    && (forall f {:trigger o[f]} :: f in own ==>
          o[f] ==
          if f == d then Dir(x) else if own[f].Tab? && own[f].parent == d && own[f].idx < x then Free else own[f])
    && (forall f {:trigger r.mem[f]} :: f in own && f in s.mem && f in r.mem && (own[f].User? || own[f] == Held) ==>
          r.mem[f] == s.mem[f])
    && (forall c, w {:trigger Walk(r, c, w)} :: c in own && own[c] == Dir(0) && c != d ==>
          Walk(r, c, w) == Walk(s, c, w))
    && (forall y {:trigger At(r, d, y)} :: At(r, d, y) == At(s, d, y))
    && (forall y, i {:trigger At(r, At(s, d, y).frame, i)} :: y >= x && At(s, d, y).Present? ==>
          At(r, At(s, d, y).frame, i) == At(s, At(s, d, y).frame, i))
  }

  lemma TornSame(s: State, own: Roles, r: State, o: Roles, d: int, x: int)
    requires Torn(s, own, r, o, d, x)
    ensures At(r, d, x) == At(s, d, x)
  {
  }

  lemma {:induction false} TornAbsent(s: State, own: Roles, r: State, o: Roles, d: int, x: int)
    requires Inv(s, own) && Inv(r, o) && d in own && own[d] == Dir(0) && Torn(s, own, r, o, d, x) && At(s, d, x).Absent?
    ensures Inv(r, o[d := Dir(x + 1)]) && Torn(s, own, r, o[d := Dir(x + 1)], d, x + 1)
  {
    PassAbsent(r, o, d, x);
    var p := o[d := Dir(x + 1)];
    forall f | f in own
      ensures p[f] ==
              if f == d then Dir(x + 1)
              else if own[f].Tab? && own[f].parent == d && own[f].idx < x + 1 then Free
              else own[f]
    {
      if own[f].Tab? && own[f].parent == d { assert At(s, d, own[f].idx).Present?; }
    }
  }

  lemma {:induction false} TornTable(s: State, own: Roles, r: State, o: Roles, d: int, x: int, t: int)
    requires Inv(s, own) && Inv(r, o) && d in own && own[d] == Dir(0) && Torn(s, own, r, o, d, x) && 0 <= x
    requires At(s, d, x).Present? && t == At(s, d, x).frame && (x < USER_TABLES ==> forall i :: At(s, t, i).Absent?)
    ensures t in o && o[t] == Tab(d, x) && Inv(r, o[t := Held][d := Dir(x + 1)])
    ensures var q, p := State([t] + r.free, r.mem[t := Junk()]), o[t := Held][d := Dir(x + 1)][t := Free];
            Inv(q, p) && Torn(s, own, q, p, d, x + 1)
  {
    assert At(r, d, x) == At(s, d, x);
    PassTable(r, o, d, x, t);
    var h := o[t := Held][d := Dir(x + 1)];
    KfreeKeeps(r, h, t);
    SameTables(r, h, State([t] + r.free, r.mem[t := Junk()]), t);
    TornRoles(s, own, r, o, d, x, t);
    TornEntries(s, own, r, o, d, x, t);
  }

  lemma {:induction false} TornRoles(s: State, own: Roles, r: State, o: Roles, d: int, x: int, t: int)
    requires Inv(s, own) && Inv(r, o) && d in own && own[d] == Dir(0) && Torn(s, own, r, o, d, x)
    requires At(s, d, x).Present? && t == At(s, d, x).frame
    ensures forall f {:trigger own[f]} :: f in own ==>
              o[t := Held][d := Dir(x + 1)][t := Free][f] ==
              if f == d then Dir(x + 1)
              else if own[f].Tab? && own[f].parent == d && own[f].idx < x + 1 then Free
              else own[f]
  {
    assert t in own && own[t] == Tab(d, x);
    forall f | f in own && own[f].Tab? && own[f].parent == d && own[f].idx == x
      ensures f == t
    {
      assert At(s, d, own[f].idx).frame == f;
    }
  }

  lemma {:induction false} TornEntries(s: State, own: Roles, r: State, o: Roles, d: int, x: int, t: int)
    requires Inv(s, own) && Inv(r, o) && d in own && own[d] == Dir(0) && Torn(s, own, r, o, d, x)
    requires At(s, d, x).Present? && t == At(s, d, x).frame
    ensures var q := State([t] + r.free, r.mem[t := Junk()]);
            && (forall y {:trigger At(q, d, y)} :: At(q, d, y) == At(s, d, y))
            && (forall y, i {:trigger At(q, At(s, d, y).frame, i)} :: y >= x + 1 && At(s, d, y).Present? ==>
                  At(q, At(s, d, y).frame, i) == At(s, At(s, d, y).frame, i))
  {
    var q := State([t] + r.free, r.mem[t := Junk()]);
    assert t in own && own[t] == Tab(d, x);
    assert forall p, j {:trigger At(q, p, j)} :: p != t ==> At(q, p, j) == At(r, p, j);
    forall y, i | y >= x + 1 && At(s, d, y).Present?
      ensures At(q, At(s, d, y).frame, i) == At(s, At(s, d, y).frame, i)
    {
      var u := At(s, d, y).frame;
      assert own[u] == Tab(d, y);
      assert At(r, u, i) == At(s, u, i);
    }
  }

  lemma TornNothing(s: State, own: Roles, d: int)
    requires Inv(s, own) && d in own && own[d] == Dir(0)
    ensures Torn(s, own, s, own, d, 0)
  {
    forall f | f in own && own[f].Tab? && own[f].parent == d
      ensures own[f].idx >= 0
    {
      assert At(s, d, own[f].idx).Present?;
    }
  }

  // Every frame of d is free and everything else is as before.
  ghost predicate Gone(s: State, own: Roles, r: State, o: Roles, d: int) {
    && o.Keys == own.Keys && r.mem.Keys == s.mem.Keys
    && (forall f {:trigger o[f]} :: f in own ==> o[f] == if Belongs(own, f, d) then Free else own[f])
    && (forall f {:trigger r.mem[f]} ::
          f in own && f in s.mem && f in r.mem && (own[f].User? || own[f] == Held) && !Belongs(own, f, d) ==>
          r.mem[f] == s.mem[f])
    && (forall c, w {:trigger Walk(r, c, w)} :: c in own && own[c] == Dir(0) && c != d ==>
          Walk(r, c, w) == Walk(s, c, w))
  }

  lemma {:induction false} NoUserPages(s: State, own: Roles, r: State, o: Roles, d: int)
    requires Inv(s, own) && Inv(r, o) && d in own && own[d] == Dir(0) && Freed(s, own, r, o, d, 0, KERN_PAGE)
    ensures d in o && o[d] == Dir(0)
    ensures forall x, i :: 0 <= x < USER_TABLES && At(r, d, x).Present? ==> At(r, At(r, d, x).frame, i).Absent?
  {
    assert o[d] == own[d];
    forall x, i | 0 <= x < USER_TABLES && At(r, d, x).Present?
      ensures At(r, At(r, d, x).frame, i).Absent?
    {
      assert o[At(r, d, x).frame] == Tab(d, x);
      if 0 <= i < ENTRIES {
        var v := x * ENTRIES + i;
        assert v / ENTRIES == x && v % ENTRIES == i;
        assert Walk(r, d, v).Absent?;
      }
    }
  }

  lemma {:induction false} AllGone(s0: State, own0: Roles, s1: State, own1: Roles, s2: State, own2: Roles, s: State,
          own: Roles, d: int)
    requires Inv(s0, own0) && Inv(s1, own1) && Inv(s2, own2) && d in own0 && own0[d] == Dir(0)
    requires Freed(s0, own0, s1, own1, d, 0, KERN_PAGE) && d in own1 && own1[d] == Dir(0)
    requires Torn(s1, own1, s2, own2, d, ENTRIES)
    requires d in own2 && own == own2[d := Held][d := Free] && s.mem == s2.mem[d := Junk()]
    ensures Gone(s0, own0, s, own, d)
  {
    assert own.Keys == own0.Keys && s.mem.Keys == s0.mem.Keys;
    forall f | f in own0
      ensures own[f] == if Belongs(own0, f, d) then Free else own0[f]
    {
      GoneRole(s0, own0, s1, own1, s2, own2, d, f);
    }
    DirGone(s2, own2, d);
    SameTables(s2, own2[d := Held], s, d);
    forall c, w | c in own0 && own0[c] == Dir(0) && c != d
      ensures Walk(s, c, w) == Walk(s0, c, w)
    {
      assert own1[c] == own0[c] && own2[c] == own1[c];
      assert Walk(s2, c, w) == Walk(s1, c, w) && Walk(s1, c, w) == Walk(s0, c, w);
    }
    forall f | f in own0 && (own0[f].User? || own0[f] == Held) && !Belongs(own0, f, d)
      ensures s.mem[f] == s0.mem[f]
    {
      assert own1[f] == own0[f] && own2[f] == own1[f];
      assert s1.mem[f] == s0.mem[f] && s2.mem[f] == s1.mem[f];
    }
  }

  lemma {:induction false} GoneRole(s0: State, own0: Roles, s1: State, own1: Roles, s2: State, own2: Roles, d: int,
          f: int)
    requires Inv(s0, own0) && Inv(s1, own1) && d in own0 && own0[d] == Dir(0) && f in own0
    requires Freed(s0, own0, s1, own1, d, 0, KERN_PAGE) && Torn(s1, own1, s2, own2, d, ENTRIES)
    ensures f != d ==> own2[f] == if Belongs(own0, f, d) then Free else own0[f]
  {
    assert own1[f] == if InRange(own0, f, d, 0, KERN_PAGE) then Free else own0[f];
    if UserOf(own0, f, d) {
      VpnWalk(s0, own0, d, f);
    } else if own0[f].Tab? && own0[f].parent == d {
      assert At(s1, d, own1[f].idx).Present?;
    }
  }

  // ---------- setupkvm ----------

  // One line of kmap, in pages.
  datatype Kmap = Kmap(virt: int, phys: int, pages: int, perm: int) {
    function Entry(v: int): (e: Entry) { Present(phys + v - virt, WithP(perm)) }
  }

  predicate InKernel(k: Kmap) { KERN_PAGE <= k.virt && 1 <= k.pages && k.virt + k.pages <= ENTRIES * ENTRIES }

  // The ranges lie in the kernel half and do not overlap.
  predicate KmapOk(kmap: seq<Kmap>) {
    && (forall j :: 0 <= j < |kmap| ==> InKernel(kmap[j]))
    && (forall i, j :: 0 <= i < j < |kmap| ==>
          kmap[i].virt + kmap[i].pages <= kmap[j].virt || kmap[j].virt + kmap[j].pages <= kmap[i].virt)
  }

  function Kernel(kmap: seq<Kmap>, v: int): (e: Entry) {
    if kmap == [] then Absent
    else var k := kmap[|kmap| - 1];
         if k.virt <= v < k.virt + k.pages then k.Entry(v) else Kernel(kmap[..|kmap| - 1], v)
  }

  // The page tables the kernel's mappings need.
  function KernelTables(kmap: seq<Kmap>): (r: set<int>) {
    if kmap == [] then {}
    else var k := kmap[|kmap| - 1]; KernelTables(kmap[..|kmap| - 1]) + Reach(k.virt, k.virt + k.pages)
  }

  lemma NoKernel()
    ensures KernelTables([]) == {} && forall w :: Kernel([], w) == Absent
  {
  }

  lemma {:induction false} KernelTablesNext(kmap: seq<Kmap>, j: int)
    requires 0 <= j < |kmap|
    ensures KernelTables(kmap[..j + 1]) == KernelTables(kmap[..j]) + Reach(kmap[j].virt, kmap[j].virt + kmap[j].pages)
    ensures KernelTables(kmap[..j + 1]) <= KernelTables(kmap)
    decreases |kmap| - j
  {
    assert kmap[..j + 1][..j] == kmap[..j];
    if j + 1 < |kmap| {
      KernelTablesNext(kmap, j + 1);
    } else {
      assert kmap[..j + 1] == kmap;
    }
  }

  lemma {:induction false} Smaller(a: set<int>, b: set<int>, c: set<int>)
    requires a < b <= c
    ensures |a| < |c|
  {
    assert b == a + (b - a) && a + {} == a;
    SubsetSize(b, c);
  }

  lemma NoTables(s: State, d: int)
    requires d in s.mem && s.mem[d] == EmptyTable()
    ensures Tables(s, d) == {}
  {
  }

  lemma {:induction false} KernelOutside(kmap: seq<Kmap>, v: int)
    requires forall j :: 0 <= j < |kmap| ==> !(kmap[j].virt <= v < kmap[j].virt + kmap[j].pages)
    ensures Kernel(kmap, v) == Absent
  {
    if kmap != [] { KernelOutside(kmap[..|kmap| - 1], v); }
  }

  lemma {:induction false} KernelInside(kmap: seq<Kmap>, j: int, v: int)
    requires KmapOk(kmap) && 0 <= j < |kmap| && kmap[j].virt <= v < kmap[j].virt + kmap[j].pages
    ensures Kernel(kmap, v) == kmap[j].Entry(v)
    decreases |kmap|
  {
    if j < |kmap| - 1 { KernelInside(kmap[..|kmap| - 1], j, v); }
  }

  lemma {:induction false} KernelMaps(s: State, d: int, kmap: seq<Kmap>)
    requires KmapOk(kmap) && forall w :: Walk(s, d, w) == Kernel(kmap, w)
    ensures MapsKernel(s, d, kmap)
  {
    hide Walk, Kernel;
    forall j, w | 0 <= j < |kmap| && kmap[j].virt <= w < kmap[j].virt + kmap[j].pages
      ensures Walk(s, d, w) == kmap[j].Entry(w)
    {
      KernelInside(kmap, j, w);
    }
    forall w | forall j :: 0 <= j < |kmap| ==> !(kmap[j].virt <= w < kmap[j].virt + kmap[j].pages)
      ensures Walk(s, d, w) == Absent
    {
      KernelOutside(kmap, w);
    }
  }

  lemma {:induction false} KernelNext(kmap: seq<Kmap>, j: int)
    requires KmapOk(kmap) && 0 <= j < |kmap|
    ensures forall v :: kmap[j].virt <= v < kmap[j].virt + kmap[j].pages ==> Kernel(kmap[..j], v) == Absent
    ensures forall v :: Kernel(kmap[..j + 1], v) == if kmap[j].virt <= v < kmap[j].virt + kmap[j].pages then
            kmap[j].Entry(v) else Kernel(kmap[..j], v)
  {
    assert kmap[..j + 1][..j] == kmap[..j];
    forall v | kmap[j].virt <= v < kmap[j].virt + kmap[j].pages
      ensures Kernel(kmap[..j], v) == Absent
    {
      KernelOutside(kmap[..j], v);
    }
  }

  lemma {:induction false} KernelKept(s: State, own: Roles, d: int, v: int, e: Entry)
    requires Inv(s, own) && d in own && own[d] == Dir(0) && KERN_PAGE <= v < ENTRIES * ENTRIES
    requires At(s, d, v / ENTRIES).Present?
    ensures var t := At(s, d, v / ENTRIES).frame;
            && t in s.mem && s.mem[t].Table? && |s.mem[t].entries| == ENTRIES
            && var r := SetEntry(s, t, v % ENTRIES, e);
               && Inv(r, own) && Kept(s, own, r, own, d, -1)
               && forall w :: Walk(r, d, w) == if w == v then e else Walk(s, d, w)
  {
    var t := At(s, d, v / ENTRIES).frame;
    assert t in own && own[t] == Tab(d, v / ENTRIES);
    KernelKeeps(s, own, t, v % ENTRIES, e);
    SetEntryWalk(s, own, d, v, e);
  }

  lemma {:induction false} DirKept(s: State, own: Roles, d: int)
    requires Inv(s, own) && s.free != [] && d == s.free[0]
    ensures d in own && own[d] == Free
    ensures var r, o := Cleared(s.(free := s.free[1..]), d), own[d := Held][d := Dir(0)];
            Inv(r, o) && Kept(s, own, r, o, d, -1) && forall w :: Walk(r, d, w).Absent?
  {
    KallocKeeps(s, own);
    var k, h := s.(free := s.free[1..]), own[d := Held];
    NewDirKeeps(k, h, d);
    forall c, w | c in own && own[c] == Dir(0)
      ensures Walk(Cleared(k, d), c, w) == Walk(s, c, w)
    {
      assert h[c] == Dir(0) && Walk(k, c, w) == Walk(s, c, w);
    }
  }

  // The roles of all frames, the user pages and all mappings are as before.
  ghost predicate Restored(s: State, own: Roles, r: State, o: Roles) {
    && o == own && r.mem.Keys == s.mem.Keys
    && (forall f {:trigger r.mem[f]} :: f in own && f in s.mem && f in r.mem && own[f].User? ==> r.mem[f] == s.mem[f])
    && (forall c, w {:trigger Walk(r, c, w)} :: c in own && own[c] == Dir(0) ==> Walk(r, c, w) == Walk(s, c, w))
  }

  // Building a directory and freeing it again restores everything.
  lemma {:induction false} GoneRestores(s0: State, own0: Roles, s: State, own: Roles, r: State, o: Roles, d: int)
    requires Inv(s0, own0) && Inv(s, own) && Kept(s0, own0, s, own, d, -1) && Gone(s, own, r, o, d) && d in own0
    requires own0[d] == Free
    ensures Restored(s0, own0, r, o)
  {
    forall f | f in own0 && own[f] == own0[f]
      ensures !Belongs(own, f, d)
    {
      NotYet(s0, own0, s, own, d, f);
    }
    assert o.Keys == own0.Keys;
    forall f | f in own0
      ensures o[f] == own0[f]
    {
    }
    forall c, w | c in own0 && own0[c] == Dir(0)
      ensures Walk(r, c, w) == Walk(s0, c, w)
    {
      assert own[c] == own0[c];
    }
  }

  // A frame that had a use before was not under the new directory.
  lemma {:induction false} NotYet(s0: State, own0: Roles, s: State, own: Roles, d: int, f: int)
    requires Inv(s0, own0) && Inv(s, own) && Kept(s0, own0, s, own, d, -1) && d in own0 && own0[d] == Free
    requires f in own0 && own[f] == own0[f]
    ensures !Belongs(own, f, d)
  {
    if own0[f].Tab? {
      assert own0[own0[f].parent].Dir?;
    } else if own0[f].User? {
      var t := own0[f].parent;
      assert own0[t].Tab? && own[t] == own0[t];
      assert own0[own0[t].parent].Dir?;
    }
  }

  // ---------- copyuvm ----------

  // The first n pages of c have the flags and the contents of those of d, in other frames.
  ghost predicate Copies(s: State, own: Roles, d: int, c: int, n: int) {
    forall w {:trigger Walk(s, c, w)} :: 0 <= w < n ==>
      var e, f := Walk(s, d, w), Walk(s, c, w);
      && e.Present? && f.Present? && f.flags == e.flags && f.frame != e.frame
      && e.frame in s.mem && f.frame in s.mem && s.mem[f.frame] == s.mem[e.frame]
  }

  lemma NoCopies(s: State, own: Roles, d: int, c: int)
    ensures Copies(s, own, d, c, 0)
  {
  }

  lemma {:induction false} KernelUser(kmap: seq<Kmap>)
    requires KmapOk(kmap)
    ensures forall w :: w < KERN_PAGE ==> Kernel(kmap, w) == Absent
  {
    forall w | w < KERN_PAGE
      ensures Kernel(kmap, w) == Absent
    {
      KernelOutside(kmap, w);
    }
  }

  // A mapped user page has PTE_P set, so copying its flags copies them exactly.
  lemma UserFlags(s: State, own: Roles, d: int, v: int)
    requires Inv(s, own) && d in own && own[d] == Dir(0) && 0 <= v < KERN_PAGE && Walk(s, d, v).Present?
    ensures WithP(Walk(s, d, v).flags) == Walk(s, d, v).flags
  {
    assert At(s, d, v / ENTRIES).Present?;
  }

  lemma {:induction false} CopiesStep(s: State, own: Roles, r: State, o: Roles, d: int, c: int, i: int, g: int)
    requires Inv(s, own) && Inv(r, o) && d in own && own[d] == Dir(0) && c in own && own[c] == Dir(0) && c != d
    requires c in o && o[c] == Dir(0)
    requires 0 <= i < KERN_PAGE && Copies(s, own, d, c, i) && Kept(s, own, r, o, c, -1)
    requires Walk(s, d, i).Present? && Walk(s, d, i).frame in s.mem && g in r.mem
    requires r.mem[g] == s.mem[Walk(s, d, i).frame]
    requires forall w :: Walk(r, c, w) == if w == i then Present(g, WithP(Walk(s, d, i).flags)) else Walk(s, c, w)
    ensures Copies(r, o, d, c, i + 1)
  {
    forall w | 0 <= w < i + 1
      ensures var e, f := Walk(r, d, w), Walk(r, c, w);
              && e.Present? && f.Present? && f.flags == e.flags && f.frame != e.frame
              && e.frame in r.mem && f.frame in r.mem && r.mem[f.frame] == r.mem[e.frame]
    {
      assert Walk(r, d, w) == Walk(s, d, w);
      if w < i {
        assert Walk(s, c, w).Present?;
        WalkVpn(s, own, c, w);
      }
      WalkVpn(s, own, d, w);
      UserFlags(s, own, d, w);
      assert own[d] == o[d];
      WalkVpn(r, o, d, w);
      WalkVpn(r, o, c, w);
    }
  }
}
