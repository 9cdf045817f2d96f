// l_bestBet, which vm/liballoc.c:90 calls the major with the most free memory: after which requests and
// frees it is that major, and a run after which it is not.

module LiballocBest {
  import opened Common
  import opened Liballoc
  import Regions

  // No major has more free bytes than the one l_bestBet names; it is null when there is no major.
  predicate MostFree(h: Heap) {
    if h.majors == [] then h.best == 0
    else
      && h.best != 0 && Find(h.majors, h.best) < |h.majors|
      && forall q :: 0 <= q < |h.majors| ==> Room(h.majors[q]) <= Room(h.majors[Find(h.majors, h.best)])
  }

  // ---------- kheap_free ----------

  // What a caller can see before freeing minor j of major i. A major that goes back must not be the best
  // bet; one that stays may become it, and then only the others count.
  predicate FreeCondition(h: Heap, i: nat, j: nat)
    requires i < |h.majors| && j < |h.majors[i].minors|
  {
    var m, k := h.majors[i], Find(h.majors, h.best);
    if |m.minors| == 1 then
      || |h.majors| == 1
      || (&& h.best != 0 && h.best != m.base && k < |h.majors|
          && forall q :: 0 <= q < |h.majors| && q != i ==> Room(h.majors[q]) <= Room(h.majors[k]))
    else
      && h.best != 0 && k < |h.majors|
      && forall q :: 0 <= q < |h.majors| && q != i ==>
           || Room(h.majors[q]) <= Room(m) + m.minors[j].size + HEADER
           || Room(h.majors[q]) <= Room(h.majors[k])
  }

  lemma {:induction false} FreeStays(h: Heap, i: nat, j: nat)
    requires Inv(h) && i < |h.majors| && j < |h.majors[i].minors| && |h.majors[i].minors| > 1
    requires h.majors[i].usage >= h.majors[i].minors[j].size + HEADER && h.majors[i].minors[j].addr in h.mem.hdr
    ensures MostFree(Drop(h, i, j)) <==> FreeCondition(h, i, j)
  {
    hide AllGood, Spans, OnlyLive, InUse, Allocated, Find;
    var e, r := Emptied(h.majors[i], j), Drop(h, i, j);
    FindUpdate(h.majors, i, e, h.best);
    FindUpdate(h.majors, i, e, e.base);
    FindUnique(h.mem, h.majors, i);
    GoodAt(h.mem, h.majors, i);
    assert forall q :: 0 <= q < |h.majors| && q != i ==> r.majors[q] == h.majors[q];
    if FreeCondition(h, i, j) {
      assert forall q :: 0 <= q < |r.majors| ==> Room(r.majors[q]) <= Room(r.majors[Find(r.majors, r.best)]);
    } else if h.best != 0 {
      var k := Find(h.majors, h.best);
      var q :| 0 <= q < |h.majors| && q != i && Room(h.majors[q]) > Room(e) && Room(h.majors[q]) > Room(h.majors[k]);
      assert Room(r.majors[q]) > Room(r.majors[Find(r.majors, r.best)]);
    }
  }

  lemma {:induction false} RoomsWithout(majors: seq<Major>, i: nat, x: int)
    requires i < |majors|
    ensures var r := Without(majors, i);
            (forall p :: 0 <= p < |r| ==> Room(r[p]) <= x) <==>
            (forall q :: 0 <= q < |majors| && q != i ==> Room(majors[q]) <= x)
  {
    hide Room;
    var r := Without(majors, i);
    if forall p :: 0 <= p < |r| ==> Room(r[p]) <= x {
      forall q | 0 <= q < |majors| && q != i
        ensures Room(majors[q]) <= x
      {
        assert r[if q < i then q else q - 1] == majors[q];
      }
    }
    if forall q :: 0 <= q < |majors| && q != i ==> Room(majors[q]) <= x {
      forall p | 0 <= p < |r|
        ensures Room(r[p]) <= x
      {
        assert r[p] == majors[if p < i then p else p + 1];
      }
    }
  }

  lemma {:induction false} SameWithout(h: Heap, i: nat, base: nat)
    requires Inv(h) && i < |h.majors| && base != h.majors[i].base && Find(h.majors, base) < |h.majors|
    ensures var r := Without(h.majors, i); Find(r, base) < |r| && r[Find(r, base)] == h.majors[Find(h.majors, base)]
  {
    hide AllGood, Spans, OnlyLive, InUse, Allocated, Find;
    FindWithout(h.majors, i, base);
    var f := Find(Without(h.majors, i), base);
    FindUnique(h.mem, h.majors, if f < i then f else f + 1);
  }

  lemma {:induction false} FreeReleases(h: Heap, i: nat, j: nat)
    requires Inv(h) && i < |h.majors| && j < |h.majors[i].minors| && |h.majors[i].minors| == 1
    requires h.majors[i].usage >= h.majors[i].minors[j].size + HEADER && h.majors[i].minors[j].addr in h.mem.hdr
    ensures MostFree(Drop(h, i, j)) <==> FreeCondition(h, i, j)
  {
    hide AllGood, Spans, OnlyLive, InUse, Allocated, Find, Room;
    var m, r, k := h.majors[i], Drop(h, i, j), Find(h.majors, h.best);
    assert r.majors == Without(h.majors, i) && |r.majors| == |h.majors| - 1;
    if h.best != 0 && h.best != m.base {
      SameWithout(h, i, h.best);
      RoomsWithout(h.majors, i, Room(h.majors[k]));
    }
  }

  // After a free l_bestBet is the major with the most free memory exactly under that condition.
  lemma {:induction false} FreeMostFreeIff(h: Heap, i: nat, j: nat)
    requires Inv(h) && i < |h.majors| && j < |h.majors[i].minors|
    ensures h.majors[i].usage >= h.majors[i].minors[j].size + HEADER && h.majors[i].minors[j].addr in h.mem.hdr
    ensures MostFree(Drop(h, i, j)) <==> FreeCondition(h, i, j)
  {
    hide Drop, MostFree, FreeCondition;
    DropKeeps(h, i, j);
    if |h.majors[i].minors| == 1 { FreeReleases(h, i, j); } else { FreeStays(h, i, j); }
  }

  // ---------- kheap_malloc ----------

  // The majors whose free bytes the search compares: the best bet, and the ones it visits.
  predicate Looked(h: Heap, need: nat, q: nat)
    requires q < |h.majors|
  {
    var s := StartAt(h, need);
    var k := FirstFitting(h.majors, s, need);
    || (h.best != 0 && q == Find(h.majors, h.best))
    || s <= q <= k
    || (k == |h.majors| && q <= FirstFitting(h.majors, 0, need))
  }

  // Where the bet is after a walk from i on: it moved to the first major of the most free bytes, or stayed.
  ghost predicate Walked(majors: seq<Major>, i: nat, need: nat, b: Bet, c: Bet)
    requires i <= |majors|
  {
    var k := FirstFitting(majors, i, need);
    && (forall q :: i <= q < |majors| && q <= k ==> Room(majors[q]) <= c.room)
    && (c == b || exists p :: Moved(majors, i, k, b, c, p))
  }

  predicate Moved(majors: seq<Major>, i: nat, k: nat, b: Bet, c: Bet, p: nat) {
    && i <= p < |majors| && p <= k && c == Bet(majors[p].base, Room(majors[p])) && b.room < c.room
    && forall q :: i <= q < p ==> Room(majors[q]) < c.room
  }

  lemma {:induction false} BetsWalked(majors: seq<Major>, i: nat, need: nat, b: Bet)
    requires i <= |majors|
    ensures Walked(majors, i, need, b, Bets(majors, i, need, b))
    decreases |majors| - i
  {
    hide Fits;
    if i < |majors| {
      var c, k := Bets(majors, i, need, b), FirstFitting(majors, i, need);
      var d := Visit(b, majors[i]);
      if Fits(majors[i], need) {
        assert c == b || Moved(majors, i, k, b, c, i);
      } else {
        BetsWalked(majors, i + 1, need, d);
        if c == d {
          assert c == b || Moved(majors, i, k, b, c, i);
        } else {
          var p :| Moved(majors, i + 1, k, d, c, p);
          assert Moved(majors, i, k, b, c, p);
        }
      }
    }
  }

  // The bet after the whole search, when it moved to the major at position p.
  predicate Took(h: Heap, need: nat, b: Bet, p: nat) {
    && p < |h.majors| && Looked(h, need, p)
    && b == Bet(h.majors[p].base, Room(h.majors[p])) && OldBet(h).room < b.room
    && (p == Choice(h.majors, StartAt(h, need), need) ==>
          forall q :: 0 <= q < |h.majors| && q != p && Looked(h, need, q) ==> Room(h.majors[q]) < b.room)
  }

  lemma {:induction false} SearchTook(h: Heap, need: nat)
    requires Inv(h)
    ensures var b := SearchBet(h, need);
            && (forall q :: 0 <= q < |h.majors| && Looked(h, need, q) ==> Room(h.majors[q]) <= b.room)
            && (b == OldBet(h) || exists p :: Took(h, need, b, p))
  {
    hide Inv, Fits, Bets, Find;
    var s, a, b := StartAt(h, need), OldBet(h), SearchBet(h, need);
    var k, c := FirstFitting(h.majors, s, need), Bets(h.majors, s, need, a);
    BetsWalked(h.majors, s, need, a);
    if c != a {
      var p :| Moved(h.majors, s, k, a, c, p);
      assert b == c ==> Took(h, need, b, p);
    }
    if FromBest(h, need) && k == |h.majors| {
      var f := FirstFitting(h.majors, 0, need);
      BetsWalked(h.majors, 0, need, c);
      if b != c {
        var p :| Moved(h.majors, 0, f, c, b, p);
        assert Took(h, need, b, p);
      }
    }
  }

  // Major i beats every other major looked at; a best bet keeps its place against its equals.
  predicate Beats(h: Heap, need: nat, i: nat)
    requires i < |h.majors|
  {
    forall q :: 0 <= q < |h.majors| && q != i && Looked(h, need, q) ==>
      || Room(h.majors[q]) < Room(h.majors[i])
      || (Room(h.majors[q]) == Room(h.majors[i]) && h.best == h.majors[i].base)
  }

  // The search ends with l_bestBet at the major it found exactly when that one beats the others.
  lemma {:induction false} BeatsIff(h: Heap, need: nat, i: nat)
    requires Inv(h) && need > 0 && i == Choice(h.majors, StartAt(h, need), need) && i < |h.majors|
    ensures SearchBet(h, need).base == h.majors[i].base <==> Beats(h, need, i)
    ensures 0 < need <= Room(h.majors[i]) && Looked(h, need, i)
    ensures var b := SearchBet(h, need);
            && b.base != 0 && Find(h.majors, b.base) < |h.majors| && Room(h.majors[Find(h.majors, b.base)]) == b.room
            && Looked(h, need, Find(h.majors, b.base))
  {
    hide AllGood, Spans, OnlyLive, InUse, Allocated, Find, Fits, SearchBet, StartAt, Choice, Looked, FirstFitting;
    var m, b := h.majors[i], SearchBet(h, need);
    SearchTook(h, need);
    SearchTrue(h, need);
    FoundRoom(h, need, i);
    FindUnique(h.mem, h.majors, i);
    GoodAt(h.mem, h.majors, i);
    if b == OldBet(h) {
      BestLooked(h, need);
    } else {
      var p :| Took(h, need, b, p);
      FindUnique(h.mem, h.majors, p);
      GoodAt(h.mem, h.majors, p);
    }
  }

  lemma {:induction false} FoundRoom(h: Heap, need: nat, i: nat)
    requires Inv(h) && i == Choice(h.majors, StartAt(h, need), need) && i < |h.majors|
    ensures need <= Room(h.majors[i]) && Looked(h, need, i)
  {
    hide AllGood, Spans, OnlyLive, InUse, Allocated, Find, Fits, FirstFitting;
    GoodAt(h.mem, h.majors, i);
    if Room(h.majors[i]) < need { Skip(h.majors[i], need); }
  }

  lemma OnlyOne(h: Heap, i: nat)
    requires Inv(h) && i < |h.majors|
    ensures Find(h.majors, h.majors[i].base) == i
  {
    FindUnique(h.mem, h.majors, i);
  }

  lemma BestLooked(h: Heap, need: nat)
    requires h.best != 0 && Find(h.majors, h.best) < |h.majors|
    ensures Looked(h, need, Find(h.majors, h.best))
  {
  }

  // What a caller can see before a request that major i will serve. If i becomes or stays the best bet, no
  // other major may have more free bytes than i keeps; if not, no major that was not looked at may have
  // more than the roomiest that was.
  ghost predicate PlaceCondition(h: Heap, need: nat, i: nat)
    requires i < |h.majors|
  {
    if Beats(h, need, i) then
      forall q :: 0 <= q < |h.majors| && q != i ==> Room(h.majors[q]) <= Room(h.majors[i]) - need
    else
      forall q :: 0 <= q < |h.majors| ==> Covered(h, need, q)
  }

  ghost predicate Covered(h: Heap, need: nat, q: nat)
    requires q < |h.majors|
  {
    exists p :: 0 <= p < |h.majors| && Looked(h, need, p) && Room(h.majors[q]) <= Room(h.majors[p])
  }

  lemma {:induction false} PlaceIff(h: Heap, req: nat, grant: nat, i: nat)
    requires Inv(h) && req + ALIGNMENT + ALIGN_INFO + 2 * HEADER < WORD && i < |h.majors|
    requires var need := req + ALIGNMENT + ALIGN_INFO + HEADER; i == Choice(h.majors, StartAt(h, need), need)
    ensures MostFree(Malloced(h, req, grant)) <==> PlaceCondition(h, req + ALIGNMENT + ALIGN_INFO + HEADER, i)
  {
    hide Inv, Find, Fits, SearchBet, StartAt, Choice, Looked, Place, FirstGap, Tag, FillAddr;
    var size := req + ALIGNMENT + ALIGN_INFO;
    var need, r := size + HEADER, Malloced(h, req, grant);
    var f, b := Filled(h.majors[i], size, req), SearchBet(h, need);
    BeatsIff(h, need, i);
    SearchTook(h, need);
    FindUpdate(h.majors, i, f, b.base);
    var k := Find(h.majors, b.base);
    assert Room(f) == Room(h.majors[i]) - need;
    assert forall q :: 0 <= q < |h.majors| ==> Room(r.majors[q]) == Room(h.majors[q]) - if q == i then need else 0;
    OnlyOne(h, i);
    assert b.base == h.majors[i].base <==> k == i;
    if k != i && PlaceCondition(h, need, i) {
      forall q | 0 <= q < |h.majors|
        ensures Room(h.majors[q]) <= Room(h.majors[k])
      {
        assert Covered(h, need, q);
      }
    }
  }

  ghost predicate SomeBet(h: Heap) { h.best != 0 || exists q :: 0 <= q < |h.majors| && Room(h.majors[q]) > 0 }

  // What a caller can see before a request that no major can serve. Without new pages the search only has
  // to find a major with free bytes. With them the new major is looked at, before the request is placed in
  // it, only if the last major has enough free bytes but no gap; otherwise an old one must be roomier.
  ghost predicate GrowCondition(h: Heap, size: nat, grant: nat) {
    var need, free := size + HEADER, PagesFor(size) * PAGE - HEADER;
    if h.majors == [] then true
    else if grant == 0 then SomeBet(h)
    else if Room(h.majors[|h.majors| - 1]) >= need && forall q :: 0 <= q < |h.majors| ==> Room(h.majors[q]) < free then
      forall q :: 0 <= q < |h.majors| ==> Room(h.majors[q]) <= free - need
    else
      SomeBet(h) && exists q :: 0 <= q < |h.majors| && free - need <= Room(h.majors[q])
  }

  // A search that finds nothing leaves the bet at a major with the most free bytes, if any has some.
  lemma {:induction false} WholeSearch(h: Heap, need: nat)
    requires Inv(h) && h.majors != [] && Choice(h.majors, StartAt(h, need), need) == |h.majors|
    ensures var b := SearchBet(h, need);
            && (forall q :: 0 <= q < |h.majors| ==> Room(h.majors[q]) <= b.room)
            && (b.base == 0 <==> h.best == 0 && forall q :: 0 <= q < |h.majors| ==> Room(h.majors[q]) <= 0)
            && (if b.base == 0 then b.room == 0
                else Find(h.majors, b.base) < |h.majors| && Room(h.majors[Find(h.majors, b.base)]) == b.room)
  {
    hide AllGood, Spans, OnlyLive, InUse, Allocated, Find, Fits, SearchBet;
    SearchTook(h, need);
    SearchTrue(h, need);
    var b := SearchBet(h, need);
    forall q | 0 <= q < |h.majors|
      ensures Room(h.majors[q]) <= b.room
    {
      assert Looked(h, need, q);
    }
    if b != OldBet(h) {
      var p :| Took(h, need, b, p);
      GoodAt(h.mem, h.majors, p);
    }
  }

  lemma {:induction false} NoPagesIff(h: Heap, req: nat)
    requires Inv(h) && req + ALIGNMENT + ALIGN_INFO + 2 * HEADER < WORD
    requires var need := req + ALIGNMENT + ALIGN_INFO + HEADER; Choice(h.majors, StartAt(h, need), need) == |h.majors|
    ensures MostFree(Malloced(h, req, 0)) <==> GrowCondition(h, req + ALIGNMENT + ALIGN_INFO, 0)
  {
    hide AllGood, Spans, OnlyLive, InUse, Allocated, Find, Fits, SearchBet, StartAt, Choice;
    if h.majors != [] { WholeSearch(h, req + ALIGNMENT + ALIGN_INFO + HEADER); }
  }

  lemma {:induction false} NewPagesIff(h: Heap, req: nat, grant: nat)
    requires Inv(h) && req + ALIGNMENT + ALIGN_INFO + 2 * HEADER < WORD && grant > 0
    requires forall q :: 0 <= q < |h.majors| ==> h.majors[q].base != grant
    requires var need := req + ALIGNMENT + ALIGN_INFO + HEADER; Choice(h.majors, StartAt(h, need), need) == |h.majors|
    ensures MostFree(Malloced(h, req, grant)) <==> GrowCondition(h, req + ALIGNMENT + ALIGN_INFO, grant)
  {
    hide Inv, Find, Fits, SearchBet, StartAt, Choice, PagesFor, Place, FirstGap, Extended;
    var size := req + ALIGNMENT + ALIGN_INFO;
    var need, free, r := size + HEADER, PagesFor(size) * PAGE - HEADER, Malloced(h, req, grant);
    ExtendedIs(h, grant, size, req);
    var f := Filled(Fresh(grant, PagesFor(size)), size, req);
    var b := SearchBet(h, need);
    assert Room(f) == free - need && r.majors == h.majors + [f];
    assert forall q :: 0 <= q < |h.majors| ==> r.majors[q] == h.majors[q];
    FindAppend(h.majors, f, grant);
    assert Find(r.majors, grant) == |h.majors|;
    if h.majors != [] {
      WholeSearch(h, need);
      FindAppend(h.majors, f, b.base);
    }
  }

  lemma {:induction false} NewBase(h: Heap, grant: nat, pages: nat)
    requires Inv(h) && pages > 0 && Regions.ApartFrom(Spans(h.majors), Regions.Region(grant, pages * PAGE))
    ensures forall q :: 0 <= q < |h.majors| ==> h.majors[q].base != grant
  {
    forall q | 0 <= q < |h.majors|
      ensures h.majors[q].base != grant
    {
      GoodAt(h.mem, h.majors, q);
      Regions.ApartAt(Spans(h.majors), Regions.Region(grant, pages * PAGE), q);
    }
  }

  // What a caller can see before any request.
  ghost predicate RequestCondition(h: Heap, req: nat, grant: nat) {
    var size := req + ALIGNMENT + ALIGN_INFO;
    var i := Choice(h.majors, StartAt(h, size + HEADER), size + HEADER);
    if i < |h.majors| then PlaceCondition(h, size + HEADER, i) else GrowCondition(h, size, grant)
  }

  // After a request l_bestBet is the major with the most free memory exactly under that condition.
  lemma {:induction false} RequestMostFreeIff(h: Heap, req: nat, grant: nat)
    requires Inv(h) && Asks(h, Get(req, grant))
    ensures MostFree(Malloced(h, req, grant)) <==> RequestCondition(h, req, grant)
  {
    hide Inv, MostFree, Malloced, PlaceCondition, GrowCondition;
    var size := req + ALIGNMENT + ALIGN_INFO;
    var i := Choice(h.majors, StartAt(h, size + HEADER), size + HEADER);
    if i < |h.majors| {
      PlaceIff(h, req, grant, i);
    } else if grant == 0 {
      NoPagesIff(h, req);
    } else {
      NewBase(h, grant, PagesFor(size));
      NewPagesIff(h, req, grant);
    }
  }

  // ---------- a run after which it is not ----------

  function Stale(): (ops: seq<Op>) { [Get(60000, 0x100_0000), Get(60000, 0x200_0000), Get(5000, 0)] }

  // The majors at the two addresses, with a minor for the first request and perhaps one more.
  function First(more: seq<Minor>, used: nat): (m: Major) {
    Major(0x100_0000, 16, 60080 + used, [Minor(0x100_0018, 60032, 60000)] + more)
  }

  function Second(more: seq<Minor>, used: nat): (m: Major) {
    Major(0x200_0000, 16, 60080 + used, [Minor(0x200_0018, 60032, 60000)] + more)
  }

  // A minor that starts right after the major's header leaves only the gap after it.
  lemma {:induction false} TailOnly(m: Major, need: nat)
    requires need > 0 && |m.minors| == 1 && m.minors[0].addr == m.Low()
    ensures Fits(m, need) <==> m.High() - m.minors[0].End() >= need
    ensures FirstGap(m.minors, m.Low(), m.High(), need) == if Fits(m, need) then 1 else 2
  {
    FirstGapIs(m.minors, m.Low(), m.High(), need);
    assert Gap(m.minors, m.Low(), m.High(), 0) == 0;
    assert Gap(m.minors, m.Low(), m.High(), 1) == m.High() - m.minors[0].End();
  }

  lemma {:induction false} StaleOne(h: Heap)
    requires h.majors == [] && h.best == 0
    ensures Asks(h, Get(60000, 0x100_0000))
    ensures var r := Next(h, Get(60000, 0x100_0000)); r.majors == [First([], 0)] && r.best == 0x100_0000
  {
    assert PagesFor(60032) == 16;
    ExtendedIs(h, 0x100_0000, 60032, 60000);
    assert Filled(Fresh(0x100_0000, 16), 60032, 60000) == First([], 0);
  }

  lemma {:induction false} StaleTwo(h: Heap)
    requires h.majors == [First([], 0)] && h.best == 0x100_0000
    ensures Asks(h, Get(60000, 0x200_0000))
    ensures var r := Next(h, Get(60000, 0x200_0000)); r.majors == [First([], 0), Second([], 0)] && r.best == 0x100_0000
  {
    hide Extended;
    assert PagesFor(60032) == 16;
    TailOnly(First([], 0), 60056);
    assert Choice(h.majors, 0, 60056) == 1;
    assert Find(h.majors, h.best) == 0 && Bets(h.majors, 1, 60056, Bet(0x100_0000, 5456)) == Bet(0x100_0000, 5456);
    assert SearchBet(h, 60056) == Bet(0x100_0000, 5456);
    assert Spans(h.majors)[0] == Regions.Region(0x100_0000, 65536) && Spans(h.majors)[1..] == [];
    assert Regions.ApartFrom(Spans(h.majors), Regions.Region(0x200_0000, 65536));
    ExtendedIs(h, 0x200_0000, 60032, 60000);
    assert Filled(Fresh(0x200_0000, 16), 60032, 60000) == Second([], 0);
  }

  lemma {:induction false} StaleThree(h: Heap)
    requires h.majors == [First([], 0), Second([], 0)] && h.best == 0x100_0000
    ensures Asks(h, Get(5000, 0))
    ensures var r := Next(h, Get(5000, 0));
            && r.majors == [First([Minor(0x100_0000 + 60080, 5032, 5000)], 5056), Second([], 0)]
            && r.best == 0x100_0000
  {
    TailOnly(First([], 0), 5056);
    assert StartAt(h, 5056) == 0 && Choice(h.majors, 0, 5056) == 0;
    assert SearchBet(h, 5056) == Bet(0x100_0000, 5456);
    assert Filled(First([], 0), 5032, 5000) == First([Minor(0x100_0000 + 60080, 5032, 5000)], 5056);
  }

  lemma {:induction false} StaleFour(h: Heap, n: Minor)
    requires h.majors == [First([n], 5056), Second([], 0)] && n == Minor(0x100_0000 + 60080, 5032, 5000)
    requires h.best == 0x100_0000
    ensures Asks(h, Get(5300, 0))
    ensures var r := Next(h, Get(5300, 0));
            && r.majors == [First([n], 5056), Second([Minor(0x200_0000 + 60080, 5332, 5300)], 5356)]
            && r.best == 0x200_0000
  {
    var f := First([n], 5056);
    assert Gap(f.minors, f.Low(), f.High(), 0) == 0 && Gap(f.minors, f.Low(), f.High(), 1) == 0;
    assert Gap(f.minors, f.Low(), f.High(), 2) == 400;
    FirstGapIs(f.minors, f.Low(), f.High(), 5356);
    assert !Fits(f, 5356);
    TailOnly(Second([], 0), 5356);
    assert FirstFitting(h.majors, 1, 5356) == 1 && Find(h.majors, h.best) == 0;
    assert StartAt(h, 5356) == 0 && Choice(h.majors, 0, 5356) == 1;
    assert Bets(h.majors, 1, 5356, Bet(0x100_0000, 400)) == Bet(0x200_0000, 5456);
    assert SearchBet(h, 5356) == Bet(0x200_0000, 5456);
    assert Filled(Second([], 0), 5332, 5300) == Second([Minor(0x200_0000 + 60080, 5332, 5300)], 5356);
  }

  // Two majors with 5456 free bytes each; the third request takes 5056 of them from the best bet, which stays
  // the best bet with 400. A fourth request then looks at both majors, moves l_bestBet to the second and
  // takes 5356 bytes of it: the first, which it looked at, has more.
  lemma {:induction false} BestBetStale()
    ensures AsksAll(Boot(), Stale()) && !MostFree(Run(Boot(), Stale()))
    ensures var h := Run(Boot(), Stale());
            && |h.majors| == 2 && h.best == h.majors[0].base && Room(h.majors[0]) == 400 && Room(h.majors[1]) == 5456
            && Asks(h, Get(5300, 0))
    ensures var h := Next(Run(Boot(), Stale()), Get(5300, 0));
            && |h.majors| == 2 && h.best == h.majors[1].base && Room(h.majors[0]) == 400 && Room(h.majors[1]) == 100
            && !MostFree(h)
  {
    hide Asks, Next;
    var h0 := Boot();
    StaleOne(h0);
    var h1 := Next(h0, Stale()[0]);
    StaleTwo(h1);
    var h2 := Next(h1, Stale()[1]);
    StaleThree(h2);
    var h3 := Next(h2, Stale()[2]);
    assert Stale()[1..] == [Stale()[1], Stale()[2]] && Stale()[1..][1..] == [Stale()[2]];
    assert AsksAll(h2, [Stale()[2]]) && Run(h2, [Stale()[2]]) == h3;
    assert AsksAll(h1, Stale()[1..]) && Run(h1, Stale()[1..]) == h3;
    StaleFour(h3, h3.majors[0].minors[1]);
    assert Room(h3.majors[1]) > Room(h3.majors[0]) && Find(h3.majors, h3.best) == 0;
    var h4 := Next(h3, Get(5300, 0));
    assert Room(h4.majors[0]) > Room(h4.majors[1]) && Find(h4.majors, h4.best) == 1;
  }
}
