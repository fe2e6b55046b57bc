/** `map_range` and `unmap_range`: mapping a range of pages to frames that lie one behind the other,
    page by page, and the rollback of a mapping that runs out of tables. */
module MapRange {
  import opened Pte
  import opened PageTree
  import opened Sv39
  import opened Sv39Range
  import opened RangeIter
  import opened RangeNeed
  import opened RangeState
  import opened Wrappers
  import Vmap

  /** The mapped pages from `lo` up to `hi` are not mapped any more. */
  ghost predicate Cleared(root: nat, m: Memory, m': Memory, lo: nat, hi: nat) {
    && hi <= PAGES
    && forall v :: 0 <= v < PAGES ==>
         Leaf(root, m', v) == if lo <= v < hi && IsValid(Leaf(root, m, v)) then 0 else Leaf(root, m, v)
  }

  lemma ClearStep(root: nat, a: Memory, b: Memory, c: Memory, s: nat, done: nat, v: nat)
    requires Cleared(root, a, b, s, done) && s <= done <= v < PAGES && IsValid(Leaf(root, a, v))
    requires forall w :: done <= w < v ==> !IsValid(Leaf(root, a, w))
    requires OneLeaf(root, b, c, v, 0)
    ensures Cleared(root, a, c, s, v + 1)
  {
    hide Leaf, IsValid;
  }

  lemma ClearRest(root: nat, a: Memory, b: Memory, s: nat, done: nat, hi: nat)
    requires Cleared(root, a, b, s, done) && s <= done && (done <= hi || done == s) && hi <= PAGES
    requires Leaves(root, a, done, hi) == []
    ensures Cleared(root, a, b, s, hi)
  {
    hide Leaf, IsValid;
    Vmap.NoneValid(root, a, done, hi);
  }

  lemma ClearNothing(root: nat, m: Memory, s: nat)
    requires s <= PAGES
    ensures Cleared(root, m, m, s, s)
  {
  }

  /** `unmap_range`: clears the entries from `s` up to `e`, as far as the iterator goes. */
  method UnmapRange(pt: PageTable, s: nat, e: nat)
    requires pt.Valid() && s <= e <= PAGES
    modifies pt`mem
    ensures pt.Valid() && Cleared(pt.root, old(pt.mem), pt.mem, s, EffectiveEnd(e))
    ensures SameTables(pt.root, old(pt.mem), pt.mem)
  {
    hide Leaf, IsValid, Owned, Remaining, ItersOk, TableAddr, Leaves, EffectiveEnd, Cleared;
    ghost var before, hi, done := pt.mem, EffectiveEnd(e), s;
    Vmap.EndInRange(e);
    var it := new InternalRangeIter(pt, s, e);
    ClearNothing(pt.root, before, s);
    while true
      invariant fresh(it) && it.pt == pt && it.s == s && it.e == e && it.Valid()
      invariant it.ToYield(0) == Leaves(pt.root, before, done, hi)
      invariant s <= done && (done <= hi || done == s)
      invariant Cleared(pt.root, before, pt.mem, s, done) && SameTables(pt.root, before, pt.mem)
      decreases if done <= hi then hi - done else 0
    {
      var next, place := it.Next();
      if next.None? {
        ClearRest(pt.root, before, pt.mem, s, done, hi);
        return;
      }
      var (v, _) := next.value;
      Vmap.FirstLeaf(pt.root, before, done, hi);
      ghost var mid := pt.mem;
      pt.WriteLeaf(place.0, place.1, 0, v);
      ClearStep(pt.root, before, mid, pt.mem, s, done, v);
      IterationUndisturbed(pt.root, mid, pt.mem, it.iters, s, e, 0, v, 0);
      done := v + 1;
    }
  }

  // ---------------------------------------------------------------- mapping

  /** Page `v` of a range from `s` on is mapped to its frame, the first one being `pa`. */
  ghost predicate Lined(root: nat, m: Memory, s: nat, v: nat, pa: nat, perm: EntryPerm)
    requires s <= v < PAGES
  {
    Perm(Leaf(root, m, v)) == perm.(valid := true) && PhysicalAddr(Leaf(root, m, v)) == pa + (v - s) * PGSIZE
  }

  ghost predicate LinedUp(root: nat, m: Memory, m': Memory, s: nat, k: nat, pa: nat, perm: EntryPerm) {
    && k <= PAGES
    && (forall v :: 0 <= v < PAGES && !(s <= v < k) ==> Leaf(root, m', v) == Leaf(root, m, v))
    && (forall v :: s <= v < k ==> Lined(root, m', s, v, pa, perm))
  }

  /** The tables for the pages from `s` up to `v`. */
  function TablesFor(s: nat, v: nat): Frontier {
    if v <= s then Frontier(MidOf(s), LeafOf(s), s) else Frontier(MidOf(v - 1) + 1, LeafOf(v - 1) + 1, s)
  }

  lemma TablesForProper(s: nat, v: nat)
    requires s <= PAGES && v <= PAGES
    ensures Proper(TablesFor(s, v))
  {
  }

  /** How many of them are missing. */
  ghost function TableNeed(root: nat, m: Memory, s: nat, v: nat): nat
    requires s <= PAGES && v <= PAGES
  {
    TablesForProper(s, v);
    Used(root, m, s, TablesFor(s, v))
  }

  /** The pages from `s` up to `v` are mapped, with just the tables made that were missing. */
  ghost predicate MappedTo(root: nat, a: View, b: View, s: nat, v: nat, pa: nat, perm: EntryPerm) {
    && s <= v <= PAGES && LinedUp(root, a.mem, b.mem, s, v, pa, perm)
    && TablesTo(root, a.mem, b.mem, s, TablesFor(s, v))
    && FramesForTables(a.free, b.free, a.owner, b.owner, TableNeed(root, a.mem, s, v))
  }

  /** The frames do not last for the tables of page `k`, but for those of all pages before it. */
  ghost predicate FirstLack(root: nat, a: View, s: nat, k: nat) {
    && s <= k < PAGES && TableNeed(root, a.mem, s, k + 1) > |a.free|
    && forall v :: s <= v <= k ==> TableNeed(root, a.mem, s, v) <= |a.free|
  }

  lemma NothingMapped(root: nat, a: View, s: nat, pa: nat, perm: EntryPerm)
    requires s <= PAGES
    ensures MappedTo(root, a, a, s, s, pa, perm) && TableNeed(root, a.mem, s, s) == 0
  {
  }

  /** The missing tables of a page, by their numbers. */
  lemma MissingByNumber(root: nat, m: Memory, owner: map<nat, Path>, v: nat)
    requires Owned(root, m, owner) && v < PAGES
    ensures MidOf(v) < Tables(1) && LeafOf(v) < Tables(0)
    ensures MissingTables(root, m, v) ==
            (if HasTable(root, m, 1, MidOf(v)) then 0 else 1) + (if HasTable(root, m, 0, LeafOf(v)) then 0 else 1)
  {
    NumbersFit(v, v);
    Vmap.NumberOfPath(1, v);
    Vmap.NumberOfPath(2, v);
    assert PathOf(v)[..2][..1] == PathOf(v)[..1];
  }

  /** The tables for one page more. */
  lemma NeedStep(root: nat, a: Memory, b: Memory, s: nat, v: nat)
    requires s <= v < PAGES && TablesTo(root, a, b, s, TablesFor(s, v)) && MidOf(v) < Tables(1) && LeafOf(v) < Tables(0)
    ensures TableNeed(root, a, s, v + 1) ==
            TableNeed(root, a, s, v) +
            (if HasTable(root, b, 1, MidOf(v)) then 0 else 1) + (if HasTable(root, b, 0, LeafOf(v)) then 0 else 1)
  {
    hide HasTable, Used;
    var f := TablesFor(s, v);
    NextNumbers(s, v);
    NumbersFit(s, v);
    TablesForProper(s, v);
    hide MidOf, LeafOf;
    var g := f.(mid := MidOf(v) + 1);
    if MidOf(v) == f.mid { UsedMid(root, a, s, f); }
    if LeafOf(v) == f.leaf { UsedLeaf(root, a, s, g); }
  }

  lemma NextNumbers(s: nat, v: nat)
    requires s <= v
    ensures var f := TablesFor(s, v);
            && (MidOf(v) == f.mid || (MidOf(v) + 1 == f.mid && MidOf(s) <= MidOf(v)))
            && (LeafOf(v) == f.leaf || (LeafOf(v) + 1 == f.leaf && LeafOf(s) <= LeafOf(v)))
  {
  }

  lemma NeedGrows(root: nat, m: Memory, s: nat, v: nat, w: nat)
    requires s <= v <= w <= PAGES
    ensures TableNeed(root, m, s, v) <= TableNeed(root, m, s, w)
  {
    TablesForProper(s, v);
    TablesForProper(s, w);
    ForGrows(s, v, w);
    UsedMore(root, m, s, TablesFor(s, v), TablesFor(s, w));
  }

  lemma ForGrows(s: nat, v: nat, w: nat)
    requires s <= v <= w
    ensures Upto(TablesFor(s, v), TablesFor(s, w))
  {
    if s < v { Vmap.NumbersGrow(v - 1, w - 1); } else if v < w { Vmap.NumbersGrow(s, w - 1); }
  }

  /** A prefix of a page's path is the path of one of its tables. */
  lemma OwnTables(v: nat, level: nat, n: nat)
    requires v < PAGES && level <= 1 && n < Tables(level) && TableNo(level, n) <= PathOf(v)
    ensures n == Number(level + 1, v)
  {
    NumbersFit(v, v);
    Vmap.NumberOfPath(level + 1, v);
    TableNoInjective(level, n, Number(level + 1, v));
  }

  /** The tables after one page more. */
  lemma TablesStep(root: nat, a: Memory, b: Memory, c: Memory, owner: map<nat, Path>, s: nat, v: nat)
    requires s <= v < PAGES && TablesTo(root, a, b, s, TablesFor(s, v)) && PathTables(root, b, c, v)
    requires Owned(root, c, owner) && IsValid(Leaf(root, c, v))
    ensures TablesTo(root, a, c, s, TablesFor(s, v + 1))
  {
    NumbersFit(s, v);
    forall level, n | 0 <= level <= 1 && 0 <= n < Tables(level)
      ensures HasTable(root, c, level, n) <==> HasTable(root, b, level, n) || n == Number(level + 1, v)
    {
      TableAfter(root, b, c, owner, v, level, n);
    }
    NextNumbers(s, v);
    hide HasTable, Owned, Leaf, IsValid, MidOf, LeafOf, PathTables;
  }

  lemma TableAfter(root: nat, b: Memory, c: Memory, owner: map<nat, Path>, v: nat, level: nat, n: nat)
    requires v < PAGES && PathTables(root, b, c, v) && Owned(root, c, owner) && IsValid(Leaf(root, c, v))
    requires level <= 1 && n < Tables(level)
    ensures HasTable(root, c, level, n) <==> HasTable(root, b, level, n) || n == Number(level + 1, v)
  {
    hide Leaf, IsValid, Owned, TableAddr;
    NumbersFit(v, v);
    if n == Number(level + 1, v) {
      if !HasTable(root, c, level, n) { Vmap.NoTableNoLeaf(root, c, owner, level + 1, v); }
    } else if TableNo(level, n) <= PathOf(v) {
      OwnTables(v, level, n);
    }
  }

  /** One page more was mapped. */
  lemma PageStep(root: nat, a: View, b: View, c: View, s: nat, v: nat, pa: nat, perm: EntryPerm)
    requires MappedTo(root, a, b, s, v, pa, perm) && v < PAGES
    requires Owned(root, b.mem, b.owner) && Owned(root, c.mem, c.owner) && PathTables(root, b.mem, c.mem, v)
    requires FramesForTables(b.free, c.free, b.owner, c.owner, MissingTables(root, b.mem, v))
    requires Lined(root, c.mem, s, v, pa, perm) && OneLeaf(root, b.mem, c.mem, v, Leaf(root, c.mem, v))
    ensures MappedTo(root, a, c, s, v + 1, pa, perm)
  {
    ValidPerm(Leaf(root, c.mem, v));
    hide Owned, Leaf, IsValid, Perm, PhysicalAddr, TableAddr, MissingTables, TableNeed;
    MissingByNumber(root, b.mem, b.owner, v);
    NeedStep(root, a.mem, b.mem, s, v);
    TablesStep(root, a.mem, b.mem, c.mem, c.owner, s, v);
    hide TablesTo, HasTable, PathTables;
    FramesThen(a.free, b.free, c.free, a.owner, b.owner, c.owner,
               TableNeed(root, a.mem, s, v), MissingTables(root, b.mem, v));
    forall w | s <= w < v
      ensures Lined(root, c.mem, s, w, pa, perm)
    {
      assert Lined(root, b.mem, s, w, pa, perm);
    }
  }

  lemma ValidPerm(e: nat)
    ensures Perm(e).valid <==> IsValid(e)
  {
  }

  /** A page whose tables cannot be made. */
  lemma LackStep(root: nat, a: View, b: View, s: nat, v: nat, pa: nat, perm: EntryPerm)
    requires MappedTo(root, a, b, s, v, pa, perm) && v < PAGES && Owned(root, b.mem, b.owner)
    requires MissingTables(root, b.mem, v) > |b.free|
    ensures FirstLack(root, a, s, v)
  {
    hide Owned, LinedUp, MissingTables, TableNeed;
    MissingByNumber(root, b.mem, b.owner, v);
    NeedStep(root, a.mem, b.mem, s, v);
    hide TablesTo, HasTable;
    forall w | s <= w <= v
      ensures TableNeed(root, a.mem, s, w) <= |a.free|
    {
      NeedGrows(root, a.mem, s, w, v);
    }
  }

  /** What a failure at page `k` leaves: the pages up to the iterator's end for `k` are not mapped, the
      others before `k` are mapped to their new frames, and all the rest is as before. */
  ghost predicate LeftLined(root: nat, m: Memory, m': Memory, s: nat, k: nat, pa: nat, perm: EntryPerm) {
    && s <= k < PAGES
    && (forall v :: 0 <= v < PAGES && !(s <= v < k) ==> Leaf(root, m', v) == Leaf(root, m, v))
    && (forall v :: s <= v < k && v < EffectiveEnd(k) ==> Leaf(root, m', v) == 0)
    && (forall v :: s <= v < k && v >= EffectiveEnd(k) ==> Lined(root, m', s, v, pa, perm))
  }

  lemma ClearedLined(root: nat, a: Memory, b: Memory, c: Memory, s: nat, k: nat, pa: nat, perm: EntryPerm)
    requires s <= k < PAGES && LinedUp(root, a, b, s, k, pa, perm) && Cleared(root, b, c, s, EffectiveEnd(k))
    ensures LeftLined(root, a, c, s, k, pa, perm)
  {
    Vmap.EndInRange(k);
    forall v | s <= v < k
      ensures IsValid(Leaf(root, b, v)) && Lined(root, b, s, v, pa, perm)
    {
      assert Lined(root, b, s, v, pa, perm);
      ValidPerm(Leaf(root, b, v));
    }
    hide Leaf, IsValid, Perm, PhysicalAddr, EffectiveEnd;
  }

  /** `map_range`: maps the pages from `s` up to `e` to the frames from `pa` on, over whatever they were
      mapped to.  It succeeds exactly when there is a free frame for each missing table; else it stops at
      the first page whose tables cannot be made, with every free frame turned into a table. */
  method MapRange(pt: PageTable, s: nat, e: nat, pa: nat, perm: EntryPerm) returns (r: Result<()>, ghost k: nat)
    requires pt.Valid() && s <= e <= PAGES && pa % PGSIZE == 0 && pa != 0
    modifies pt
    ensures pt.Valid()
    ensures r.Ok? <==> TableNeed(pt.root, old(pt.mem), s, e) <= old(|pt.free|)
    ensures r.Ok? ==> MappedTo(pt.root, old(ViewOf(pt)), ViewOf(pt), s, e, pa, perm)
    ensures r.Err? ==>
              && r.error == OutOfMemory && k < e && FirstLack(pt.root, old(ViewOf(pt)), s, k)
              && pt.free == {} && (forall x :: x in old(pt.free) ==> x in pt.owner)
              && LeftLined(pt.root, old(pt.mem), pt.mem, s, k, pa, perm)
  {
    hide Owned, Leaf, IsValid, Perm, PhysicalAddr, TableAddr, MissingTables, TableNeed, MappedTo, FramesForTables,
      PathTables, OneLeaf, LinedUp, FirstLack, LeftLined;
    ghost var before := ViewOf(pt);
    NothingMapped(pt.root, before, s, pa, perm);
    var v := s;
    while v < e
      invariant s <= v <= e && pt.Valid() && MappedTo(pt.root, before, ViewOf(pt), s, v, pa, perm)
    {
      ghost var mid := ViewOf(pt);
      PageAddress(v, s, pa);
      r := pt.Map(v * PGSIZE, pa + (v - s) * PGSIZE, perm);
      if r.Err? {
        k := v;
        LackStep(pt.root, before, mid, s, v, pa, perm);
        NeedGrowsPast(pt.root, before, s, v, e);
        SameLinedUp(pt.root, before, mid, pt.mem, s, v, pa, perm);
        AllTaken(pt.root, before, mid, ViewOf(pt), s, v, pa, perm);
        ghost var last := pt.mem;
        UnmapRange(pt, s, v);
        ClearedLined(pt.root, before.mem, last, pt.mem, s, v, pa, perm);
        return;
      }
      PageStep(pt.root, before, mid, ViewOf(pt), s, v, pa, perm);
      v := v + 1;
    }
    Afforded(pt.root, before, ViewOf(pt), s, e, pa, perm);
    r, k := Ok(()), e;
  }

  lemma PageAddress(v: nat, s: nat, pa: nat)
    requires s <= v < PAGES && pa % PGSIZE == 0
    ensures v * PGSIZE < VA_END && v * PGSIZE / PGSIZE == v && (pa + (v - s) * PGSIZE) % PGSIZE == 0
  {
  }

  lemma NeedGrowsPast(root: nat, a: View, s: nat, k: nat, e: nat)
    requires FirstLack(root, a, s, k) && k < e <= PAGES
    ensures TableNeed(root, a.mem, s, e) > |a.free|
  {
    NeedGrows(root, a.mem, s, k + 1, e);
    hide TableNeed;
  }

  lemma SameLinedUp(root: nat, a: View, b: View, m: Memory, s: nat, v: nat, pa: nat, perm: EntryPerm)
    requires MappedTo(root, a, b, s, v, pa, perm) && SameLeaves(root, b.mem, m)
    ensures LinedUp(root, a.mem, m, s, v, pa, perm)
  {
    hide Leaf, Perm, PhysicalAddr, TablesTo, TableNeed, FramesForTables;
    forall w | s <= w < v
      ensures Lined(root, m, s, w, pa, perm)
    {
      assert Lined(root, b.mem, s, w, pa, perm);
    }
  }

  /** Every free frame has become a table. */
  lemma AllTaken(root: nat, a: View, b: View, c: View, s: nat, v: nat, pa: nat, perm: EntryPerm)
    requires MappedTo(root, a, b, s, v, pa, perm) && FramesForTables(b.free, c.free, b.owner, c.owner, |b.free|)
    ensures c.free == {} && forall x :: x in a.free ==> x in c.owner
  {
    hide TablesTo, TableNeed, LinedUp;
  }

  lemma Afforded(root: nat, a: View, b: View, s: nat, v: nat, pa: nat, perm: EntryPerm)
    requires MappedTo(root, a, b, s, v, pa, perm)
    ensures TableNeed(root, a.mem, s, v) <= |a.free|
  {
    hide TablesTo, TableNeed, LinedUp;
  }

  // ---------------------------------------------------------------- the rollback

  /** Only the first page of the range or of a leaf table can lack a table. */
  lemma LackAtTable(root: nat, a: View, s: nat, k: nat)
    requires FirstLack(root, a, s, k)
    ensures k == s || k % ENTRIES == 0
  {
    SameTable(s, k);
    hide TablesFor, Used;
    assert TableNeed(root, a.mem, s, k) <= |a.free| < TableNeed(root, a.mem, s, k + 1);
  }

  lemma SameTable(s: nat, k: nat)
    requires s <= k
    ensures k == s || k % ENTRIES == 0 || TablesFor(s, k + 1) == TablesFor(s, k)
  {
    hide MidOf, LeafOf;
    if k % ENTRIES != 0 { PageBefore(k); }
  }

  /** After a failure at page `k` the same pages are mapped as before exactly when no page that the
      rollback reaches had been mapped, and every page that it does not reach had been. */
  lemma RollbackExact(root: nat, a: View, m: Memory, s: nat, k: nat, pa: nat, perm: EntryPerm)
    requires FirstLack(root, a, s, k) && LeftLined(root, a.mem, m, s, k, pa, perm)
    ensures (forall v :: 0 <= v < PAGES ==> (IsValid(Leaf(root, m, v)) <==> IsValid(Leaf(root, a.mem, v)))) <==>
            forall v :: s <= v < k ==> (IsValid(Leaf(root, a.mem, v)) <==> v >= EffectiveEnd(k))
  {
    PdeFacts(0);
    forall v | s <= v < k
      ensures IsValid(Leaf(root, m, v)) <==> v >= EffectiveEnd(k)
    {
      if v >= EffectiveEnd(k) {
        assert Lined(root, m, s, v, pa, perm);
        ValidPerm(Leaf(root, m, v));
      }
    }
    hide Leaf, IsValid, Perm, PhysicalAddr, EffectiveEnd, FirstLack;
  }

  /** In particular, for a range that was not mapped the rollback is complete exactly when there was
      nothing to roll back. */
  lemma RollbackNeverComplete(root: nat, a: View, m: Memory, s: nat, k: nat, pa: nat, perm: EntryPerm)
    requires FirstLack(root, a, s, k) && LeftLined(root, a.mem, m, s, k, pa, perm)
    requires forall v :: s <= v < k ==> !IsValid(Leaf(root, a.mem, v))
    ensures (forall v :: 0 <= v < PAGES ==> (IsValid(Leaf(root, m, v)) <==> IsValid(Leaf(root, a.mem, v)))) <==> k == s
  {
    RollbackExact(root, a, m, s, k, pa, perm);
    LackAtTable(root, a, s, k);
    hide Leaf, IsValid, LeftLined, FirstLack;
    if k > s {
      assert EffectiveEnd(k) <= k - 1;
      assert !IsValid(Leaf(root, a.mem, k - 1));
    }
  }

  /** A page table of which there is only the root. */
  lemma {:induction false} AllMissing(root: nat, m: Memory, level: nat, hi: nat)
    requires Owned(root, m, map[root := []]) && level <= 1 && hi <= Tables(level)
    ensures Missing(root, m, level, 0, hi) == hi
  {
    if hi > 0 {
      AllMissing(root, m, level, hi - 1);
      assert TableAddr(root, m, TableNo(level, hi - 1)) == 0;
    }
    hide Owned, TableAddr;
  }

  /** In it two frames are just enough for the pages up to 512. */
  lemma StopsAt512(root: nat, a: View, e: nat)
    requires Owned(root, a.mem, map[root := []]) && |a.free| == 2 && e <= PAGES
    ensures TableNeed(root, a.mem, 0, e) <= |a.free| <==> e <= ENTRIES
  {
    AllMissing(root, a.mem, 1, TablesFor(0, e).mid);
    AllMissing(root, a.mem, 0, TablesFor(0, e).leaf);
    hide Owned, Missing;
  }

  /** A run: an empty page table and two frames, which pages 0 to 511 take for their tables; page 512
      fails, and pages 0 to 511 stay mapped. */
  method RollbackRun(frame: nat, frames: set<nat>, pa: nat, perm: EntryPerm) returns (pt: PageTable, r: Result<()>)
    requires frame != 0 && frame % PGSIZE == 0 && frame !in frames && |frames| == 2 && pa != 0 && pa % PGSIZE == 0
    requires forall x :: x in frames ==> x != 0 && x % PGSIZE == 0
    ensures fresh(pt) && pt.Valid() && r.Err? && forall v :: 0 <= v < ENTRIES ==> IsValid(Leaf(pt.root, pt.mem, v))
  {
    hide Owned, Leaf, IsValid, TableNeed, LeftLined, MappedTo, Perm, PhysicalAddr, EffectiveEnd;
    pt := new PageTable(frame, frames);
    ghost var a := ViewOf(pt);
    StopsAt512(pt.root, a, ENTRIES + 1);
    ghost var k;
    r, k := MapRange(pt, 0, ENTRIES + 1, pa, perm);
    StopsAt512(pt.root, a, k + 1);
    StayMapped(pt.root, a.mem, pt.mem, pa, perm);
  }

  lemma StayMapped(root: nat, m: Memory, m': Memory, pa: nat, perm: EntryPerm)
    requires LeftLined(root, m, m', 0, ENTRIES, pa, perm)
    ensures forall v :: 0 <= v < ENTRIES ==> IsValid(Leaf(root, m', v))
  {
    assert EffectiveEnd(ENTRIES) == 0;
    forall v | 0 <= v < ENTRIES
      ensures IsValid(Leaf(root, m', v))
    {
      assert Lined(root, m', 0, v, pa, perm);
      ValidPerm(Leaf(root, m', v));
    }
  }
}
