/** `vmap` and `vunmap`: mapping a range of pages to fresh frames and undoing it. */
module Vmap {
  import opened Arithmetic
  import opened Pte
  import opened PageTree
  import opened Wrappers
  import opened Sv39
  import opened Sv39Range
  import opened RangeIter
  import opened RangeNeed
  import opened RangeState

  /** Mapping a range and unmapping it again: every page is mapped as before, and a frame that
      was free is free again unless it became a table. */
  lemma VunmapUndoesVmap(root: nat, a: View, b: View, c: View, lo: nat, hi: nat, perm: EntryPerm)
    requires Grew(root, a, b) && Mapped(root, a, b, lo, hi, perm) && perm.valid
    requires Unmapped(root, b, c, lo, hi)
    ensures forall v :: 0 <= v < PAGES ==>
              && (IsValid(Leaf(root, c.mem, v)) <==> IsValid(Leaf(root, a.mem, v)))
              && (IsValid(Leaf(root, a.mem, v)) ==> Leaf(root, c.mem, v) == Leaf(root, a.mem, v))
    ensures c.free <= a.free && forall x :: x in a.free && x !in c.free ==> x in c.owner
  {
    PdeFacts(0);
    forall v | lo <= v < hi
      ensures IsValid(Leaf(root, b.mem, v))
    {
      assert Perm(Leaf(root, b.mem, v)).valid;
    }
    hide Leaf, PhysicalAddr, TableAddr, IsValid, Perm;
  }

  lemma {:induction false} FirstLeaf(root: nat, m: Memory, lo: nat, hi: nat)
    requires hi <= PAGES && Leaves(root, m, lo, hi) != []
    ensures var (v, x) := Leaves(root, m, lo, hi)[0];
            && lo <= v < hi && x == Leaf(root, m, v) && IsValid(x)
            && (forall w :: lo <= w < v ==> !IsValid(Leaf(root, m, w)))
            && Leaves(root, m, lo, hi)[1..] == Leaves(root, m, v + 1, hi)
    decreases hi - lo
  {
    hide Leaf, IsValid;
    if !IsValid(Leaf(root, m, lo)) { FirstLeaf(root, m, lo + 1, hi); }
  }

  /** Unmaps the pages from `s` up to `e`, as far as the iterator goes, and frees their frames;
      each frame is in use when it is freed. */
  method Vunmap(pt: PageTable, s: nat, e: nat)
    requires pt.Valid() && s <= e <= PAGES
    requires FramesOk(pt.root, ViewOf(pt), s, EffectiveEnd(e))
    modifies pt
    ensures pt.Valid()
    ensures Unmapped(pt.root, old(ViewOf(pt)), ViewOf(pt), s, EffectiveEnd(e))
    ensures SameTables(pt.root, old(pt.mem), pt.mem)
  {
    hide Leaf, PhysicalAddr, IsValid, Owned, Remaining, ItersOk, TableAddr, Leaves, EffectiveEnd, Unmapped;
    ghost var before, hi, done := ViewOf(pt), EffectiveEnd(e), s;
    EndInRange(e);
    var it := new InternalRangeIter(pt, s, e);
    EmptyUnmap(pt.root, before, s);
    while true
      invariant fresh(it) && it.pt == pt && it.s == s && it.e == e && it.Valid()
      invariant it.ToYield(0) == Leaves(pt.root, before.mem, done, hi)
      invariant s <= done && (done <= hi || done == s)
      invariant Unmapped(pt.root, before, ViewOf(pt), s, done) && SameTables(pt.root, before.mem, pt.mem)
      decreases if done <= hi then hi - done else 0
    {
      var next, place := it.Next();
      if next.None? {
        UnmapRest(pt.root, before, ViewOf(pt), s, done, hi);
        return;
      }
      var (v, x) := next.value;
      FirstLeaf(pt.root, before.mem, done, hi);
      UnmapFrame(pt.root, before, ViewOf(pt), s, done, v, hi);
      ghost var mid := ViewOf(pt);
      pt.WriteLeaf(place.0, place.1, 0, v);
      pt.FreeFrame(PhysicalAddr(x));
      UnmapStep(pt.root, before, mid, ViewOf(pt), s, done, v);
      IterationUndisturbed(pt.root, mid.mem, pt.mem, it.iters, s, e, 0, v, 0);
      done := v + 1;
    }
  }

  lemma EndInRange(e: nat)
    requires e <= PAGES
    ensures EffectiveEnd(e) <= e
  {
  }

  lemma EmptyUnmap(root: nat, b: View, s: nat)
    requires s <= PAGES
    ensures Unmapped(root, b, b, s, s)
  {
  }

  lemma UnmapRest(root: nat, b: View, c: View, s: nat, done: nat, hi: nat)
    requires Unmapped(root, b, c, s, done) && s <= done && (done <= hi || done == s) && hi <= PAGES
    requires Leaves(root, b.mem, done, hi) == []
    ensures Unmapped(root, b, c, s, hi)
  {
    hide Leaf, PhysicalAddr, IsValid;
    NoneValid(root, b.mem, done, hi);
  }

  lemma {:induction false} NoneValid(root: nat, m: Memory, lo: nat, hi: nat)
    requires hi <= PAGES && Leaves(root, m, lo, hi) == []
    ensures forall v :: lo <= v < hi ==> !IsValid(Leaf(root, m, v))
    decreases hi - lo
  {
    hide Leaf, IsValid;
    if lo < hi { NoneValid(root, m, lo + 1, hi); }
  }

  /** The frame of the next page to unmap is in use. */
  lemma UnmapFrame(root: nat, b: View, c: View, s: nat, done: nat, v: nat, hi: nat)
    requires Unmapped(root, b, c, s, done) && FramesOk(root, b, s, hi) && s <= done <= v < hi
    requires IsValid(Leaf(root, b.mem, v))
    ensures var x := PhysicalAddr(Leaf(root, b.mem, v));
            x !in c.free && x !in c.owner && x != 0 && x % PGSIZE == 0
  {
    hide Leaf, PhysicalAddr, IsValid;
  }

  lemma UnmapStep(root: nat, b: View, c: View, d: View, s: nat, done: nat, v: nat)
    requires Unmapped(root, b, c, s, done) && s <= done <= v < PAGES && IsValid(Leaf(root, b.mem, v))
    requires forall w :: done <= w < v ==> !IsValid(Leaf(root, b.mem, w))
    requires OneLeaf(root, c.mem, d.mem, v, 0) && d.owner == c.owner
    requires d.free == c.free + {PhysicalAddr(Leaf(root, b.mem, v))}
    ensures Unmapped(root, b, d, s, v + 1)
  {
    hide Leaf, PhysicalAddr, IsValid;
    forall x | x in d.free
      ensures || x in b.free
              || exists w :: s <= w < v + 1 && IsValid(Leaf(root, b.mem, w)) && x == PhysicalAddr(Leaf(root, b.mem, w))
    {
    }
  }

  // ---------------------------------------------------------------- mapping

  /** How a walk ends: a failure carries the break page that is reported for the rollback. */
  datatype Outcome = Done | AlreadyMapped(page: nat) | NoMemory(page: nat) | Panicked

  predicate Failed(r: Outcome) { r.AlreadyMapped? || r.NoMemory? }

  /** The walk is at frontier `f` and asks there for a frame: at level 0 for a page, above for the
      table that an entry at `level` leads to.  Without a frame it breaks off with break page `page`. */
  ghost predicate Asks(root: nat, m: Memory, level: nat, f: Frontier, page: nat, s: nat, e: nat)
    requires e <= PAGES
  {
    var k := f.page;
    && level <= 2 && s <= k < PAGES && f == FrontierAt(level, k)
    && (if level == 0 then k < EffectiveEnd(e) && !IsValid(Leaf(root, m, k)) && page == k
        else if level == 1 then
          && LeafOf(k) < LeafEnd(e) && LeafOf(k) < Tables(0) && !HasTable(root, m, 0, LeafOf(k))
          && (k == s || k % ENTRIES == 0) && page == if MidOf(k) == MidOf(s) then s else k
        else
          && MidOf(k) < MidEnd(e) && MidOf(k) < Tables(1) && !HasTable(root, m, 1, MidOf(k))
          && (k == s || k % (ENTRIES * ENTRIES) == 0) && page == s)
  }

  /** Where and why a walk from state `a` broke off, now in state `b`. */
  ghost predicate Stopped(root: nat, a: View, b: View, r: Outcome, f: Frontier, s: nat, e: nat)
    requires e <= PAGES
  {
    && (r.AlreadyMapped? ==>
          f.page == r.page < EffectiveEnd(e) && f == FrontierAt(0, f.page) && IsValid(Leaf(root, a.mem, f.page)))
    && (r.NoMemory? ==> b.free == {} && exists level :: Asks(root, a.mem, level, f, r.page, s, e))
  }

  lemma IterGrew(root: nat, a: View, b: View, it: TableIter, s: nat, e: nat)
    requires Grew(root, a, b) && IterOk(root, a.mem, it, s, e)
    ensures IterOk(root, b.mem, it, s, e)
  {
    hide TableAddr, TablePath, EndsIn, IndexOf, UpperBoundIndex, Begins, Pages;
  }

  /** `walk_range_mut_recursive` with the closure of `vmap`: maps the part of the range that lies
      in the table of `it0`, making tables as needed.  The whole walk began in state `a`; `f` is how
      far it has come. */
  method WalkRange(pt: PageTable, it0: TableIter, s: nat, e: nat, perm: EntryPerm, ghost a: View)
    returns (r: Outcome, ghost f: Frontier)
    requires pt.Valid() && perm.valid && Placed(it0, s, e) && it0.cur == it0.start
    requires Live(it0) ==> IterOk(pt.root, pt.mem, it0, s, e)
    requires At(pt.root, a, ViewOf(pt), s, FrontierAt(it0.level, EntryStart(it0, s, it0.start)), perm)
    modifies pt
    ensures pt.Valid() && Grew(pt.root, old(ViewOf(pt)), ViewOf(pt)) && At(pt.root, a, ViewOf(pt), s, f, perm)
    ensures r.Done? ==> f == Exit(it0.last, it0.base + Pages(it0.level, ENTRIES), s, e)
    ensures r.Done? && it0.first && it0.last ==> !Misordered(s, e)
    ensures r.Panicked? ==> Misordered(s, e) && f == Last(s, e)
    ensures Failed(r) ==> Stopped(pt.root, a, ViewOf(pt), r, f, s, e)
    decreases it0.level, 1
  {
    hide Grew, IterOk, TablePath, EntryAt, TableAddr, IsValid, Owned, Leaf, Pages, At, Misordered, Exit, Last, After,
      FrontierAt, Stopped, IndexOf, UpperBoundIndex, EffectiveEnd;
    ghost var before := ViewOf(pt);
    GrewNothing(pt.root, before);
    f := FrontierAt(it0.level, EntryStart(it0, s, it0.start));
    if it0.start > it0.end {
      OutOfOrder(it0, s, e);
      return Panicked, f;
    }
    var it := it0;
    if !Live(it0) { NoEntries(it0, s, e); ExitLast(s, e); }
    while it.cur < it.end
      invariant it == it0.(cur := it.cur) && it0.start <= it.cur <= it.end
      invariant pt.Valid() && (Live(it) ==> IterOk(pt.root, pt.mem, it, s, e)) && At(pt.root, a, ViewOf(pt), s, f, perm)
      invariant Grew(pt.root, before, ViewOf(pt))
      invariant Live(it) ==> f == FrontierAt(it.level, EntryStart(it, s, it.cur))
      invariant !Live(it) ==> f == Exit(it.last, it.base + Pages(it.level, ENTRIES), s, e)
      invariant !Live(it) && it.first && it.last ==> !Misordered(s, e)
    {
      ghost var mid := ViewOf(pt);
      r, f := WalkEntry(pt, it, s, e, perm, a);
      GrewTransitive(pt.root, before, mid, ViewOf(pt));
      if !r.Done? { return; }
      IterGrew(pt.root, mid, ViewOf(pt), it, s, e);
      Onward(pt.root, pt.mem, it, s, e);
      ExitLast(s, e);
      it := it.(cur := it.cur + 1);
    }
    r := Done;
  }

  lemma ExitLast(s: nat, e: nat)
    requires e <= PAGES
    ensures forall q :: Exit(true, q, s, e) == Last(s, e)
  {
  }

  lemma GrewNothing(root: nat, a: View)
    ensures Grew(root, a, a)
  {
  }

  /** From one entry to the next. */
  lemma Onward(root: nat, m: Memory, it: TableIter, s: nat, e: nat)
    requires IterOk(root, m, it, s, e) && Placed(it, s, e)
    ensures var it' := it.(cur := it.cur + 1);
            && Placed(it', s, e) && (Live(it') ==> IterOk(root, m, it', s, e))
            && (Live(it') ==>
                  Exit(false, it.base + Pages(it.level, it.cur + 1), s, e) ==
                      FrontierAt(it.level, EntryStart(it', s, it'.cur)))
            && (!Live(it') && !it.last ==> it.cur + 1 == ENTRIES)
            && (!Live(it') && it.first && it.last && it.cur > it.start ==> !Misordered(s, e))
  {
    hide TableAddr, TablePath, Begins, EndOfWalk, UpperBoundIndex, IndexOf, Misordered, After, FrontierAt,
      EffectiveEnd, EndsIn, LastTable, Pages;
    if it.cur + 1 < it.end { NextEntry(it.level, it.base, it.cur + 1); }
    if it.first && it.last && it.start + 1 < it.end { PassedStart(it, s, e); }
  }

  method WalkEntry(pt: PageTable, it: TableIter, s: nat, e: nat, perm: EntryPerm, ghost a: View)
    returns (r: Outcome, ghost f: Frontier)
    requires pt.Valid() && perm.valid && Placed(it, s, e) && IterOk(pt.root, pt.mem, it, s, e)
    requires At(pt.root, a, ViewOf(pt), s, FrontierAt(it.level, EntryStart(it, s, it.cur)), perm)
    modifies pt
    ensures pt.Valid() && Grew(pt.root, old(ViewOf(pt)), ViewOf(pt)) && At(pt.root, a, ViewOf(pt), s, f, perm)
    ensures r.Done? ==> f == Exit(it.last && it.cur + 1 == it.end, it.base + Pages(it.level, it.cur + 1), s, e)
    ensures r.Done? && it.first && it.last && it.cur == it.start && it.cur + 1 == it.end ==> !Misordered(s, e)
    ensures r.Panicked? ==> Misordered(s, e) && f == Last(s, e)
    ensures Failed(r) ==> Stopped(pt.root, a, ViewOf(pt), r, f, s, e)
    decreases it.level, 0
  {
    hide IterOk, TablePath, EntryAt, TableAddr, IsValid, Owned, Leaf, Pages, At, Misordered, Exit, Last, After,
      FrontierAt, Stopped, IndexOf, UpperBoundIndex, EffectiveEnd, Grew, Placed, EntryStart, PhysicalAddr, Child,
      SetPerm, SetPhysicalAddr, Perm, MakePde;
    TableAtIter(pt.root, pt.mem, it, s, e);
    ghost var before, p := ViewOf(pt), EntryStart(it, s, it.cur);
    GrewNothing(pt.root, before);
    EntryRead(pt.root, pt.mem, pt.owner, it, s, e);
    f := FrontierAt(it.level, p);
    var entry := pt.mem[it.table][it.cur];
    if it.level == 0 {
      r, f := WalkLeaf(pt, it, s, e, perm, a);
      return;
    }
    EntryTable(pt.root, pt.mem, pt.owner, it, s, e);
    if !IsValid(entry) {
      var t := pt.NewTable(it.table, it.cur, TablePath(it.level, it.base));
      if t.None? {
        r := NoMemory(if it.first then s else it.base + Pages(it.level, it.cur));
        AsksTable(pt.root, pt.mem, pt.owner, a, ViewOf(pt), it, s, e, perm, r);
        return;
      }
      AttachGrows(pt.root, before, ViewOf(pt), TablePath(it.level, it.base), it.cur, t.value);
      TableMade(pt.root, a, before, ViewOf(pt), s, p, it.level, t.value, perm);
      IterGrew(pt.root, before, ViewOf(pt), it, s, e);
      EntryRead(pt.root, pt.mem, pt.owner, it, s, e);
      NewEntry(pt.root, pt.mem, TablePath(it.level, it.base) + [it.cur]);
      entry := pt.mem[it.table][it.cur];
    } else {
      TableThere(pt.root, a, before, s, p, it.level, perm);
    }
    ghost var mid := ViewOf(pt);
    var child := Child(it, PhysicalAddr(entry), s, e);
    ChildOk(pt.root, pt.mem, pt.owner, it, s, e);
    ChildPages(pt.root, pt.mem, it, PhysicalAddr(entry), s, e);
    ChildPlaced(pt.root, pt.mem, it, PhysicalAddr(entry), s, e);
    ChildExit(pt.root, pt.mem, it, PhysicalAddr(entry), s, e);
    r, f := WalkRange(pt, child, s, e, perm, a);
    GrewTransitive(pt.root, before, mid, ViewOf(pt));
  }

  lemma ChildExit(root: nat, m: Memory, it: TableIter, table: nat, s: nat, e: nat)
    requires IterOk(root, m, it, s, e) && it.level > 0
    ensures var n := Child(it, table, s, e);
            && n.base + Pages(n.level, ENTRIES) == it.base + Pages(it.level, it.cur + 1)
            && n.last == (it.last && it.cur + 1 == it.end) && n.first == (it.first && it.cur == it.start)
  {
    ChildBounds(root, m, it, s, e);
    ChildSpan(it.level, it.cur, it.end);
    hide Begins, EndsIn, EndOfWalk;
  }

  /** The closure of `vmap` on a leaf entry. */
  method WalkLeaf(pt: PageTable, it: TableIter, s: nat, e: nat, perm: EntryPerm, ghost a: View)
    returns (r: Outcome, ghost f: Frontier)
    requires pt.Valid() && perm.valid && Placed(it, s, e) && IterOk(pt.root, pt.mem, it, s, e) && it.level == 0
    requires At(pt.root, a, ViewOf(pt), s, FrontierAt(0, EntryStart(it, s, it.cur)), perm)
    modifies pt
    ensures pt.Valid() && Grew(pt.root, old(ViewOf(pt)), ViewOf(pt)) && At(pt.root, a, ViewOf(pt), s, f, perm)
    ensures r.Done? ==> f == Exit(it.last && it.cur + 1 == it.end, it.base + Pages(0, it.cur + 1), s, e)
    ensures r.Done? && it.first && it.last && it.cur == it.start && it.cur + 1 == it.end ==> !Misordered(s, e)
    ensures !r.Panicked?
    ensures Failed(r) ==> Stopped(pt.root, a, ViewOf(pt), r, f, s, e)
  {
    hide IterOk, TablePath, EntryAt, TableAddr, IsValid, Owned, Leaf, At, Misordered, Exit, Last, After, FrontierAt,
      Stopped, IndexOf, UpperBoundIndex, EffectiveEnd, Grew, Placed, EntryStart, PhysicalAddr, SetPerm,
      SetPhysicalAddr, Perm;
    ghost var before, v := ViewOf(pt), it.base + it.cur;
    GrewNothing(pt.root, before);
    EntryRead(pt.root, pt.mem, pt.owner, it, s, e);
    LeafPlace(pt.root, pt.mem, it, s, e);
    LeafIndex(pt.root, pt.mem, it, s, e);
    LeafExit(it, s, e, it.cur);
    f := FrontierAt(0, v);
    LeafUntouched(pt.root, a, before, s, v, perm);
    var entry := pt.mem[it.table][it.cur];
    if IsValid(entry) {
      r := AlreadyMapped(it.base + it.cur);
      AsksPage(pt.root, a, before, r, s, e, v);
      return;
    }
    var x := pt.AllocFrame();
    if x.None? {
      r := NoMemory(it.base + it.cur);
      AsksPage(pt.root, a, before, r, s, e, v);
      return;
    }
    VmappedEntry(entry, x.value, perm);
    var mapped := SetPerm(SetPhysicalAddr(entry, x.value), perm);
    pt.WriteLeaf(it.table, it.cur, mapped, v);
    LeafMapped(pt.root, before, ViewOf(pt), v, x.value, mapped, perm);
    PageMapped(pt.root, a, before, ViewOf(pt), s, v, x.value, perm);
    r, f := Done, FrontierAt(0, v).(page := v + 1);
  }

  lemma LeafIndex(root: nat, m: Memory, it: TableIter, s: nat, e: nat)
    requires IterOk(root, m, it, s, e) && Placed(it, s, e)
    ensures it.start <= it.cur < it.end <= ENTRIES && e <= PAGES
  {
  }

  /** The page that the walk has come to is as it was. */
  lemma LeafUntouched(root: nat, a: View, b: View, s: nat, v: nat, perm: EntryPerm)
    requires v < PAGES && At(root, a, b, s, FrontierAt(0, v), perm)
    ensures s <= v && Leaf(root, b.mem, v) == Leaf(root, a.mem, v)
  {
    hide Leaf, Grew, TablesTo, Used;
  }

  lemma AsksPage(root: nat, a: View, b: View, r: Outcome, s: nat, e: nat, v: nat)
    requires e <= PAGES && s <= v < EffectiveEnd(e) && v < PAGES && Failed(r) && r.page == v
    requires r.AlreadyMapped? <==> IsValid(Leaf(root, a.mem, v))
    requires r.NoMemory? ==> b.free == {}
    ensures Stopped(root, a, b, r, FrontierAt(0, v), s, e)
  {
    hide Leaf, IsValid, EffectiveEnd;
    if r.NoMemory? { assert Asks(root, a.mem, 0, FrontierAt(0, v), v, s, e); }
  }

  /** The table below an entry by its number. */
  lemma EntryTable(root: nat, m: Memory, owner: map<nat, Path>, it: TableIter, s: nat, e: nat)
    requires IterOk(root, m, it, s, e) && Placed(it, s, e) && Owned(root, m, owner) && it.level > 0
    ensures var p := EntryStart(it, s, it.cur);
            && s <= p < PAGES && Number(it.level, p) < Tables(it.level - 1)
            && TablePath(it.level, it.base) + [it.cur] == TableNo(it.level - 1, Number(it.level, p))
            && (HasTable(root, m, it.level - 1, Number(it.level, p)) <==>
                IsValid(EntryAt(root, m, TablePath(it.level, it.base) + [it.cur])))
  {
    var p := EntryStart(it, s, it.cur);
    EntryHolds(root, m, it, s, e);
    NumbersFit(p, p);
    PathInEntry(it.level, it.base, it.cur, p);
    NumberOfPath(it.level, p);
    if IsValid(EntryAt(root, m, TablePath(it.level, it.base) + [it.cur])) {
      TableBelow(root, m, owner, TablePath(it.level, it.base), it.cur);
    }
    hide Owned, IterOk, Placed, EntryStart, PathOf, PhysicalAddr;
  }

  lemma EntryHolds(root: nat, m: Memory, it: TableIter, s: nat, e: nat)
    requires IterOk(root, m, it, s, e) && Placed(it, s, e)
    ensures var p := EntryStart(it, s, it.cur);
            && it.base + Pages(it.level, it.cur) <= p < it.base + Pages(it.level, it.cur + 1) <= PAGES && s <= p
            && (p == s || p == it.base + Pages(it.level, it.cur))
  {
    assert Pages(it.level, 0) == 0 < Pages(it.level, 1);
    WalkEndFits(root, m, it, s, e);
    hide TableAddr, TablePath, Begins, EndOfWalk, WalkEnd, UpperBoundIndex, IndexOf, Pages, EffectiveEnd, EndsIn,
      LastTable;
    ChildSpan(it.level, it.cur, it.end);
    if it.first && it.start < it.cur { ChildSpan(it.level, it.start, it.cur + 1); }
  }

  lemma NumberOfPath(level: nat, p: nat)
    requires 1 <= level <= 2 && p < PAGES && Number(level, p) < Tables(level - 1)
    ensures PathOf(p)[..3 - level] == TableNo(level - 1, Number(level, p))
  {
    assert p / (ENTRIES * ENTRIES) == p / ENTRIES / ENTRIES;
  }

  lemma AsksTable(root: nat, m: Memory, owner: map<nat, Path>, a: View, b: View, it: TableIter, s: nat, e: nat,
                  perm: EntryPerm, r: Outcome)
    requires IterOk(root, m, it, s, e) && Placed(it, s, e) && it.level > 0 && b.mem == m && b.free == {}
    requires EntryStart(it, s, it.cur) < PAGES && Number(it.level, EntryStart(it, s, it.cur)) < Tables(it.level - 1)
    requires At(root, a, b, s, FrontierAt(it.level, EntryStart(it, s, it.cur)), perm)
    requires !HasTable(root, m, it.level - 1, Number(it.level, EntryStart(it, s, it.cur)))
    requires r == NoMemory(if it.first then s else it.base + Pages(it.level, it.cur))
    ensures Stopped(root, a, b, r, FrontierAt(it.level, EntryStart(it, s, it.cur)), s, e)
  {
    hide EffectiveEnd, Grew, Mapped, Used, HasTable;
    var k := EntryStart(it, s, it.cur);
    EntryHolds(root, m, it, s, e);
    AskedWithin(root, m, it, s, e, k);
    assert Asks(root, a.mem, it.level, FrontierAt(it.level, k), r.page, s, e);
  }

  lemma AskedWithin(root: nat, m: Memory, it: TableIter, s: nat, e: nat, k: nat)
    requires IterOk(root, m, it, s, e) && Placed(it, s, e) && it.level > 0
    requires it.base + Pages(it.level, it.cur) <= k < it.base + Pages(it.level, it.cur + 1)
    ensures it.level == 1 ==> LeafOf(k) < LeafEnd(e) && (MidOf(k) == MidOf(s) <==> it.first)
    ensures it.level == 2 ==> MidOf(k) < MidEnd(e)
    ensures (it.base + Pages(it.level, it.cur)) % ENTRIES == 0
    ensures it.level == 2 ==> (it.base + Pages(it.level, it.cur)) % (ENTRIES * ENTRIES) == 0
  {
    hide EffectiveEnd, LeafEnd, MidEnd, UpperBoundIndex, TableAddr, TablePath, IndexOf, LeafOf, MidOf;
    if it.level == 1 {
      LeafAskedWithin(root, m, it, s, e, k);
      OnEntry(it.base, it.cur);
    } else {
      RootEnds(e);
      MidWithin(it.cur, k);
    }
  }

  lemma OnEntry(b: nat, i: nat)
    requires b % (ENTRIES * ENTRIES) == 0
    ensures (b + ENTRIES * i) % ENTRIES == 0
  {
  }

  lemma MidWithin(i: nat, k: nat)
    requires ENTRIES * ENTRIES * i <= k < ENTRIES * ENTRIES * (i + 1)
    ensures MidOf(k) == i && ENTRIES * ENTRIES * i % ENTRIES == 0 && ENTRIES * ENTRIES * i % (ENTRIES * ENTRIES) == 0
  {
  }

  lemma LeafAskedWithin(root: nat, m: Memory, it: TableIter, s: nat, e: nat, k: nat)
    requires IterOk(root, m, it, s, e) && Placed(it, s, e) && it.level == 1
    requires it.base + ENTRIES * it.cur <= k < it.base + ENTRIES * (it.cur + 1)
    ensures LeafOf(k) < LeafEnd(e) && (MidOf(k) == MidOf(s) <==> it.first)
  {
    hide EffectiveEnd, LeafOf, MidOf, LeafEnd, MidEnd, UpperBoundIndex, TableAddr, TablePath, IndexOf;
    LeafWithin(it.base, it.cur, k);
    InMidTable(it.base, k);
    if it.first { InMidTable(it.base, s); } else { MidBefore(it.base, s); }
    if it.last { MidTableEnds(it.base, e); } else { LeafBefore(it.base, e); }
  }

  lemma MidBefore(b: nat, s: nat)
    requires b % (ENTRIES * ENTRIES) == 0 && s < b
    ensures MidOf(s) < MidOf(b)
  {
  }

  lemma LeafBefore(b: nat, e: nat)
    requires b % (ENTRIES * ENTRIES) == 0 && e <= PAGES && b + ENTRIES * ENTRIES <= EffectiveEnd(e)
    ensures LeafOf(b) + ENTRIES <= LeafEnd(e)
  {
    Ends(e);
    hide EffectiveEnd, LeafEnd, MidEnd;
  }

  lemma LeafWithin(b: nat, i: nat, k: nat)
    requires b % (ENTRIES * ENTRIES) == 0 && b + ENTRIES * i <= k < b + ENTRIES * (i + 1)
    ensures LeafOf(k) == LeafOf(b) + i
  {
  }

  lemma TableAtIter(root: nat, m: Memory, it: TableIter, s: nat, e: nat)
    requires IterOk(root, m, it, s, e)
    ensures it.level <= 2 && it.base < PAGES && it.cur < ENTRIES && (it.last ==> EndsIn(it.level, it.base, e))
    ensures it.table == TableAddr(root, m, TablePath(it.level, it.base)) != 0
  {
  }

  lemma NewEntry(root: nat, m: Memory, p: Path)
    requires IsPath(p, 2) && p != [] && TableAddr(root, m, p) != 0
    ensures IsValid(EntryAt(root, m, p))
  {
  }

  /** The frames that a mapping took are fit to be freed. */
  lemma MappedFrames(root: nat, a: View, b: View, lo: nat, k: nat, hi: nat, perm: EntryPerm)
    requires Mapped(root, a, b, lo, k, perm) && hi <= k
    requires forall x :: x in a.free ==> x != 0 && x % PGSIZE == 0
    ensures FramesOk(root, b, lo, hi)
  {
    hide Leaf, PhysicalAddr, IsValid, Perm;
    forall v | lo <= v < hi
      ensures Fresh(a, b, PhysicalAddr(Leaf(root, b.mem, v)))
    {
    }
  }

  /** What a failed `vmap` leaves behind: of the pages it had mapped up to page `k`, those from
      `hi` on are still mapped; every other page is as before. */
  ghost predicate LeftMapped(root: nat, a: View, c: View, s: nat, hi: nat, k: nat) {
    k <= PAGES
    && forall v :: 0 <= v < PAGES ==>
         && (IsValid(Leaf(root, c.mem, v)) <==> IsValid(Leaf(root, a.mem, v)) || (s <= v < k && hi <= v))
         && (IsValid(Leaf(root, a.mem, v)) ==> Leaf(root, c.mem, v) == Leaf(root, a.mem, v))
         && (s <= v < k ==> !IsValid(Leaf(root, a.mem, v)))
  }

  /** Every frame that was free is free again, became a table, or is the frame of a page that was
      left mapped. */
  ghost predicate FramesKept(root: nat, a: View, c: View, s: nat, hi: nat, k: nat) {
    k <= PAGES && forall x :: x in a.free ==> x in c.free || x in c.owner || Backs(root, c, Max(s, hi), k, x)
  }

  lemma RolledBack(root: nat, a: View, b: View, c: View, s: nat, hi: nat, k: nat, perm: EntryPerm)
    requires Mapped(root, a, b, s, k, perm) && perm.valid && Unmapped(root, b, c, s, hi) && hi <= k
    requires Grew(root, a, b) && SameTables(root, b.mem, c.mem)
    ensures LeftMapped(root, a, c, s, hi, k) && Grew(root, a, c)
    ensures FramesKept(root, a, c, s, hi, k)
  {
    PdeFacts(0);
    forall v | s <= v < k
      ensures IsValid(Leaf(root, b.mem, v))
    {
      assert Perm(Leaf(root, b.mem, v)).valid;
    }
    hide Leaf, PhysicalAddr, IsValid, Perm, TableAddr;
    forall v | s <= v < k
      ensures Fresh(a, b, PhysicalAddr(Leaf(root, b.mem, v)))
    {
    }
    forall x | x in a.free
      ensures x in c.free || x in c.owner || Backs(root, c, Max(s, hi), k, x)
    {
      if Backs(root, b, s, k, x) {
        var v :| s <= v < k && PhysicalAddr(Leaf(root, b.mem, v)) == x;
        if v >= hi { assert Max(s, hi) <= v < k && PhysicalAddr(Leaf(root, c.mem, v)) == x; }
      }
    }
  }

  // ---------------------------------------------------------------- the outcome, from the inputs

  /** The frames that the whole walk takes: its pages and the tables that are missing. */
  ghost function Need(root: nat, m: Memory, s: nat, e: nat): nat
    requires s <= e <= PAGES
  {
    FrontiersProper(s, e, 0);
    Used(root, m, s, Last(s, e))
  }

  /** The frames it takes up to and with page `k`. */
  ghost function NeedThrough(root: nat, m: Memory, s: nat, e: nat, k: nat): nat
    requires s <= e <= PAGES
  {
    FrontiersProper(s, e, k);
    Used(root, m, s, Through(s, e, k))
  }

  lemma FrontiersProper(s: nat, e: nat, k: nat)
    requires s <= e <= PAGES
    ensures Proper(Last(s, e)) && Proper(Through(s, e, k)) && Upto(Through(s, e, k), Last(s, e))
  {
    Ends(e);
    hide LeafEnd, MidEnd;
  }

  /** The walk cannot pass page `k`: the page is mapped, or the frames do not last. */
  ghost predicate Obstacle(root: nat, a: View, s: nat, e: nat, k: nat)
    requires s <= e <= PAGES
  {
    (k < EffectiveEnd(e) <= PAGES && IsValid(Leaf(root, a.mem, k))) || NeedThrough(root, a.mem, s, e, k) > |a.free|
  }

  ghost predicate FirstObstacle(root: nat, a: View, s: nat, e: nat, k: nat)
    requires s <= e <= PAGES
  {
    s <= k < PAGES && Obstacle(root, a, s, e, k) && forall v :: s <= v < k ==> !Obstacle(root, a, s, e, v)
  }

  /** The break page of a walk that stops at page `k`: the first page of the range if a table is
      missing there that is reported from the root, or from the table that the range begins in. */
  ghost function BreakPage(root: nat, a: View, s: nat, k: nat): nat
    requires k < PAGES
  {
    NumbersFit(k, k);
    if IsValid(Leaf(root, a.mem, k)) || Used(root, a.mem, s, FrontierAt(0, k)) <= |a.free| then k
    else if MidOf(k) == MidOf(s) || Used(root, a.mem, s, FrontierAt(1, k)) > |a.free| then s
    else k
  }

  /** The pages passed before the stop were no obstacles. */
  lemma NoneBefore(root: nat, a: View, b: View, s: nat, e: nat, f: Frontier, level: nat, v: nat, perm: EntryPerm)
    requires s <= e <= PAGES && At(root, a, b, s, f, perm) && level <= 2 && f == FrontierAt(level, f.page)
    requires s <= v < f.page
    requires level == 1 ==> f.page % ENTRIES == 0
    requires level == 2 ==> f.page % (ENTRIES * ENTRIES) == 0
    ensures !Obstacle(root, a, s, e, v)
  {
    hide Leaf, IsValid, Grew, TablesTo, Used, LeafEnd, MidEnd, EffectiveEnd;
    FrontiersProper(s, e, v);
    NumbersBefore(s, v, f.page, level);
    UsedMore(root, a.mem, s, Through(s, e, v), f);
  }

  lemma NumbersBefore(s: nat, v: nat, k: nat, level: nat)
    requires s <= v < k && level <= 2
    requires level == 1 ==> k % ENTRIES == 0
    requires level == 2 ==> k % (ENTRIES * ENTRIES) == 0
    ensures MidOf(s) <= MidOf(v) && LeafOf(s) <= LeafOf(v)
    ensures MidOf(v) + 1 <= FrontierAt(level, k).mid && LeafOf(v) + 1 <= FrontierAt(level, k).leaf
  {
    NumbersGrow(s, v);
    NumbersGrow(v, k);
    if level > 0 { LeafBelow(v, k); }
    if level > 1 { MidBefore(k, v); }
    hide MidOf, LeafOf;
  }

  lemma NumbersGrow(v: nat, w: nat)
    requires v <= w
    ensures MidOf(v) <= MidOf(w) && LeafOf(v) <= LeafOf(w)
  {
  }

  lemma LeafBelow(v: nat, k: nat)
    requires v < k && (k % ENTRIES == 0 || k % (ENTRIES * ENTRIES) == 0)
    ensures LeafOf(v) < LeafOf(k)
  {
  }

  /** What the walk asks for lies within it, and takes one more frame. */
  lemma AskedTakes(root: nat, m: Memory, level: nat, f: Frontier, page: nat, s: nat, e: nat)
    requires s <= e <= PAGES && Asks(root, m, level, f, page, s, e) && Proper(f)
    ensures Used(root, m, s, f) + 1 <= NeedThrough(root, m, s, e, f.page) <= Need(root, m, s, e)
  {
    hide Leaf, IsValid, HasTable, Used, LeafEnd, MidEnd, EffectiveEnd, MidOf, LeafOf;
    var k := f.page;
    FrontiersProper(s, e, k);
    AskedBounds(level, s, e, k);
    NumbersFit(s, k);
    var g := if level == 0 then f.(page := k + 1) else if level == 1 then f.(leaf := f.leaf + 1)
        else f.(mid := f.mid + 1);
    if level == 0 {
      UsedPage(root, m, s, f);
    } else if level == 1 {
      UsedLeaf(root, m, s, f);
    } else {
      UsedMid(root, m, s, f);
    }
    UsedMore(root, m, s, g, Through(s, e, k));
    UsedMore(root, m, s, Through(s, e, k), Last(s, e));
  }

  lemma UsedPage(root: nat, m: Memory, s: nat, f: Frontier)
    requires Proper(f) && s <= f.page < PAGES
    ensures Used(root, m, s, f.(page := f.page + 1)) == Used(root, m, s, f) + 1
  {
    hide Missing, MidOf, LeafOf;
  }

  lemma AskedBounds(level: nat, s: nat, e: nat, k: nat)
    requires s <= e <= PAGES && level <= 2 && s <= k < PAGES
    requires level == 0 ==> k < EffectiveEnd(e)
    requires level == 1 ==> LeafOf(k) < LeafEnd(e) && (k == s || k % ENTRIES == 0)
    requires level == 2 ==> MidOf(k) < MidEnd(e) && (k == s || k % (ENTRIES * ENTRIES) == 0)
    ensures MidOf(k) < MidEnd(e)
    ensures level <= 1 ==> LeafOf(k) < LeafEnd(e)
    ensures level == 2 ==> k == s || LeafOf(k) <= LeafEnd(e)
    ensures k == s || k <= EffectiveEnd(e)
  {
    hide LeafEnd, MidEnd, EffectiveEnd, LeafOf, MidOf;
    Ends(e);
    Lies(k);
  }

  /** A page without a leaf table is not mapped. */
  lemma NoTableNoLeaf(root: nat, m: Memory, owner: map<nat, Path>, level: nat, k: nat)
    requires Owned(root, m, owner) && k < PAGES && 1 <= level <= 2 && Number(level, k) < Tables(level - 1)
    requires !HasTable(root, m, level - 1, Number(level, k))
    ensures !IsValid(Leaf(root, m, k))
  {
    NumberOfPath(level, k);
    NoLeafBelow(root, m, owner, k, PathOf(k)[..3 - level]);
  }

  lemma AskedUnmapped(root: nat, a: View, level: nat, f: Frontier, page: nat, s: nat, e: nat)
    requires Owned(root, a.mem, a.owner) && e <= PAGES && Asks(root, a.mem, level, f, page, s, e)
    ensures !IsValid(Leaf(root, a.mem, f.page))
  {
    hide Owned, Leaf, IsValid, HasTable, EffectiveEnd, LeafEnd, MidEnd;
    if level > 0 { NoTableNoLeaf(root, a.mem, a.owner, level, f.page); }
  }

  lemma AskedBreak(root: nat, a: View, level: nat, f: Frontier, page: nat, s: nat, e: nat)
    requires e <= PAGES && Asks(root, a.mem, level, f, page, s, e) && Proper(f) && |a.free| == Used(root, a.mem, s, f)
    requires !IsValid(Leaf(root, a.mem, f.page))
    ensures page == BreakPage(root, a, s, f.page)
  {
    hide Leaf, IsValid, HasTable, Used, EffectiveEnd, LeafEnd, MidEnd, MidOf, LeafOf;
    var k := f.page;
    NumbersFit(s, k);
    if level == 1 { UsedLeaf(root, a.mem, s, f); }
    if level == 2 {
      UsedMid(root, a.mem, s, f);
      UsedMore(root, a.mem, s, FrontierAt(1, k), FrontierAt(0, k));
    }
  }

  /** A walk that broke off did so at the first obstacle. */
  lemma StoppedFirst(root: nat, a: View, b: View, r: Outcome, f: Frontier, s: nat, e: nat, perm: EntryPerm)
    requires s <= e <= PAGES && At(root, a, b, s, f, perm) && Failed(r) && Stopped(root, a, b, r, f, s, e)
    requires Owned(root, a.mem, a.owner)
    ensures FirstObstacle(root, a, s, e, f.page)
    ensures r == if IsValid(Leaf(root, a.mem, f.page)) then AlreadyMapped(f.page)
                 else NoMemory(BreakPage(root, a, s, f.page))
    ensures || Need(root, a.mem, s, e) > |a.free|
            || exists v :: s <= v < EffectiveEnd(e) <= PAGES && IsValid(Leaf(root, a.mem, v))
  {
    hide Owned, Leaf, IsValid, HasTable, LeafEnd, MidEnd, EffectiveEnd, MidOf, LeafOf, Used, Grew, Mapped, TablesTo,
      Need, NeedThrough;
    var k := f.page;
    EndInRange(e);
    if r.AlreadyMapped? {
      forall v | s <= v < k
        ensures !Obstacle(root, a, s, e, v)
      {
        NoneBefore(root, a, b, s, e, f, 0, v, perm);
      }
    } else {
      var level :| Asks(root, a.mem, level, f, r.page, s, e);
      AskedTakes(root, a.mem, level, f, r.page, s, e);
      AskedUnmapped(root, a, level, f, r.page, s, e);
      forall v | s <= v < k
        ensures !Obstacle(root, a, s, e, v)
      {
        NoneBefore(root, a, b, s, e, f, level, v, perm);
      }
      AskedBreak(root, a, level, f, r.page, s, e);
    }
  }

  ghost predicate NoneMapped(root: nat, m: Memory, lo: nat, hi: nat)
    requires hi <= PAGES
  {
    forall v :: lo <= v < hi ==> !IsValid(Leaf(root, m, v))
  }

  /** Nothing is in the way of the walk. */
  ghost predicate Fits(root: nat, a: View, s: nat, e: nat)
    requires s <= e <= PAGES
  {
    !Misordered(s, e) && Need(root, a.mem, s, e) <= |a.free| && NoneMapped(root, a.mem, s, EffectiveEnd(e))
  }

  /** The walk was made in full: its tables are there, its pages are mapped to frames of their own,
      and it took just the frames it needs. */
  ghost predicate Made(root: nat, a: View, b: View, s: nat, e: nat, perm: EntryPerm)
    requires s <= e <= PAGES
  {
    && Grew(root, a, b) && TablesTo(root, a.mem, b.mem, s, Last(s, e)) && |b.free| + Need(root, a.mem, s, e) == |a.free|
    && Mapped(root, a, b, s, EffectiveEnd(e), perm) && FramesOk(root, b, s, EffectiveEnd(e))
  }

  /** The walk broke off at its first obstacle `k` and was rolled back up to the break page. */
  ghost predicate BrokeOff(root: nat, a: View, b: View, r: Outcome, s: nat, e: nat, k: nat)
    requires s <= e <= PAGES
  {
    && FirstObstacle(root, a, s, e, k) && Failed(r)
    && r == (if IsValid(Leaf(root, a.mem, k)) then AlreadyMapped(k) else NoMemory(BreakPage(root, a, s, k)))
    && r.page <= PAGES && LeftMapped(root, a, b, s, EffectiveEnd(r.page), k)
    && Grew(root, a, b) && FramesKept(root, a, b, s, EffectiveEnd(r.page), k)
  }

  /** `vmap`: maps the pages from `s` up to `e`, as far as the walk goes, to fresh frames.  It
      succeeds exactly when the bounds are in order, no page that it reaches is mapped and the frames
      last; it panics exactly when the bounds are out of order and the frames last for the tables on
      the way, and has then mapped nothing.  It fails at the first obstacle `k`, and the pages up to
      the walk's end for the break page are unmapped again. */
  method Vmap(pt: PageTable, s: nat, e: nat, perm: EntryPerm) returns (r: Outcome, ghost k: nat)
    requires pt.Valid() && s <= e <= PAGES
    modifies pt
    ensures pt.Valid()
    ensures r.Done? <==> Fits(pt.root, old(ViewOf(pt)), s, e)
    ensures r.Panicked? <==> Misordered(s, e) && old(Need(pt.root, pt.mem, s, e) <= |pt.free|)
    ensures r.Done? ==> Made(pt.root, old(ViewOf(pt)), ViewOf(pt), s, e, perm.(valid := true))
    ensures r.Panicked? ==> Grew(pt.root, old(ViewOf(pt)), ViewOf(pt)) && SameLeaves(pt.root, old(pt.mem), pt.mem)
    ensures Failed(r) ==> BrokeOff(pt.root, old(ViewOf(pt)), ViewOf(pt), r, s, e, k)
  {
    hide Leaf, IsValid, Owned, IterOk, EffectiveEnd, Unmapped, Mapped, Grew, FramesOk, EntryStart, At, Misordered,
      Need, Last, TablesTo, NoneMapped, Placed, FrontierAt, FirstObstacle, BreakPage, LeftMapped, Stopped, FramesKept;
    var flags := perm.(valid := true);
    ghost var before := ViewOf(pt);
    var it := NewIter(pt.root, 2, 0, s, e, true, true);
    if e == 0 || s == PAGES {
      // No entry is visited: the range is empty.
      NothingToMap(pt.root, before, s, e, flags);
      DoneWhen(pt.root, before, before, s, e, flags);
      return Done, s;
    }
    RootPages(pt.root, pt.mem, pt.owner, s, e);
    RootPlaced(pt.root, s, e);
    AtStart(pt.root, before, s, flags);
    ghost var f;
    r, f := WalkRange(pt, it, s, e, flags, before);
    k := f.page;
    ghost var mid := ViewOf(pt);
    if r.Done? {
      ExitLast(s, e);
      DoneWhen(pt.root, before, mid, s, e, flags);
    } else if r.Panicked? {
      PanickedWhen(pt.root, before, mid, s, e, flags);
    } else {
      StoppedFirst(pt.root, before, mid, r, f, s, e, flags);
      FailedWhen(pt.root, before, s, e);
      BreakBefore(pt.root, before, mid, r, f, s, e, flags);
      EndInRange(r.page);
      MappedFrames(pt.root, before, mid, s, k, EffectiveEnd(r.page), flags);
      Vunmap(pt, s, r.page);
      RolledBack(pt.root, before, mid, ViewOf(pt), s, EffectiveEnd(r.page), k, flags);
    }
  }

  lemma NothingToMap(root: nat, a: View, s: nat, e: nat, perm: EntryPerm)
    requires s <= e <= PAGES && (e == 0 || s == PAGES)
    ensures At(root, a, a, s, Last(s, e), perm) && !Misordered(s, e)
  {
    MappedNothing(root, a, s, s, perm);
  }

  /** What a walk that got done found and left. */
  lemma DoneWhen(root: nat, a: View, b: View, s: nat, e: nat, perm: EntryPerm)
    requires s <= e <= PAGES && At(root, a, b, s, Last(s, e), perm)
    requires forall x :: x in a.free ==> x != 0 && x % PGSIZE == 0
    ensures Need(root, a.mem, s, e) <= |a.free| && NoneMapped(root, a.mem, s, EffectiveEnd(e))
    ensures |b.free| + Need(root, a.mem, s, e) == |a.free| && Grew(root, a, b)
    ensures TablesTo(root, a.mem, b.mem, s, Last(s, e))
    ensures Mapped(root, a, b, s, EffectiveEnd(e), perm) && FramesOk(root, b, s, EffectiveEnd(e))
  {
    hide Leaf, IsValid, Grew, TablesTo, Used, PhysicalAddr, Perm, MidOf, LeafOf, MidEnd, LeafEnd;
    EndInRange(e);
    var hi := Last(s, e).page;
    MappedFrames(root, a, b, s, hi, EffectiveEnd(e), perm);
  }

  lemma PanickedWhen(root: nat, a: View, b: View, s: nat, e: nat, perm: EntryPerm)
    requires s <= e <= PAGES && At(root, a, b, s, Last(s, e), perm) && Misordered(s, e)
    ensures Need(root, a.mem, s, e) <= |a.free| && SameLeaves(root, a.mem, b.mem)
    ensures |b.free| + Need(root, a.mem, s, e) == |a.free| && Grew(root, a, b)
    ensures TablesTo(root, a.mem, b.mem, s, Last(s, e))
  {
    hide Leaf, IsValid, Grew, TablesTo, Used, PhysicalAddr, Perm, MidOf, LeafOf, MidEnd, LeafEnd, Misordered,
      EffectiveEnd;
    MisorderedEnd(s, e);
  }

  /** A walk that failed found a mapped page or too few frames. */
  lemma FailedWhen(root: nat, a: View, s: nat, e: nat)
    requires s <= e <= PAGES
    requires || Need(root, a.mem, s, e) > |a.free|
             || exists v :: s <= v < EffectiveEnd(e) <= PAGES && IsValid(Leaf(root, a.mem, v))
    ensures EffectiveEnd(e) <= PAGES
    ensures Need(root, a.mem, s, e) > |a.free| || (!NoneMapped(root, a.mem, s, EffectiveEnd(e)) && !Misordered(s, e))
  {
    hide Leaf, IsValid, Need, Misordered;
    EndInRange(e);
    if Misordered(s, e) { MisorderedEnd(s, e); }
  }

  lemma BreakBefore(root: nat, a: View, b: View, r: Outcome, f: Frontier, s: nat, e: nat, perm: EntryPerm)
    requires e <= PAGES && At(root, a, b, s, f, perm) && Failed(r) && Stopped(root, a, b, r, f, s, e)
    ensures s <= r.page <= f.page <= PAGES && Mapped(root, a, b, s, f.page, perm) && Grew(root, a, b)
  {
    hide Leaf, IsValid, Grew, TablesTo, Used, MidOf, LeafOf, MidEnd, LeafEnd, EffectiveEnd, Mapped;
  }

  /** The pages that the range walk and the range iterator reach. */
  predicate Reached(s: nat, e: nat, v: nat)
    requires e <= PAGES
  {
    s <= v < EffectiveEnd(e)
  }

  /** Every page of a range is reached exactly when the range is empty or its end is no multiple
      of 512 pages. */
  lemma WholeRangeReached(s: nat, e: nat)
    requires s <= e <= PAGES
    ensures (forall v :: s <= v < e ==> Reached(s, e, v)) <==> s == e || e % ENTRIES != 0
  {
    if s < e && e % ENTRIES == 0 { assert !Reached(s, e, e - 1); }
  }

  /** The pages from 0 to 512: `vmap` succeeds without mapping any of them. */
  lemma NothingReached()
    ensures forall v :: 0 <= v < ENTRIES ==> !Reached(0, ENTRIES, v)
  {
  }

  /** Inside a leaf table the walk stops for the page itself. */
  lemma BreaksHere(root: nat, a: View, s: nat, e: nat, k: nat)
    requires s <= e <= PAGES && FirstObstacle(root, a, s, e, k) && s < k && k % ENTRIES != 0
    ensures BreakPage(root, a, s, k) == k
  {
    hide Leaf, IsValid, Used, EffectiveEnd, LeafEnd, MidEnd, MidOf, LeafOf;
    assert !Obstacle(root, a, s, e, k - 1);
    PageBefore(k);
    AskedBounds(0, s, e, k);
    NumbersFit(s, k);
    assert FrontierAt(0, k) == Through(s, e, k - 1);
  }

  /** After a failure no page is left mapped exactly when the first obstacle is at the first page of
      the range or at no multiple of 512 pages. */
  lemma RollbackComplete(root: nat, a: View, c: View, s: nat, e: nat, k: nat)
    requires s <= e <= PAGES && FirstObstacle(root, a, s, e, k) && BreakPage(root, a, s, k) <= PAGES
    requires LeftMapped(root, a, c, s, EffectiveEnd(BreakPage(root, a, s, k)), k)
    ensures (forall v :: 0 <= v < PAGES ==> (IsValid(Leaf(root, c.mem, v)) <==> IsValid(Leaf(root, a.mem, v))))
            <==> k == s || k % ENTRIES != 0
  {
    hide Leaf, IsValid, Used, LeafEnd, MidEnd, MidOf, LeafOf, Obstacle;
    if k > s {
      if k % ENTRIES != 0 {
        BreaksHere(root, a, s, e, k);
      } else {
        assert EffectiveEnd(BreakPage(root, a, s, k)) < k;
        assert !IsValid(Leaf(root, a.mem, k - 1)) && IsValid(Leaf(root, c.mem, k - 1));
      }
    }
  }

  /** A rollback that leaves pages mapped: with page 512 mapped and frames enough, mapping from page
      0 over it fails, and pages 0 to 511 stay mapped. */
  method RollbackLeaves(pt: PageTable, perm: EntryPerm) returns (r: Outcome)
    requires pt.Valid() && IsValid(Leaf(pt.root, pt.mem, ENTRIES)) && NoneMapped(pt.root, pt.mem, 0, ENTRIES)
    requires |pt.free| >= ENTRIES + 2
    modifies pt
    ensures pt.Valid() && r == AlreadyMapped(ENTRIES)
    ensures forall v :: 0 <= v < ENTRIES ==> IsValid(Leaf(pt.root, pt.mem, v))
  {
    hide Leaf, IsValid, Owned, Used, Obstacle, LeftMapped, BreakPage;
    ghost var a := ViewOf(pt);
    ObstacleAt512(pt.root, a, ENTRIES + 2);
    ghost var k;
    r, k := Vmap(pt, 0, ENTRIES + 2, perm);
    assert k == ENTRIES;
    StaysMapped(pt.root, a, ViewOf(pt));
  }

  lemma ObstacleAt512(root: nat, a: View, e: nat)
    requires e == ENTRIES + 2
    requires IsValid(Leaf(root, a.mem, ENTRIES)) && NoneMapped(root, a.mem, 0, ENTRIES) && |a.free| >= ENTRIES + 2
    ensures Obstacle(root, a, 0, e, ENTRIES) && !NoneMapped(root, a.mem, 0, EffectiveEnd(e))
    ensures forall v :: 0 <= v < ENTRIES ==> !Obstacle(root, a, 0, e, v)
  {
    hide Leaf, IsValid, NeedThrough;
    forall v | 0 <= v < ENTRIES
      ensures !Obstacle(root, a, 0, e, v)
    {
      FewFrames(root, a.mem, v);
    }
  }

  lemma FewFrames(root: nat, m: Memory, v: nat)
    requires v < ENTRIES
    ensures NeedThrough(root, m, 0, ENTRIES + 2, v) <= ENTRIES + 2
  {
    assert Through(0, ENTRIES + 2, v) == Frontier(1, 1, v + 1);
    MissingAtMost(root, m, 1, 0, 1);
    MissingAtMost(root, m, 0, 0, 1);
    hide Missing;
  }

  lemma StaysMapped(root: nat, a: View, c: View)
    requires LeftMapped(root, a, c, 0, EffectiveEnd(ENTRIES), ENTRIES)
    ensures forall v :: 0 <= v < ENTRIES ==> IsValid(Leaf(root, c.mem, v))
  {
    hide Leaf, IsValid;
  }

  /** Such a state is reached from an empty page table by mapping page 512. */
  method RollbackRun(frame: nat, frames: set<nat>, perm: EntryPerm) returns (pt: PageTable, r: Outcome)
    requires frame != 0 && frame % PGSIZE == 0 && frame !in frames && |frames| >= ENTRIES + 5
    requires forall a :: a in frames ==> a != 0 && a % PGSIZE == 0
    ensures fresh(pt) && pt.Valid() && r == AlreadyMapped(ENTRIES)
    ensures forall v :: 0 <= v < ENTRIES ==> IsValid(Leaf(pt.root, pt.mem, v))
  {
    hide Leaf, IsValid, Perm, Owned, Used, Need, Grew, TablesTo, FramesOk, PageTable.Valid;
    pt := new PageTable(frame, frames);
    ghost var a := ViewOf(pt);
    ThreeFrames(pt.root, pt.mem);
    ghost var k;
    r, k := Vmap(pt, ENTRIES, ENTRIES + 1, perm);
    ValidPage(pt.root, pt.mem, a, ViewOf(pt), perm.(valid := true));
    r := RollbackLeaves(pt, perm);
  }

  lemma ThreeFrames(root: nat, m: Memory)
    ensures Need(root, m, ENTRIES, ENTRIES + 1) <= 3
  {
    assert Last(ENTRIES, ENTRIES + 1) == Frontier(1, 2, ENTRIES + 1);
    MissingAtMost(root, m, 1, 0, 1);
    MissingAtMost(root, m, 0, 1, 2);
    hide Missing;
  }

  lemma ValidPage(root: nat, m: Memory, a: View, b: View, perm: EntryPerm)
    requires Mapped(root, a, b, ENTRIES, ENTRIES + 1, perm) && perm.valid && NoneMapped(root, a.mem, 0, ENTRIES)
    ensures IsValid(Leaf(root, b.mem, ENTRIES)) && NoneMapped(root, b.mem, 0, ENTRIES)
  {
    assert Perm(Leaf(root, b.mem, ENTRIES)).valid;
    hide Leaf, PhysicalAddr;
  }

  /** A panic: a segment of 0x180 pages at page 0x200080, the base of user programs, ends at a
      multiple of 512 pages in the leaf table that it begins in. */
  method PanicReached(pt: PageTable, perm: EntryPerm) returns (r: Outcome)
    requires pt.Valid() && |pt.free| >= 2
    modifies pt
    ensures pt.Valid() && r.Panicked? && SameLeaves(pt.root, old(pt.mem), pt.mem)
  {
    hide Leaf, IsValid, Owned, Used, Need, Grew, TablesTo;
    TwoTables(pt.root, pt.mem);
    ghost var k;
    r, k := Vmap(pt, 0x200080, 0x200200, perm);
  }

  lemma TwoTables(root: nat, m: Memory)
    ensures Misordered(0x200080, 0x200200) && Need(root, m, 0x200080, 0x200200) <= 2
  {
    assert Last(0x200080, 0x200200) == Frontier(9, 0x1001, 0x200080);
    MissingAtMost(root, m, 1, 8, 9);
    MissingAtMost(root, m, 0, 0x1000, 0x1001);
    hide Missing;
  }
}
