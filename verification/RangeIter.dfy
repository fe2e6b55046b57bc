/** The three-level iterator over the valid entries of a range of pages. */
module RangeIter {
  import opened Pte
  import opened PageTree
  import opened Sv39
  import opened Sv39Range
  import opened Wrappers

  function Left(it: TableIter): nat { if it.cur < it.end then it.end - it.cur else 0 }

  /** The iterator at level `l`, once loaded, works on the table that the one above reached last. */
  ghost predicate Linked(iters: seq<TableIter>, l: nat)
    requires |iters| == 3 && l < 2
  {
    var low, up := iters[l], iters[l + 1];
    low.level == l ==>
      && up.level == l + 1 && up.start < up.cur <= ENTRIES
      && low.base + Pages(l, ENTRIES) <= up.base + Pages(l + 1, up.cur)
  }

  ghost predicate ItersOk(root: nat, m: Memory, iters: seq<TableIter>, s: nat, e: nat, level: nat) {
    && |iters| == 3
    && (forall l :: 0 <= l < 3 && Live(iters[l]) ==> iters[l].level == l && IterOk(root, m, iters[l], s, e))
    && (forall l :: level <= l < 2 ==> Linked(iters, l))
  }

  /** What the iterators from `level` up have still to yield. */
  ghost function Remaining(root: nat, m: Memory, iters: seq<TableIter>, s: nat, e: nat, level: nat): seq<(nat, nat)>
    requires ItersOk(root, m, iters, s, e, level) && level <= 2
    decreases 2 - level
  {
    Rest(root, m, iters[level], s, e) + if level < 2 then Remaining(root, m, iters, s, e, level + 1) else []
  }

  class InternalRangeIter {
    const pt: PageTable
    const s: nat
    const e: nat
    var iters: seq<TableIter>

    /** Valid as far as the iterators from `level` up are concerned. */
    ghost predicate ValidFrom(level: nat)
      reads this, pt
    {
      pt.Valid() && ItersOk(pt.root, pt.mem, iters, s, e, level)
    }

    ghost predicate Valid()
      reads this, pt
    {
      ValidFrom(0)
    }

    ghost function ToYield(level: nat): seq<(nat, nat)>
      requires ValidFrom(level) && level <= 2
      reads this, pt
    {
      Remaining(pt.root, pt.mem, iters, s, e, level)
    }

    /** Positions the iterator at the start of the pages `from` up to `to`. */
    constructor (table: PageTable, from: nat, to: nat)
      requires table.Valid() && from <= to <= PAGES
      ensures Valid() && pt == table && s == from && e == to
      ensures ToYield(0) == Leaves(pt.root, pt.mem, from, EffectiveEnd(to))
    {
      pt, s, e := table, from, to;
      var dummy := NewIter(table.root, 2, 0, 0, 0, true, true);
      iters := [dummy, dummy, NewIter(table.root, 2, 0, from, to, true, true)];
      new;
      RootIter(pt.root, pt.mem, pt.owner, from, to);
      hide Rest, Leaves, IterOk, NewIter;
    }

    /** The next valid entry of the table at `level`. */
    method TableNext(level: nat) returns (r: Option<nat>)
      requires ValidFrom(level) && level <= 2 && forall l :: 0 <= l < level ==> !Live(iters[l])
      modifies this
      ensures ValidFrom(level) && iters[level] == old(iters[level]).(cur := iters[level].cur)
      ensures iters == old(iters)[level := iters[level]]
      ensures r.None? ==> !Live(iters[level]) && ToYield(level) == old(ToYield(level))
      ensures r.Some? ==>
                && r.value < ENTRIES && iters[level].cur == r.value + 1 && Left(iters[level]) < old(Left(iters[level]))
                && Found(old(iters[level]).(cur := r.value), level)
                && var it := old(iters[level]).(cur := r.value);
                   old(ToYield(level)) ==
                   Leaves(pt.root, pt.mem, EntryStart(it, s, r.value), EntryEnd(it, e, r.value)) + ToYield(level)
    {
      hide IterOk, Rest, Leaves, Remaining, TablePath, EntryAt, TableAddr, IsValid, Owned;
      var it := iters[level];
      ghost var it0 := it;
      assert iters[level := it0] == iters;
      Replaced(pt.root, pt.mem, iters, s, e, level, it0);
      while it.cur < it.end
        invariant iters == old(iters) && it == it0.(cur := it.cur) && it0.cur <= it.cur
        invariant Live(it) ==> it.level == level && IterOk(pt.root, pt.mem, it, s, e)
        invariant Rest(pt.root, pt.mem, it, s, e) == Rest(pt.root, pt.mem, it0, s, e)
      {
        RestStep(pt.root, pt.mem, it, s, e);
        EntryRead(pt.root, pt.mem, pt.owner, it, s, e);
        if IsValid(pt.mem[it.table][it.cur]) {
          r := Some(it.cur);
          it := it.(cur := it.cur + 1);
          Replaced(pt.root, pt.mem, iters, s, e, level, it);
          iters := iters[level := it];
          return;
        }
        InvalidEntry(pt.root, pt.mem, pt.owner, it, s, e);
        it := it.(cur := it.cur + 1);
      }
      Replaced(pt.root, pt.mem, iters, s, e, level, it);
      iters := iters[level := it];
      r := None;
    }

    /** Refills the iterators below `level` and yields the next valid entry at `level`. */
    method NextRecursive(level: nat) returns (r: Option<nat>)
      requires ValidFrom(level) && level <= 2 && forall l :: 0 <= l < level ==> !Live(iters[l])
      modifies this
      ensures |iters| == 3 && forall l :: 0 <= l < level ==> iters[l] == old(iters[l])
      ensures r.None? ==> old(ToYield(level)) == [] && Finished()
      ensures r.Some? ==>
                && ValidFrom(level) && r.value < ENTRIES && iters[level].cur == r.value + 1
                && Found(iters[level].(cur := r.value), level)
                && (Left(iters[2]) < old(Left(iters[2])) ||
                    (level < 2 && Left(iters[2]) == old(Left(iters[2]))
                        && (level == 1 ==> Left(iters[1]) < old(Left(iters[1])))))
                && var it := iters[level].(cur := r.value);
                   old(ToYield(level)) ==
                   Leaves(pt.root, pt.mem, EntryStart(it, s, r.value), EntryEnd(it, e, r.value)) + ToYield(level)
      decreases Left(iters[2]), Left(iters[1]), 2 - level
    {
      hide IterOk, Rest, Leaves, Remaining, TablePath, EntryAt, TableAddr, IsValid, Owned, Pages, EntryStart,
        EntryEnd, Child;
      r := TableNext(level);
      if r.Some? { return; }
      Spent(pt.root, pt.mem, iters, s, e, level);
      if level == 2 { return; }
      var up := NextRecursive(level + 1);
      if up.None? { return None; }
      var it := iters[level + 1].(cur := up.value);
      EntryRead(pt.root, pt.mem, pt.owner, it, s, e);
      ChildIter(pt.root, pt.mem, pt.owner, it, s, e);
      ChildLinked(pt.root, pt.mem, it, s, e, PhysicalAddr(pt.mem[it.table][it.cur]));
      var child := Child(it, PhysicalAddr(pt.mem[it.table][it.cur]), s, e);
      Replaced(pt.root, pt.mem, iters, s, e, level, child);
      iters := iters[level := child];
      r := NextRecursive(level);
    }

    /** The next valid leaf of the range with its page, and where in memory it is. */
    method Next() returns (r: Option<(nat, nat)>, place: (nat, nat))
      requires Valid()
      modifies this
      ensures r.None? <==> old(ToYield(0)) == []
      ensures r.None? ==> Finished()
      ensures r.Some? ==>
                && Valid() && old(ToYield(0)) == [r.value] + ToYield(0) && Beyond(r.value.0)
                && r.value.0 < PAGES
                && place == (TableAddr(pt.root, pt.mem, PathOf(r.value.0)[..2]), r.value.0 % ENTRIES)
                && place.0 != 0
    {
      hide IterOk, Rest, Leaves, Remaining, TablePath, EntryAt, TableAddr, IsValid, Owned, EntryEnd;
      var i := NextRecursive(0);
      if i.None? { return None, (0, 0); }
      var it := iters[0].(cur := i.value);
      EntryRead(pt.root, pt.mem, pt.owner, it, s, e);
      LeafPlace(pt.root, pt.mem, it, s, e);
      LeafEntry(pt.root, pt.mem, it, s, e);
      AllBeyond(pt.root, pt.mem, iters, s, e, i.value);
      r, place := Some((it.base + i.value, pt.mem[it.table][i.value])), (it.table, i.value);
    }

    /** Nothing is left in any iterator. */
    ghost predicate Finished()
      reads this
    {
      |iters| == 3 && forall l :: 0 <= l < 3 ==> !Live(iters[l])
    }

    /** Everything still to be visited lies after page `v`. */
    ghost predicate Beyond(v: nat)
      requires Valid()
      reads this, pt
    {
      forall l :: 0 <= l < 3 && Live(iters[l]) ==> v < EntryStart(iters[l], s, iters[l].cur)
    }

    /** The iterator stands on a valid entry of its table. */
    ghost predicate Found(it: TableIter, level: nat)
      reads this, pt
    {
      && it.level == level && IterOk(pt.root, pt.mem, it, s, e)
      && IsValid(EntryAt(pt.root, pt.mem, TablePath(level, it.base) + [it.cur]))
      && EntryEnd(it, e, it.cur) <= PAGES
    }
  }

  /** The entry that an iterator looks at. */
  lemma EntryRead(root: nat, m: Memory, owner: map<nat, Path>, it: TableIter, s: nat, e: nat)
    requires Owned(root, m, owner) && IterOk(root, m, it, s, e)
    ensures it.table in m && |m[it.table]| == ENTRIES && it.cur < ENTRIES
    ensures m[it.table][it.cur] == EntryAt(root, m, TablePath(it.level, it.base) + [it.cur])
  {
    EntryInTable(root, m, owner, TablePath(it.level, it.base), it.cur);
  }

  /** An entry of a leaf table stands for one page. */
  lemma LeafPlace(root: nat, m: Memory, it: TableIter, s: nat, e: nat)
    requires IterOk(root, m, it, s, e) && it.level == 0
    ensures it.start <= it.cur < ENTRIES && it.base + it.cur < PAGES
    ensures it.table == TableAddr(root, m, PathOf(it.base + it.cur)[..2]) != 0
    ensures it.cur == (it.base + it.cur) % ENTRIES
    ensures EntryStart(it, s, it.cur) == it.base + it.cur && EntryEnd(it, e, it.cur) == it.base + it.cur + 1
    ensures EntryAt(root, m, TablePath(0, it.base) + [it.cur]) == Leaf(root, m, it.base + it.cur)
  {
    var v := it.base + it.cur;
    if it.first { StartFits(0, it.base, s); }
    PathInEntry(0, it.base, it.cur, v);
    assert PathOf(v)[..3] == PathOf(v);
    assert PathOf(v)[..2] == PathOf(v)[..3][..2] == (TablePath(0, it.base) + [it.cur])[..2] == TablePath(0, it.base);
    hide EntryAt, TablePath, TableAddr, PathOf;
  }

  lemma LeafEntry(root: nat, m: Memory, it: TableIter, s: nat, e: nat)
    requires IterOk(root, m, it, s, e) && it.level == 0
    requires IsValid(EntryAt(root, m, TablePath(0, it.base) + [it.cur]))
    ensures EntryEnd(it, e, it.cur) <= PAGES
    ensures Leaves(root, m, EntryStart(it, s, it.cur), EntryEnd(it, e, it.cur)) ==
            [(it.base + it.cur, EntryAt(root, m, TablePath(0, it.base) + [it.cur]))]
  {
    LeafPlace(root, m, it, s, e);
    var v := it.base + it.cur;
    hide EntryAt, IsValid, TablePath, TableAddr, PathOf, IterOk, EntryStart, EntryEnd, Leaf;
    assert Leaves(root, m, v + 1, v + 1) == [];
  }

  /** The walk from the root table spans the range up to its effective end. */
  lemma RootPages(root: nat, m: Memory, owner: map<nat, Path>, from: nat, to: nat)
    requires Owned(root, m, owner) && from <= to <= PAGES && 0 < to
    ensures var it := NewIter(root, 2, 0, from, to, true, true);
            && EndsIn(2, 0, to) && (Live(it) ==> IterOk(root, m, it, from, to))
            && EntryStart(it, from, it.cur) == from && WalkEnd(it, to) == EffectiveEnd(to)
            && (!Live(it) ==> EffectiveEnd(to) <= from)
  {
    EffectiveEndIsEndOfWalk(to);
    LastChild(2, 0, to);
    if !Live(NewIter(root, 2, 0, from, to, true, true)) { RootSpent(from, to); }
    if to < PAGES { StartFits(2, 0, from); }
    hide EffectiveEnd, UpperBoundIndex, IndexOf;
  }

  lemma RootSpent(from: nat, to: nat)
    requires from <= to <= PAGES && 0 < to && UpperBoundIndex(2, to) <= IndexOf(2, from)
    ensures EffectiveEnd(to) <= from
  {
    if to < PAGES {
      assert from / (ENTRIES * ENTRIES) <= to / (ENTRIES * ENTRIES) < ENTRIES;
    }
  }

  lemma RootIter(root: nat, m: Memory, owner: map<nat, Path>, from: nat, to: nat)
    requires Owned(root, m, owner) && from <= to <= PAGES
    ensures var it := NewIter(root, 2, 0, from, to, true, true);
            && (Live(it) ==> IterOk(root, m, it, from, to))
            && Rest(root, m, it, from, to) == Leaves(root, m, from, EffectiveEnd(to))
    ensures !Live(NewIter(root, 2, 0, 0, 0, true, true))
  {
    var it := NewIter(root, 2, 0, from, to, true, true);
    assert UpperBoundIndex(2, 0) == 0;
    if to > 0 {
      RootPages(root, m, owner, from, to);
      hide Leaves, WalkEnd, NewIter, IterOk, EntryStart, EffectiveEnd, Owned;
      if !Live(it) { NoLeaves(root, m, from, EffectiveEnd(to)); }
    }
  }

  /** What is left above a level does not depend on the iterators below. */
  lemma {:induction false} RemainingAbove(root: nat, m: Memory, a: seq<TableIter>, b: seq<TableIter>, s: nat, e: nat,
                                          level: nat)
    requires ItersOk(root, m, a, s, e, level) && ItersOk(root, m, b, s, e, level) && level <= 2
    requires forall l :: level <= l <= 2 ==> a[l] == b[l]
    ensures Remaining(root, m, a, s, e, level) == Remaining(root, m, b, s, e, level)
    decreases 2 - level
  {
    if level < 2 { RemainingAbove(root, m, a, b, s, e, level + 1); }
  }

  /** After page `idx` of the leaf table everything live lies further on. */
  lemma AllBeyond(root: nat, m: Memory, iters: seq<TableIter>, s: nat, e: nat, idx: nat)
    requires ItersOk(root, m, iters, s, e, 0) && iters[0].cur == idx + 1 && idx < ENTRIES
    requires iters[0].level == 0 && iters[0].start <= idx
    ensures forall l :: 0 <= l < 3 && Live(iters[l]) ==>
              iters[l].level <= 2 && iters[0].base + idx < EntryStart(iters[l], s, iters[l].cur)
  {
    hide IndexOf, UpperBoundIndex, TablePath, TableAddr, Begins, EndOfWalk;
    assert Linked(iters, 0) && Linked(iters, 1);
    assert iters[1].level == 1 && iters[2].level == 2;
  }

  lemma Spent(root: nat, m: Memory, iters: seq<TableIter>, s: nat, e: nat, level: nat)
    requires ItersOk(root, m, iters, s, e, level) && level <= 2 && !Live(iters[level])
    ensures Remaining(root, m, iters, s, e, level) ==
            if level < 2 then Remaining(root, m, iters, s, e, level + 1) else []
  {
  }

  lemma ChildLinked(root: nat, m: Memory, it: TableIter, s: nat, e: nat, table: nat)
    requires IterOk(root, m, it, s, e) && it.level > 0
    ensures var n := Child(it, table, s, e);
            && it.start <= it.cur < ENTRIES && n.level == it.level - 1
            && n.base + Pages(n.level, ENTRIES) == it.base + Pages(it.level, it.cur + 1)
  {
    ChildBounds(root, m, it, s, e);
    assert Pages(it.level, it.cur + 1) == Pages(it.level, it.cur) + Pages(it.level, 1);
    hide IndexOf, UpperBoundIndex, TablePath, TableAddr, Begins, EndOfWalk;
  }

  /** Moving one iterator on, or loading it anew, where the ones below are spent. */
  lemma Replaced(root: nat, m: Memory, iters: seq<TableIter>, s: nat, e: nat, level: nat, it: TableIter)
    requires level <= 2
    requires (ItersOk(root, m, iters, s, e, level) || (level < 2 && ItersOk(root, m, iters, s, e, level + 1)))
    requires Live(it) ==> it.level == level && IterOk(root, m, it, s, e)
    requires forall l :: 0 <= l < level ==> !Live(iters[l])
    requires level < 2 ==> Linked(iters[level := it], level)
    ensures ItersOk(root, m, iters[level := it], s, e, level)
    ensures level < 2 ==> ItersOk(root, m, iters, s, e, level + 1)
    ensures Remaining(root, m, iters[level := it], s, e, level) ==
            Rest(root, m, it, s, e) + if level < 2 then Remaining(root, m, iters, s, e, level + 1) else []
  {
    hide IterOk, Rest;
    if level == 0 { assert Linked(iters, 1); }
    assert ItersOk(root, m, iters[level := it], s, e, level);
    if level < 2 { RemainingAbove(root, m, iters, iters[level := it], s, e, level + 1); }
  }

  /** Changing the leaf of a page that was visited already leaves the iteration as it was. */
  lemma {:induction false} IterationUndisturbed(root: nat, m: Memory, m': Memory, iters: seq<TableIter>, s: nat,
                                                e: nat, level: nat, v: nat, x: nat)
    requires ItersOk(root, m, iters, s, e, level) && level <= 2 && v < PAGES
    requires SameTables(root, m, m') && OneLeaf(root, m, m', v, x)
    requires forall l :: 0 <= l < 3 && Live(iters[l]) ==> v < EntryStart(iters[l], s, iters[l].cur)
    ensures ItersOk(root, m', iters, s, e, level)
    ensures Remaining(root, m', iters, s, e, level) == Remaining(root, m, iters, s, e, level)
    decreases 2 - level
  {
    forall l | 0 <= l < 3 && Live(iters[l])
      ensures IterOk(root, m', iters[l], s, e)
      ensures Rest(root, m', iters[l], s, e) == Rest(root, m, iters[l], s, e)
    {
      RestUndisturbed(root, m, m', iters[l], s, e, v, x);
    }
    hide IterOk, Rest;
    if level < 2 { IterationUndisturbed(root, m, m', iters, s, e, level + 1, v, x); }
  }

  lemma RestUndisturbed(root: nat, m: Memory, m': Memory, it: TableIter, s: nat, e: nat, v: nat, x: nat)
    requires IterOk(root, m, it, s, e) && v < PAGES && v < EntryStart(it, s, it.cur)
    requires SameTables(root, m, m') && OneLeaf(root, m, m', v, x)
    ensures IterOk(root, m', it, s, e) && Rest(root, m', it, s, e) == Rest(root, m, it, s, e)
  {
    WalkEndFits(root, m, it, s, e);
    LeavesOnly(root, m, m', EntryStart(it, s, it.cur), WalkEnd(it, e));
  }
}
