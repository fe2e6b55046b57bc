/** Ranges of pages: the stateful three-level iterator, `vmap` and `vunmap`, in page numbers.

    The walk ends where the source's exclusive upper index says, which is before the end of the
    range when that end is a multiple of 512 pages; `EffectiveEnd` is that place. */
module Sv39Range {
  import opened Pte
  import opened PageTree
  import opened Sv39
  import opened Wrappers

  /** `i` entries of a table at `level`, in pages. */
  function Pages(level: nat, i: nat): nat
    requires level <= 2
  {
    if level == 0 then i else if level == 1 then ENTRIES * i else ENTRIES * ENTRIES * i
  }

  /** The index of page `v` in its table at `level`. */
  function IndexOf(level: nat, v: nat): nat
    requires level <= 2
  {
    if level == 0 then v % ENTRIES
    else if level == 1 then v / ENTRIES % ENTRIES
    else v / (ENTRIES * ENTRIES) % ENTRIES
  }

  /** Whether page `v` is the first page of an entry at `level`. */
  predicate OnBoundary(level: nat, v: nat)
    requires level <= 2
  {
    level == 0 || (if level == 1 then v % ENTRIES == 0 else v % (ENTRIES * ENTRIES) == 0)
  }

  /** The exclusive upper bound index for the end `e` of a range. */
  function UpperBoundIndex(level: nat, e: nat): nat
    requires level <= 2
  {
    IndexOf(level, e) + if OnBoundary(level, e) then 0 else 1
  }

  /** A table at `level` may begin at page `b`. */
  predicate Begins(level: nat, b: nat)
    requires level <= 2
  {
    if level == 0 then b % ENTRIES == 0 else if level == 1 then b % (ENTRIES * ENTRIES) == 0 else b == 0
  }

  /** A table at `level` begins at page `b` and `e` lies in it or at its end. */
  predicate EndsIn(level: nat, b: nat, e: nat)
    requires level <= 2
  {
    Begins(level, b) && b < e <= b + Pages(level, ENTRIES)
  }

  /** Where the walk of a table ends when the range ends in that table at `e`. */
  function EndOfWalk(level: nat, b: nat, e: nat): (r: nat)
    requires level <= 2 && EndsIn(level, b, e)
    ensures b <= r <= e
    decreases level
  {
    var u := UpperBoundIndex(level, e);
    if level == 0 then b + u
    else if u == 0 then b
    else
      LastChild(level, b, e);
      EndOfWalk(level - 1, b + Pages(level, u - 1), e)
  }

  /** The upper bound index is 0 just when the range ends at the end of the table; otherwise the
      range ends in the child before it. */
  lemma LastChild(level: nat, b: nat, e: nat)
    requires 0 < level <= 2 && EndsIn(level, b, e)
    ensures var u := UpperBoundIndex(level, e);
            && (u == 0 <==> e == b + Pages(level, ENTRIES)) && u <= ENTRIES
            && (u > 0 ==> EndsIn(level - 1, b + Pages(level, u - 1), e))
  {
    if level == 1 {
      var k, q, r := b / (ENTRIES * ENTRIES), (e - b) / ENTRIES, (e - b) % ENTRIES;
      assert b == ENTRIES * (ENTRIES * k) && e == ENTRIES * (ENTRIES * k + q) + r;
      ByEntries(e, ENTRIES * k + q, r);
      if q < ENTRIES { ByEntries(ENTRIES * k + q, k, q); } else { ByEntries(ENTRIES * k + q, k + 1, 0); }
      var u := UpperBoundIndex(1, e);
      if u > 0 { ByEntries(b + ENTRIES * (u - 1), ENTRIES * k + u - 1, 0); }
    }
  }

  lemma ByEntries(x: nat, y: nat, r: nat)
    requires x == ENTRIES * y + r && r < ENTRIES
    ensures x / ENTRIES == y && x % ENTRIES == r
  {
  }

  lemma LeafTableEnd(b: nat, e: nat)
    requires EndsIn(0, b, e)
    ensures UpperBoundIndex(0, e) == if e == b + ENTRIES then 0 else e - b
  {
  }

  /** Where a walk to page `e` ends, in closed form. */
  function EffectiveEnd(e: nat): nat
    requires e <= PAGES
  {
    if e % ENTRIES != 0 || e == 0 then e
    else if e % (ENTRIES * ENTRIES) != 0 then e - ENTRIES
    else if e < PAGES then e - ENTRIES * ENTRIES
    else 0
  }

  lemma EndOfWalk1(c: nat, e: nat)
    requires EndsIn(1, c, e)
    ensures EndOfWalk(1, c, e) ==
            if e == c + Pages(1, ENTRIES) then c else if e % ENTRIES == 0 then e - ENTRIES else e
  {
    var u := UpperBoundIndex(1, e);
    LastChild(1, c, e);
    if u > 0 {
      var b := c + Pages(1, u - 1);
      LeafTableEnd(b, e);
      EntryEndsAt(b, e);
      hide UpperBoundIndex;
    }
  }

  lemma EntryEndsAt(b: nat, e: nat)
    requires b % ENTRIES == 0 && b < e <= b + ENTRIES
    ensures e % ENTRIES == 0 <==> e == b + ENTRIES
  {
  }

  lemma RootEntryEndsAt(i: nat, e: nat)
    requires ENTRIES * ENTRIES * i < e <= ENTRIES * ENTRIES * (i + 1)
    ensures e % (ENTRIES * ENTRIES) == 0 <==> e == ENTRIES * ENTRIES * i + ENTRIES * ENTRIES
    ensures e % (ENTRIES * ENTRIES) == 0 ==> e % ENTRIES == 0
  {
  }

  /** The walk of the root table ends as that of the table at page `c`, in which the range ends. */
  lemma RootChild(e: nat) returns (c: nat)
    requires 0 < e < PAGES
    ensures EndsIn(2, 0, e) && EndsIn(1, c, e) && EndOfWalk(2, 0, e) == EndOfWalk(1, c, e)
    ensures e % (ENTRIES * ENTRIES) == 0 <==> e == c + ENTRIES * ENTRIES
    ensures e % (ENTRIES * ENTRIES) == 0 ==> e % ENTRIES == 0
  {
    var u := UpperBoundIndex(2, e);
    LastChild(2, 0, e);
    c := Pages(2, u - 1);
    assert EndOfWalk(2, 0, e) == EndOfWalk(1, c, e);
    hide UpperBoundIndex, EndOfWalk;
    RootEntryEndsAt(u - 1, e);
  }

  lemma EffectiveEndIsEndOfWalk(e: nat)
    requires 0 < e <= PAGES
    ensures EndsIn(2, 0, e) && EndOfWalk(2, 0, e) == EffectiveEnd(e)
  {
    if e < PAGES {
      hide UpperBoundIndex, EndOfWalk, Begins;
      var c := RootChild(e);
      EndOfWalk1(c, e);
    }
  }

  /** These are the source's indices of virtual addresses. */
  lemma IndexOfAddress(level: nat, v: nat)
    requires level <= 2
    ensures IndexForVa(level, PGSIZE * v) == IndexOf(level, v)
    ensures OnBoundary(level, v) <==> PGSIZE * v % (PGSIZE * Span(level)) == 0
  {
    assert PGSIZE * v / PGSIZE == v;
  }

  // ---------------------------------------------------------------- what a range holds

  /** The valid leaves of the pages from `lo` up to `hi`, in ascending order. */
  ghost function Leaves(root: nat, m: Memory, lo: nat, hi: nat): seq<(nat, nat)>
    requires hi <= PAGES
    decreases hi - lo
  {
    if lo >= hi then []
    else if IsValid(Leaf(root, m, lo)) then [(lo, Leaf(root, m, lo))] + Leaves(root, m, lo + 1, hi)
    else Leaves(root, m, lo + 1, hi)
  }

  lemma {:induction false} LeavesSplit(root: nat, m: Memory, lo: nat, mid: nat, hi: nat)
    requires lo <= mid <= hi <= PAGES
    ensures Leaves(root, m, lo, hi) == Leaves(root, m, lo, mid) + Leaves(root, m, mid, hi)
    decreases mid - lo
  {
    hide Leaf, IsValid;
    if lo < mid { LeavesSplit(root, m, lo + 1, mid, hi); }
  }

  lemma {:induction false} NoLeaves(root: nat, m: Memory, lo: nat, hi: nat)
    requires hi <= PAGES && forall v :: lo <= v < hi ==> !IsValid(Leaf(root, m, v))
    ensures Leaves(root, m, lo, hi) == []
    decreases hi - lo
  {
    hide Leaf, IsValid;
    if lo < hi { NoLeaves(root, m, lo + 1, hi); }
  }

  /** Leaves are listed once each, in ascending order, and none is missing. */
  lemma {:induction false} LeavesExact(root: nat, m: Memory, lo: nat, hi: nat)
    requires hi <= PAGES
    ensures forall i :: 0 <= i < |Leaves(root, m, lo, hi)| ==>
              var (v, e) := Leaves(root, m, lo, hi)[i];
              lo <= v < hi && e == Leaf(root, m, v) && IsValid(e)
    ensures forall i, j :: 0 <= i < j < |Leaves(root, m, lo, hi)| ==>
              Leaves(root, m, lo, hi)[i].0 < Leaves(root, m, lo, hi)[j].0
    ensures forall v :: lo <= v < hi && IsValid(Leaf(root, m, v)) ==> (v, Leaf(root, m, v)) in Leaves(root, m, lo, hi)
    decreases hi - lo
  {
    hide Leaf, IsValid;
    if lo < hi { LeavesExact(root, m, lo + 1, hi); }
  }

  lemma {:induction false} LeavesOnly(root: nat, m: Memory, m': Memory, lo: nat, hi: nat)
    requires hi <= PAGES && forall v :: lo <= v < hi ==> Leaf(root, m', v) == Leaf(root, m, v)
    ensures Leaves(root, m', lo, hi) == Leaves(root, m, lo, hi)
    decreases hi - lo
  {
    hide Leaf, IsValid;
    if lo < hi { LeavesOnly(root, m, m', lo + 1, hi); }
  }

  // ---------------------------------------------------------------- one table's iterator

  /** The iterator over one table: `start` and `end` are its index bounds, `first` and `last` say
      whether the range begins or ends in this table. */
  datatype TableIter = TableIter(table: nat, level: nat, base: nat, cur: nat, start: nat, end: nat, first: bool,
                                 last: bool)

  function NewIter(table: nat, level: nat, base: nat, s: nat, e: nat, first: bool, last: bool): TableIter
    requires level <= 2
  {
    var start := if first then IndexOf(level, s) else 0;
    TableIter(table, level, base, start, start, if last then UpperBoundIndex(level, e) else ENTRIES, first, last)
  }

  /** The path of the table at `level` that holds page `b`. */
  function TablePath(level: nat, b: nat): (p: Path)
    requires level <= 2 && b < PAGES
    ensures IsPath(p, 2) && |p| == 2 - level
  {
    PathOf(b)[..2 - level]
  }

  predicate Live(it: TableIter) { it.cur < it.end }

  /** A live iterator stands on a table of the tree that the range `s` to `e` crosses. */
  ghost predicate IterOk(root: nat, m: Memory, it: TableIter, s: nat, e: nat) {
    && it.level <= 2 && it.base < PAGES && it.base + Pages(it.level, ENTRIES) <= PAGES
    && it.table == TableAddr(root, m, TablePath(it.level, it.base)) != 0
    && Begins(it.level, it.base)
    && it.start <= it.cur < it.end <= ENTRIES
    && (it.first ==> it.base <= s < it.base + Pages(it.level, ENTRIES) && it.start == IndexOf(it.level, s))
    && (!it.first ==> it.start == 0)
    && (it.last ==> EndsIn(it.level, it.base, e) && it.end == UpperBoundIndex(it.level, e))
    && (!it.last ==> it.end == ENTRIES)
  }

  /** The page at which entry `idx` begins for this iterator. */
  function EntryStart(it: TableIter, s: nat, idx: nat): nat
    requires it.level <= 2
  {
    if it.first && idx == it.start then s else it.base + Pages(it.level, idx)
  }

  /** The page at which the iterator's walk ends. */
  function WalkEnd(it: TableIter, e: nat): nat
    requires it.level <= 2 && (it.last ==> EndsIn(it.level, it.base, e))
  {
    if it.last then EndOfWalk(it.level, it.base, e) else it.base + Pages(it.level, ENTRIES)
  }

  /** The page at which entry `idx` ends for this iterator. */
  function EntryEnd(it: TableIter, e: nat, idx: nat): nat
    requires it.level <= 2 && (it.last ==> EndsIn(it.level, it.base, e))
  {
    if it.last && idx + 1 == it.end then EndOfWalk(it.level, it.base, e) else it.base + Pages(it.level, idx + 1)
  }

  /** What is left of a live or spent iterator. */
  ghost function Rest(root: nat, m: Memory, it: TableIter, s: nat, e: nat): seq<(nat, nat)>
    requires Live(it) ==> IterOk(root, m, it, s, e)
  {
    if Live(it) then
      WalkEndFits(root, m, it, s, e);
      Leaves(root, m, EntryStart(it, s, it.cur), WalkEnd(it, e))
    else []
  }

  lemma WalkEndFits(root: nat, m: Memory, it: TableIter, s: nat, e: nat)
    requires IterOk(root, m, it, s, e)
    ensures WalkEnd(it, e) <= it.base + Pages(it.level, it.end) <= PAGES
    ensures it.base + Pages(it.level, it.end - 1) <= WalkEnd(it, e)
    ensures it.first ==> it.base + Pages(it.level, it.start) <= s < it.base + Pages(it.level, it.start + 1)
  {
    if it.first { StartFits(it.level, it.base, s); }
    if it.last { EndFits(it.level, it.base, e); }
    hide TableAddr, TablePath, Begins, EndOfWalk, UpperBoundIndex;
  }

  lemma StartFits(level: nat, b: nat, s: nat)
    requires level <= 2 && Begins(level, b) && b <= s < b + Pages(level, ENTRIES)
    ensures IndexOf(level, s) < ENTRIES
    ensures b + Pages(level, IndexOf(level, s)) <= s < b + Pages(level, IndexOf(level, s) + 1)
  {
  }

  lemma EndFits(level: nat, b: nat, e: nat)
    requires level <= 2 && EndsIn(level, b, e) && UpperBoundIndex(level, e) > 0
    ensures var u := UpperBoundIndex(level, e);
            u <= ENTRIES && b + Pages(level, u - 1) <= EndOfWalk(level, b, e) <= b + Pages(level, u)
  {
    if level == 0 { LeafTableEnd(b, e); } else { LastChild(level, b, e); }
  }

  /** The pages that entry `idx` of a table stands for all have that entry on their path. */
  lemma PathInEntry(level: nat, b: nat, idx: nat, v: nat)
    requires level <= 2 && Begins(level, b) && b < PAGES && idx < ENTRIES
    requires b + Pages(level, idx) <= v < b + Pages(level, idx + 1) && v < PAGES
    ensures TablePath(level, b) + [idx] == PathOf(v)[..3 - level]
  {
    if level == 0 {
      assert v / ENTRIES == b / ENTRIES && v % ENTRIES == idx;
    } else if level == 1 {
      assert v / ENTRIES == b / ENTRIES + idx && b / ENTRIES % ENTRIES == 0;
      assert v / ENTRIES / ENTRIES == b / ENTRIES / ENTRIES && v / ENTRIES % ENTRIES == idx;
    } else {
      assert v / ENTRIES / ENTRIES == idx;
    }
  }

  lemma PagesGrow(level: nat, i: nat, j: nat)
    requires level <= 2 && i <= j
    ensures Pages(level, i) <= Pages(level, j)
  {
  }

  /** Entries end within the walk, and the next one begins where this one ends. */
  lemma EntryBounds(root: nat, m: Memory, it: TableIter, s: nat, e: nat)
    requires IterOk(root, m, it, s, e)
    ensures EntryEnd(it, e, it.cur) <= WalkEnd(it, e) <= PAGES
    ensures it.cur + 1 == it.end ==> EntryEnd(it, e, it.cur) == WalkEnd(it, e)
    ensures it.cur + 1 < it.end ==>
              EntryStart(it, s, it.cur) <= EntryEnd(it, e, it.cur) == it.base + Pages(it.level, it.cur + 1)
  {
    WalkEndFits(root, m, it, s, e);
    PagesGrow(it.level, it.cur, it.cur + 1);
    PagesGrow(it.level, it.cur + 1, it.end);
    if it.cur + 1 < it.end { PagesGrow(it.level, it.cur + 1, it.end - 1); }
    hide TableAddr, TablePath, Begins, EndsIn, EndOfWalk, UpperBoundIndex, IndexOf, Pages;
  }

  /** Moving on by one entry splits off that entry's pages. */
  lemma RestStep(root: nat, m: Memory, it: TableIter, s: nat, e: nat)
    requires IterOk(root, m, it, s, e)
    ensures EntryEnd(it, e, it.cur) <= PAGES
    ensures var it' := it.(cur := it.cur + 1);
            && (Live(it') ==> IterOk(root, m, it', s, e))
            && Rest(root, m, it, s, e) ==
               Leaves(root, m, EntryStart(it, s, it.cur), EntryEnd(it, e, it.cur)) + Rest(root, m, it', s, e)
  {
    EntryBounds(root, m, it, s, e);
    hide TableAddr, TablePath, Begins, EndOfWalk, UpperBoundIndex, IndexOf, Leaves, EntryEnd, Pages;
    if it.cur + 1 < it.end {
      LeavesSplit(root, m, EntryStart(it, s, it.cur), EntryEnd(it, e, it.cur), WalkEnd(it, e));
    }
  }

  /** An entry that is not valid stands for no leaf. */
  lemma InvalidEntry(root: nat, m: Memory, owner: map<nat, Path>, it: TableIter, s: nat, e: nat)
    requires IterOk(root, m, it, s, e) && Owned(root, m, owner)
    requires !IsValid(EntryAt(root, m, TablePath(it.level, it.base) + [it.cur]))
    ensures EntryEnd(it, e, it.cur) <= PAGES
    ensures Leaves(root, m, EntryStart(it, s, it.cur), EntryEnd(it, e, it.cur)) == []
  {
    WalkEndFits(root, m, it, s, e);
    var lo, hi := EntryStart(it, s, it.cur), EntryEnd(it, e, it.cur);
    hide TableAddr, EntryAt, Begins, EndOfWalk, UpperBoundIndex, IndexOf, Leaves, Owned, IsValid, TablePath;
    forall v | lo <= v < hi
      ensures !IsValid(Leaf(root, m, v))
    {
      PathInEntry(it.level, it.base, it.cur, v);
      if it.level > 0 {
        NoLeafBelow(root, m, owner, v, TablePath(it.level, it.base) + [it.cur]);
      } else {
        assert PathOf(v)[..3] == PathOf(v);
      }
    }
    NoLeaves(root, m, lo, hi);
  }

  /** The iterator over the table below a valid entry walks exactly that entry's pages. */
  lemma ChildIter(root: nat, m: Memory, owner: map<nat, Path>, it: TableIter, s: nat, e: nat)
    requires IterOk(root, m, it, s, e) && Owned(root, m, owner) && it.level > 0
    requires IsValid(EntryAt(root, m, TablePath(it.level, it.base) + [it.cur]))
    ensures EntryEnd(it, e, it.cur) <= PAGES
    ensures var n := Child(it, PhysicalAddr(EntryAt(root, m, TablePath(it.level, it.base) + [it.cur])), s, e);
            && (Live(n) ==> IterOk(root, m, n, s, e))
            && Rest(root, m, n, s, e) == Leaves(root, m, EntryStart(it, s, it.cur), EntryEnd(it, e, it.cur))
  {
    hide TableAddr, TablePath, EntryAt, PhysicalAddr, IsValid, Owned, Leaves, EndOfWalk, Pages, Child;
    EntryBounds(root, m, it, s, e);
    var t := PhysicalAddr(EntryAt(root, m, TablePath(it.level, it.base) + [it.cur]));
    var n := Child(it, t, s, e);
    ChildPages(root, m, it, t, s, e);
    if Live(n) {
      ChildOk(root, m, owner, it, s, e);
    } else {
      NoLeaves(root, m, EntryStart(it, s, it.cur), EntryEnd(it, e, it.cur));
    }
  }

  lemma ChildOk(root: nat, m: Memory, owner: map<nat, Path>, it: TableIter, s: nat, e: nat)
    requires IterOk(root, m, it, s, e) && Owned(root, m, owner) && it.level > 0
    requires IsValid(EntryAt(root, m, TablePath(it.level, it.base) + [it.cur]))
    ensures var n := Child(it, PhysicalAddr(EntryAt(root, m, TablePath(it.level, it.base) + [it.cur])), s, e);
            Live(n) ==> IterOk(root, m, n, s, e)
  {
    hide UpperBoundIndex, IndexOf, TableAddr, TablePath, EntryAt, PhysicalAddr, IsValid, Owned;
    ChildTable(root, m, owner, it, s, e);
    ChildBounds(root, m, it, s, e);
    var b, l := it.base + Pages(it.level, it.cur), it.level - 1;
    assert Pages(it.level, it.cur + 1) == Pages(it.level, it.cur) + Pages(it.level, 1) && Pages(it.level, 1) > 0;
    hide EndOfWalk, Begins, Pages;
    if it.last && it.cur + 1 == it.end { UpperBoundSmall(l, b, e); }
    hide EndsIn;
  }

  lemma UpperBoundSmall(level: nat, b: nat, e: nat)
    requires level <= 2 && EndsIn(level, b, e)
    ensures UpperBoundIndex(level, e) <= ENTRIES
  {
    if level == 0 { LeafTableEnd(b, e); } else { LastChild(level, b, e); }
  }

  /** The child's walk spans the entry's pages; a child without entries to visit spans none. */
  lemma ChildPages(root: nat, m: Memory, it: TableIter, table: nat, s: nat, e: nat)
    requires IterOk(root, m, it, s, e) && it.level > 0
    ensures var n := Child(it, table, s, e);
            && n.level == it.level - 1 && (n.last ==> EndsIn(n.level, n.base, e)) && n.cur == n.start
            && EntryStart(n, s, n.cur) == EntryStart(it, s, it.cur)
            && WalkEnd(n, e) == EntryEnd(it, e, it.cur)
            && (!Live(n) ==> EntryEnd(it, e, it.cur) <= EntryStart(it, s, it.cur))
  {
    ChildBounds(root, m, it, s, e);
    var n := Child(it, table, s, e);
    var b, l := n.base, n.level;
    assert Pages(l, 0) == 0;
    assert Pages(it.level, it.cur + 1) == Pages(it.level, it.cur) + Pages(it.level, 1);
    if n.first { StartFits(l, b, s); }
    if n.last && n.end > 0 { EndFits(l, b, e); }
    if n.last && n.end == 0 { EndAtStart(l, b, e); }
    assert n.end <= n.start ==> Pages(l, n.end) <= Pages(l, n.start);
    hide TableAddr, TablePath, Begins, EndOfWalk, UpperBoundIndex, IndexOf, Pages, IterOk;
  }

  lemma EndAtStart(level: nat, b: nat, e: nat)
    requires level <= 2 && EndsIn(level, b, e) && UpperBoundIndex(level, e) == 0
    ensures EndOfWalk(level, b, e) == b
  {
  }

  function Child(it: TableIter, table: nat, s: nat, e: nat): TableIter
    requires 0 < it.level <= 2
  {
    NewIter(table, it.level - 1, it.base + Pages(it.level, it.cur), s, e,
            it.first && it.cur == it.start, it.last && it.cur + 1 == it.end)
  }

  lemma ChildTable(root: nat, m: Memory, owner: map<nat, Path>, it: TableIter, s: nat, e: nat)
    requires IterOk(root, m, it, s, e) && Owned(root, m, owner) && it.level > 0
    requires IsValid(EntryAt(root, m, TablePath(it.level, it.base) + [it.cur]))
    ensures it.base + Pages(it.level, it.cur + 1) <= PAGES
    ensures TableAddr(root, m, TablePath(it.level - 1, it.base + Pages(it.level, it.cur))) ==
            PhysicalAddr(EntryAt(root, m, TablePath(it.level, it.base) + [it.cur])) != 0
  {
    var b := it.base + Pages(it.level, it.cur);
    assert Pages(it.level, it.cur) < Pages(it.level, it.cur + 1) <= Pages(it.level, ENTRIES);
    hide Pages, TableAddr, EntryAt, PhysicalAddr, IsValid, Owned, PathOf, EndsIn, IndexOf, UpperBoundIndex;
    PathInEntry(it.level, it.base, it.cur, b);
    TableBelow(root, m, owner, TablePath(it.level, it.base), it.cur);
    assert TablePath(it.level - 1, b) == TablePath(it.level, it.base) + [it.cur];
  }

  lemma ChildBounds(root: nat, m: Memory, it: TableIter, s: nat, e: nat)
    requires IterOk(root, m, it, s, e) && it.level > 0
    ensures var b, l := it.base + Pages(it.level, it.cur), it.level - 1;
            && Begins(l, b) && Pages(l, ENTRIES) == Pages(it.level, 1)
            && (it.first && it.cur == it.start ==> b <= s < b + Pages(l, ENTRIES))
            && (it.last && it.cur + 1 == it.end ==>
                  EndsIn(l, b, e) && EndOfWalk(it.level, it.base, e) == EndOfWalk(l, b, e))
  {
    ChildBegins(it.level, it.base, it.cur);
    if it.first { StartFits(it.level, it.base, s); }
    if it.last { LastChild(it.level, it.base, e); }
    hide IndexOf, OnBoundary, TableAddr, TablePath, Begins;
  }

  lemma ChildBegins(level: nat, b: nat, i: nat)
    requires 0 < level <= 2 && Begins(level, b)
    ensures Begins(level - 1, b + Pages(level, i))
  {
  }
}
