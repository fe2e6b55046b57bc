/** Page tables before and after a step of `vmap` or `vunmap`, and how far a walk has come. */
module RangeState {
  import opened Pte
  import opened PageTree
  import opened Wrappers
  import opened Sv39
  import opened RangeNeed

  /** The state of a page table and of the frame allocator. */
  datatype View = View(mem: Memory, free: set<nat>, owner: map<nat, Path>)

  /** Tables were added to the tree and frames were taken; no table moved. */
  ghost predicate Grew(root: nat, a: View, b: View) {
    && b.free <= a.free
    && (forall x :: x in a.owner ==> x in b.owner)
    && (forall x :: x in b.owner ==> x in a.owner || (x in a.free && x !in b.free))
    && (forall p :: IsPath(p, 2) && TableAddr(root, a.mem, p) != 0 ==>
          TableAddr(root, b.mem, p) == TableAddr(root, a.mem, p))
  }

  /** The pages from `lo` up to `hi` were not mapped and are now, each to a frame of its own that
      was free; every other page is as before. */
  ghost predicate Mapped(root: nat, a: View, b: View, lo: nat, hi: nat, perm: EntryPerm) {
    && hi <= PAGES
    && (forall v :: 0 <= v < PAGES && !(lo <= v < hi) ==> Leaf(root, b.mem, v) == Leaf(root, a.mem, v))
    && (forall v :: lo <= v < hi ==>
          && !IsValid(Leaf(root, a.mem, v)) && Perm(Leaf(root, b.mem, v)) == perm
          && Fresh(a, b, PhysicalAddr(Leaf(root, b.mem, v))))
    && (forall v, w :: lo <= v < w < hi ==>
          PhysicalAddr(Leaf(root, b.mem, v)) != PhysicalAddr(Leaf(root, b.mem, w)))
    && (forall x :: x in a.free ==> x in b.free || x in b.owner || Backs(root, b, lo, hi, x))
  }

  /** Some page of the range is mapped to frame `x`. */
  ghost predicate Backs(root: nat, b: View, lo: nat, hi: nat, x: nat)
    requires hi <= PAGES
  {
    exists v :: lo <= v < hi && PhysicalAddr(Leaf(root, b.mem, v)) == x
  }

  /** A frame that was free and now is neither free nor a table. */
  ghost predicate Fresh(a: View, b: View, x: nat) {
    x in a.free && x !in b.free && x !in b.owner
  }

  /** The pages from `lo` up to `hi` are not mapped any more and their frames are free. */
  ghost predicate Unmapped(root: nat, b: View, c: View, lo: nat, hi: nat) {
    && hi <= PAGES && c.owner == b.owner && b.free <= c.free
    && (forall v :: 0 <= v < PAGES ==>
          Leaf(root, c.mem, v) == if lo <= v < hi && IsValid(Leaf(root, b.mem, v)) then 0 else Leaf(root, b.mem, v))
    && (forall v :: lo <= v < hi && IsValid(Leaf(root, b.mem, v)) ==> PhysicalAddr(Leaf(root, b.mem, v)) in c.free)
    && (forall x :: x in c.free ==>
          || x in b.free
          || exists v :: lo <= v < hi && IsValid(Leaf(root, b.mem, v)) && x == PhysicalAddr(Leaf(root, b.mem, v)))
  }

  /** The frames of the mapped pages of a range are in use, are no tables and are distinct. */
  ghost predicate FramesOk(root: nat, b: View, lo: nat, hi: nat) {
    && hi <= PAGES
    && (forall v :: lo <= v < hi && IsValid(Leaf(root, b.mem, v)) ==>
          var x := PhysicalAddr(Leaf(root, b.mem, v));
          x !in b.free && x !in b.owner && x != 0 && x % PGSIZE == 0)
    && (forall v, w :: lo <= v < w < hi && IsValid(Leaf(root, b.mem, v)) && IsValid(Leaf(root, b.mem, w)) ==>
          PhysicalAddr(Leaf(root, b.mem, v)) != PhysicalAddr(Leaf(root, b.mem, w)))
  }

  ghost function ViewOf(pt: PageTable): View
    reads pt
  {
    View(pt.mem, pt.free, pt.owner)
  }

  // ---------------------------------------------------------------- mapping

  lemma MappedNothing(root: nat, a: View, lo: nat, hi: nat, perm: EntryPerm)
    requires hi <= lo && hi <= PAGES
    ensures Grew(root, a, a) && Mapped(root, a, a, lo, hi, perm)
  {
  }

  lemma GrewTransitive(root: nat, a: View, b: View, c: View)
    requires Grew(root, a, b) && Grew(root, b, c)
    ensures Grew(root, a, c)
  {
    hide TableAddr;
  }

  /** Mapping two adjacent ranges one after the other. */
  lemma MappedThen(root: nat, a: View, b: View, c: View, lo: nat, mid: nat, hi: nat, perm: EntryPerm)
    requires Grew(root, a, b) && Grew(root, b, c) && lo <= mid && (mid <= hi || lo == mid)
    requires Mapped(root, a, b, lo, mid, perm) && Mapped(root, b, c, mid, hi, perm)
    ensures Mapped(root, a, c, lo, hi, perm)
  {
    hide Leaf, PhysicalAddr, IsValid, Perm, TableAddr;
    forall v | lo <= v < hi
      ensures Fresh(a, c, PhysicalAddr(Leaf(root, c.mem, v)))
    {
      if v < mid { assert Fresh(a, b, PhysicalAddr(Leaf(root, b.mem, v))); }
    }
    forall v, w | lo <= v < w < hi
      ensures PhysicalAddr(Leaf(root, c.mem, v)) != PhysicalAddr(Leaf(root, c.mem, w))
    {
      if v < mid <= w { assert Fresh(b, c, PhysicalAddr(Leaf(root, c.mem, w))); }
    }
    forall x | x in a.free
      ensures x in c.free || x in c.owner || Backs(root, c, lo, hi, x)
    {
      if Backs(root, b, lo, mid, x) {
        var v :| lo <= v < mid && PhysicalAddr(Leaf(root, b.mem, v)) == x;
        assert Leaf(root, c.mem, v) == Leaf(root, b.mem, v);
      } else if Backs(root, c, mid, hi, x) {
        var v :| mid <= v < hi && PhysicalAddr(Leaf(root, c.mem, v)) == x;
      }
    }
  }

  /** A new table changes no leaf. */
  lemma AttachGrows(root: nat, a: View, b: View, q: Path, i: nat, x: nat)
    requires Owned(root, a.mem, a.owner) && IsPath(q, 1) && i < ENTRIES && TableAddr(root, a.mem, q) != 0
    requires !IsValid(EntryAt(root, a.mem, q + [i])) && x in a.free && x !in a.owner && x != 0 && x % PGSIZE == 0
    requires b == View(Attach(root, a.mem, q, i, x), a.free - {x}, a.owner[x := q + [i]])
    ensures Grew(root, a, b) && SameLeaves(root, a.mem, b.mem)
    ensures forall y :: y in a.free ==> y in b.free || y in b.owner
    ensures Owned(root, b.mem, b.owner) && OneTable(root, a.mem, b.mem, q + [i], x)
  {
    AttachKeepsOwned(root, a.mem, a.owner, q, i, x);
    AttachKeepsLeaves(root, a.mem, a.owner, q, i, x);
    hide Leaf, Owned, EntryAt;
    forall p | IsPath(p, 2)
      ensures TableAddr(root, b.mem, p) == if p == q + [i] then x else TableAddr(root, a.mem, p)
    {
      if p != [] { TableAttach(root, a.mem, a.owner, q, i, x, p); }
    }
  }

  /** A new leaf. */
  lemma LeafMapped(root: nat, a: View, b: View, v: nat, x: nat, entry: nat, perm: EntryPerm)
    requires v < PAGES && !IsValid(Leaf(root, a.mem, v)) && x in a.free && x !in a.owner
    requires OneLeaf(root, a.mem, b.mem, v, entry) && SameTables(root, a.mem, b.mem)
    requires Perm(entry) == perm && PhysicalAddr(entry) == x
    requires b.free == a.free - {x} && b.owner == a.owner
    ensures Grew(root, a, b) && Mapped(root, a, b, v, v + 1, perm)
  {
    assert v <= v < v + 1 && PhysicalAddr(Leaf(root, b.mem, v)) == x;
    hide Leaf, PhysicalAddr, IsValid, Perm, TableAddr;
  }

  // ---------------------------------------------------------------- the walk's progress

  /** Just the tables that a walk from `s` passes on its way to frontier `f` were added. */
  ghost predicate TablesTo(root: nat, m: Memory, m': Memory, s: nat, f: Frontier) {
    && (forall n :: 0 <= n < Tables(1) ==>
          (HasTable(root, m', 1, n) <==> HasTable(root, m, 1, n) || MidOf(s) <= n < f.mid))
    && (forall n :: 0 <= n < Tables(0) ==>
          (HasTable(root, m', 0, n) <==> HasTable(root, m, 0, n) || LeafOf(s) <= n < f.leaf))
  }

  /** A walk from page `s` has come from state `a` to `b` and to frontier `f`. */
  ghost predicate At(root: nat, a: View, b: View, s: nat, f: Frontier, perm: EntryPerm) {
    && Proper(f) && s <= f.page
    && Grew(root, a, b) && Mapped(root, a, b, s, f.page, perm) && TablesTo(root, a.mem, b.mem, s, f)
    && |a.free| == |b.free| + Used(root, a.mem, s, f)
  }

  lemma AtStart(root: nat, a: View, s: nat, perm: EntryPerm)
    requires s < PAGES
    ensures At(root, a, a, s, FrontierAt(2, s), perm)
  {
    MappedNothing(root, a, s, s, perm);
  }

  /** The table for page `p` is there already. */
  lemma TableThere(root: nat, a: View, b: View, s: nat, p: nat, level: nat, perm: EntryPerm)
    requires 1 <= level <= 2 && p < PAGES && At(root, a, b, s, FrontierAt(level, p), perm)
    requires Number(level, p) < Tables(level - 1) && HasTable(root, b.mem, level - 1, Number(level, p))
    ensures At(root, a, b, s, FrontierAt(level - 1, p), perm)
  {
    hide HasTable, Grew, Mapped;
    NumbersFit(s, p);
    var f := FrontierAt(level, p);
    if level == 2 { UsedMid(root, a.mem, s, f); } else { UsedLeaf(root, a.mem, s, f); }
    hide MidOf, LeafOf, Missing;
  }

  /** The number of the table that an entry at `level` for page `p` leads to. */
  function Number(level: nat, p: nat): nat { if level == 2 then MidOf(p) else LeafOf(p) }

  lemma NumbersFit(s: nat, p: nat)
    requires p < PAGES && s <= p
    ensures MidOf(s) <= MidOf(p) < ENTRIES && LeafOf(s) <= LeafOf(p) < ENTRIES * ENTRIES
  {
  }

  lemma TableNoInjective(level: nat, n: nat, k: nat)
    requires level <= 1 && n < Tables(level) && k < Tables(level) && TableNo(level, n) == TableNo(level, k)
    ensures n == k
  {
    assert TableNo(level, n)[0] == TableNo(level, k)[0];
    if level == 0 { assert TableNo(level, n)[1] == TableNo(level, k)[1]; }
  }

  /** The table for page `p` was made. */
  lemma TableMade(root: nat, a: View, b: View, c: View, s: nat, p: nat, level: nat, x: nat, perm: EntryPerm)
    requires 1 <= level <= 2 && p < PAGES && At(root, a, b, s, FrontierAt(level, p), perm)
    requires Number(level, p) < Tables(level - 1) && !HasTable(root, b.mem, level - 1, Number(level, p)) && x != 0
    requires OneTable(root, b.mem, c.mem, TableNo(level - 1, Number(level, p)), x) && SameLeaves(root, b.mem, c.mem)
    requires Grew(root, b, c) && x in b.free && c.free == b.free - {x}
    requires forall y :: y in b.free ==> y in c.free || y in c.owner
    ensures At(root, a, c, s, FrontierAt(level - 1, p), perm)
  {
    hide Leaf, TableAddr, Used, MidOf, LeafOf;
    NumbersFit(s, p);
    var f := FrontierAt(level, p);
    GrewTransitive(root, a, b, c);
    assert Mapped(root, a, c, s, p, perm) by { MappedSame(root, a, b, c, s, p, perm); }
    if level == 2 { UsedMid(root, a.mem, s, f); } else { UsedLeaf(root, a.mem, s, f); }
    TablesMade(root, a, b, c, s, p, level, x);
  }

  lemma TablesMade(root: nat, a: View, b: View, c: View, s: nat, p: nat, level: nat, x: nat)
    requires 1 <= level <= 2 && s <= p < PAGES && TablesTo(root, a.mem, b.mem, s, FrontierAt(level, p))
    requires Number(level, p) < Tables(level - 1) && x != 0
    requires OneTable(root, b.mem, c.mem, TableNo(level - 1, Number(level, p)), x)
    ensures TablesTo(root, a.mem, c.mem, s, FrontierAt(level - 1, p))
  {
    NumbersFit(s, p);
    var q := TableNo(level - 1, Number(level, p));
    hide TableAddr, MidOf, LeafOf;
    forall l, n | 0 <= l <= 1 && 0 <= n < Tables(l)
      ensures HasTable(root, c.mem, l, n) <==> HasTable(root, b.mem, l, n) || (l == level - 1 && n == Number(level, p))
    {
      var t := TableNo(l, n);
      assert TableAddr(root, c.mem, t) == if t == q then x else TableAddr(root, b.mem, t);
      if TableNo(l, n) == q {
        assert |TableNo(l, n)| == |q|;
        TableNoInjective(l, n, Number(level, p));
      }
    }
    hide HasTable;
  }

  /** A new table changes nothing about what was mapped before. */
  lemma MappedSame(root: nat, a: View, b: View, c: View, lo: nat, hi: nat, perm: EntryPerm)
    requires Mapped(root, a, b, lo, hi, perm) && SameLeaves(root, b.mem, c.mem) && Grew(root, a, b) && Grew(root, b, c)
    requires forall y :: y in b.free ==> y in c.free || y in c.owner
    ensures Mapped(root, a, c, lo, hi, perm)
  {
    hide Leaf, PhysicalAddr, IsValid, Perm, TableAddr;
    forall v | lo <= v < hi
      ensures Fresh(a, c, PhysicalAddr(Leaf(root, c.mem, v)))
    {
      assert Fresh(a, b, PhysicalAddr(Leaf(root, b.mem, v)));
    }
    forall x | x in a.free
      ensures x in c.free || x in c.owner || Backs(root, c, lo, hi, x)
    {
      if Backs(root, b, lo, hi, x) {
        var v :| lo <= v < hi && PhysicalAddr(Leaf(root, b.mem, v)) == x;
        assert Leaf(root, c.mem, v) == Leaf(root, b.mem, v);
      }
    }
  }

  /** Page `v` was mapped. */
  lemma PageMapped(root: nat, a: View, b: View, c: View, s: nat, v: nat, x: nat, perm: EntryPerm)
    requires v < PAGES && At(root, a, b, s, FrontierAt(0, v), perm)
    requires Grew(root, b, c) && Mapped(root, b, c, v, v + 1, perm) && SameTables(root, b.mem, c.mem)
    requires x in b.free && c.free == b.free - {x}
    ensures At(root, a, c, s, FrontierAt(0, v).(page := v + 1), perm)
  {
    hide Leaf, TableAddr, Grew, Mapped, MidOf, LeafOf, Missing;
    GrewTransitive(root, a, b, c);
    MappedThen(root, a, b, c, s, v, v + 1, perm);
    TablesSame(root, a, b, c, s, FrontierAt(0, v));
    hide TablesTo;
  }

  lemma TablesSame(root: nat, a: View, b: View, c: View, s: nat, f: Frontier)
    requires TablesTo(root, a.mem, b.mem, s, f) && SameTables(root, b.mem, c.mem)
    ensures TablesTo(root, a.mem, c.mem, s, f) && TablesTo(root, a.mem, c.mem, s, f.(page := f.page + 1))
  {
    hide TableAddr, MidOf, LeafOf;
    forall l, n | 0 <= l <= 1 && 0 <= n < Tables(l)
      ensures HasTable(root, c.mem, l, n) <==> HasTable(root, b.mem, l, n)
    {
      assert TableAddr(root, c.mem, TableNo(l, n)) == TableAddr(root, b.mem, TableNo(l, n));
    }
    hide HasTable;
  }
}
