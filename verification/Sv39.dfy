/** The Sv39 page table: single-page operations refine a finite map from virtual pages to
    leaf entries. */
module Sv39 {
  import opened Pte
  import opened PageTree
  import opened Wrappers

  /** One past the largest virtual address, 2^39. */
  const VA_END: nat := PAGES * PGSIZE

  /** How many pages an entry of a table at `level` stands for. */
  function Span(level: nat): nat
    requires level <= 2
  {
    if level == 0 then 1 else if level == 1 then ENTRIES else ENTRIES * ENTRIES
  }

  function IndexForVa(level: nat, va: nat): (i: nat)
    requires level <= 2
    ensures i < ENTRIES
  {
    va / (PGSIZE * Span(level)) % ENTRIES
  }

  lemma IndicesArePath(va: nat)
    requires va < VA_END
    ensures va / PGSIZE < PAGES
    ensures PathOf(va / PGSIZE) == [IndexForVa(2, va), IndexForVa(1, va), IndexForVa(0, va)]
  {
    assert va / (PGSIZE * ENTRIES) == va / PGSIZE / ENTRIES;
    assert va / (PGSIZE * (ENTRIES * ENTRIES)) == va / PGSIZE / ENTRIES / ENTRIES;
  }

  ghost predicate SameLeaves(root: nat, m: Memory, m': Memory) {
    forall v :: 0 <= v < PAGES ==> Leaf(root, m', v) == Leaf(root, m, v)
  }

  /** Only the leaf of page `v` changed, to `e`. */
  ghost predicate OneLeaf(root: nat, m: Memory, m': Memory, v: nat, e: nat)
    requires v < PAGES
  {
    forall w :: 0 <= w < PAGES ==> Leaf(root, m', w) == if w == v then e else Leaf(root, m, w)
  }

  lemma AttachKeepsLeaves(root: nat, m: Memory, owner: map<nat, Path>, q: Path, i: nat, a: nat)
    requires Owned(root, m, owner) && IsPath(q, 1) && i < ENTRIES && TableAddr(root, m, q) != 0
    requires !IsValid(EntryAt(root, m, q + [i])) && a !in owner && a != 0 && a % PGSIZE == 0
    ensures SameLeaves(root, m, Attach(root, m, q, i, a))
  {
    hide EntryAt, Attach, Owned;
    forall v | 0 <= v < PAGES
      ensures Leaf(root, Attach(root, m, q, i, a), v) == Leaf(root, m, v)
    {
      TableAttach(root, m, owner, q, i, a, PathOf(v));
    }
  }

  lemma LeafWriteIsUpdate(root: nat, m: Memory, owner: map<nat, Path>, v: nat, e: nat)
    requires Owned(root, m, owner) && v < PAGES && TableAddr(root, m, PathOf(v)[..2]) != 0
    ensures var t := TableAddr(root, m, PathOf(v)[..2]);
            && t in m && |m[t]| == ENTRIES && OneLeaf(root, m, Set(m, t, v % ENTRIES, e), v, e)
            && Owned(root, Set(m, t, v % ENTRIES, e), owner)
            && SameTables(root, m, Set(m, t, v % ENTRIES, e))
  {
    var q, i := PathOf(v)[..2], v % ENTRIES;
    LeafKeepsOwned(root, m, owner, q, i, e);
    assert PathOf(v) == q + [i];
    hide EntryAt, Owned;
    forall w | 0 <= w < PAGES
      ensures Leaf(root, Set(m, TableAddr(root, m, q), i, e), w) == if w == v then e else Leaf(root, m, w)
    {
      LeafWrite(root, m, owner, q, i, e, PathOf(w));
      if PathOf(w) == PathOf(v) { PathInjective(w, v); }
    }
  }

  lemma EmptyTree(root: nat, m: Memory)
    requires root != 0 && m == map[root := seq(ENTRIES, _ => 0)]
    ensures Owned(root, m, map[root := []])
    ensures forall v :: 0 <= v < PAGES ==> !IsValid(Leaf(root, m, v))
  {
    forall p | IsPath(p, 3) && p != []
      ensures EntryAt(root, m, p) == 0
    {
      EmptyEntry(root, m, p);
    }
  }

  lemma {:induction false} EmptyEntry(root: nat, m: Memory, p: Path)
    requires root != 0 && m == map[root := seq(ENTRIES, _ => 0)] && IsPath(p, 3) && p != []
    ensures EntryAt(root, m, p) == 0
    decreases |p|
  {
    if |p| > 1 { EmptyEntry(root, m, p[..|p| - 1]); }
  }

  lemma RootTable(root: nat, m: Memory)
    ensures TableAddr(root, m, []) == root
  {
  }

  /** An entry of a table in the tree, as memory holds it. */
  lemma EntryInTable(root: nat, m: Memory, owner: map<nat, Path>, q: Path, i: nat)
    requires Owned(root, m, owner) && IsPath(q, 2) && i < ENTRIES && TableAddr(root, m, q) != 0
    ensures var t := TableAddr(root, m, q);
            t in owner && t in m && |m[t]| == ENTRIES && m[t][i] == EntryAt(root, m, q + [i])
  {
    assert (q + [i])[..|q|] == q;
  }

  lemma TableBelow(root: nat, m: Memory, owner: map<nat, Path>, q: Path, i: nat)
    requires Owned(root, m, owner) && IsPath(q, 1) && i < ENTRIES && IsValid(EntryAt(root, m, q + [i]))
    ensures TableAddr(root, m, q + [i]) == PhysicalAddr(EntryAt(root, m, q + [i])) != 0
    ensures IsPageTable(EntryAt(root, m, q + [i]))
  {
  }

  lemma LeafInTable(root: nat, m: Memory, owner: map<nat, Path>, v: nat)
    requires Owned(root, m, owner) && v < PAGES && TableAddr(root, m, PathOf(v)[..2]) != 0
    ensures var t := TableAddr(root, m, PathOf(v)[..2]);
            t in m && |m[t]| == ENTRIES && m[t][v % ENTRIES] == Leaf(root, m, v)
  {
    EntryInTable(root, m, owner, PathOf(v)[..2], v % ENTRIES);
    assert PathOf(v) == PathOf(v)[..2] + [v % ENTRIES];
  }

  /** Below an entry that is not valid there is no leaf. */
  lemma NoLeafBelow(root: nat, m: Memory, owner: map<nat, Path>, v: nat, q: Path)
    requires Owned(root, m, owner) && v < PAGES && q <= PathOf(v) && 1 <= |q| <= 2
    requires !IsValid(EntryAt(root, m, q))
    ensures Leaf(root, m, v) == 0 && !IsValid(0)
  {
    hide IsPageTable, PhysicalAddr;
    var p := PathOf(v);
    assert p[..2][..1] == p[..1];
    assert q == p[..1] || q == p[..2];
    assert TableAddr(root, m, q) == 0;
    if |q| == 1 { assert EntryAt(root, m, p[..2]) == 0; }
  }

  /** How many tables on the way to page `v` are missing. */
  function MissingTables(root: nat, m: Memory, v: nat): nat
    requires v < PAGES
  {
    if TableAddr(root, m, PathOf(v)[..1]) == 0 then 2 else if TableAddr(root, m, PathOf(v)[..2]) == 0 then 1 else 0
  }

  /** Just those tables that are missing at the start and not at the end were made, each of a frame
      that was free. */
  ghost predicate FramesForTables(a: set<nat>, b: set<nat>, owner: map<nat, Path>, owner': map<nat, Path>, n: nat) {
    && b <= a && |a| == |b| + n
    && (forall x :: x in owner ==> x in owner')
    && (forall x :: x in a ==> x in b || x in owner')
  }

  lemma MadeOne(a: set<nat>, owner: map<nat, Path>, x: nat, q: Path)
    requires x in a
    ensures FramesForTables(a, a - {x}, owner, owner[x := q], 1)
  {
  }

  lemma FramesThen(a: set<nat>, b: set<nat>, c: set<nat>, o: map<nat, Path>, p: map<nat, Path>, q: map<nat, Path>,
                   n: nat, k: nat)
    requires FramesForTables(a, b, o, p, n) && FramesForTables(b, c, p, q, k)
    ensures FramesForTables(a, c, o, q, n + k)
  {
  }

  /** No table was lost or moved, and none was made off the path of page `v`. */
  ghost predicate PathTables(root: nat, m: Memory, m': Memory, v: nat)
    requires v < PAGES
  {
    forall p :: IsPath(p, 2) && (TableAddr(root, m, p) != 0 || !(p <= PathOf(v))) ==>
      TableAddr(root, m', p) == TableAddr(root, m, p)
  }

  lemma PathTableMade(root: nat, m: Memory, m': Memory, v: nat, q: Path, x: nat)
    requires v < PAGES && OneTable(root, m, m', q, x) && q <= PathOf(v) && IsPath(q, 2) && TableAddr(root, m, q) == 0
    ensures PathTables(root, m, m', v)
  {
    hide TableAddr;
  }

  lemma PathTablesThen(root: nat, a: Memory, b: Memory, c: Memory, v: nat)
    requires v < PAGES && PathTables(root, a, b, v) && PathTables(root, b, c, v)
    ensures PathTables(root, a, c, v)
  {
    hide TableAddr;
  }

  /** Making the next table on the path leaves one less missing. */
  lemma OneLessMissing(root: nat, m: Memory, m': Memory, owner: map<nat, Path>, v: nat, q: Path, x: nat)
    requires Owned(root, m, owner) && v < PAGES && 1 <= |q| <= 2 && q == PathOf(v)[..|q|] && x != 0
    requires TableAddr(root, m, PathOf(v)[..|q| - 1]) != 0 && TableAddr(root, m, q) == 0 && OneTable(root, m, m', q, x)
    ensures MissingTables(root, m', v) + 1 == MissingTables(root, m, v)
  {
    var p := PathOf(v);
    assert p[..2][..1] == p[..1];
    if |q| == 1 { assert TableAddr(root, m, p[..2]) == 0; }
    hide Owned, EntryAt, PathOf;
    assert |p[..1]| == 1 && |p[..2]| == 2;
  }

  /** An entry that is not valid leads to no table. */
  lemma NoTable(root: nat, m: Memory, q: Path)
    requires IsPath(q, 2) && q != [] && !IsValid(EntryAt(root, m, q))
    ensures TableAddr(root, m, q) == 0
  {
  }

  lemma Unwalked(root: nat, m: Memory, free: set<nat>, owner: map<nat, Path>, v: nat)
    requires v < PAGES
    ensures SameLeaves(root, m, m) && PathTables(root, m, m, v) && FramesForTables(free, free, owner, owner, 0)
  {
  }

  lemma SameLeavesThen(root: nat, a: Memory, b: Memory, c: Memory)
    requires SameLeaves(root, a, b) && SameLeaves(root, b, c)
    ensures SameLeaves(root, a, c)
  {
    hide Leaf;
  }

  lemma StillMissing(root: nat, m: Memory, v: nat, q: Path)
    requires v < PAGES && 1 <= |q| <= 2 && q == PathOf(v)[..|q|] && TableAddr(root, m, q) == 0
    ensures MissingTables(root, m, v) > 0
  {
    hide TableAddr;
  }

  lemma NoneMissing(root: nat, m: Memory, owner: map<nat, Path>, v: nat)
    requires Owned(root, m, owner) && v < PAGES && TableAddr(root, m, PathOf(v)[..2]) != 0
    ensures MissingTables(root, m, v) == 0
  {
    assert PathOf(v)[..2][..1] == PathOf(v)[..1];
  }

  lemma MadeAll(a: set<nat>, b: set<nat>, owner: map<nat, Path>, owner': map<nat, Path>, n: nat)
    requires FramesForTables(a, b, owner, owner', n)
    ensures n <= |a| && (b == {} ==> n == |a|)
  {
  }

  class PageTable {
    const root: nat
    var mem: Memory
    var free: set<nat>                 // the frames the page allocator can hand out
    ghost var owner: map<nat, Path>    // the frames that are tables, each with its path

    ghost predicate Valid()
      reads this
    {
      && Owned(root, mem, owner)
      && forall a :: a in free ==> a !in owner && a != 0 && a % PGSIZE == 0
    }

    constructor (frame: nat, frames: set<nat>)
      requires frame != 0 && frame % PGSIZE == 0 && frame !in frames
      requires forall a :: a in frames ==> a != 0 && a % PGSIZE == 0
      ensures Valid() && root == frame && free == frames && owner == map[frame := []]
      ensures forall v :: 0 <= v < PAGES ==> !IsValid(Leaf(root, mem, v))
    {
      root, free := frame, frames;
      mem, owner := map[frame := seq(ENTRIES, _ => 0)], map[frame := []];
      new;
      EmptyTree(root, mem);
    }

    /** The frame at the front of the page allocator, whichever it is. */
    method AllocFrame() returns (r: Option<nat>)
      modifies this`free
      ensures r.None? <==> old(free) == {}
      ensures r.None? ==> free == old(free)
      ensures r.Some? ==> r.value in old(free) && free == old(free) - {r.value}
    {
      if free == {} { return None; }
      var a :| a in free;
      free := free - {a};
      r := Some(a);
    }

    /** Gives a frame that is in use back. */
    method FreeFrame(a: nat)
      requires Valid() && a !in free && a !in owner && a != 0 && a % PGSIZE == 0
      modifies this`free
      ensures Valid() && free == old(free) + {a}
    {
      free := free + {a};
    }

    /** Makes a zeroed table and hangs it into entry `i` of `table`, which lies at path `q`. */
    method NewTable(table: nat, i: nat, ghost q: Path) returns (r: Option<nat>)
      requires Valid() && IsPath(q, 1) && i < ENTRIES && table == TableAddr(root, mem, q) != 0
      requires !IsValid(EntryAt(root, mem, q + [i]))
      modifies this
      ensures Valid()
      ensures r.None? <==> old(free) == {}
      ensures r.None? ==> mem == old(mem) && free == old(free) && owner == old(owner)
      ensures r.Some? ==>
                && r.value in old(free) && free == old(free) - {r.value}
                && OneTable(root, old(mem), mem, q + [i], r.value)
                && mem == Attach(root, old(mem), q, i, r.value) && owner == old(owner)[r.value := q + [i]]
                && TableAddr(root, mem, q + [i]) == r.value != 0 && SameLeaves(root, old(mem), mem)
    {
      hide Leaf, EntryAt, TableAddr, IsValid;
      r := AllocFrame();
      if r.None? { return; }
      AttachKeepsOwned(root, mem, owner, q, i, r.value);
      AttachKeepsLeaves(root, mem, owner, q, i, r.value);
      EntryInTable(root, mem, owner, q, i);
      hide Owned;
      mem := mem[r.value := seq(ENTRIES, _ => 0)];
      mem := Set(mem, table, i, MakePde(r.value));
      owner := owner[r.value := q + [i]];
    }

    /** One level down on the way to page `v`: the table that entry `i` of `table` leads to, which is
        made when it is missing and a frame is free. */
    method Descend(table: nat, i: nat, ghost q: Path, ghost v: nat) returns (r: Option<nat>)
      requires Valid() && IsPath(q, 1) && i < ENTRIES && v < PAGES && q + [i] == PathOf(v)[..|q| + 1]
      requires table == TableAddr(root, mem, q) != 0
      modifies this
      ensures Valid() && SameLeaves(root, old(mem), mem) && PathTables(root, old(mem), mem, v)
      ensures MissingTables(root, mem, v) <= old(MissingTables(root, mem, v))
      ensures FramesForTables(old(free), free, old(owner), owner,
                              old(MissingTables(root, mem, v)) - MissingTables(root, mem, v))
      ensures r.Some? ==> r.value == TableAddr(root, mem, q + [i]) != 0
      ensures r.None? ==> free == {} && MissingTables(root, mem, v) > 0
    {
      hide Leaf, EntryAt, TableAddr, IsValid, Owned, MissingTables, FramesForTables, PathTables, SameLeaves,
        OneTable, PathOf;
      ghost var next := q + [i];
      assert q == next[..|q|] == PathOf(v)[..|q|];
      EntryInTable(root, mem, owner, q, i);
      Unwalked(root, mem, free, owner, v);
      var pde := mem[table][i];
      if IsValid(pde) {
        TableBelow(root, mem, owner, q, i);
        r := Some(PhysicalAddr(pde));
      } else {
        NoTable(root, mem, next);
        StillMissing(root, mem, v, next);
        ghost var before, owner0 := mem, owner;
        r := NewTable(table, i, q);
        if r.Some? {
          MadeOne(old(free), owner0, r.value, next);
          OneLessMissing(root, before, mem, owner0, v, next, r.value);
          PathTableMade(root, before, mem, v, next, r.value);
        }
      }
    }

    /** Goes down to the leaf table of `va`, making the tables that are missing: it succeeds exactly
        when there is a free frame for each of them. */
    method Walk(va: nat) returns (r: Option<(nat, nat)>)
      requires Valid() && va < VA_END
      modifies this
      ensures Valid() && va / PGSIZE < PAGES && SameLeaves(root, old(mem), mem)
      ensures PathTables(root, old(mem), mem, va / PGSIZE)
      ensures r.Some? <==> old(MissingTables(root, mem, va / PGSIZE)) <= old(|free|)
      ensures FramesForTables(old(free), free, old(owner), owner,
                              if r.Some? then old(MissingTables(root, mem, va / PGSIZE)) else old(|free|))
      ensures r.Some? ==>
                var v := va / PGSIZE;
                r.value == (TableAddr(root, mem, PathOf(v)[..2]), v % ENTRIES) && r.value.0 != 0
    {
      IndicesArePath(va);
      hide Leaf, EntryAt, TableAddr, IndexForVa, IsValid, Owned, MissingTables, FramesForTables, PathTables, SameLeaves,
        OneTable, PathOf;
      ghost var v, n: nat := va / PGSIZE, 0;
      var table := root;
      RootTable(root, mem);
      Unwalked(root, mem, free, owner, v);
      var level := 2;
      while level > 0
        invariant level <= 2 && Valid() && SameLeaves(root, old(mem), mem) && PathTables(root, old(mem), mem, v)
        invariant table == TableAddr(root, mem, PathOf(v)[..2 - level]) != 0
        invariant FramesForTables(old(free), free, old(owner), owner, n)
        invariant n + MissingTables(root, mem, v) == old(MissingTables(root, mem, va / PGSIZE))
      {
        var i := IndexForVa(level, va);
        ghost var q, mid, free0, owner0 := PathOf(v)[..2 - level], mem, free, owner;
        assert q + [i] == PathOf(v)[..3 - level];
        var next := Descend(table, i, q, v);
        ghost var k := MissingTables(root, mid, v) - MissingTables(root, mem, v);
        FramesThen(old(free), free0, free, old(owner), owner0, owner, n, k);
        PathTablesThen(root, old(mem), mid, mem, v);
        SameLeavesThen(root, old(mem), mid, mem);
        n := n + k;
        MadeAll(old(free), free, old(owner), owner, n);
        if next.None? { return None; }
        table := next.value;
        level := level - 1;
      }
      NoneMissing(root, mem, owner, v);
      MadeAll(old(free), free, old(owner), owner, n);
      r := Some((table, IndexForVa(0, va)));
    }

    /** Overwrites the leaf entry of page `v`, which lies at index `i` of table `t`. */
    method WriteLeaf(t: nat, i: nat, e: nat, ghost v: nat)
      requires Valid() && v < PAGES && t == TableAddr(root, mem, PathOf(v)[..2]) != 0 && i == v % ENTRIES
      modifies this`mem
      ensures Valid() && OneLeaf(root, old(mem), mem, v, e) && SameTables(root, old(mem), mem)
    {
      hide Leaf, EntryAt, TableAddr, Owned;
      LeafWriteIsUpdate(root, mem, owner, v, e);
      mem := Set(mem, t, i, e);
    }

    /** Maps the page of `va` to frame `pa`. A failed table allocation changes no page. */
    method Map(va: nat, pa: nat, perm: EntryPerm) returns (r: Result<()>)
      requires Valid() && va < VA_END && pa % PGSIZE == 0 && pa != 0
      modifies this
      ensures Valid() && va / PGSIZE < PAGES && PathTables(root, old(mem), mem, va / PGSIZE)
      ensures r.Ok? <==> old(MissingTables(root, mem, va / PGSIZE)) <= old(|free|)
      ensures FramesForTables(old(free), free, old(owner), owner,
                              if r.Ok? then old(MissingTables(root, mem, va / PGSIZE)) else old(|free|))
      ensures r.Ok? ==>
                var e := Leaf(root, mem, va / PGSIZE);
                && Perm(e) == perm.(valid := true) && PhysicalAddr(e) == pa
                && OneLeaf(root, old(mem), mem, va / PGSIZE, e)
      ensures r.Err? ==> r.error == OutOfMemory && SameLeaves(root, old(mem), mem)
    {
      hide Leaf, EntryAt, TableAddr, IsValid, Perm, PhysicalAddr, ApplyPerm, SetPhysicalAddr, Owned, MissingTables,
        FramesForTables;
      var place := Walk(va);
      if place.None? { return Err(OutOfMemory); }
      var (t, i) := place.value;
      LeafInTable(root, mem, owner, va / PGSIZE);
      var e := ApplyPerm(SetPhysicalAddr(mem[t][i], pa), perm.(valid := true));
      MappedEntry(mem[t][i], pa, perm.(valid := true));
      WriteLeaf(t, i, e, va / PGSIZE);
      r := Ok(());
    }

    /** Like `Map`, but leaves a page that is mapped already alone and says so. */
    method TryMap(va: nat, pa: nat, perm: EntryPerm) returns (r: Result<bool>)
      requires Valid() && va < VA_END && pa % PGSIZE == 0 && pa != 0
      modifies this
      ensures Valid() && va / PGSIZE < PAGES && PathTables(root, old(mem), mem, va / PGSIZE)
      ensures r.Ok? <==> old(MissingTables(root, mem, va / PGSIZE)) <= old(|free|)
      ensures FramesForTables(old(free), free, old(owner), owner,
                              if r.Ok? then old(MissingTables(root, mem, va / PGSIZE)) else old(|free|))
      ensures r.Ok? ==> (r.value <==> !IsValid(old(Leaf(root, mem, va / PGSIZE))))
      ensures r == Ok(true) ==>
                var e := Leaf(root, mem, va / PGSIZE);
                && Perm(e) == perm.(valid := true) && PhysicalAddr(e) == pa
                && OneLeaf(root, old(mem), mem, va / PGSIZE, e)
      ensures r != Ok(true) ==> SameLeaves(root, old(mem), mem)
      ensures r.Err? ==> r.error == OutOfMemory
    {
      hide Leaf, EntryAt, TableAddr, IsValid, Perm, PhysicalAddr, ApplyPerm, SetPhysicalAddr, Owned, MissingTables,
        FramesForTables;
      var place := Walk(va);
      if place.None? { return Err(OutOfMemory); }
      var (t, i) := place.value;
      LeafInTable(root, mem, owner, va / PGSIZE);
      if IsValid(mem[t][i]) { return Ok(false); }
      var e := ApplyPerm(SetPhysicalAddr(mem[t][i], pa), perm.(valid := true));
      MappedEntry(mem[t][i], pa, perm.(valid := true));
      WriteLeaf(t, i, e, va / PGSIZE);
      r := Ok(true);
    }

    /** The place of the leaf entry of a mapped page; the assertion that inner entries lead to
        tables never fails. */
    method GetEntry(va: nat) returns (r: Option<(nat, nat)>)
      requires Valid() && va < VA_END
      ensures va / PGSIZE < PAGES
      ensures r.Some? <==> IsValid(Leaf(root, mem, va / PGSIZE))
      ensures r.Some? ==>
                && r.value == (TableAddr(root, mem, PathOf(va / PGSIZE)[..2]), (va / PGSIZE) % ENTRIES)
                && r.value.0 != 0 && r.value.0 in mem && |mem[r.value.0]| == ENTRIES
                && mem[r.value.0][r.value.1] == Leaf(root, mem, va / PGSIZE)
    {
      IndicesArePath(va);
      hide EntryAt, TableAddr, IndexForVa, IsValid, PhysicalAddr;
      ghost var q: Path := [];
      RootTable(root, mem);
      var table, i := root, IndexForVa(2, va);
      EntryInTable(root, mem, owner, q, i);
      var level := 2;
      while level > 0
        invariant level <= 2 && q == PathOf(va / PGSIZE)[..2 - level] && i == PathOf(va / PGSIZE)[2 - level]
        invariant table == TableAddr(root, mem, q) != 0 && table in mem && |mem[table]| == ENTRIES
        invariant mem[table][i] == EntryAt(root, mem, q + [i])
      {
        var pte := mem[table][i];
        if !IsValid(pte) {
          NoLeafBelow(root, mem, owner, va / PGSIZE, q + [i]);
          return None;
        }
        TableBelow(root, mem, owner, q, i);
        assert IsPageTable(pte);
        table := PhysicalAddr(pte);
        q := q + [i];
        level := level - 1;
        i := IndexForVa(level, va);
        EntryInTable(root, mem, owner, q, i);
      }
      assert q + [i] == PathOf(va / PGSIZE);
      r := if IsValid(mem[table][i]) then Some((table, i)) else None;
    }

    /** Unmaps a page and returns the frame it was mapped to, if it was mapped. */
    method Unmap(va: nat) returns (r: Option<nat>)
      requires Valid() && va < VA_END
      modifies this
      ensures Valid() && va / PGSIZE < PAGES && free == old(free)
      ensures r == if IsValid(old(Leaf(root, mem, va / PGSIZE)))
                   then Some(PhysicalAddr(old(Leaf(root, mem, va / PGSIZE)))) else None
      ensures if r.Some? then OneLeaf(root, old(mem), mem, va / PGSIZE, 0) else mem == old(mem)
    {
      hide Leaf, EntryAt, TableAddr, IsValid, PhysicalAddr, Owned;
      var place := GetEntry(va);
      if place.None? { return None; }
      var (t, i) := place.value;
      r := Some(PhysicalAddr(mem[t][i]));
      WriteLeaf(t, i, 0, va / PGSIZE);
    }
  }
}
