/** The three-level tree of page tables in physical memory, addressed by index paths, and the
    flat map from virtual pages to leaf entries that it stands for. */
module PageTree {
  import opened Arithmetic
  import opened Pte
  import opened Wrappers

  const ENTRIES: nat := 512

  /** Physical memory that holds tables: frame address -> 512 entries. */
  type Memory = map<nat, seq<nat>>

  /** Table indices from the root down: [] is the root table, a path of three names a leaf. */
  type Path = seq<nat>

  predicate IsPath(p: Path, len: nat) {
    |p| <= len <= 3 && forall i :: 0 <= i < |p| ==> p[i] < ENTRIES
  }

  /** The frame of the table at a path; 0 when there is none. */
  function TableAddr(root: nat, m: Memory, p: Path): nat
    requires IsPath(p, 2)
    decreases |p|, 1
  {
    if p == [] then root
    else if IsValid(EntryAt(root, m, p)) then PhysicalAddr(EntryAt(root, m, p)) else 0
  }

  /** The entry at a path; 0 when the table that would hold it is missing. */
  function EntryAt(root: nat, m: Memory, p: Path): nat
    requires IsPath(p, 3) && p != []
    decreases |p|, 0
  {
    var t := TableAddr(root, m, p[..|p| - 1]);
    if t in m && |m[t]| == ENTRIES then m[t][p[|p| - 1]] else 0
  }

  /** Every table frame is the frame of one path only; entries above the leaves lead to tables. */
  ghost predicate Owned(root: nat, m: Memory, owner: map<nat, Path>) {
    && root in owner && 0 !in m
    && (forall a :: a in owner ==> a in m && |m[a]| == ENTRIES && a != 0)
    && (forall p :: IsPath(p, 2) && TableAddr(root, m, p) != 0 ==>
          TableAddr(root, m, p) in owner && owner[TableAddr(root, m, p)] == p)
    && (forall p :: IsPath(p, 2) && p != [] && IsValid(EntryAt(root, m, p)) ==>
          IsPageTable(EntryAt(root, m, p)) && PhysicalAddr(EntryAt(root, m, p)) != 0)
  }

  lemma OneParent(root: nat, m: Memory, owner: map<nat, Path>, p: Path, q: Path)
    requires Owned(root, m, owner) && IsPath(p, 2) && IsPath(q, 2)
    requires TableAddr(root, m, p) == TableAddr(root, m, q) != 0
    ensures p == q
  {
    assert owner[TableAddr(root, m, p)] == p && owner[TableAddr(root, m, q)] == q;
  }

  function Set(m: Memory, t: nat, i: nat, e: nat): Memory
    requires t in m && |m[t]| == ENTRIES && i < ENTRIES
  {
    var table: seq<nat> := m[t][i := e];
    m[t := table]
  }

  /** Writing a leaf entry changes the entry at that path and no other. */
  lemma {:induction false} LeafWrite(root: nat, m: Memory, owner: map<nat, Path>, q: Path, i: nat, e: nat, x: Path)
    requires Owned(root, m, owner) && IsPath(q, 2) && |q| == 2 && i < ENTRIES
    requires TableAddr(root, m, q) != 0 && IsPath(x, 3) && x != []
    ensures TableAddr(root, m, q) in m && |m[TableAddr(root, m, q)]| == ENTRIES
    ensures EntryAt(root, Set(m, TableAddr(root, m, q), i, e), x) ==
            if x == q + [i] then e else EntryAt(root, m, x)
    decreases |x|
  {
    var t := TableAddr(root, m, q);
    var m' := Set(m, t, i, e);
    var par := x[..|x| - 1];
    assert x == par + [x[|x| - 1]];
    if par != [] {
      LeafWrite(root, m, owner, q, i, e, par);
      assert TableAddr(root, m', par) == TableAddr(root, m, par);
    }
    if TableAddr(root, m, par) == t { OneParent(root, m, owner, par, q); }
  }

  /** Hanging a zeroed table into an entry that was not valid: that entry changes, no other. */
  lemma {:induction false} TableAttach(root: nat, m: Memory, owner: map<nat, Path>, q: Path, i: nat, a: nat, x: Path)
    requires Owned(root, m, owner) && IsPath(q, 1) && i < ENTRIES && TableAddr(root, m, q) != 0
    requires !IsValid(EntryAt(root, m, q + [i])) && a !in owner && a != 0 && a % PGSIZE == 0
    requires IsPath(x, 3) && x != []
    ensures TableAddr(root, m, q) in owner
    ensures EntryAt(root, Attach(root, m, q, i, a), x) == if x == q + [i] then MakePde(a) else EntryAt(root, m, x)
    decreases |x|
  {
    var t := TableAddr(root, m, q);
    var m' := Attach(root, m, q, i, a);
    var par := x[..|x| - 1];
    assert x == par + [x[|x| - 1]];
    PdeFacts(a);
    hide BitAt, IsPageTable, PhysicalAddr, MakePde;
    if par != [] { TableAttach(root, m, owner, q, i, a, par); }
    if par == q + [i] {
      assert TableAddr(root, m', par) == a && TableAddr(root, m, par) == 0;
    } else {
      assert TableAddr(root, m', par) == TableAddr(root, m, par);
      if TableAddr(root, m, par) == t { OneParent(root, m, owner, par, q); }
    }
  }

  function Attach(root: nat, m: Memory, q: Path, i: nat, a: nat): Memory
    requires IsPath(q, 1) && i < ENTRIES
  {
    var t := TableAddr(root, m, q);
    var m1 := m[a := seq(ENTRIES, _ => 0)];
    if t in m1 && |m1[t]| == ENTRIES then Set(m1, t, i, MakePde(a)) else m1
  }

  /** One table was made, at path `q` and in frame `x`. */
  ghost predicate OneTable(root: nat, m: Memory, m': Memory, q: Path, x: nat) {
    forall p :: IsPath(p, 2) ==> TableAddr(root, m', p) == if p == q then x else TableAddr(root, m, p)
  }

  /** An attached table keeps the ownership, with the new frame owned by its path. */
  lemma AttachKeepsOwned(root: nat, m: Memory, owner: map<nat, Path>, q: Path, i: nat, a: nat)
    requires Owned(root, m, owner) && IsPath(q, 1) && i < ENTRIES && TableAddr(root, m, q) != 0
    requires !IsValid(EntryAt(root, m, q + [i])) && a !in owner && a != 0 && a % PGSIZE == 0
    ensures Owned(root, Attach(root, m, q, i, a), owner[a := q + [i]])
    ensures TableAddr(root, Attach(root, m, q, i, a), q + [i]) == a
    ensures OneTable(root, m, Attach(root, m, q, i, a), q + [i], a)
  {
    var m', owner' := Attach(root, m, q, i, a), owner[a := q + [i]];
    PdeFacts(a);
    hide BitAt, IsPageTable, PhysicalAddr, MakePde, EntryAt;
    forall x | IsPath(x, 3) && x != []
      ensures EntryAt(root, m', x) == if x == q + [i] then MakePde(a) else EntryAt(root, m, x)
    {
      TableAttach(root, m, owner, q, i, a, x);
    }
    forall p | IsPath(p, 2)
      ensures TableAddr(root, m', p) == if p == q + [i] then a else TableAddr(root, m, p)
    {
    }
  }

  ghost predicate SameTables(root: nat, m: Memory, m': Memory) {
    forall p :: IsPath(p, 2) ==> TableAddr(root, m', p) == TableAddr(root, m, p)
  }

  lemma LeafKeepsOwned(root: nat, m: Memory, owner: map<nat, Path>, q: Path, i: nat, e: nat)
    requires Owned(root, m, owner) && IsPath(q, 2) && |q| == 2 && i < ENTRIES && TableAddr(root, m, q) != 0
    ensures TableAddr(root, m, q) in m && |m[TableAddr(root, m, q)]| == ENTRIES
    ensures Owned(root, Set(m, TableAddr(root, m, q), i, e), owner)
    ensures SameTables(root, m, Set(m, TableAddr(root, m, q), i, e))
  {
    var t := TableAddr(root, m, q);
    hide BitAt, IsPageTable, PhysicalAddr, EntryAt;
    var m' := Set(m, t, i, e);
    forall x | IsPath(x, 3) && x != []
      ensures EntryAt(root, m', x) == if x == q + [i] then e else EntryAt(root, m, x)
    {
      LeafWrite(root, m, owner, q, i, e, x);
    }
    forall p | IsPath(p, 2)
      ensures TableAddr(root, m', p) == TableAddr(root, m, p)
    {
    }
  }

  // ---------------------------------------------------------------- virtual pages

  /** Virtual page numbers have 27 bits. */
  const PAGES: nat := ENTRIES * ENTRIES * ENTRIES

  function PathOf(v: nat): (p: Path)
    requires v < PAGES
    ensures IsPath(p, 3) && |p| == 3
  {
    [v / ENTRIES / ENTRIES, v / ENTRIES % ENTRIES, v % ENTRIES]
  }

  lemma PathInjective(v: nat, w: nat)
    requires v < PAGES && w < PAGES && PathOf(v) == PathOf(w)
    ensures v == w
  {
    assert PathOf(v)[0] == PathOf(w)[0] && PathOf(v)[1] == PathOf(w)[1] && PathOf(v)[2] == PathOf(w)[2];
  }

  /** The leaf entry of a virtual page: the flat map that the tree stands for. */
  function Leaf(root: nat, m: Memory, v: nat): nat
    requires v < PAGES
  {
    EntryAt(root, m, PathOf(v))
  }
}
