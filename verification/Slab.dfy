/** Slabs: page frames carved into objects of one size, kept in lists of empty, partial and full
    slabs. */
module Slab {
  import opened Wrappers
  import Buddy

  const MAX_EMPTY_SLABS: nat := 8
  const EMPTY_SLABS_BATCH_COUNT: nat := 4

  /** The order of a slab's frame: room for eight objects, at most 32 pages. */
  function PgfOrder(size: nat): nat {
    var order := Buddy.FindOrder(size * 8);
    if order < 5 then order else 5
  }

  lemma EightObjectsFit(size: nat)
    requires size <= 2 * PGSIZE
    ensures 8 * size <= Buddy.BlockSize(PgfOrder(size))
  {
    Buddy.FindOrderIsLeast(size * 8, 4);
    assert Buddy.BlockSize(4) == 16 * PGSIZE by {
      assert Buddy.Arithmetic.Pow2(4) == 16;
    }
    hide Buddy.FindOrder, Buddy.BlockSize;
  }

  /** The objects of a frame, in ascending order. */
  function Carve(at: nat, end: nat, size: nat): (r: seq<nat>)
    requires size > 0
    decreases end - at
  {
    if at + size <= end then [at] + Carve(at + size, end, size) else []
  }

  lemma {:induction false} CarveMeans(at: nat, end: nat, size: nat)
    requires size > 0
    ensures forall a :: a in Carve(at, end, size) ==> at <= a && a + size <= end
    ensures Distinct(Carve(at, end, size))
    decreases end - at
  {
    if at + size <= end {
      CarveMeans(at + size, end, size);
      assert at !in Carve(at + size, end, size);
    }
  }

  /** As many objects as the division says. */
  lemma CarveCount(at: nat, end: nat, size: nat)
    requires size > 0 && at <= end
    ensures |Carve(at, end, size)| == (end - at) / size
  {
    CarveBounds(at, end, size);
    Quotient(end - at, |Carve(at, end, size)|, size);
  }

  lemma Quotient(x: nat, n: nat, size: nat)
    requires size > 0 && n * size <= x < (n + 1) * size
    ensures x / size == n
  {
    var q := x / size;
    assert q * size <= x < (q + 1) * size;
    Smaller(n, q + 1, size);
    Smaller(q, n + 1, size);
  }

  lemma {:induction false} CarveBounds(at: nat, end: nat, size: nat)
    requires size > 0 && at <= end
    ensures var n := |Carve(at, end, size)|; n * size <= end - at < (n + 1) * size
    decreases end - at
  {
    if at + size <= end {
      CarveBounds(at + size, end, size);
      var m := |Carve(at + size, end, size)|;
      assert (m + 1) * size == m * size + size && (m + 2) * size == (m + 1) * size + size;
    }
  }

  lemma Smaller(a: nat, b: nat, d: nat)
    requires a * d < b * d
    ensures a < b
  {
  }

  /** A slab: its frame, its free objects and two counts. */
  datatype Slab = Slab(base: nat, free: seq<nat>, nrFree: nat, numObjs: nat)

  /** The size of objects and of frames. */
  datatype Sizes = Sizes(obj: nat, frame: nat)

  predicate Fitting(z: Sizes) { 0 < z.obj <= z.frame }

  function Elems(s: seq<nat>): set<nat> { set a | a in s }

  function Objs(z: Sizes, base: nat): set<nat>
    requires Fitting(z)
  {
    Elems(Carve(base, base + z.frame, z.obj))
  }

  ghost predicate SlabOk(z: Sizes, s: Slab)
    requires Fitting(z)
  {
    && s.nrFree == |s.free| && Distinct(s.free) && Elems(s.free) <= Objs(z, s.base)
    && s.numObjs == |Objs(z, s.base)| == z.frame / z.obj
  }

  /** The objects of a slab that are not on its free list. */
  function OutOf(z: Sizes, s: Slab): set<nat>
    requires Fitting(z)
  {
    Objs(z, s.base) - Elems(s.free)
  }

  /** `slab_contains`: the object lies in the slab's frame. */
  predicate Contains(z: Sizes, s: Slab, obj: nat) { s.base <= obj && obj + z.obj <= s.base + z.frame }

  predicate Apart(z: Sizes, a: nat, b: nat) { a + z.frame <= b || b + z.frame <= a }

  /** Frames do not overlap. */
  ghost predicate AllApart(z: Sizes, frames: set<nat>) {
    forall a, b :: a in frames && b in frames && a != b ==> Apart(z, a, b)
  }

  /** An object lies in the frame of its own slab and in no other. */
  lemma ContainsIsOwner(z: Sizes, s: Slab, base: nat, obj: nat)
    requires Fitting(z) && obj in Objs(z, base) && (base == s.base || Apart(z, base, s.base))
    ensures Contains(z, s, obj) <==> base == s.base
    ensures obj in Objs(z, s.base) <==> base == s.base
  {
    CarveMeans(base, base + z.frame, z.obj);
    CarveMeans(s.base, s.base + z.frame, z.obj);
  }

  // ---------------------------------------------------------------- lists of slabs

  function Bases(list: seq<Slab>): set<nat> { set s | s in list :: s.base }

  ghost predicate OneEach(list: seq<Slab>) { forall i, j :: 0 <= i < j < |list| ==> list[i].base != list[j].base }

  function AllOut(z: Sizes, list: seq<Slab>): set<nat>
    requires Fitting(z)
  {
    if list == [] then {} else OutOf(z, list[0]) + AllOut(z, list[1..])
  }

  lemma {:induction false} AllOutAppend(z: Sizes, x: seq<Slab>, y: seq<Slab>)
    requires Fitting(z)
    ensures AllOut(z, x + y) == AllOut(z, x) + AllOut(z, y)
  {
    if x == [] {
      assert x + y == y;
    } else {
      AllOutAppend(z, x[1..], y);
      assert (x + y)[1..] == x[1..] + y;
    }
  }

  lemma {:induction false} AllOutMeans(z: Sizes, list: seq<Slab>, obj: nat)
    requires Fitting(z)
    ensures obj in AllOut(z, list) <==> exists i :: 0 <= i < |list| && obj in OutOf(z, list[i])
  {
    if list != [] {
      AllOutMeans(z, list[1..], obj);
      if obj in AllOut(z, list[1..]) {
        var i :| 0 <= i < |list[1..]| && obj in OutOf(z, list[1..][i]);
        assert list[i + 1] == list[1..][i];
      }
      if i :| 0 <= i < |list| && obj in OutOf(z, list[i]) {
        if i > 0 { assert list[1..][i - 1] == list[i]; }
      }
    }
  }

  function SumObjs(list: seq<Slab>): nat { if list == [] then 0 else list[0].numObjs + SumObjs(list[1..]) }

  lemma {:induction false} SumObjsAppend(x: seq<Slab>, y: seq<Slab>)
    ensures SumObjs(x + y) == SumObjs(x) + SumObjs(y)
  {
    if x == [] {
      assert x + y == y;
    } else {
      SumObjsAppend(x[1..], y);
      assert (x + y)[1..] == x[1..] + y;
    }
  }

  /** Every slab of the list is well formed and each stands on a frame of its own. */
  ghost predicate ListOk(z: Sizes, list: seq<Slab>)
    requires Fitting(z)
  {
    (forall i :: 0 <= i < |list| ==> SlabOk(z, list[i])) && OneEach(list)
  }

  lemma PushOk(z: Sizes, list: seq<Slab>, s: Slab)
    requires Fitting(z) && ListOk(z, list) && SlabOk(z, s) && s.base !in Bases(list)
    ensures ListOk(z, [s] + list) && Bases([s] + list) == Bases(list) + {s.base}
    ensures AllOut(z, [s] + list) == OutOf(z, s) + AllOut(z, list)
    ensures SumObjs([s] + list) == s.numObjs + SumObjs(list)
  {
    hide SlabOk, OutOf;
    assert ([s] + list)[1..] == list;
    forall i | 0 <= i < |list|
      ensures list[i].base in Bases(list)
    {
      assert list[i] in list;
    }
  }

  /** A list without its slab at `i`. */
  function Less(list: seq<Slab>, i: nat): seq<Slab>
    requires i < |list|
  {
    list[..i] + list[i + 1..]
  }

  lemma RemoveOk(z: Sizes, list: seq<Slab>, i: nat)
    requires Fitting(z) && ListOk(z, list) && i < |list|
    ensures ListOk(z, Less(list, i)) && SlabOk(z, list[i])
    ensures Bases(Less(list, i)) == Bases(list) - {list[i].base} && list[i].base in Bases(list)
    ensures AllOut(z, list) == OutOf(z, list[i]) + AllOut(z, Less(list, i))
    ensures SumObjs(list) == list[i].numObjs + SumObjs(Less(list, i))
  {
    hide SlabOk, OutOf;
    var x, y, s := list[..i], list[i + 1..], list[i];
    assert list == x + ([s] + y) && ([s] + y)[1..] == y;
    AllOutAppend(z, x, [s] + y);
    AllOutAppend(z, x, y);
    SumObjsAppend(x, [s] + y);
    SumObjsAppend(x, y);
    RemoveBases(list, i);
  }

  lemma RemoveBases(list: seq<Slab>, i: nat)
    requires OneEach(list) && i < |list|
    ensures OneEach(Less(list, i))
    ensures Bases(Less(list, i)) == Bases(list) - {list[i].base} && list[i].base in Bases(list)
  {
    var rest := Less(list, i);
    assert list[i] in list;
    LessMembers(list, i);
    hide OneEach, Less;
    LessOneEach(list, i);
  }

  lemma LessMembers(list: seq<Slab>, i: nat)
    requires OneEach(list) && i < |list|
    ensures forall s :: s in Less(list, i) <==> s in list && s.base != list[i].base
  {
    var rest := Less(list, i);
    forall s | s in list && s.base != list[i].base
      ensures s in rest
    {
      var k :| 0 <= k < |list| && list[k] == s;
      assert rest[if k < i then k else k - 1] == s;
    }
    forall s | s in rest
      ensures s in list && s.base != list[i].base
    {
      var k :| 0 <= k < |rest| && rest[k] == s;
      assert s == list[if k < i then k else k + 1];
    }
  }

  lemma LessOneEach(list: seq<Slab>, i: nat)
    requires OneEach(list) && i < |list|
    ensures OneEach(Less(list, i))
  {
    var rest := Less(list, i);
    forall k, l | 0 <= k < l < |rest|
      ensures rest[k].base != rest[l].base
    {
      assert rest[k] == list[if k < i then k else k + 1] && rest[l] == list[if l < i then l else l + 1];
    }
  }

  /** The three lists of slabs. */
  datatype Lists = Lists(empty: seq<Slab>, partial: seq<Slab>, full: seq<Slab>)

  datatype Kind = Empty | Partial | Full

  predicate IsKind(s: Slab, k: Kind) {
    match k
    case Empty => s.nrFree == s.numObjs
    case Partial => 0 < s.nrFree < s.numObjs
    case Full => s.nrFree == 0
  }

  function Of(l: Lists, k: Kind): seq<Slab> {
    match k
    case Empty => l.empty
    case Partial => l.partial
    case Full => l.full
  }

  function With(l: Lists, k: Kind, list: seq<Slab>): Lists {
    match k
    case Empty => l.(empty := list)
    case Partial => l.(partial := list)
    case Full => l.(full := list)
  }

  predicate AllKind(list: seq<Slab>, k: Kind) { forall i :: 0 <= i < |list| ==> IsKind(list[i], k) }

  ghost predicate KindOk(z: Sizes, l: Lists, k: Kind)
    requires Fitting(z)
  {
    ListOk(z, Of(l, k)) && AllKind(Of(l, k), k)
  }

  /** Four sets that do not overlap and are all there is. */
  predicate Split(all: set<nat>, a: set<nat>, b: set<nat>, c: set<nat>, d: set<nat>) {
    a !! b && (a + b) !! c && (a + b + c) !! d && all == a + b + c + d
  }

  ghost predicate Kinds(z: Sizes, l: Lists)
    requires Fitting(z)
  {
    KindOk(z, l, Empty) && KindOk(z, l, Partial) && KindOk(z, l, Full)
  }

  /** The lists are sorted by how much of each slab is free; every frame of `all` is a slab in one
      of the lists or one of the `others`. */
  ghost predicate Sorted(z: Sizes, all: set<nat>, others: set<nat>, l: Lists) {
    && Fitting(z) && Kinds(z, l) && AllApart(z, all)
    && Split(all, Bases(l.empty), Bases(l.partial), Bases(l.full), others)
  }

  function Out(z: Sizes, l: Lists): set<nat>
    requires Fitting(z)
  {
    AllOut(z, l.empty) + AllOut(z, l.partial) + AllOut(z, l.full)
  }

  function SumAll(l: Lists): nat { SumObjs(l.empty) + SumObjs(l.partial) + SumObjs(l.full) }

  function Count(l: Lists): nat { |l.empty| + |l.partial| + |l.full| }

  /** Taking a slab out of its list. */
  lemma Take(z: Sizes, all: set<nat>, others: set<nat>, l: Lists, k: Kind, i: nat)
    requires Sorted(z, all, others, l) && i < |Of(l, k)|
    ensures var s, l' := Of(l, k)[i], With(l, k, Less(Of(l, k), i));
            Sorted(z, all, others + {s.base}, l') && s.base !in others && SlabOk(z, s) && IsKind(s, k)
  {
    hide SlabOk, OutOf, AllOut, SumObjs, Bases, AllApart, ListOk;
    RemoveOk(z, Of(l, k), i);
    LessKind(Of(l, k), i, k);
    hide AllKind;
    KindsAfter(z, l, k, Less(Of(l, k), i));
    hide Kinds;
  }

  lemma LessKind(list: seq<Slab>, i: nat, k: Kind)
    requires i < |list| && AllKind(list, k)
    ensures AllKind(Less(list, i), k) && IsKind(list[i], k)
  {
  }

  lemma PushKind(list: seq<Slab>, s: Slab, k: Kind)
    requires AllKind(list, k) && IsKind(s, k)
    ensures AllKind([s] + list, k)
  {
  }

  lemma KindsAfter(z: Sizes, l: Lists, k: Kind, list: seq<Slab>)
    requires Fitting(z) && Kinds(z, l) && ListOk(z, list) && AllKind(list, k)
    ensures Kinds(z, With(l, k, list))
  {
    hide ListOk, AllKind;
  }

  lemma TakeCounts(z: Sizes, l: Lists, k: Kind, i: nat)
    requires Fitting(z) && i < |Of(l, k)| && ListOk(z, Of(l, k))
    ensures var s, l' := Of(l, k)[i], With(l, k, Less(Of(l, k), i));
            Out(z, l) == OutOf(z, s) + Out(z, l') && SumAll(l) == s.numObjs + SumAll(l') && Count(l) == 1 + Count(l')
  {
    RemoveOk(z, Of(l, k), i);
    hide SlabOk, OutOf, AllOut, SumObjs, Bases, OneEach, ListOk;
  }

  /** Putting a slab into the list of its kind. */
  lemma Put(z: Sizes, all: set<nat>, others: set<nat>, l: Lists, k: Kind, s: Slab)
    requires Sorted(z, all, others, l) && s.base in others && SlabOk(z, s) && IsKind(s, k)
    ensures Sorted(z, all, others - {s.base}, With(l, k, [s] + Of(l, k)))
  {
    hide SlabOk, OutOf, AllOut, SumObjs, Bases, AllApart, ListOk;
    PushOk(z, Of(l, k), s);
    PushKind(Of(l, k), s, k);
    hide AllKind;
    KindsAfter(z, l, k, [s] + Of(l, k));
    hide Kinds;
  }

  lemma PutCounts(z: Sizes, l: Lists, k: Kind, s: Slab)
    requires Fitting(z)
    ensures var l' := With(l, k, [s] + Of(l, k));
            Count(l') == 1 + Count(l) && Out(z, l') == OutOf(z, s) + Out(z, l) && SumAll(l') == s.numObjs + SumAll(l)
  {
    assert ([s] + Of(l, k))[1..] == Of(l, k);
    hide OutOf;
  }

  // ---------------------------------------------------------------- one slab

  lemma {:induction false} DistinctCount(s: seq<nat>)
    requires Distinct(s)
    ensures |Elems(s)| == |s|
  {
    if s != [] {
      var n := |s| - 1;
      DistinctCount(s[..n]);
      assert Elems(s) == Elems(s[..n]) + {s[n]} && s[n] !in Elems(s[..n]);
    }
  }

  lemma SubsetCount(a: set<nat>, b: set<nat>)
    requires a <= b && |a| == |b|
    ensures a == b
  {
    assert b == a + (b - a);
    assert |b| == |a| + |b - a|;
  }

  /** An empty slab has nothing out; a slab with something out is not empty. */
  lemma NothingOut(z: Sizes, s: Slab)
    requires Fitting(z) && SlabOk(z, s) && IsKind(s, Empty)
    ensures OutOf(z, s) == {}
  {
    DistinctCount(s.free);
    SubsetCount(Elems(s.free), Objs(z, s.base));
    hide Objs, Elems;
  }

  /** `slab_allocate` on a slab that is not full. */
  function Taken(s: Slab): Slab
    requires s.free != [] && s.nrFree > 0
  {
    s.(free := s.free[1..], nrFree := s.nrFree - 1)
  }

  /** `slab_deallocate`. */
  function Returned(s: Slab, obj: nat): Slab { s.(free := [obj] + s.free, nrFree := s.nrFree + 1) }

  lemma AtLeastOne(z: Sizes)
    requires Fitting(z)
    ensures z.frame / z.obj >= 1
  {
    CarveCount(0, z.frame, z.obj);
  }

  lemma TakenOk(z: Sizes, s: Slab)
    requires Fitting(z) && SlabOk(z, s) && s.nrFree > 0
    ensures s.free != [] && SlabOk(z, Taken(s)) && s.free[0] in Objs(z, s.base) && s.free[0] !in OutOf(z, s)
    ensures OutOf(z, Taken(s)) == OutOf(z, s) + {s.free[0]}
  {
    assert s.free == [s.free[0]] + s.free[1..];
    assert Elems(s.free) == {s.free[0]} + Elems(s.free[1..]) && s.free[0] !in Elems(s.free[1..]);
    hide Objs;
  }

  lemma ReturnedOk(z: Sizes, s: Slab, obj: nat)
    requires Fitting(z) && SlabOk(z, s) && obj in OutOf(z, s)
    ensures SlabOk(z, Returned(s, obj)) && s.nrFree < s.numObjs
    ensures OutOf(z, Returned(s, obj)) == OutOf(z, s) - {obj}
  {
    var s' := Returned(s, obj);
    assert Elems(s'.free) == {obj} + Elems(s.free) && obj !in Elems(s.free);
    assert Distinct(s'.free);
    DistinctCount(s.free);
    assert Elems(s.free) < Objs(z, s.base);
    hide Objs, Elems;
    SmallerSet(Elems(s.free), Objs(z, s.base));
  }

  lemma SmallerSet(a: set<nat>, b: set<nat>)
    requires a < b
    ensures |a| < |b|
  {
    assert b == a + (b - a);
    assert |b| == |a| + |b - a|;
  }

  // ---------------------------------------------------------------- objects and their slabs

  /** The objects that are out lie in the slabs of the lists; a frame that is none has none of them. */
  lemma NotOutElsewhere(z: Sizes, all: set<nat>, others: set<nat>, l: Lists, base: nat, obj: nat)
    requires Sorted(z, all, others, l) && base in others && obj in Objs(z, base)
    ensures obj !in Out(z, l)
  {
    NotInList(z, all, l.empty, base, obj);
    NotInList(z, all, l.partial, base, obj);
    NotInList(z, all, l.full, base, obj);
  }

  lemma NotInList(z: Sizes, all: set<nat>, list: seq<Slab>, base: nat, obj: nat)
    requires Fitting(z) && AllApart(z, all) && Bases(list) <= all && base in all && base !in Bases(list)
    requires obj in Objs(z, base)
    ensures obj !in AllOut(z, list)
  {
    AllOutMeans(z, list, obj);
    forall i | 0 <= i < |list|
      ensures obj !in OutOf(z, list[i])
    {
      assert list[i] in list && list[i].base in Bases(list);
      ContainsIsOwner(z, list[i], base, obj);
    }
  }

  /** An object that is out belongs to a slab of the partial or the full list that contains it. */
  lemma OwnerListed(z: Sizes, all: set<nat>, others: set<nat>, l: Lists, obj: nat) returns (k: Kind, i: nat)
    requires Sorted(z, all, others, l) && obj in Out(z, l)
    ensures k != Empty && i < |Of(l, k)| && obj in OutOf(z, Of(l, k)[i]) && Contains(z, Of(l, k)[i], obj)
  {
    AllOutMeans(z, l.empty, obj);
    AllOutMeans(z, l.partial, obj);
    AllOutMeans(z, l.full, obj);
    forall j | 0 <= j < |l.empty|
      ensures OutOf(z, l.empty[j]) == {}
    {
      assert ListOk(z, Of(l, Empty)) && AllKind(Of(l, Empty), Empty);
      NothingOut(z, l.empty[j]);
    }
    hide OutOf, AllOut, Split;
    if j :| 0 <= j < |l.partial| && obj in OutOf(z, l.partial[j]) {
      k, i := Partial, j;
    } else {
      k := Full;
      i :| 0 <= i < |l.full| && obj in OutOf(z, l.full[i]);
    }
    OutIsContained(z, Of(l, k)[i], obj);
  }

  lemma OutIsContained(z: Sizes, s: Slab, obj: nat)
    requires Fitting(z) && obj in OutOf(z, s)
    ensures obj in Objs(z, s.base) && Contains(z, s, obj)
  {
    ContainsIsOwner(z, s, s.base, obj);
  }

  /** So the slab of the lists that contains an object which is out is the object's own slab. */
  lemma ContainerOwns(z: Sizes, all: set<nat>, others: set<nat>, l: Lists, k: Kind, i: nat, obj: nat)
    requires Sorted(z, all, others, l) && obj in Out(z, l) && i < |Of(l, k)| && Contains(z, Of(l, k)[i], obj)
    ensures obj in OutOf(z, Of(l, k)[i])
  {
    var s := Of(l, k)[i];
    Take(z, all, others, l, k, i);
    TakeCounts(z, l, k, i);
    hide Sorted, Out, OutOf;
    if obj !in OutOf(z, s) { OutsideNotContained(z, all, others + {s.base}, With(l, k, Less(Of(l, k), i)), s, obj); }
  }

  lemma OutsideNotContained(z: Sizes, all: set<nat>, others: set<nat>, l: Lists, s: Slab, obj: nat)
    requires Sorted(z, all, others, l) && s.base in others && obj in Out(z, l)
    ensures !Contains(z, s, obj)
  {
    NotContainedBy(z, all, l.empty, s, obj);
    NotContainedBy(z, all, l.partial, s, obj);
    NotContainedBy(z, all, l.full, s, obj);
  }

  lemma NotContainedBy(z: Sizes, all: set<nat>, list: seq<Slab>, s: Slab, obj: nat)
    requires Fitting(z) && AllApart(z, all) && Bases(list) <= all && s.base in all && s.base !in Bases(list)
    ensures obj in AllOut(z, list) ==> !Contains(z, s, obj)
  {
    AllOutMeans(z, list, obj);
    if i :| 0 <= i < |list| && obj in OutOf(z, list[i]) {
      assert list[i] in list && list[i].base in Bases(list);
      ContainsIsOwner(z, s, list[i].base, obj);
    }
  }

  // ---------------------------------------------------------------- the memory cache

  /** The lists after an object was taken from the first slab of a list. */
  function TakenFrom(l: Lists, k: Kind): Lists
    requires Of(l, k) != [] && Of(l, k)[0].free != [] && Of(l, k)[0].nrFree > 0
  {
    var slab, rest := Taken(Of(l, k)[0]), With(l, k, Of(l, k)[1..]);
    if slab.free == [] then With(rest, Full, [slab] + Of(rest, Full))
    else With(rest, Partial, [slab] + Of(rest, Partial))
  }

  lemma TakeObject(z: Sizes, all: set<nat>, others: set<nat>, l: Lists, k: Kind)
    requires Sorted(z, all, others, l) && k != Full && Of(l, k) != []
    ensures var s, rest := Of(l, k)[0], With(l, k, Of(l, k)[1..]);
            && s.free != [] && s.nrFree > 0 && s.free[0] !in Out(z, l) && s.base !in others
            && Sorted(z, all, others + {s.base}, rest) && SlabOk(z, Taken(s)) && s.nrFree == |s.free| <= s.numObjs
            && OutOf(z, Taken(s)) + Out(z, rest) == Out(z, l) + {s.free[0]}
            && SumAll(l) == s.numObjs + SumAll(rest) && Count(l) == 1 + Count(rest)
  {
    var s := Of(l, k)[0];
    AtLeastOne(z);
    Take(z, all, others, l, k, 0);
    TakeCounts(z, l, k, 0);
    TakenOk(z, s);
    assert Less(Of(l, k), 0) == Of(l, k)[1..];
    NotOutElsewhere(z, all, others + {s.base}, With(l, k, Of(l, k)[1..]), s.base, s.free[0]);
    hide Sorted, Out, OutOf, SumAll, Count, Objs;
  }

  lemma AllocateFrom(z: Sizes, all: set<nat>, others: set<nat>, l: Lists, k: Kind)
    requires Sorted(z, all, others, l) && k != Full && Of(l, k) != []
    ensures var s := Of(l, k)[0];
            && s.free != [] && s.nrFree > 0 && s.free[0] !in Out(z, l)
            && var l' := TakenFrom(l, k);
               && Sorted(z, all, others, l') && Out(z, l') == Out(z, l) + {s.free[0]}
               && SumAll(l') == SumAll(l) && Count(l') == Count(l)
  {
    var s := Of(l, k)[0];
    hide Sorted, SlabOk, Out, OutOf, SumAll, Count;
    TakeObject(z, all, others, l, k);
    var slab, rest := Taken(s), With(l, k, Of(l, k)[1..]);
    var k' := if slab.free == [] then Full else Partial;
    assert others + {s.base} - {s.base} == others;
    Put(z, all, others + {s.base}, rest, k', slab);
    PutCounts(z, rest, k', slab);
  }

  lemma PutEmptyOk(z: Sizes, all: set<nat>, others: set<nat>, l: Lists, s: Slab)
    requires Sorted(z, all, others + {s.base}, l) && s.base !in others && SlabOk(z, s) && IsKind(s, Empty)
    ensures var l' := l.(empty := [s] + l.empty);
            && Sorted(z, all, others, l') && Out(z, l') == Out(z, l)
            && SumAll(l') == s.numObjs + SumAll(l) && Count(l') == 1 + Count(l)
  {
    assert others + {s.base} - {s.base} == others;
    NothingOut(z, s);
    hide Sorted, SlabOk, Out, OutOf, SumAll, Count;
    Put(z, all, others + {s.base}, l, Empty, s);
    PutCounts(z, l, Empty, s);
  }

  /** A slab of a list is replaced by one on the same frame. */
  lemma Replace(z: Sizes, all: set<nat>, others: set<nat>, l: Lists, k: Kind, i: nat, s: Slab)
    requires Sorted(z, all, others, l) && i < |Of(l, k)| && s.base == Of(l, k)[i].base && SlabOk(z, s) && IsKind(s, k)
    ensures var l' := With(l, k, Of(l, k)[i := s]);
            && Sorted(z, all, others, l') && Out(z, l') == OutOf(z, s) + Out(z, With(l, k, Less(Of(l, k), i)))
  {
    hide SlabOk, OutOf, AllOut, SumObjs, Bases, AllApart, ListOk;
    var list := Of(l, k);
    var list' := list[i := s];
    ReplaceOk(z, list, i, s);
    RemoveOk(z, list', i);
    assert Less(list', i) == Less(list, i);
    ReplaceKind(list, i, s, k);
    hide AllKind, Less;
    KindsAfter(z, l, k, list');
    hide Kinds;
  }

  lemma ReplaceKind(list: seq<Slab>, i: nat, s: Slab, k: Kind)
    requires i < |list| && AllKind(list, k) && IsKind(s, k)
    ensures AllKind(list[i := s], k)
  {
  }

  lemma ReplaceOk(z: Sizes, list: seq<Slab>, i: nat, s: Slab)
    requires Fitting(z) && ListOk(z, list) && i < |list| && s.base == list[i].base && SlabOk(z, s)
    ensures ListOk(z, list[i := s]) && Bases(list[i := s]) == Bases(list)
  {
    hide SlabOk;
    var x := list[i := s];
    forall k | 0 <= k < |list|
      ensures list[k].base in Bases(x) && x[k].base in Bases(list)
    {
      assert x[k] in x && list[k] in list && x[k].base == list[k].base;
    }
  }

  /** The lists after an object went back to its slab. */
  function ReturnedTo(l: Lists, k: Kind, i: nat, obj: nat): Lists
    requires i < |Of(l, k)|
  {
    var slab, rest := Returned(Of(l, k)[i], obj), With(l, k, Less(Of(l, k), i));
    if slab.nrFree == slab.numObjs then With(rest, Empty, [slab] + Of(rest, Empty))
    else if k == Partial then l.(partial := l.partial[i := slab])
    else With(rest, Partial, [slab] + Of(rest, Partial))
  }

  lemma ReturnObject(z: Sizes, all: set<nat>, others: set<nat>, l: Lists, k: Kind, i: nat, obj: nat)
    requires Sorted(z, all, others, l) && i < |Of(l, k)| && obj in Out(z, l) && Contains(z, Of(l, k)[i], obj)
    ensures var s, rest := Of(l, k)[i], With(l, k, Less(Of(l, k), i));
            && Sorted(z, all, others + {s.base}, rest) && s.base !in others && IsKind(s, k)
            && SlabOk(z, Returned(s, obj)) && s.nrFree < s.numObjs
            && OutOf(z, Returned(s, obj)) + Out(z, rest) == Out(z, l) - {obj}
  {
    assert Fitting(z) && ListOk(z, Of(l, k));
    hide Sorted, SlabOk, Out, OutOf, Objs, Contains, ListOk;
    var s := Of(l, k)[i];
    ContainerOwns(z, all, others, l, k, i, obj);
    Take(z, all, others, l, k, i);
    TakeCounts(z, l, k, i);
    ReturnedOk(z, s, obj);
    OutIsContained(z, s, obj);
    NotOutElsewhere(z, all, others + {s.base}, With(l, k, Less(Of(l, k), i)), s.base, obj);
  }

  lemma DeallocateTo(z: Sizes, all: set<nat>, others: set<nat>, l: Lists, k: Kind, i: nat, obj: nat)
    requires Sorted(z, all, others, l) && k != Empty && i < |Of(l, k)| && obj in Out(z, l)
    requires Contains(z, Of(l, k)[i], obj)
    ensures Sorted(z, all, others, ReturnedTo(l, k, i, obj)) && Out(z, ReturnedTo(l, k, i, obj)) == Out(z, l) - {obj}
  {
    ReturnObject(z, all, others, l, k, i, obj);
    hide Sorted, SlabOk, Out, OutOf, Less, Contains;
    var s := Of(l, k)[i];
    var slab, rest := Returned(s, obj), With(l, k, Less(Of(l, k), i));
    assert others + {s.base} - {s.base} == others;
    if slab.nrFree == slab.numObjs {
      Put(z, all, others + {s.base}, rest, Empty, slab);
      PutCounts(z, rest, Empty, slab);
    } else if k == Partial {
      Replace(z, all, others, l, Partial, i, slab);
    } else {
      Put(z, all, others + {s.base}, rest, Partial, slab);
      PutCounts(z, rest, Partial, slab);
    }
  }

  /** Going back changes no counts. */
  lemma ReturnedCounts(z: Sizes, l: Lists, k: Kind, i: nat, obj: nat)
    requires Fitting(z) && i < |Of(l, k)| && ListOk(z, Of(l, k))
    ensures var l' := ReturnedTo(l, k, i, obj); SumAll(l') == SumAll(l) && Count(l') == Count(l)
  {
    hide ListOk, Out, OutOf;
    TakeCounts(z, l, k, i);
    var slab, rest := Returned(Of(l, k)[i], obj), With(l, k, Less(Of(l, k), i));
    PutCounts(z, rest, Empty, slab);
    PutCounts(z, rest, Partial, slab);
    if k == Partial { ReplaceSum(l.partial, i, slab); }
    hide SumObjs, Less;
  }

  lemma ReplaceSum(list: seq<Slab>, i: nat, s: Slab)
    requires i < |list|
    ensures SumObjs(list[i := s]) == s.numObjs + SumObjs(Less(list, i))
  {
    var x := list[i := s];
    SumObjsAppend(x[..i], [s] + x[i + 1..]);
    SumObjsAppend(x[..i], x[i + 1..]);
    assert x == x[..i] + ([s] + x[i + 1..]) && Less(list, i) == x[..i] + x[i + 1..];
    assert ([s] + x[i + 1..])[1..] == x[i + 1..];
  }

  /** An empty slab is given up. */
  lemma DropEmpty(z: Sizes, all: set<nat>, others: set<nat>, l: Lists)
    requires Sorted(z, all, others, l) && l.empty != []
    ensures var s, l' := l.empty[0], l.(empty := l.empty[1..]);
            && Sorted(z, all, others + {s.base}, l') && Out(z, l') == Out(z, l)
            && SumAll(l) == s.numObjs + SumAll(l') && Count(l) == 1 + Count(l')
  {
    Take(z, all, others, l, Empty, 0);
    TakeCounts(z, l, Empty, 0);
    NothingOut(z, l.empty[0]);
    assert Less(l.empty, 0) == l.empty[1..];
    hide Sorted, SlabOk, Out, OutOf, SumAll, Count;
  }

  lemma AllFree(z: Sizes, all: set<nat>, others: set<nat>, l: Lists)
    requires Sorted(z, all, others, l) && l.empty != []
    ensures |l.empty[0].free| == z.frame / z.obj
  {
    Take(z, all, others, l, Empty, 0);
    hide Sorted, Objs;
  }

  /** `SlabMemCache`. */
  class SlabMemCache {
    const z: Sizes
    ghost const all: set<nat>
    var frames: set<nat>
    var numObjs: nat
    var activeObjs: nat
    var empty: seq<Slab>
    var full: seq<Slab>
    var partial: seq<Slab>
    var emptyLen: nat
    var totalSlabs: nat

    ghost function View(): Lists
      reads this
    {
      Lists(empty, partial, full)
    }

    /** The objects that are not on a free list. */
    ghost function OutSet(): set<nat>
      reads this
      requires Fitting(z)
    {
      Out(z, View())
    }

    /** The counters count. */
    ghost predicate Counted()
      reads this
      requires Fitting(z)
    {
      && activeObjs == |OutSet()| && numObjs == SumAll(View())
      && emptyLen == |empty| && totalSlabs == Count(View())
    }

    ghost predicate Valid()
      reads this
    {
      Fitting(z) && Sorted(z, all, frames, View()) && Counted()
    }

    constructor (sizes: Sizes, pages: set<nat>)
      requires Fitting(sizes) && AllApart(sizes, pages)
      ensures Valid() && z == sizes && all == pages && frames == pages && OutSet() == {} && partial == []
    {
      z, all, frames := sizes, pages, pages;
      numObjs, activeObjs, emptyLen, totalSlabs := 0, 0, 0, 0;
      empty, full, partial := [], [], [];
    }

    /** `slab_new`: carves a frame into objects, pushing each to the front of the free list. */
    method SlabNew() returns (r: Option<Slab>)
      requires Fitting(z)
      modifies this`frames
      ensures r.None? <==> old(frames) == {}
      ensures r.None? ==> frames == old(frames)
      ensures r.Some? ==>
                && r.value.base in old(frames) && frames == old(frames) - {r.value.base}
                && SlabOk(z, r.value) && IsKind(r.value, Empty)
    {
      if frames == {} { return None; }
      var base :| base in frames;
      frames := frames - {base};
      var end, at := base + z.frame, base;
      var free: seq<nat>, freeNr := [], 0;
      CarveMeans(base, end, z.obj);
      while at + z.obj <= end
        invariant base <= at && freeNr == |free|
        invariant Distinct(free) && (forall a :: a in free ==> a < at)
        invariant Elems(free) + Elems(Carve(at, end, z.obj)) == Objs(z, base)
        invariant |free| + |Carve(at, end, z.obj)| == |Carve(base, end, z.obj)|
      {
        assert at !in free;
        free := [at] + free;
        at := at + z.obj;
        freeNr := freeNr + 1;
      }
      DistinctCount(free);
      CarveCount(base, end, z.obj);
      return Some(Slab(base, free, freeNr, freeNr));
    }

    /** There is a partial slab, and the first one has `n` free objects. */
    predicate LeftInFront(n: nat)
      reads this
    {
      partial != [] && |partial[0].free| == n
    }

    /** Hands out an object that is not out: from a partial slab, else from an empty one, else
        from a new one; fails exactly when there is nothing of the kind. */
    method Allocate() returns (r: Option<nat>)
      requires Valid()
      modifies this
      ensures Valid()
      ensures r.None? <==> old(partial) == [] && old(empty) == [] && old(frames) == {}
      ensures r.None? ==> View() == old(View()) && OutSet() == old(OutSet())
      ensures r.Some? ==> r.value !in old(OutSet()) && OutSet() == old(OutSet()) + {r.value}
      ensures old(partial) != [] && |old(partial)[0].free| > 1 ==> LeftInFront(|old(partial)[0].free| - 1)
      ensures r.Some? && old(partial) == [] && z.frame / z.obj > 1 ==> LeftInFront(z.frame / z.obj - 1)
    {
      hide Sorted, SlabOk, Out, SumAll, Count;
      if partial != [] {
        var obj := FromPartial();
        return Some(obj);
      }
      if empty == [] {
        var made := SlabNew();
        if made.None? { return None; }
        assert frames + {made.value.base} == old(frames);
        PutEmpty(made.value);
      }
      var obj := FromEmpty();
      return Some(obj);
    }

    /** From the first partial slab, which may become full. */
    method FromPartial() returns (obj: nat)
      requires Valid() && partial != []
      modifies this
      ensures Valid() && obj !in old(OutSet()) && OutSet() == old(OutSet()) + {obj}
      ensures |old(partial)[0].free| > 1 ==> LeftInFront(|old(partial)[0].free| - 1)
    {
      hide Sorted, SlabOk, Out, SumAll, Count;
      AllocateFrom(z, all, frames, View(), Partial);
      var slab := Taken(partial[0]);
      obj := partial[0].free[0];
      partial := [slab] + partial[1..];
      if slab.free == [] {
        partial := partial[1..];
        full := [slab] + full;
      }
      activeObjs := activeObjs + 1;
    }

    /** From the first empty slab, which becomes partial or full. */
    method FromEmpty() returns (obj: nat)
      requires Valid() && empty != []
      modifies this
      ensures Valid() && obj !in old(OutSet()) && OutSet() == old(OutSet()) + {obj}
      ensures z.frame / z.obj > 1 ==> LeftInFront(z.frame / z.obj - 1)
    {
      hide Sorted, SlabOk, Out, SumAll, Count;
      AllFree(z, all, frames, View());
      AllocateFrom(z, all, frames, View(), Empty);
      var slab := Taken(empty[0]);
      obj := empty[0].free[0];
      empty := empty[1..];
      emptyLen := emptyLen - 1;
      if slab.free == [] {
        full := [slab] + full;
      } else {
        partial := [slab] + partial;
      }
      activeObjs := activeObjs + 1;
    }

    method PutEmpty(s: Slab)
      requires Fitting(z) && Sorted(z, all, frames + {s.base}, View()) && s.base !in frames && Counted()
      requires SlabOk(z, s) && IsKind(s, Empty)
      modifies this
      ensures Valid() && frames == old(frames)
      ensures empty == [s] + old(empty) && partial == old(partial) && full == old(full)
      ensures OutSet() == old(OutSet())
    {
      hide Sorted, SlabOk, Out, OutOf, SumAll, Count;
      PutEmptyOk(z, all, frames, View(), s);
      empty := [s] + empty;
      emptyLen, totalSlabs, numObjs := emptyLen + 1, totalSlabs + 1, numObjs + s.numObjs;
    }

    /** Takes an object back: looks for its slab in the partial and then in the full list, always
        finds it, and moves the slab to the list it belongs to now. */
    method Deallocate(obj: nat)
      requires Valid() && obj in OutSet()
      modifies this
      ensures Valid() && OutSet() == old(OutSet()) - {obj}
    {
      hide Sorted, SlabOk, Out, SumAll, Count, Contains;
      ghost var k, owner := OwnerListed(z, all, frames, View(), obj);
      var i := 0;
      while i < |partial|
        invariant i <= |partial|
        invariant k == Partial ==> i <= owner
      {
        if Contains(z, partial[i], obj) {
          Back(Partial, i, obj);
          var slab := Returned(partial[i], obj);
          activeObjs := activeObjs - 1;
          if slab.nrFree == slab.numObjs {
            partial := partial[..i] + partial[i + 1..];
            empty := [slab] + empty;
            emptyLen := emptyLen + 1;
            MaybeShrinkEmptySlabs();
          } else {
            partial := partial[i := slab];
          }
          return;
        }
        i := i + 1;
      }
      i := 0;
      while i < |full|
        invariant i <= |full|
        invariant k == Full ==> i <= owner
      {
        if Contains(z, full[i], obj) {
          Back(Full, i, obj);
          activeObjs := activeObjs - 1;
          var slab := Returned(full[i], obj);
          full := full[..i] + full[i + 1..];
          if slab.nrFree == slab.numObjs {
            empty := [slab] + empty;
            emptyLen := emptyLen + 1;
            MaybeShrinkEmptySlabs();
          } else {
            partial := [slab] + partial;
          }
          return;
        }
        i := i + 1;
      }
      assert false;
    }

    /** What the lists and the counts are once the object is back in slab `i` of a list. */
    lemma Back(k: Kind, i: nat, obj: nat)
      requires Valid() && obj in OutSet() && k != Empty && i < |Of(View(), k)| && Contains(z, Of(View(), k)[i], obj)
      ensures var l := ReturnedTo(View(), k, i, obj);
              && Sorted(z, all, frames, l) && Out(z, l) == OutSet() - {obj} && |OutSet() - {obj}| == activeObjs - 1
              && SumAll(l) == SumAll(View()) && Count(l) == Count(View())
    {
      DeallocateTo(z, all, frames, View(), k, i, obj);
      assert KindOk(z, View(), k);
      ReturnedCounts(z, View(), k, i, obj);
      hide Sorted, Out, SumAll, Count;
    }

    /** Gives four of more than eight empty slabs back to the page allocator. */
    method MaybeShrinkEmptySlabs()
      requires Valid()
      modifies this
      ensures Valid() && OutSet() == old(OutSet()) && partial == old(partial) && full == old(full)
      ensures if old(emptyLen) > MAX_EMPTY_SLABS then empty == old(empty)[EMPTY_SLABS_BATCH_COUNT..]
              else empty == old(empty) && frames == old(frames)
    {
      hide Sorted, SlabOk, Out, SumAll, Count;
      if emptyLen > MAX_EMPTY_SLABS {
        for n := 0 to EMPTY_SLABS_BATCH_COUNT
          invariant Valid() && OutSet() == old(OutSet()) && partial == old(partial) && full == old(full)
          invariant empty == old(empty)[n..]
        {
          DropEmpty(z, all, frames, View());
          var slab := empty[0];
          empty := empty[1..];
          numObjs, emptyLen, totalSlabs := numObjs - slab.numObjs, emptyLen - 1, totalSlabs - 1;
          frames := frames + {slab.base};
        }
      }
    }
  }
}
