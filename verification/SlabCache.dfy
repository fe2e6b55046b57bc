/** The slab allocator: per-CPU caches and a shared cache of objects above the slabs, as a system of
    steps.  A CPU fetches from and places into its own cache at once; under the lock of the shared
    cache it moves a batch one object at a time, with any steps of the others in between that do not
    need that lock. */
module SlabCache {
  import opened Arithmetic
  import opened Wrappers
  import Buddy
  import Slab

  const MAX_NCPU: nat := 8

  /** `ArrayCache`: a list of free objects that is filled and drained in batches. */
  datatype ArrayCache = ArrayCache(limit: nat, batch: nat, list: seq<nat>, len: nat)

  function Clamp(x: nat, lo: nat, hi: nat): nat { if x < lo then lo else Min(x, hi) }

  function BatchCount(size: nat): nat
    requires size > 0
  {
    Clamp(1 + PGSIZE / size / 8, 2, 32)
  }

  /** The empty caches that `new` makes. */
  function FreshShared(batch: nat): ArrayCache {
    ArrayCache(Clamp(batch * 4 * MAX_NCPU, 16, 256), Clamp(batch * MAX_NCPU, 4, 64), [], 0)
  }

  function FreshLocal(batch: nat): ArrayCache { ArrayCache(batch * 4, batch, [], 0) }

  lemma FreshOk(size: nat)
    requires size > 0
    ensures var shared, local := FreshShared(BatchCount(size)), FreshLocal(BatchCount(size));
            && CacheOk(shared) && CacheOk(local) && shared.list == [] && local.list == []
            && 2 <= local.batch <= shared.batch && 16 <= shared.batch
  {
  }

  predicate CacheOk(c: ArrayCache) { c.len == |c.list| < c.limit && 0 < c.batch < c.limit }

  /** The objects in the caches of all CPUs. */
  function Items(cpus: seq<ArrayCache>): multiset<nat> {
    if cpus == [] then multiset{} else Items(cpus[..|cpus| - 1]) + multiset(cpus[|cpus| - 1].list)
  }

  lemma {:induction false} ItemsUpdate(cpus: seq<ArrayCache>, i: nat, c: ArrayCache)
    requires i < |cpus|
    ensures Items(cpus[i := c]) + multiset(cpus[i].list) == Items(cpus) + multiset(c.list)
  {
    var n := |cpus| - 1;
    if i < n {
      ItemsUpdate(cpus[..n], i, c);
      var a, b, last := Items(cpus[..n][i := c]), Items(cpus[..n]), multiset(cpus[n].list);
      assert cpus[i := c][..n] == cpus[..n][i := c];
      assert Items(cpus[i := c]) == a + last && Items(cpus) == b + last;
      assert a + last + multiset(cpus[i].list) == a + multiset(cpus[i].list) + last;
    } else {
      assert cpus[i := c][..n] == cpus[..n];
    }
  }

  /** What a CPU's cache gains or loses, all caches together gain or lose. */
  lemma ItemsDelta(cpus: seq<ArrayCache>, i: nat, c: ArrayCache, plus: multiset<nat>, minus: multiset<nat>)
    requires i < |cpus| && multiset(c.list) + minus == multiset(cpus[i].list) + plus
    ensures Items(cpus[i := c]) + minus == Items(cpus) + plus
  {
    ItemsUpdate(cpus, i, c);
    hide Items;
    var a, b, x, y := Items(cpus[i := c]), Items(cpus), multiset(cpus[i].list), multiset(c.list);
    assert a + minus + x == a + x + minus == b + y + minus == b + (y + minus) == b + plus + x;
    Cancel(a + minus, b + plus, x);
  }

  lemma Cancel(a: multiset<nat>, b: multiset<nat>, x: multiset<nat>)
    requires a + x == b + x
    ensures a == b
  {
    forall e: nat
      ensures a[e] == b[e]
    {
      assert (a + x)[e] == (b + x)[e];
    }
  }

  /** What is out of the slabs is in the shared cache, in a CPU's cache or with a caller. */
  ghost predicate Balance(out: set<nat>, shared: seq<nat>, cpus: seq<ArrayCache>, given: set<nat>) {
    multiset(out) == multiset(shared) + Items(cpus) + multiset(given)
  }

  lemma {:induction false} ItemsNone(cpus: seq<ArrayCache>)
    requires forall i :: 0 <= i < |cpus| ==> cpus[i].list == []
    ensures Items(cpus) == multiset{}
  {
    if cpus != [] { ItemsNone(cpus[..|cpus| - 1]); }
  }

  /** Only the list of one CPU's cache changed. */
  predicate SameBut(a: seq<ArrayCache>, b: seq<ArrayCache>, cpu: nat) {
    && |a| == |b| && cpu < |a|
    && b == a[cpu := a[cpu].(list := b[cpu].list, len := |b[cpu].list|)]
  }

  /** The lengths of the CPUs' caches. */
  function Lens(cpus: seq<ArrayCache>): (r: seq<nat>)
    ensures |r| == |cpus| && forall i :: 0 <= i < |r| ==> r[i] == |cpus[i].list|
  {
    seq(|cpus|, i requires 0 <= i < |cpus| => |cpus[i].list|)
  }

  lemma {:induction false} ItemsCount(cpus: seq<ArrayCache>)
    ensures |Items(cpus)| == Total(Lens(cpus))
  {
    if cpus != [] {
      var n := |cpus| - 1;
      ItemsCount(cpus[..n]);
      TotalSnoc(Lens(cpus), n);
      assert Lens(cpus)[..n + 1] == Lens(cpus) && Lens(cpus)[..n] == Lens(cpus[..n]);
    }
  }

  /** An `info` under way: what is left of the count, unless a subtraction underflowed, after the
      lengths that were read. */
  datatype Info = Info(base: nat, read: seq<nat>, left: Option<nat>)

  ghost predicate InfoOk(info: Info) {
    info.left == if Total(info.read) <= info.base then Some(info.base - Total(info.read)) else None
  }

  /** What a CPU is in the middle of: it wants the lock of the shared cache because its own cache is
      empty or full, or has it and moves `left` more objects. */
  datatype Phase = Idle | Empty | Filling(left: nat) | Full | Draining(left: nat)

  predicate Locking(x: Phase) { x.Filling? || x.Draining? }

  predicate PhaseOk(x: Phase, c: ArrayCache, shared: seq<nat>) {
    && c.len == |c.list| && 0 < c.batch < c.limit
    && match x
       case Idle => c.len < c.limit
       case Empty => c.list == []
       case Filling(left) => c.len + left <= c.batch && (c.list != [] || (left == c.batch && shared != []))
       case Full => c.len == c.limit
       case Draining(left) => left <= c.batch && c.len == c.limit - c.batch + left
  }

  /** How many objects the holder of the lock has put into the shared cache. */
  function Added(x: Phase, c: ArrayCache): nat { if x.Draining? && x.left <= c.batch then c.batch - x.left else 0 }

  /** The caches are within their bounds, and the CPU that stands where the lock is held has it. */
  ghost predicate CachesOk(shared: ArrayCache, cpus: seq<ArrayCache>, at: seq<Phase>, holder: Option<nat>) {
    && |at| == |cpus| && (holder.Some? ==> holder.value < |at|)
    && (forall i :: 0 <= i < |at| ==>
          && (Locking(at[i]) <==> holder == Some(i)) && PhaseOk(at[i], cpus[i], shared.list)
          && cpus[i].batch <= shared.batch)
    && shared.len == |shared.list| && 0 < shared.batch < shared.limit
    && shared.len < shared.limit + if holder.Some? then Added(at[holder.value], cpus[holder.value]) else 0
  }

  function Popped(c: ArrayCache): ArrayCache
    requires c.list != [] && c.len == |c.list|
  {
    c.(list := c.list[1..], len := c.len - 1)
  }

  function Pushed(c: ArrayCache, obj: nat): ArrayCache { c.(list := [obj] + c.list, len := c.len + 1) }

  /** A round of refilling a CPU's cache keeps the bounds. */
  lemma FillStep(shared: ArrayCache, cpus: seq<ArrayCache>, at: seq<Phase>, holder: Option<nat>, cpu: nat)
    requires CachesOk(shared, cpus, at, holder) && cpu < |cpus| && at[cpu].Filling? && at[cpu].left > 0
    ensures |at| == |cpus| && shared.len == |shared.list| && cpus[cpu].len == |cpus[cpu].list|
    ensures if shared.list == [] then CachesOk(shared, cpus, at[cpu := Filling(0)], holder)
            else
              CachesOk(Popped(shared), cpus[cpu := Pushed(cpus[cpu], shared.list[0])],
                       at[cpu := Filling(at[cpu].left - 1)], holder)
  {
    assert PhaseOk(at[cpu], cpus[cpu], shared.list);
  }

  /** One object more went over from the shared cache, unless that was empty. */
  predicate Refilled(shared: ArrayCache, cpus: seq<ArrayCache>, at: seq<Phase>,
                     shared': ArrayCache, cpus': seq<ArrayCache>, at': seq<Phase>, cpu: nat) {
    && cpu < |cpus| == |at| && at[cpu].Filling? && at[cpu].left > 0 && shared.len == |shared.list|
    && if shared.list == [] then shared' == shared && cpus' == cpus && at' == at[cpu := Filling(0)]
       else
         && shared' == Popped(shared) && cpus' == cpus[cpu := Pushed(cpus[cpu], shared.list[0])]
         && at' == at[cpu := Filling(at[cpu].left - 1)]
  }

  lemma FreshCachesOk(shared: ArrayCache, local: ArrayCache, cpus: seq<ArrayCache>, at: seq<Phase>)
    requires CacheOk(shared) && CacheOk(local) && local.batch <= shared.batch && |cpus| == |at|
    requires forall i :: 0 <= i < |cpus| ==> cpus[i] == local && at[i] == Idle
    ensures CachesOk(shared, cpus, at, None)
  {
  }

  function SizesFor(size: nat): Slab.Sizes { Slab.Sizes(size, Buddy.BlockSize(Slab.PgfOrder(size))) }

  /** `new`: panics, as `None` says, exactly for sizes that are too large or too small once they are
      rounded up to the alignment 2^k. */
  method NewSlabAllocator(objectSize: nat, k: nat, pages: set<nat>) returns (r: Option<SlabAllocator>)
    requires Slab.AllApart(SizesFor(AlignUp(objectSize, Pow2(k))), pages)
    ensures var size := AlignUp(objectSize, Pow2(k));
            && (r.None? <==> size > 2 * PGSIZE || size < 8)
            && (r.Some? ==> fresh(r.value) && r.value.Valid() && IsNew(r.value, size, pages))
  {
    hide AlignUp, Pow2;
    var size := AlignUp(objectSize, Pow2(k));
    if size > 2 * PGSIZE || size < 8 { return None; }
    Slab.EightObjectsFit(size);
    FreshOk(size);
    hide BatchCount, FreshShared, FreshLocal, SizesFor;
    var a := new SlabAllocator(SizesFor(size), FreshShared(BatchCount(size)), FreshLocal(BatchCount(size)), pages);
    return Some(a);
  }

  /** A new allocator for objects of `size` bytes, after rounding. */
  predicate IsNew(a: SlabAllocator, size: nat, pages: set<nat>)
    reads a, a.mem
    requires size > 0
  {
    && a.info == None && a.holder == None && a.mem.z == SizesFor(size) && a.mem.frames == pages && a.mem.partial == []
    && a.shared == FreshShared(BatchCount(size)) && |a.cpus| == MAX_NCPU
    && |a.at| == MAX_NCPU
    && forall i :: 0 <= i < MAX_NCPU ==> a.at[i] == Idle && a.cpus[i] == FreshLocal(BatchCount(size))
  }

  /** `SlabAllocator`; `given` are the objects that callers hold. */
  class SlabAllocator {
    const mem: Slab.SlabMemCache
    var shared: ArrayCache
    var cpus: seq<ArrayCache>
    var at: seq<Phase>             // where each CPU stands
    var holder: Option<nat>        // the CPU that has the lock of the shared cache
    ghost var given: set<nat>
    var info: Option<Info>
    ghost var givenThen: nat       // how many objects callers held when it began
    ghost var lensThen: seq<nat>   // and the lengths of the CPUs' caches then

    /** Every object of every slab that is not on the slab's free list is in exactly one place: the
        shared cache, one CPU's cache, or with a caller. */
    ghost predicate Conserved()
      reads this, mem
      requires Slab.Fitting(mem.z)
    {
      Balance(mem.OutSet(), shared.list, cpus, given)
    }

    ghost predicate Valid()
      reads this, mem
    {
      mem.Valid() && CachesOk(shared, cpus, at, holder) && Conserved() && InfoValid()
    }

    ghost predicate InfoValid()
      reads this
    {
      info.Some? ==>
        && InfoOk(info.value) && |info.value.read| <= |cpus|
        && info.value.base == givenThen + Total(lensThen) && |lensThen| == |cpus|
    }

    /** For slabs of the given sizes, with empty caches that fit each other. */
    constructor (sizes: Slab.Sizes, common: ArrayCache, local: ArrayCache, pages: set<nat>)
      requires Slab.Fitting(sizes) && Slab.AllApart(sizes, pages)
      requires CacheOk(common) && CacheOk(local) && common.list == [] && local.list == [] && local.batch <= common.batch
      ensures Valid() && fresh(mem) && given == {} && info == None
      ensures mem.z == sizes && mem.frames == pages && mem.partial == []
      ensures shared == common && holder == None && |cpus| == |at| == MAX_NCPU
      ensures forall i :: 0 <= i < MAX_NCPU ==> at[i] == Idle && cpus[i] == local
    {
      mem := new Slab.SlabMemCache(sizes, pages);
      shared, cpus, at, holder := common, seq(MAX_NCPU, _ => local), seq(MAX_NCPU, _ => Idle), None;
      given, info, givenThen, lensThen := {}, None, 0, [];
      new;
      ItemsNone(cpus);
      FreshCachesOk(shared, local, cpus, at);
      hide CachesOk, Items, Slab.Sorted;
    }

    /** Nothing can be had from the slabs. */
    predicate Exhausted()
      reads mem
    {
      mem.partial == [] && mem.empty == [] && mem.frames == {}
    }

    /** `grow_from_cache` for the shared cache: up to a batch of objects from the slabs; at least eight
        of them if they come from slabs that are empty or new. */
    method GrowFromCache() returns (grew: bool)
      requires mem.Valid() && Conserved() && shared.len == |shared.list|
      modifies this`shared, mem
      ensures mem.Valid() && Conserved() && shared == old(shared).(list := shared.list, len := |shared.list|)
      ensures |old(shared).list| <= |shared.list| <= |old(shared).list| + shared.batch
      ensures grew <==> |shared.list| > |old(shared).list|
      ensures grew <==> shared.batch > 0 && !old(Exhausted())
      ensures !grew ==> mem.OutSet() == old(mem.OutSet())
      ensures grew && old(mem.partial) == [] && mem.z.frame / mem.z.obj >= 8 ==>
                |shared.list| >= |old(shared).list| + Min(8, shared.batch)
    {
      hide Slab.Sorted, Slab.SlabMemCache.Counted, Slab.SlabMemCache.OutSet, Balance;
      var len := shared.len;
      ghost var fresh' := mem.partial == [] && mem.z.frame / mem.z.obj >= 8;
      for n := 0 to shared.batch
        invariant mem.Valid() && Conserved() && shared == old(shared).(list := shared.list, len := |shared.list|)
        invariant |shared.list| == len + n
        invariant n == 0 ==> Exhausted() == old(Exhausted())
        invariant n > 0 ==> !old(Exhausted())
        invariant n == 0 ==> mem.OutSet() == old(mem.OutSet()) && mem.partial == old(mem.partial)
        invariant fresh' && 0 < n < 8 ==> mem.partial != [] && |mem.partial[0].free| >= 8 - n
      {
        ghost var out := mem.OutSet();
        var obj := mem.Allocate();
        if obj.None? { break; }
        FromSlabs(out, obj.value, shared.list, cpus, given);
        shared := Pushed(shared, obj.value);
      }
      return len != shared.len;
    }

    /** `fetch_obj` from a CPU's cache that is not empty; the CPU goes on to `next`, and gives the lock
        of the shared cache back if it had it. */
    method Fetch(cpu: nat) returns (obj: nat)
      requires Valid() && cpu < |cpus| && (at[cpu] == Idle || at[cpu] == Filling(0)) && cpus[cpu].list != []
      modifies this`cpus, this`given, this`at, this`holder
      ensures Valid() && SameBut(old(cpus), cpus, cpu) && at == old(at)[cpu := Idle]
      ensures holder == if old(at)[cpu].Idle? then old(holder) else None
      ensures obj == old(cpus)[cpu].list[0] && cpus[cpu].list == old(cpus)[cpu].list[1..]
      ensures obj !in old(given) && given == old(given) + {obj}
    {
      hide Slab.Sorted, Slab.SlabMemCache.Counted, Slab.SlabMemCache.OutSet, Balance, InfoOk;
      var local := cpus[cpu];
      obj := local.list[0];
      ToCaller(mem.OutSet(), obj, shared.list, cpus, cpu, Popped(local), given);
      if !at[cpu].Idle? { holder := None; }
      cpus, at := cpus[cpu := Popped(local)], at[cpu := Idle];
      given := given + {obj};
    }

    /** `allocate_obj` up to the lock of the shared cache: an object of the CPU's own cache, or none. */
    method AllocBegin(cpu: nat) returns (r: Option<nat>)
      requires Valid() && cpu < |cpus| && at[cpu] == Idle
      modifies this`cpus, this`given, this`at, this`holder
      ensures Valid() && SameBut(old(cpus), cpus, cpu) && holder == old(holder)
      ensures r.None? <==> old(cpus)[cpu].list == []
      ensures r.None? ==> cpus == old(cpus) && given == old(given) && at == old(at)[cpu := Empty]
      ensures r.Some? ==>
                && r.value !in old(given) && given == old(given) + {r.value} && at == old(at)
                && cpus[cpu].list == old(cpus)[cpu].list[1..]
    {
      hide Slab.Sorted, Slab.SlabMemCache.Counted, Slab.SlabMemCache.OutSet, Balance, InfoOk;
      if cpus[cpu].list == [] {
        at := at[cpu := Empty];
        return None;
      }
      var obj := Fetch(cpu);
      return Some(obj);
    }

    /** Takes the lock and refills the shared cache if that is empty; the CPU gives up exactly when
        the slabs have nothing either. */
    method RefillBegin(cpu: nat) returns (ok: bool)
      requires Valid() && cpu < |cpus| && at[cpu] == Empty && holder == None
      modifies this`shared, this`at, this`holder, mem
      ensures Valid() && (ok <==> old(shared).list != [] || !old(Exhausted()))
      ensures shared == old(shared).(list := shared.list, len := |shared.list|)
      ensures ok ==> at == old(at)[cpu := Filling(cpus[cpu].batch)] && holder == Some(cpu)
      ensures ok ==> shared.list != [] && cpus[cpu].batch > 0
      ensures !ok ==> at == old(at)[cpu := Idle] && holder == None && mem.OutSet() == old(mem.OutSet())
      ensures old(shared).list != [] ==> shared == old(shared)
      ensures ok && old(shared).list == [] && old(mem.partial) == [] && mem.z.frame / mem.z.obj >= 8 ==>
                |shared.list| >= Min(8, shared.batch)
    {
      hide Slab.Sorted, Slab.SlabMemCache.Counted, Slab.SlabMemCache.OutSet, Balance, InfoOk;
      ok := true;
      if shared.list == [] { ok := GrowFromCache(); }
      if ok { holder := Some(cpu); }
      at := at[cpu := if ok then Filling(cpus[cpu].batch) else Idle];
    }

    /** One round of `transfer_objects` into the CPU's cache; it ends early when the shared cache is
        empty. */
    method RefillOne(cpu: nat)
      requires Valid() && cpu < |cpus| && at[cpu].Filling? && at[cpu].left > 0
      modifies this`shared, this`cpus, this`at
      ensures Valid()
      ensures Refilled(old(shared), old(cpus), old(at), shared, cpus, at, cpu)
    {
      hide Slab.Sorted, Slab.SlabMemCache.Counted, Slab.SlabMemCache.OutSet, Balance, InfoOk, CachesOk;
      FillStep(shared, cpus, at, holder, cpu);
      if shared.list == [] {
        at := at[cpu := Filling(0)];
        return;
      }
      FillBalance(mem.OutSet(), shared, cpus, cpu, given);
      cpus := cpus[cpu := Pushed(cpus[cpu], shared.list[0])];
      shared, at := Popped(shared), at[cpu := Filling(at[cpu].left - 1)];
    }

    /** `deallocate_obj` up to the lock of the shared cache: the object goes into the CPU's own cache. */
    method FreeBegin(cpu: nat, obj: nat)
      requires Valid() && cpu < |cpus| && at[cpu] == Idle && obj in given
      modifies this`cpus, this`given, this`at
      ensures Valid() && given == old(given) - {obj} && SameBut(old(cpus), cpus, cpu)
      ensures cpus[cpu].list == [obj] + old(cpus)[cpu].list
      ensures at == old(at)[cpu := if |cpus[cpu].list| < cpus[cpu].limit then Idle else Full]
    {
      hide Slab.Sorted, Slab.SlabMemCache.Counted, Slab.SlabMemCache.OutSet, Balance, InfoOk;
      var local := Pushed(cpus[cpu], obj);
      FromCaller(mem.OutSet(), obj, shared.list, cpus, cpu, local, given);
      cpus, given := cpus[cpu := local], given - {obj};
      if local.len >= local.limit { at := at[cpu := Full]; }
    }

    /** Takes the lock to pass a batch on. */
    method DrainBegin(cpu: nat)
      requires Valid() && cpu < |cpus| && at[cpu] == Full && holder == None
      modifies this`at, this`holder
      ensures Valid() && at == old(at)[cpu := Draining(cpus[cpu].batch)] && holder == Some(cpu)
    {
      hide Slab.Sorted, Slab.SlabMemCache.Counted, Slab.SlabMemCache.OutSet, Balance, InfoOk;
      holder := Some(cpu);
      at := at[cpu := Draining(cpus[cpu].batch)];
    }

    /** One round of `transfer_objects` out of the CPU's cache, which never runs out. */
    method DrainOne(cpu: nat)
      requires Valid() && cpu < |cpus| && at[cpu].Draining? && at[cpu].left > 0
      modifies this`shared, this`cpus, this`at
      ensures Valid() && SameBut(old(cpus), cpus, cpu) && at == old(at)[cpu := Draining(old(at)[cpu].left - 1)]
      ensures old(cpus)[cpu].list != [] && cpus[cpu].list == old(cpus)[cpu].list[1..]
      ensures shared == old(shared).(list := [old(cpus)[cpu].list[0]] + old(shared).list, len := |old(shared).list| + 1)
    {
      hide Slab.Sorted, Slab.SlabMemCache.Counted, Slab.SlabMemCache.OutSet, Balance, InfoOk;
      var obj, local := cpus[cpu].list[0], Popped(cpus[cpu]);
      assert cpus[cpu].list == [obj] + local.list;
      BetweenCaches(mem.OutSet(), shared.list, [obj] + shared.list, cpus, cpu, local, given);
      cpus, shared, at := cpus[cpu := local], Pushed(shared, obj), at[cpu := Draining(at[cpu].left - 1)];
    }

    /** After the batch: a shared cache that is full passes a batch on to the slabs; the lock is given
        back. */
    method DrainEnd(cpu: nat)
      requires Valid() && cpu < |cpus| && at[cpu] == Draining(0)
      modifies this`shared, this`at, this`holder, mem
      ensures Valid() && at == old(at)[cpu := Idle] && holder == None
    {
      hide Slab.Sorted, Slab.SlabMemCache.Counted, Slab.SlabMemCache.OutSet, Balance, InfoOk;
      if shared.len >= shared.limit { ShrinkToCache(); }
      at, holder := at[cpu := Idle], None;
    }

    /** All of `allocate_obj` with no step of another CPU in between: gives out an object that no
        caller has; fails exactly when the CPU's cache, the shared cache and the slabs have none.  An
        empty cache is refilled with a batch from the `pool` that the shared cache has, or had after it
        was refilled itself. */
    method AllocateObj(cpu: nat) returns (r: Option<nat>, ghost pool: nat)
      requires Valid() && cpu < |cpus| && at[cpu] == Idle && holder == None
      modifies this`shared, this`cpus, this`given, this`at, this`holder, mem
      ensures Valid() && SameBut(old(cpus), cpus, cpu) && at == old(at) && holder == None
      ensures r.None? <==> old(cpus)[cpu].list == [] && old(shared).list == [] && old(Exhausted())
      ensures r.None? ==> given == old(given) && cpus == old(cpus) && mem.OutSet() == old(mem.OutSet())
      ensures r.Some? ==> r.value !in old(given) && given == old(given) + {r.value}
      ensures r.Some? && old(cpus)[cpu].list != [] ==>
                |cpus[cpu].list| == |old(cpus)[cpu].list| - 1 && shared == old(shared)
      ensures r.Some? && old(cpus)[cpu].list == [] ==>
                && |cpus[cpu].list| == Min(cpus[cpu].batch, pool) - 1
                && |shared.list| == pool - Min(cpus[cpu].batch, pool)
                && (old(shared).list != [] ==> pool == |old(shared).list|)
                && (old(shared).list == [] && old(mem.partial) == [] && mem.z.frame / mem.z.obj >= 8 ==>
                      pool >= Min(8, shared.batch))
                && shared.batch == old(shared).batch
    {
      hide Slab.Sorted, Slab.SlabMemCache.Valid, Slab.SlabMemCache.OutSet, Balance, InfoOk, PhaseOk, Added;
      pool := |shared.list|;
      r := AllocBegin(cpu);
      if r.Some? { return; }
      var ok := RefillBegin(cpu);
      if !ok { return None, 0; }
      pool := |shared.list|;
      ghost var batch, before, phases := cpus[cpu].batch, cpus, at;
      ghost var n := 0;
      while at[cpu].left > 0
        invariant Valid() && SameBut(before, cpus, cpu) && at == phases[cpu := at[cpu]] && at[cpu].Filling?
        invariant holder == Some(cpu) && shared == old(shared).(list := shared.list, len := |shared.list|)
        invariant given == old(given) && n <= batch && n <= pool && |cpus[cpu].list| == n && |shared.list| == pool - n
        invariant at[cpu].left == batch - n || (at[cpu].left == 0 && n == pool)
        decreases at[cpu].left
      {
        if shared.list != [] { n := n + 1; }
        RefillOne(cpu);
      }
      var obj := Fetch(cpu);
      r := Some(obj);
    }

    /** All of `deallocate_obj` with no step of another CPU in between: takes an object back into the
        CPU's cache; full caches pass batches on, down to the slabs. */
    method DeallocateObj(cpu: nat, obj: nat)
      requires Valid() && cpu < |cpus| && at[cpu] == Idle && holder == None && obj in given
      modifies this`shared, this`cpus, this`given, this`at, this`holder, mem
      ensures Valid() && given == old(given) - {obj} && SameBut(old(cpus), cpus, cpu) && at == old(at) && holder == None
      ensures var n := |old(cpus)[cpu].list| + 1;
              && (n < cpus[cpu].limit ==> cpus[cpu].list == [obj] + old(cpus)[cpu].list && shared == old(shared))
              && (n >= cpus[cpu].limit ==> cpus[cpu].list == ([obj] + old(cpus)[cpu].list)[cpus[cpu].batch..])
    {
      hide Slab.Sorted, Slab.SlabMemCache.Valid, Slab.SlabMemCache.OutSet, Balance, InfoOk, Added;
      FreeBegin(cpu, obj);
      if at[cpu] == Idle { return; }
      DrainBegin(cpu);
      ghost var batch, before, phases := cpus[cpu].batch, cpus, at;
      while at[cpu].left > 0
        invariant Valid() && SameBut(before, cpus, cpu) && at == phases[cpu := at[cpu]] && at[cpu].Draining?
        invariant given == old(given) - {obj} && at[cpu].left <= batch
        invariant cpus[cpu].list == before[cpu].list[batch - at[cpu].left..]
        decreases at[cpu].left
      {
        DrainOne(cpu);
      }
      DrainEnd(cpu);
    }

    /** `shrink_to_cache` for the shared cache: a batch of objects goes back to the slabs. */
    method ShrinkToCache()
      requires mem.Valid() && Conserved() && shared.len == |shared.list|
      modifies this`shared, mem
      ensures mem.Valid() && Conserved()
      ensures shared == old(shared).(list := shared.list, len := |shared.list|)
      ensures shared.list == old(shared).list[Min(shared.batch, |old(shared).list|)..]
    {
      hide Slab.Sorted, Slab.SlabMemCache.Counted, Slab.SlabMemCache.OutSet, Balance;
      for n := 0 to shared.batch
        invariant mem.Valid() && Conserved()
        invariant shared == old(shared).(list := shared.list, len := |shared.list|)
        invariant shared.list == old(shared).list[Min(n, |old(shared).list|)..]
      {
        if shared.list == [] { break; }
        var obj := shared.list[0];
        ToSlabs(mem.OutSet(), shared.list, cpus, given);
        shared := shared.(list := shared.list[1..], len := shared.len - 1);
        mem.Deallocate(obj);
      }
    }

    /** `info` begins: under the locks of the shared cache and of the slabs, the objects that are
        neither there nor in the slabs. */
    method BeginInfo()
      requires Valid() && info.None? && holder == None
      modifies this`info, this`givenThen, this`lensThen
      ensures Valid() && givenThen == |given| && lensThen == Lens(cpus)
      ensures info.Some? && info.value.read == []
    {
      hide Slab.Sorted, Slab.SlabMemCache.OutSet, Balance, Total;
      CountAll(mem.OutSet(), shared.list, cpus, given);
      var base := mem.activeObjs - shared.len;
      givenThen, lensThen := |given|, Lens(cpus);
      NothingRead();
      info := Some(Info(base, [], Some(base)));
    }

    /** It subtracts the length of the next CPU's cache, which it reads without a lock, also while that
        CPU moves a batch. */
    method ReadLength()
      requires Valid() && info.Some? && |info.value.read| < |cpus|
      modifies this`info
      ensures Valid() && info.Some? && info.value.read == old(info.value.read) + [|cpus[|old(info.value.read)|].list|]
    {
      hide Slab.Sorted, Slab.SlabMemCache.Counted, Slab.SlabMemCache.OutSet, Balance;
      var x := info.value;
      var len := cpus[|x.read|].len;
      TotalAppend(x.read, len);
      var left := if x.left.None? || len > x.left.value then None else Some(x.left.value - len);
      info := Some(Info(x.base, x.read + [len], left));
    }

    /** The active objects it reports are those that callers held when it began, but for what the
        lengths changed until they were read; so the figure is exact just when the changes cancel
        out, and the subtraction underflows just when they exceed it. */
    method EndInfo() returns (active: Option<nat>)
      requires Valid() && info.Some? && |info.value.read| == |cpus|
      modifies this`info
      ensures Valid() && info.None?
      ensures var read := Total(old(info.value.read));
              && (active.None? <==> read > givenThen + Total(lensThen))
              && (active.Some? ==> active.value == givenThen + Total(lensThen) - read)
              && (active == Some(givenThen) <==> read == Total(lensThen))
    {
      hide Slab.Sorted, Slab.SlabMemCache.Counted, Slab.SlabMemCache.OutSet, Balance, Total;
      active := info.value.left;
      info := None;
    }
  }

  lemma NothingRead()
    ensures Total([]) == 0
  {
  }

  /** The subtraction underflows: CPU 0 has allocated and freed an object, its cache is read, and
      before that of CPU 1 is read CPU 1 refills its cache. */
  method InfoUnderflows(pages: set<nat>) returns (active: Option<nat>)
    requires pages != {} && Slab.AllApart(SizesFor(PGSIZE), pages)
    ensures active.None?
  {
    hide Slab.SlabMemCache.Valid, Slab.SlabMemCache.OutSet, Balance, InfoOk, Total, SizesFor, CachesOk;
    SmallBatch();
    FreshOk(PGSIZE);
    var shared, local := FreshShared(BatchCount(PGSIZE)), FreshLocal(BatchCount(PGSIZE));
    var a := new SlabAllocator(SizesFor(PGSIZE), shared, local, pages);
    ghost var pool: nat;
    var x, y: Option<nat>;
    x, pool := a.AllocateObj(0);
    a.DeallocateObj(0, x.value);
    a.BeginInfo();
    a.ReadLength();
    y, pool := a.AllocateObj(1);
    assert Lens(a.cpus) == [2, 1, 0, 0, 0, 0, 0, 0];
    ReadRest(a);
    Sums();
    assert a.lensThen == [2, 0, 0, 0, 0, 0, 0, 0];
    active := a.EndInfo();
  }

  /** Reads the lengths that are left. */
  method ReadRest(a: SlabAllocator)
    requires a.Valid() && a.info.Some? && |a.info.value.read| <= |a.cpus|
    requires a.info.value.read == Lens(a.cpus)[..|a.info.value.read|]
    modifies a`info
    ensures a.Valid() && a.info.Some? && a.info.value.read == Lens(a.cpus)
  {
    hide Slab.SlabMemCache.Valid, Slab.SlabMemCache.OutSet, Balance, InfoOk, Total, CachesOk;
    while |a.info.value.read| < |a.cpus|
      invariant a.Valid() && a.info.Some? && |a.info.value.read| <= |a.cpus|
      invariant a.info.value.read == Lens(a.cpus)[..|a.info.value.read|]
    {
      a.ReadLength();
    }
    assert Lens(a.cpus)[..|a.cpus|] == Lens(a.cpus);
  }

  lemma SmallBatch()
    ensures BatchCount(PGSIZE) == 2 && Slab.Fitting(SizesFor(PGSIZE))
    ensures SizesFor(PGSIZE).frame / SizesFor(PGSIZE).obj >= 8
  {
    Slab.EightObjectsFit(PGSIZE);
  }

  lemma Sums()
    ensures Total([2, 1, 0, 0, 0, 0, 0, 0]) == 3 && Total([2, 0, 0, 0, 0, 0, 0, 0]) == 2
  {
    TotalOf2(1);
    TotalOf2(0);
  }

  lemma TotalOf2(x: nat)
    ensures Total([2, x, 0, 0, 0, 0, 0, 0]) == 2 + x
  {
    var s := [2, x, 0, 0, 0, 0, 0, 0];
    assert s[1..] == [x, 0, 0, 0, 0, 0, 0] && s[1..][1..] == [0, 0, 0, 0, 0, 0];
    TotalZero([0, 0, 0, 0, 0, 0]);
  }

  // ---------------------------------------------------------------- every move keeps the balance

  lemma FromSlabs(out: set<nat>, obj: nat, shared: seq<nat>, cpus: seq<ArrayCache>, given: set<nat>)
    requires Balance(out, shared, cpus, given) && obj !in out
    ensures Balance(out + {obj}, [obj] + shared, cpus, given)
  {
    hide Items;
    assert multiset(out + {obj}) == multiset(out) + multiset{obj};
  }

  lemma ToSlabs(out: set<nat>, shared: seq<nat>, cpus: seq<ArrayCache>, given: set<nat>)
    requires Balance(out, shared, cpus, given) && shared != []
    ensures shared[0] in out && Balance(out - {shared[0]}, shared[1..], cpus, given)
  {
    hide Items;
    var obj, rest := shared[0], out - {shared[0]};
    assert shared == [obj] + shared[1..];
    assert obj in multiset(out);
    assert multiset(out) == multiset(rest) + multiset{obj};
    Cancel(multiset(rest), multiset(shared[1..]) + Items(cpus) + multiset(given), multiset{obj});
  }

  lemma ToCaller(out: set<nat>, obj: nat, shared: seq<nat>, cpus: seq<ArrayCache>, cpu: nat, c: ArrayCache,
                 given: set<nat>)
    requires Balance(out, shared, cpus, given) && cpu < |cpus| && cpus[cpu].list == [obj] + c.list
    ensures obj !in given && Balance(out, shared, cpus[cpu := c], given + {obj})
  {
    ItemsDelta(cpus, cpu, c, multiset{}, multiset{obj});
    hide Items;
    var a, b := Items(cpus), Items(cpus[cpu := c]);
    assert b + multiset{obj} == a + multiset{} == a;
    assert multiset(out)[obj] <= 1 && a[obj] >= 1;
    assert multiset(given + {obj}) == multiset(given) + multiset{obj};
    assert multiset(shared) + (b + multiset{obj}) + multiset(given) ==
        multiset(shared) + b + (multiset(given) + multiset{obj});
  }

  lemma FromCaller(out: set<nat>, obj: nat, shared: seq<nat>, cpus: seq<ArrayCache>, cpu: nat, c: ArrayCache,
                   given: set<nat>)
    requires Balance(out, shared, cpus, given) && cpu < |cpus| && obj in given && c.list == [obj] + cpus[cpu].list
    ensures Balance(out, shared, cpus[cpu := c], given - {obj})
  {
    ItemsDelta(cpus, cpu, c, multiset{obj}, multiset{});
    hide Items;
    var a, b := Items(cpus), Items(cpus[cpu := c]);
    assert b == b + multiset{} == a + multiset{obj};
    assert multiset(given) == multiset(given - {obj}) + multiset{obj};
    assert multiset(shared) + a + (multiset(given - {obj}) + multiset{obj}) ==
           multiset(shared) + (a + multiset{obj}) + multiset(given - {obj});
  }

  lemma BetweenCaches(out: set<nat>, shared: seq<nat>, shared': seq<nat>, cpus: seq<ArrayCache>, cpu: nat,
                      c: ArrayCache, given: set<nat>)
    requires Balance(out, shared, cpus, given) && cpu < |cpus|
    requires multiset(c.list) + multiset(shared') == multiset(cpus[cpu].list) + multiset(shared)
    ensures Balance(out, shared', cpus[cpu := c], given)
  {
    ItemsDelta(cpus, cpu, c, multiset(shared), multiset(shared'));
    hide Items;
    var a, b := Items(cpus), Items(cpus[cpu := c]);
    assert multiset(shared') + b == b + multiset(shared') == a + multiset(shared) == multiset(shared) + a;
  }

  /** The front object of the shared cache goes over into a CPU's cache. */
  lemma FillBalance(out: set<nat>, shared: ArrayCache, cpus: seq<ArrayCache>, cpu: nat, given: set<nat>)
    requires Balance(out, shared.list, cpus, given) && cpu < |cpus| && shared.list != [] && shared.len == |shared.list|
    ensures Balance(out, Popped(shared).list, cpus[cpu := Pushed(cpus[cpu], shared.list[0])], given)
  {
    hide Balance;
    assert shared.list == [shared.list[0]] + shared.list[1..];
    BetweenCaches(out, shared.list, shared.list[1..], cpus, cpu, Pushed(cpus[cpu], shared.list[0]), given);
  }

  lemma CountAll(out: set<nat>, shared: seq<nat>, cpus: seq<ArrayCache>, given: set<nat>)
    requires Balance(out, shared, cpus, given)
    ensures |out| == |shared| + Total(Lens(cpus)) + |given|
  {
    ItemsCount(cpus);
    assert |multiset(out)| == |out| && |multiset(given)| == |given| && |multiset(shared)| == |shared|;
  }
}
