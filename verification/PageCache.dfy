/** The per-CPU page caches in front of the buddy allocator, as a system of steps: each step is
    one section that another CPU cannot interleave with, so a refill or a drain of one CPU and a
    report are several steps with any steps of the other CPUs in between.  A CPU that drains has a
    page in hand between taking it off its list and getting the buddy lock. */
module PageCache {
  import opened Arithmetic
  import opened BuddyTiling
  import opened Buddy
  import opened Wrappers

  const LIMIT: nat := 64
  const BATCHCOUNT: nat := 16

  /** What a CPU is in the middle of: `left` more rounds of its batch loop, `page` in hand. */
  datatype Phase = Idle | Refilling(left: nat) | Refilled | Draining(left: nat) | Freeing(page: nat, left: nat)

  /** The page that a CPU has taken off its list and not freed yet. */
  function InHand(phase: Phase): seq<nat> { if phase.Freeing? then [phase.page] else [] }

  /** How many pages are in hand. */
  function InTransit(phase: seq<Phase>): nat {
    if phase == [] then 0 else |InHand(phase[0])| + InTransit(phase[1..])
  }

  lemma {:induction false} TransitUpdate(phase: seq<Phase>, c: nat, x: Phase)
    requires c < |phase|
    ensures InTransit(phase[c := x]) == InTransit(phase) - |InHand(phase[c])| + |InHand(x)|
  {
    if c > 0 {
      TransitUpdate(phase[1..], c - 1, x);
      assert phase[c := x][1..] == phase[1..][c - 1 := x];
    } else {
      assert phase[c := x][1..] == phase[1..];
    }
  }

  lemma {:induction false} NoneInTransit(phase: seq<Phase>)
    ensures InTransit(phase) == 0 <==> forall c :: 0 <= c < |phase| ==> !phase[c].Freeing?
  {
    if phase != [] {
      NoneInTransit(phase[1..]);
      assert forall c :: 1 <= c < |phase| ==> phase[c] == phase[1..][c - 1];
    }
  }

  /** The pages of each CPU: its list and what it has in hand. */
  function Held(cache: seq<seq<nat>>, phase: seq<Phase>): (h: seq<seq<nat>>)
    requires |cache| == |phase|
    ensures |h| == |cache| && forall c :: 0 <= c < |h| ==> h[c] == cache[c] + InHand(phase[c])
  {
    seq(|cache|, c requires 0 <= c < |cache| == |phase| => cache[c] + InHand(phase[c]))
  }

  lemma HeldUpdate(cache: seq<seq<nat>>, phase: seq<Phase>, c: nat, list: seq<nat>, x: Phase)
    requires |cache| == |phase| && c < |cache|
    ensures Held(cache[c := list], phase[c := x]) == Held(cache, phase)[c := list + InHand(x)]
    ensures !x.Freeing? ==> Held(cache[c := list], phase[c := x]) == Held(cache, phase)[c := list]
  {
    assert list + [] == list;
  }

  /** A CPU goes on without a page in hand before or after. */
  lemma PhaseOnly(cache: seq<seq<nat>>, phase: seq<Phase>, c: nat, x: Phase)
    requires |cache| == |phase| && c < |cache| && !phase[c].Freeing? && !x.Freeing?
    ensures Held(cache, phase[c := x]) == Held(cache, phase) && InTransit(phase[c := x]) == InTransit(phase)
  {
    TransitUpdate(phase, c, x);
  }

  /** Every cached page is in one place only, namely on the list of the CPU that `home` names. */
  ghost predicate Homes(cache: seq<seq<nat>>, home: map<nat, nat>) {
    && (forall c :: 0 <= c < |cache| ==> Distinct(cache[c]))
    && (forall c, p :: 0 <= c < |cache| && p in cache[c] ==> p in home && home[p] == c)
    && (forall p :: p in home ==> home[p] < |cache| && p in cache[home[p]])
  }

  /** The blocks the buddy allocator has handed out are the cached pages and the blocks `out`
      in the hands of callers. */
  ghost predicate Divided(used: Blocks, out: Blocks, home: map<nat, nat>) {
    && (forall p :: p in used <==> p in out || p in home)
    && (forall p :: p in out ==> p !in home && used[p] == out[p])
    && (forall p :: p in home ==> used[p] == 0)
  }

  lemma TakeFromCache(cache: seq<seq<nat>>, home: map<nat, nat>, c: nat, p: nat, rest: seq<nat>)
    requires Homes(cache, home) && c < |cache| && p in cache[c]
    requires Distinct(rest) && forall q :: q in rest <==> q in cache[c] && q != p
    ensures p in home && Homes(cache[c := rest], home - {p})
  {
    var cache' := cache[c := rest];
    forall d, q | 0 <= d < |cache'| && q in cache'[d]
      ensures q in home - {p} && (home - {p})[q] == d
    {
      assert q in cache[d];
    }
  }

  lemma AddToCache(cache: seq<seq<nat>>, home: map<nat, nat>, c: nat, p: nat)
    requires Homes(cache, home) && c < |cache| && p !in home
    ensures Homes(cache[c := [p] + cache[c]], home[p := c])
  {
    var cache' := cache[c := [p] + cache[c]];
    forall d, q | 0 <= d < |cache'| && q in cache'[d]
      ensures q in home[p := c] && home[p := c][q] == d
    {
      assert q in cache[d] || (d == c && q == p);
    }
    assert p in cache'[c];
  }

  /** The page in hand goes. */
  lemma LetGo(cache: seq<seq<nat>>, phase: seq<Phase>, home: map<nat, nat>, c: nat, next: Phase)
    requires |cache| == |phase| && c < |phase| && Homes(Held(cache, phase), home) && phase[c].Freeing? && !next.Freeing?
    ensures phase[c].page in home && Homes(Held(cache, phase[c := next]), home - {phase[c].page})
    ensures InTransit(phase[c := next]) == InTransit(phase) - 1
  {
    var p := phase[c].page;
    var held := Held(cache, phase);
    assert held[c] == cache[c] + [p] && Distinct(held[c]);
    FrontAndBack(held[c]);
    assert held[c][..|cache[c]|] == cache[c];
    TakeFromCache(held, home, c, p, cache[c]);
    HeldUpdate(cache, phase, c, cache[c], next);
    assert cache[c := cache[c]] == cache;
    TransitUpdate(phase, c, next);
  }

  lemma FrontAndBack(s: seq<nat>)
    requires s != [] && Distinct(s)
    ensures Distinct(s[1..]) && forall q :: q in s[1..] <==> q in s && q != s[0]
    ensures Distinct(s[..|s| - 1]) && forall q :: q in s[..|s| - 1] <==> q in s && q != s[|s| - 1]
  {
    assert s == [s[0]] + s[1..] && s == s[..|s| - 1] + [s[|s| - 1]];
  }

  lemma {:induction false} NoBytes(lists: seq<seq<nat>>, k: nat)
    requires k <= |lists| && forall j :: 0 <= j < k ==> lists[j] == []
    ensures ListBytes(lists, k) == 0
  {
    if k > 0 { NoBytes(lists, k - 1); }
  }

  ghost predicate PhaseFits(phase: Phase, len: nat) {
    match phase
    case Idle => len < LIMIT
    case Refilling(left) => len + left == BATCHCOUNT
    case Refilled => len <= BATCHCOUNT
    case Draining(left) => len == LIMIT - BATCHCOUNT + left && left <= BATCHCOUNT
    case Freeing(_, left) => len == LIMIT - BATCHCOUNT + left && left < BATCHCOUNT
  }

  class PageAllocator {
    const buddy: BuddyAllocator
    const ncpu: nat
    var cache: seq<seq<nat>>         // cache_list of each CPU, front first, as page numbers
    var cacheLen: seq<nat>           // cache_list_len of each CPU
    var phase: seq<Phase>
    var report: Option<seq<nat>>     // the lengths that a report, which has the buddy lock, has read
    ghost var out: Blocks            // the blocks in the hands of callers
    ghost var home: map<nat, nat>    // cached page, or page in hand -> CPU

    ghost predicate Valid()
      reads this, buddy, buddy.flags
    {
      && buddy.Valid()
      && |cache| == |cacheLen| == |phase| == ncpu
      && (forall c :: 0 <= c < ncpu ==> cacheLen[c] == |cache[c]| && PhaseFits(phase[c], cacheLen[c]))
      && Homes(Held(cache, phase), home) && Divided(buddy.used, out, home)
      && Pages(buddy.used) == Pages(out) + Total(cacheLen) + InTransit(phase)
      && (report.Some? ==> |report.value| <= ncpu)
    }

    constructor (b: BuddyAllocator, cpus: nat)
      requires b.Valid() && b.used == map[]
      ensures Valid() && buddy == b && ncpu == cpus && out == map[] && report.None?
      ensures forall c :: 0 <= c < ncpu ==> phase[c].Idle? && cache[c] == []
    {
      buddy, ncpu := b, cpus;
      cache := seq(cpus, _ => []);
      cacheLen := seq(cpus, _ => 0);
      phase := seq(cpus, _ => Idle);
      out, home, report := map[], map[], None;
      new;
      TotalZero(cacheLen);
      NoneInTransit(phase);
    }

    lemma Orders()
      requires Valid()
      ensures |buddy.lists| == MAX_ORDER
    {
    }

    ghost predicate BuddyEmpty()
      reads this, buddy
      requires |buddy.lists| == MAX_ORDER
    {
      forall k :: 0 <= k < MAX_ORDER ==> buddy.lists[k] == []
    }

    /** As long as a page is neither out nor cached nor in hand, the buddy allocator has a block. */
    lemma SomethingFree() returns (k: nat)
      requires Valid() && Pages(out) + Total(cacheLen) + InTransit(phase) < buddy.n
      ensures k < MAX_ORDER == |buddy.lists| && buddy.lists[k] != []
    {
      hide Pages, Total, InTransit, Homes, Divided, ListBytes, Accounted, Listed, Coalesced;
      if forall j :: 0 <= j < MAX_ORDER ==> buddy.lists[j] == [] {
        NoBytes(buddy.lists, MAX_ORDER);
        assert false;
      }
      k :| 0 <= k < MAX_ORDER && buddy.lists[k] != [];
    }

    /** A report takes the buddy lock. */
    method BeginReport()
      requires Valid() && report.None?
      modifies this`report
      ensures Valid() && report == Some([])
    {
      report := Some([]);
    }

    /** It reads the length of the next CPU's list, without that list's lock. */
    method ReadLength()
      requires Valid() && report.Some? && |report.value| < ncpu
      modifies this`report
      ensures Valid() && report == Some(old(report.value) + [cacheLen[|old(report.value)|]])
    {
      report := Some(report.value + [cacheLen[|report.value|]]);
    }

    /** The size it reports.  The whole range is that size, what callers hold and the pages in hand,
        but for what the lengths changed since they were read; with unchanged lengths the size is
        exact just when no CPU has a page in hand. */
    method EndReport() returns (size: nat)
      requires Valid() && report.Some? && |report.value| == ncpu
      modifies this`report
      ensures Valid() && report == None
      ensures size + PGSIZE * (Pages(out) + InTransit(phase)) ==
              PGSIZE * buddy.n + PGSIZE * (Total(old(report.value)) - Total(cacheLen))
      ensures Exact(size) <==> Total(old(report.value)) == Total(cacheLen) + InTransit(phase)
      ensures old(report.value) == cacheLen ==>
                (Exact(size) <==> forall c :: 0 <= c < ncpu ==> !phase[c].Freeing?)
    {
      hide Homes, Divided, Pages;
      size := buddy.freeSize;
      var lengths := report.value;
      var cached := 0;
      for c := 0 to ncpu
        invariant cached == Total(lengths[..c])
      {
        cached := cached + lengths[c];
        TotalSnoc(lengths, c);
      }
      assert lengths[..ncpu] == lengths;
      NoneInTransit(phase);
      size := size + cached * PGSIZE;
      report := None;
    }

    /** The reported size and what callers hold make up the whole range. */
    ghost predicate Exact(size: nat)
      reads this
    {
      size + PGSIZE * Pages(out) == PGSIZE * buddy.n
    }

    /** The caller receives a block that no caller had. */
    ghost predicate HandsOut(before: Blocks, p: nat, k: nat)
      reads this
    {
      p !in before && out == before[p := k]
    }

    method PopFront(c: nat, next: Phase) returns (p: nat)
      requires Valid() && c < ncpu && cache[c] != [] && PhaseFits(next, cacheLen[c] - 1)
      requires !phase[c].Freeing? && !next.Freeing?
      modifies this
      ensures Valid() && HandsOut(old(out), p, 0) && p == old(cache[c][0])
      ensures phase == old(phase)[c := next] && report == old(report)
      ensures cache == old(cache)[c := old(cache[c])[1..]]
    {
      hide Pages, Total, Homes, BuddyAllocator.Valid, InTransit;
      p := cache[c][0];
      Listless(c);
      FrontAndBack(cache[c]);
      TakeFromCache(Held(cache, phase), home, c, p, cache[c][1..]);
      HeldUpdate(cache, phase, c, cache[c][1..], next);
      TransitUpdate(phase, c, next);
      TotalUpdate(cacheLen, c, cacheLen[c] - 1);
      PagesInsert(out, p, 0);
      cache := cache[c := cache[c][1..]];
      cacheLen := cacheLen[c := cacheLen[c] - 1];
      phase := phase[c := next];
      home := home - {p};
      out := out[p := 0];
    }

    lemma Listless(c: nat)
      requires |cache| == |phase| && Homes(Held(cache, phase), home) && c < |cache|
      ensures Distinct(cache[c] + InHand(phase[c])) && forall p :: p in cache[c] + InHand(phase[c]) ==> p in home
      ensures !phase[c].Freeing? ==> Held(cache, phase)[c] == cache[c] == cache[c] + InHand(phase[c])
    {
      assert Held(cache, phase)[c] == cache[c] + InHand(phase[c]);
    }

    /** alloc_page: hands out the front cached page, or begins a refill. */
    method AllocPage(c: nat) returns (r: Option<nat>)
      requires Valid() && c < ncpu && phase[c].Idle?
      modifies this
      ensures Valid() && report == old(report)
      ensures r.None? <==> old(cache[c]) == []
      ensures r.Some? ==> HandsOut(old(out), r.value, 0) && phase == old(phase)
      ensures r.None? ==> out == old(out) && cacheLen == old(cacheLen)
      ensures r.None? ==> phase == old(phase)[c := Refilling(BATCHCOUNT)]
    {
      hide Pages, Total, Homes, BuddyAllocator.Valid, InTransit, Divided;
      if cache[c] != [] {
        var p := PopFront(c, Idle);
        r := Some(p);
      } else {
        PhaseOnly(cache, phase, c, Refilling(BATCHCOUNT));
        phase := phase[c := Refilling(BATCHCOUNT)];
        r := None;
      }
    }

    /** One round of the refill loop, under the buddy lock; it stops early when that fails. */
    method RefillRound(c: nat)
      requires Valid() && report.None? && c < ncpu && phase[c].Refilling? && phase[c].left > 0
      modifies this, buddy, buddy.flags
      ensures Valid() && out == old(out) && report.None?
      ensures phase == old(phase)[c := Refilling(old(phase[c].left) - 1)] || phase == old(phase)[c := Refilled]
      ensures phase[c].Refilled? <==> old(BuddyEmpty())
      ensures cacheLen == old(cacheLen)[c := if phase[c].Refilled? then old(cacheLen[c]) else old(cacheLen[c]) + 1]
    {
      hide Pages, Total, Homes, BuddyAllocator.Valid, InTransit;
      var r := buddy.AllocByOrder(0);
      if r.None? {
        PhaseOnly(cache, phase, c, Refilled);
        phase := phase[c := Refilled];
        return;
      }
      var p := buddy.PageOf(r.value);
      Listless(c);
      AddToCache(Held(cache, phase), home, c, p);
      HeldUpdate(cache, phase, c, [p] + cache[c], Refilling(phase[c].left - 1));
      TransitUpdate(phase, c, Refilling(phase[c].left - 1));
      TotalUpdate(cacheLen, c, cacheLen[c] + 1);
      PagesInsert(old(buddy.used), p, 0);
      cache := cache[c := [p] + cache[c]];
      cacheLen := cacheLen[c := cacheLen[c] + 1];
      phase := phase[c := Refilling(phase[c].left - 1)];
      home := home[p := c];
    }

    /** The end of alloc_page after the refill loop: a page unless the refill brought none. */
    method FinishAlloc(c: nat) returns (r: Option<nat>)
      requires Valid() && c < ncpu && (phase[c] == Refilling(0) || phase[c].Refilled?)
      modifies this
      ensures Valid() && phase == old(phase)[c := Idle] && report == old(report)
      ensures r.None? <==> old(cache[c]) == []
      ensures r.Some? ==> HandsOut(old(out), r.value, 0)
      ensures r.None? ==> out == old(out)
    {
      hide Pages, Total, Homes, BuddyAllocator.Valid, InTransit, Divided;
      if cacheLen[c] != 0 {
        var p := PopFront(c, Idle);
        r := Some(p);
      } else {
        PhaseOnly(cache, phase, c, Idle);
        phase := phase[c := Idle];
        r := None;
      }
    }

    /** dealloc_page: caches the page, and begins a drain when the cache reaches its limit. */
    method DeallocPage(c: nat, p: nat)
      requires Valid() && c < ncpu && phase[c].Idle?
      requires p in out && out[p] == 0
      modifies this
      ensures Valid() && out == old(out) - {p} && report == old(report)
      ensures phase == old(phase)[c := if old(cacheLen[c]) + 1 < LIMIT then Idle else Draining(BATCHCOUNT)]
      ensures cacheLen == old(cacheLen)[c := old(cacheLen[c]) + 1]
    {
      hide Pages, Total, Homes, BuddyAllocator.Valid, InTransit;
      var next := if cacheLen[c] + 1 < LIMIT then Idle else Draining(BATCHCOUNT);
      Listless(c);
      AddToCache(Held(cache, phase), home, c, p);
      HeldUpdate(cache, phase, c, [p] + cache[c], next);
      TransitUpdate(phase, c, next);
      TotalUpdate(cacheLen, c, cacheLen[c] + 1);
      PagesWithout(out, p);
      cache := cache[c := [p] + cache[c]];
      cacheLen := cacheLen[c := cacheLen[c] + 1];
      phase := phase[c := next];
      home, out := home[p := c], out - {p};
    }

    /** One round of the drain loop up to the buddy lock: the unchecked pop finds a page. */
    method DrainPop(c: nat)
      requires Valid() && c < ncpu && phase[c].Draining? && phase[c].left > 0
      modifies this
      ensures Valid() && out == old(out) && report == old(report)
      ensures phase == old(phase)[c := Freeing(old(cache[c][|cache[c]| - 1]), old(phase[c].left) - 1)]
      ensures InTransit(phase) == old(InTransit(phase)) + 1
      ensures cacheLen == old(cacheLen)[c := old(cacheLen[c]) - 1]
    {
      hide Pages, Total, Homes, BuddyAllocator.Valid, InTransit, Divided;
      var last := |cache[c]| - 1;
      var next := Freeing(cache[c][last], phase[c].left - 1);
      Listless(c);
      assert cache[c] == cache[c][..last] + [cache[c][last]];
      HeldUpdate(cache, phase, c, cache[c][..last], next);
      assert Held(cache, phase)[c := cache[c]] == Held(cache, phase);
      TransitUpdate(phase, c, next);
      TotalUpdate(cacheLen, c, cacheLen[c] - 1);
      cache := cache[c := cache[c][..last]];
      cacheLen := cacheLen[c := cacheLen[c] - 1];
      phase := phase[c := next];
    }

    /** The rest of the round, under the buddy lock: the page in hand goes back. */
    method DrainFree(c: nat)
      requires Valid() && report.None? && c < ncpu && phase[c].Freeing?
      modifies this, buddy, buddy.flags
      ensures Valid() && out == old(out) && report.None? && cacheLen == old(cacheLen)
      ensures buddy.freeSize == old(buddy.freeSize) + PGSIZE
      ensures phase == old(phase)[c := if old(phase[c].left) == 0 then Idle else Draining(old(phase[c].left))]
      ensures InTransit(phase) == old(InTransit(phase)) - 1
    {
      hide Pages, Total, Homes, BuddyAllocator.Valid, InTransit;
      var p := phase[c].page;
      var next := if phase[c].left == 0 then Idle else Draining(phase[c].left);
      LetGo(cache, phase, home, c, next);
      PagesWithout(buddy.used, p);
      buddy.FreeByOrder(buddy.Paddr(p), 0);
      home := home - {p};
      phase := phase[c := next];
    }

    /** Larger blocks bypass the caches. */
    method AllocBlock(order: nat) returns (r: Option<nat>)
      requires Valid() && report.None? && 0 < order < MAX_ORDER
      modifies this, buddy, buddy.flags
      ensures Valid() && phase == old(phase) && report.None?
      ensures r.None? <==> forall j :: order <= j < MAX_ORDER ==> old(buddy.lists[j]) == []
      ensures r.Some? ==> HandsOut(old(out), r.value, order)
      ensures r.None? ==> out == old(out)
    {
      hide Pages, Total, Homes, BuddyAllocator.Valid, InTransit;
      var a := buddy.AllocByOrder(order);
      if a.None? { return None; }
      var p := buddy.PageOf(a.value);
      PagesInsert(old(buddy.used), p, order);
      PagesInsert(out, p, order);
      out := out[p := order];
      r := Some(p);
    }

    method FreeBlock(p: nat, order: nat)
      requires Valid() && report.None? && 0 < order < MAX_ORDER && p in out && out[p] == order
      modifies this, buddy, buddy.flags
      ensures Valid() && phase == old(phase) && report.None? && out == old(out) - {p}
    {
      hide Pages, Total, Homes, BuddyAllocator.Valid, InTransit;
      PagesWithout(buddy.used, p);
      PagesWithout(out, p);
      buddy.FreeByOrder(buddy.Paddr(p), order);
      out := out - {p};
    }
  }

  /** All of alloc_page on one CPU with no step of another in between: it fails exactly when that CPU's
      cache is empty and the buddy allocator has no block; not as long as a page is neither out nor
      cached nor in hand. */
  method TakePage(a: PageAllocator, c: nat) returns (r: Option<nat>)
    requires a.Valid() && a.report.None? && c < a.ncpu && a.phase[c].Idle?
    modifies a, a.buddy, a.buddy.flags
    ensures a.Valid() && a.report.None? && a.phase == old(a.phase)
    ensures r.Some? ==> a.HandsOut(old(a.out), r.value, 0)
    ensures r.None? <==> old(a.cache[c]) == [] && old(a.BuddyEmpty())
    ensures r.None? ==> a.out == old(a.out)
    ensures old(Pages(a.out) + Total(a.cacheLen) + InTransit(a.phase)) < a.buddy.n ==> r.Some?
  {
    hide Pages, Total, Homes, BuddyAllocator.Valid, InTransit, Divided;
    a.Orders();
    ghost var before, empty := a.phase, a.BuddyEmpty();
    if Pages(a.out) + Total(a.cacheLen) + InTransit(a.phase) < a.buddy.n { var k := a.SomethingFree(); }
    r := a.AllocPage(c);
    if r.Some? { return; }
    while a.phase[c].Refilling? && a.phase[c].left > 0
      invariant a.Valid() && a.report.None? && a.out == old(a.out) && |a.buddy.lists| == MAX_ORDER
      invariant a.phase == before[c := a.phase[c]] && (a.phase[c].Refilling? || a.phase[c].Refilled?)
      invariant if a.cacheLen[c] > 0 then !empty
                else if a.phase[c].Refilled? then empty
                else a.phase[c].left == BATCHCOUNT && (a.BuddyEmpty() <==> empty)
      decreases if a.phase[c].Refilling? then a.phase[c].left else 0
    {
      a.RefillRound(c);
      a.Orders();
    }
    r := a.FinishAlloc(c);
  }

  /** A report that is one page short: a CPU frees its cache up to the limit, takes the first page
      of the drain off its list, and then the report is made. */
  method ShortReport(b: BuddyAllocator) returns (a: PageAllocator, size: nat)
    requires b.Valid() && b.used == map[] && b.n >= 2 * LIMIT
    modifies b, b.flags
    ensures a.Valid() && !a.Exact(size) && size + PGSIZE * (Pages(a.out) + 1) == PGSIZE * a.buddy.n
  {
    hide Pages, Homes, BuddyAllocator.Valid, Divided;
    a := new PageAllocator(b, 1);
    var pages := TakeMany(a);
    GiveBack(a, pages);
    a.DrainPop(0);
    a.BeginReport();
    a.ReadLength();
    assert a.report.value == a.cacheLen && a.phase[0].Freeing?;
    size := a.EndReport();
  }

  /** Gives pages back until the cache is drained. */
  method GiveBack(a: PageAllocator, held: seq<nat>)
    requires a.Valid() && a.report.None? && a.ncpu == 1 && a.phase == [Idle] && |held| >= LIMIT && Distinct(held)
    requires forall p :: p in held ==> p in a.out && a.out[p] == 0
    modifies a
    ensures a.Valid() && a.report.None? && a.phase == [Draining(BATCHCOUNT)]
  {
    hide Pages, Homes, BuddyAllocator.Valid, Divided, Total, InTransit;
    var pages := held;
    while a.phase[0].Idle?
      invariant a.Valid() && a.report.None? && (a.phase == [Idle] || a.phase == [Draining(BATCHCOUNT)])
      invariant a.cacheLen[0] + |pages| >= LIMIT && Distinct(pages)
      invariant forall p :: p in pages ==> p in a.out && a.out[p] == 0
      decreases |pages| + if a.phase[0].Idle? then 1 else 0
    {
      FrontAndBack(pages);
      a.DeallocPage(0, pages[0]);
      pages := pages[1..];
    }
  }

  /** Takes as many pages as a cache may hold. */
  method TakeMany(a: PageAllocator) returns (pages: seq<nat>)
    requires a.Valid() && a.report.None? && a.ncpu == 1 && a.phase == [Idle] && a.out == map[] && a.buddy.n >= 2 * LIMIT
    modifies a, a.buddy, a.buddy.flags
    ensures a.Valid() && a.report.None? && a.phase == [Idle]
    ensures |pages| == LIMIT && Distinct(pages) && forall p :: p in pages ==> p in a.out && a.out[p] == 0
  {
    hide Pages, Total, InTransit, PageAllocator.Valid, BuddyAllocator.Valid;
    pages := [];
    assert Pages(a.out) == 0 by { NoPages(); }
    while |pages| < LIMIT
      invariant a.Valid() && a.report.None? && a.phase == [Idle] && Pages(a.out) == |pages| <= LIMIT
      invariant Distinct(pages) && forall p :: p in pages ==> p in a.out && a.out[p] == 0
    {
      FewCached(a);
      ghost var before := a.out;
      var r := TakePage(a, 0);
      PagesInsert(before, r.value, 0);
      pages := pages + [r.value];
    }
  }

  lemma NoPages()
    ensures Pages(map[]) == 0
  {
  }

  /** On an idle CPU less than the limit is cached. */
  lemma FewCached(a: PageAllocator)
    requires a.Valid() && a.ncpu == 1 && a.phase == [Idle]
    ensures Total(a.cacheLen) + InTransit(a.phase) < LIMIT
  {
    hide Pages, Homes, BuddyAllocator.Valid, Divided;
    assert a.cacheLen[1..] == [] && a.phase[1..] == [];
  }
}
