/** The completely fair scheduler: the queue ordered by virtual run time, the weighted slices and
    how long a queued task can wait. */
module Cfs {
  import opened Arithmetic
  import opened Wrappers

  const LATENCY: nat := 20_000_000
  const MIN_GRANULARITY: nat := 4_000_000

  const WEIGHTS: seq<nat> := [
    88761, 71755, 56483, 46273, 36291, 29154, 23254, 18705, 14949, 11916,
    9548, 7620, 6100, 4904, 3906, 3121, 2501, 1991, 1586, 1277,
    1024, 820, 655, 526, 423, 335, 272, 215, 172, 137,
    110, 87, 70, 56, 45, 36, 29, 23, 18, 15]

  function Clamp(nice: int): int { if nice < -20 then -20 else if nice > 19 then 19 else nice }

  function NiceToWeight(nice: int): (w: nat)
    ensures 15 <= w <= 88761
  {
    assert |WEIGHTS| == 40;
    assert forall i :: 0 <= i < 40 ==> 15 <= WEIGHTS[i] <= 88761;
    WEIGHTS[Clamp(nice) + 20]
  }

  /** A nicer task never weighs more. */
  lemma NicerIsLighter(a: int, b: int)
    requires a <= b
    ensures NiceToWeight(b) <= NiceToWeight(a)
  {
    assert forall i :: 0 <= i < 39 ==> WEIGHTS[i + 1] <= WEIGHTS[i];
    Descending(Clamp(a) + 20, Clamp(b) + 20);
  }

  lemma {:induction false} Descending(i: nat, j: nat)
    requires i <= j < |WEIGHTS| && forall k :: 0 <= k < |WEIGHTS| - 1 ==> WEIGHTS[k + 1] <= WEIGHTS[k]
    ensures WEIGHTS[j] <= WEIGHTS[i]
  {
    if i < j {
      Descending(i, j - 1);
      assert WEIGHTS[(j - 1) + 1] <= WEIGHTS[j - 1];
    }
  }

  /** The scheduling attributes of a task. */
  datatype Attrs = Attrs(nice: int, vruntime: nat, startTime: nat, slice: nat)

  // ---------------------------------------------------------------- the ordered queue

  predicate InRange(tree: seq<nat>, n: nat) { forall i :: 0 <= i < |tree| ==> tree[i] < n }

  predicate Ascending(tree: seq<nat>, v: seq<nat>)
    requires InRange(tree, |v|)
  {
    forall i, j :: 0 <= i < j < |tree| ==> v[tree[i]] <= v[tree[j]]
  }

  ghost predicate Ordered(tree: seq<nat>, v: seq<nat>) {
    InRange(tree, |v|) && Ascending(tree, v) && Distinct(tree)
  }

  /** Inserts `t` behind every task whose key is not greater. */
  function Insert(tree: seq<nat>, v: seq<nat>, t: nat): seq<nat>
    requires t < |v| && InRange(tree, |v|)
  {
    if tree == [] || v[tree[|tree| - 1]] <= v[t] then tree + [t]
    else Insert(tree[..|tree| - 1], v, t) + [tree[|tree| - 1]]
  }

  /** The key of `t` is raised to that of the front. */
  function Raised(tree: seq<nat>, v: seq<nat>, t: nat): seq<nat>
    requires t < |v| && InRange(tree, |v|)
  {
    v[t := Max(v[t], if tree == [] then 0 else v[tree[0]])]
  }

  lemma {:induction false} InsertAt(tree: seq<nat>, v: seq<nat>, t: nat) returns (k: nat)
    requires Ordered(tree, v) && t < |v|
    ensures k <= |tree| && Insert(tree, v, t) == tree[..k] + [t] + tree[k..]
    ensures forall i :: 0 <= i < k ==> v[tree[i]] <= v[t]
    ensures forall i :: k <= i < |tree| ==> v[t] < v[tree[i]]
  {
    if tree == [] || v[tree[|tree| - 1]] <= v[t] {
      k := |tree|;
    } else {
      var n := |tree| - 1;
      k := InsertAt(tree[..n], v, t);
      assert tree[..n][..k] == tree[..k] && tree[..n][k..] + [tree[n]] == tree[k..];
    }
  }

  lemma {:induction false} InsertMembers(tree: seq<nat>, v: seq<nat>, t: nat)
    requires t < |v| && InRange(tree, |v|)
    ensures forall w :: w in Insert(tree, v, t) <==> w in tree || w == t
  {
    if tree != [] && v[tree[|tree| - 1]] > v[t] {
      var n := |tree| - 1;
      InsertMembers(tree[..n], v, t);
      assert tree == tree[..n] + [tree[n]];
    }
  }

  lemma InsertOrdered(tree: seq<nat>, v: seq<nat>, t: nat, k: nat)
    requires Ordered(tree, v) && t < |v| && t !in tree && k <= |tree|
    requires forall i :: 0 <= i < k ==> v[tree[i]] <= v[t]
    requires forall i :: k <= i < |tree| ==> v[t] < v[tree[i]]
    ensures Ordered(tree[..k] + [t] + tree[k..], v)
  {
    var x := tree[..k] + [t] + tree[k..];
    forall i, j | 0 <= i < j < |x|
      ensures v[x[i]] <= v[x[j]] && x[i] != x[j]
    {
      var i', j' := if i < k then i else i - 1, if j < k then j else j - 1;
      assert i != k ==> x[i] == tree[i'];
      assert j != k ==> x[j] == tree[j'];
      assert i != k && j != k ==> i' < j';
    }
  }

  /** The key of every task. */
  function Keys(attrs: seq<Attrs>): (v: seq<nat>)
    ensures |v| == |attrs| && forall i :: 0 <= i < |v| ==> v[i] == attrs[i].vruntime
  {
    seq(|attrs|, i requires 0 <= i < |attrs| => attrs[i].vruntime)
  }

  function SumWeights(tree: seq<nat>, attrs: seq<Attrs>): nat
    requires InRange(tree, |attrs|)
  {
    if tree == [] then 0
    else SumWeights(tree[..|tree| - 1], attrs) + NiceToWeight(attrs[tree[|tree| - 1]].nice)
  }

  /** Only the nice values and the members of the queue matter to the sum. */
  lemma {:induction false} SumSame(tree: seq<nat>, a: seq<Attrs>, b: seq<Attrs>)
    requires |a| == |b| && InRange(tree, |a|) && forall i :: 0 <= i < |tree| ==> a[tree[i]].nice == b[tree[i]].nice
    ensures SumWeights(tree, a) == SumWeights(tree, b)
  {
    if tree != [] { SumSame(tree[..|tree| - 1], a, b); }
  }

  lemma {:induction false} SumSplit(x: seq<nat>, y: seq<nat>, attrs: seq<Attrs>)
    requires InRange(x, |attrs|) && InRange(y, |attrs|)
    ensures SumWeights(x + y, attrs) == SumWeights(x, attrs) + SumWeights(y, attrs)
  {
    if y == [] {
      assert x + y == x;
    } else {
      var n := |y| - 1;
      assert (x + y)[..|x| + n] == x + y[..n];
      SumSplit(x, y[..n], attrs);
    }
  }

  lemma SumOne(t: nat, attrs: seq<Attrs>)
    requires t < |attrs|
    ensures SumWeights([t], attrs) == NiceToWeight(attrs[t].nice)
  {
    assert [t][..0] == [];
  }

  lemma SumInsert(tree: seq<nat>, t: nat, k: nat, attrs: seq<Attrs>)
    requires k <= |tree| && t < |attrs| && InRange(tree, |attrs|)
    ensures SumWeights(tree[..k] + [t] + tree[k..], attrs) == SumWeights(tree, attrs) + NiceToWeight(attrs[t].nice)
  {
    assert tree == tree[..k] + tree[k..];
    SumSplit(tree[..k], tree[k..], attrs);
    SumSplit(tree[..k] + [t], tree[k..], attrs);
    SumSplit(tree[..k], [t], attrs);
    SumOne(t, attrs);
  }

  // ---------------------------------------------------------------- the scheduler

  /** The attributes of one task changed. */
  predicate OneTask(a: seq<Attrs>, b: seq<Attrs>, t: nat, x: Attrs) { t < |a| && b == a[t := x] }

  /** What the time since a task started costs it, the less the more it weighs. */
  function Cost(x: Attrs, now: nat): nat
    requires x.startTime <= now
  {
    (now - x.startTime) * 1024 / NiceToWeight(x.nice)
  }

  function Charged(x: Attrs, now: nat): Attrs
    requires x.startTime <= now
  {
    x.(vruntime := x.vruntime + Cost(x, now))
  }

  /** A task that starts its turn among tasks of this total weight. */
  function Started(x: Attrs, now: nat, total: nat): Attrs
    requires total > 0
  {
    x.(startTime := now, slice := Max(LATENCY * NiceToWeight(x.nice) / total, MIN_GRANULARITY))
  }

  /** The queue is in order and its total weight known. */
  ghost predicate Good(tree: seq<nat>, attrs: seq<Attrs>, total: nat) {
    Ordered(tree, Keys(attrs)) && total == SumWeights(tree, attrs)
  }

  lemma GoodWithout(tree: seq<nat>, a: seq<Attrs>, b: seq<Attrs>, t: nat, x: Attrs, total: nat)
    requires Good(tree, a, total) && OneTask(a, b, t, x) && t !in tree
    ensures Good(tree, b, total)
  {
    forall i | 0 <= i < |tree|
      ensures Keys(a)[tree[i]] == Keys(b)[tree[i]] && a[tree[i]] == b[tree[i]]
    {
      assert tree[i] in tree;
    }
    SumSame(tree, a, b);
  }

  lemma GoodInsert(tree: seq<nat>, attrs: seq<Attrs>, t: nat, total: nat)
    requires Good(tree, attrs, total) && t < |attrs| && t !in tree
    ensures Good(Insert(tree, Keys(attrs), t), attrs, total + NiceToWeight(attrs[t].nice))
  {
    var k := InsertAt(tree, Keys(attrs), t);
    InsertOrdered(tree, Keys(attrs), t, k);
    SumInsert(tree, t, k, attrs);
    hide SumWeights, Insert, NiceToWeight, Ascending, Distinct, Keys;
  }

  lemma {:induction false} InsertFront(tree: seq<nat>, v: seq<nat>, t: nat)
    requires t < |v| && InRange(tree, |v|) && (tree != [] ==> v[tree[0]] <= v[t])
    ensures var x := Insert(tree, v, t);
            x != [] && x[0] == (if tree == [] then t else tree[0]) && multiset(x) == multiset(tree) + multiset{t}
  {
    if tree != [] && v[tree[|tree| - 1]] > v[t] {
      var n := |tree| - 1;
      InsertFront(tree[..n], v, t);
      assert tree == tree[..n] + [tree[n]];
    }
  }

  lemma GoodFront(tree: seq<nat>, a: seq<Attrs>, b: seq<Attrs>, x: Attrs, total: nat)
    requires Good(tree, a, total) && tree != [] && OneTask(a, b, tree[0], x)
    requires x.vruntime == a[tree[0]].vruntime && x.nice == a[tree[0]].nice
    ensures var w := NiceToWeight(x.nice);
            && w <= total && Good(tree[1..], b, total - w) && tree[0] !in tree[1..]
            && forall u :: u in tree[1..] ==> u < |b| && x.vruntime <= b[u].vruntime
  {
    hide SumWeights, NiceToWeight;
    var t, rest := tree[0], tree[1..];
    assert tree == [t] + rest;
    SumSplit([t], rest, a);
    SumOne(t, a);
    SumSame(rest, a, b);
    assert Keys(b) == Keys(a);
  }

  class CfScheduler {
    var tree: seq<nat>
    var attrs: seq<Attrs>
    var minVruntime: nat
    var totalWeight: nat
    /** The last picked virtual run time since the queue was empty. */
    ghost var floor: nat

    ghost predicate Valid()
      reads this
    {
      && Good(tree, attrs, totalWeight)
      && (tree != [] ==> tree[0] < |attrs| && floor <= attrs[tree[0]].vruntime)
    }

    constructor (tasks: seq<Attrs>)
      ensures Valid() && tree == [] && attrs == tasks && floor == 0
    {
      tree, attrs, minVruntime, totalWeight, floor := [], tasks, 0, 0, 0;
    }

    /** Puts a task into the queue, not before its present front. */
    method EnqueueReady(t: nat)
      requires Valid() && t < |attrs| && t !in tree
      modifies this
      ensures Valid() && multiset(tree) == multiset(old(tree)) + multiset{t}
      ensures |attrs| == |old(attrs)| && OneTask(old(attrs), attrs, t, old(attrs)[t].(vruntime := attrs[t].vruntime))
      ensures Keys(attrs) == Raised(old(tree), Keys(old(attrs)), t) && tree == Insert(old(tree), Keys(attrs), t)
      ensures totalWeight == old(totalWeight) + NiceToWeight(attrs[t].nice)
      ensures floor == if old(tree) == [] then 0 else old(floor)
    {
      hide SumWeights, NiceToWeight, Insert;
      minVruntime := if tree != [] then attrs[tree[0]].vruntime else 0;
      ghost var before := attrs;
      attrs := attrs[t := attrs[t].(vruntime := Max(attrs[t].vruntime, minVruntime))];
      GoodWithout(tree, before, attrs, t, attrs[t], totalWeight);
      if tree == [] { floor := 0; }
      GoodInsert(tree, attrs, t, totalWeight);
      InsertFront(tree, Keys(attrs), t);
      totalWeight := totalWeight + NiceToWeight(attrs[t].nice);
      tree := Insert(tree, Keys(attrs), t);
    }

    /** Charges the running task `t` and says whether its slice is used up.  Each tick charges the
        whole time since the task was picked. */
    method Tick(t: nat, now: nat) returns (doYield: bool)
      requires Valid() && t < |attrs| && t !in tree && attrs[t].startTime <= now
      modifies this
      ensures Valid() && tree == old(tree) && totalWeight == old(totalWeight) && floor == old(floor)
      ensures var x := old(attrs)[t];
              OneTask(old(attrs), attrs, t, Charged(x, now)) && (doYield <==> now >= x.startTime + x.slice)
    {
      hide Good, NiceToWeight;
      var delta := now - attrs[t].startTime;
      ghost var before := attrs;
      attrs := attrs[t := attrs[t].(vruntime := attrs[t].vruntime + delta * 1024 / NiceToWeight(attrs[t].nice))];
      assert attrs[t] == Charged(before[t], now);
      GoodWithout(tree, before, attrs, t, attrs[t], totalWeight);
      assert tree != [] ==> tree[0] in tree;
      doYield := delta >= attrs[t].slice;
    }

    /** Takes the first of the tasks with the least virtual run time and gives it a slice that is
        its share of the latency, between the minimum granularity and the latency. */
    method PickNextTask(now: nat) returns (r: Option<nat>)
      requires Valid()
      modifies this
      ensures Valid()
      ensures r.None? <==> old(tree) == []
      ensures r.None? ==> attrs == old(attrs) && tree == [] && floor == old(floor) && totalWeight == old(totalWeight)
      ensures r.Some? ==>
                && old(tree) == [r.value] + tree && r.value !in tree && r.value < |old(attrs)| == |attrs|
                && (forall u :: u in tree ==> u < |attrs| && attrs[r.value].vruntime <= attrs[u].vruntime)
                && old(floor) <= attrs[r.value].vruntime
                && (tree != [] ==> floor == attrs[r.value].vruntime)
                && MIN_GRANULARITY <= attrs[r.value].slice <= LATENCY
                && 0 < NiceToWeight(attrs[r.value].nice) == old(totalWeight) - totalWeight
                && OneTask(old(attrs), attrs, r.value, Started(old(attrs)[r.value], now, old(totalWeight)))
    {
      hide Good, NiceToWeight;
      if tree == [] { return None; }
      var t, weight := tree[0], NiceToWeight(attrs[tree[0]].nice);
      ghost var before := attrs;
      GoodFront(tree, attrs, attrs, attrs[t], totalWeight);
      ShareFits(weight, totalWeight);
      attrs := attrs[t := attrs[t].(startTime := now, slice := Max(LATENCY * weight / totalWeight, MIN_GRANULARITY))];
      assert attrs[t] == Started(before[t], now, totalWeight);
      GoodFront(tree, before, attrs, attrs[t], totalWeight);
      assert tree == [t] + tree[1..];
      tree, totalWeight, floor := tree[1..], totalWeight - weight, attrs[t].vruntime;
      return Some(t);
    }
  }

  lemma ShareFits(weight: nat, total: nat)
    requires 0 < weight <= total
    ensures LATENCY * weight / total <= LATENCY
  {
    DivAtMost(LATENCY * weight, LATENCY, total);
  }

  lemma DivAtMost(x: nat, y: nat, d: nat)
    requires d > 0 && x <= y * d
    ensures x / d <= y
  {
    assert x / d * d < (y + 1) * d;
  }

  lemma DivAtLeast(x: nat, y: nat, d: nat)
    requires d > 0 && y * d <= x
    ensures y <= x / d
  {
    assert y * d < (x / d + 1) * d;
  }

  // ---------------------------------------------------------------- the ticks of a turn

  /** Ticks come in order, and none before the turn begins. */
  predicate InTurn(start: nat, times: seq<nat>) {
    && (forall i :: 0 <= i < |times| ==> start <= times[i])
    && (forall i, j :: 0 <= i < j < |times| ==> times[i] <= times[j])
  }

  /** A task after these ticks. */
  function Ticked(x: Attrs, times: seq<nat>): (y: Attrs)
    requires InTurn(x.startTime, times)
    ensures y == x.(vruntime := y.vruntime)
  {
    if times == [] then x else Charged(Ticked(x, times[..|times| - 1]), times[|times| - 1])
  }

  function TotalCost(x: Attrs, times: seq<nat>): nat
    requires InTurn(x.startTime, times)
  {
    if times == [] then 0 else TotalCost(x, times[..|times| - 1]) + Cost(x, times[|times| - 1])
  }

  /** A turn costs the sum of what its ticks cost, although each of them is for all the time so far. */
  lemma {:induction false} TurnCosts(x: Attrs, times: seq<nat>)
    requires InTurn(x.startTime, times)
    ensures Ticked(x, times).vruntime == x.vruntime + TotalCost(x, times)
  {
    hide NiceToWeight;
    if times != [] {
      var front, y := times[..|times| - 1], Ticked(x, times[..|times| - 1]);
      TurnCosts(x, front);
      assert Cost(y, times[|times| - 1]) == Cost(x, times[|times| - 1]);
    }
  }

  lemma QuotientZero(x: nat, d: nat)
    requires d > 0
    ensures x / d == 0 <==> x < d
  {
    if x >= d { DivAtLeast(x, 1, d); }
  }

  /** The time up to `now` costs nothing just when it is short. */
  lemma CostsNothing(x: Attrs, now: nat)
    requires x.startTime <= now
    ensures Cost(x, now) == 0 <==> (now - x.startTime) * 1024 < NiceToWeight(x.nice)
  {
    hide NiceToWeight;
    QuotientZero((now - x.startTime) * 1024, NiceToWeight(x.nice));
  }

  lemma CostGrows(x: Attrs, a: nat, b: nat)
    requires x.startTime <= a <= b
    ensures Cost(x, a) <= Cost(x, b)
  {
    hide NiceToWeight;
    var c, d, w := (a - x.startTime) * 1024, (b - x.startTime) * 1024, NiceToWeight(x.nice);
    assert c / w * w <= c <= d;
    DivAtLeast(d, c / w, w);
  }

  lemma {:induction false} TotalNothing(x: Attrs, times: seq<nat>)
    requires InTurn(x.startTime, times) && times != []
    ensures TotalCost(x, times) == 0 <==> Cost(x, times[|times| - 1]) == 0
  {
    hide Cost;
    if |times| > 1 {
      TotalNothing(x, times[..|times| - 1]);
      CostGrows(x, times[|times| - 2], times[|times| - 1]);
    }
  }

  /** So a turn costs at least what its time costs, and just that if and only if it has one tick or
      those before the last come in the first moment. */
  lemma TurnCostsItsTime(x: Attrs, times: seq<nat>)
    requires InTurn(x.startTime, times) && times != []
    ensures Ticked(x, times).vruntime >= x.vruntime + Cost(x, times[|times| - 1])
    ensures Ticked(x, times).vruntime == x.vruntime + Cost(x, times[|times| - 1]) <==>
            |times| == 1 || (times[|times| - 2] - x.startTime) * 1024 < NiceToWeight(x.nice)
  {
    hide Cost, NiceToWeight, Ticked;
    TurnCosts(x, times);
    var front := times[..|times| - 1];
    if front != [] {
      TotalNothing(x, front);
      CostsNothing(x, front[|front| - 1]);
    }
  }

  /** Two ticks of a task of the default weight, each a granule after the one before. */
  lemma TwoTicksCostThree(x: Attrs)
    requires x.nice == 0
    ensures var g := MIN_GRANULARITY;
            Ticked(x, [x.startTime + g, x.startTime + 2 * g]).vruntime == x.vruntime + 3 * g
  {
    assert NiceToWeight(0) == 1024;
    hide Ticked, NiceToWeight;
    var g := MIN_GRANULARITY;
    var times := [x.startTime + g, x.startTime + 2 * g];
    TurnCosts(x, times);
    assert times[..1] == [x.startTime + g];
    assert TotalCost(x, times[..1]) == TotalCost(x, []) + Cost(x, x.startTime + g);
  }

  /** A turn of task `t`: ticks at these times until one says that the slice is used up. */
  method RunTurn(s: CfScheduler, t: nat, times: seq<nat>) returns (n: nat)
    requires s.Valid() && t < |s.attrs| && t !in s.tree && InTurn(s.attrs[t].startTime, times)
    modifies s
    ensures s.Valid() && s.tree == old(s.tree) && n <= |times|
    ensures OneTask(old(s.attrs), s.attrs, t, Ticked(old(s.attrs)[t], times[..n]))
    ensures var x := old(s.attrs)[t];
            && (forall i :: 0 <= i < n - 1 ==> times[i] < x.startTime + x.slice)
            && (n < |times| ==> n > 0 && times[n - 1] >= x.startTime + x.slice)
  {
    hide Good, Cost;
    ghost var x := s.attrs[t];
    n := 0;
    while n < |times|
      invariant n <= |times| && s.Valid() && s.tree == old(s.tree)
      invariant OneTask(old(s.attrs), s.attrs, t, Ticked(x, times[..n]))
      invariant forall i :: 0 <= i < n ==> times[i] < x.startTime + x.slice
    {
      var doYield := s.Tick(t, times[n]);
      assert times[..n + 1][..n] == times[..n];
      n := n + 1;
      if doYield { return; }
    }
  }

  // ---------------------------------------------------------------- how long a task waits

  /** The queue and the keys of a fixed set of tasks. */
  datatype Turns = Turns(tree: seq<nat>, v: seq<nat>)

  /** Some CPU picks a task, or puts a task back that was charged `d` for its turn. */
  datatype Event = Pick | Put(u: nat, d: nat)

  ghost predicate Enabled(q: Turns, e: Event) {
    match e
    case Pick => q.tree != []
    case Put(u, d) => u < |q.v| && u !in q.tree && d > 0
  }

  function Apply(q: Turns, e: Event): Turns
    requires Ordered(q.tree, q.v) && Enabled(q, e)
  {
    match e
    case Pick => q.(tree := q.tree[1..])
    case Put(u, d) =>
      var v := Raised(q.tree, q.v[u := q.v[u] + d], u);
      Turns(Insert(q.tree, v, u), v)
  }

  lemma OrderedElsewhere(tree: seq<nat>, v: seq<nat>, u: nat, x: nat)
    requires Ordered(tree, v) && u < |v| && u !in tree
    ensures Ordered(tree, v[u := x])
  {
    assert forall i :: 0 <= i < |tree| ==> tree[i] in tree;
  }

  lemma OrderedStep(q: Turns, e: Event)
    requires Ordered(q.tree, q.v) && Enabled(q, e)
    ensures Ordered(Apply(q, e).tree, Apply(q, e).v)
    ensures e.Put? ==> forall w :: w in Apply(q, e).tree <==> w in q.tree || w == e.u
  {
    match e
    case Pick =>
    case Put(u, d) =>
      var v := Raised(q.tree, q.v[u := q.v[u] + d], u);
      OrderedElsewhere(q.tree, q.v, u, v[u]);
      assert v == q.v[u := v[u]];
      var k := InsertAt(q.tree, v, u);
      InsertOrdered(q.tree, v, u, k);
      InsertMembers(q.tree, v, u);
      hide Ordered, Insert, Raised;
  }

  /** Every event is enabled and task `t` is not the one picked. */
  ghost predicate Waits(q: Turns, events: seq<Event>, t: nat)
    requires Ordered(q.tree, q.v)
    decreases |events|
  {
    events != [] ==>
      && Enabled(q, events[0]) && (events[0].Pick? ==> q.tree[0] != t)
      && Ordered(Apply(q, events[0]).tree, Apply(q, events[0]).v)
      && Waits(Apply(q, events[0]), events[1..], t)
  }

  function Picks(events: seq<Event>): nat {
    if events == [] then 0 else Picks(events[1..]) + if events[0].Pick? then 1 else 0
  }

  /** How many turns task `u` can have before its key passes that of `t`. */
  function Gap(v: seq<nat>, t: nat, u: nat): nat
    requires t < |v| && u < |v|
  {
    if u != t && v[u] <= v[t] then v[t] - v[u] + 1 else 0
  }

  /** The sum of the gaps of the first `n` tasks. */
  function Gaps(v: seq<nat>, t: nat, n: nat): nat
    requires t < |v| && n <= |v|
  {
    if n == 0 then 0 else Gaps(v, t, n - 1) + Gap(v, t, n - 1)
  }

  /** Turns that are left: one less for a task that has its turn now. */
  function Left(q: Turns, t: nat, u: nat): nat
    requires t < |q.v| && u < |q.v|
  {
    if u in q.tree || Gap(q.v, t, u) == 0 then Gap(q.v, t, u) else Gap(q.v, t, u) - 1
  }

  function AllLeft(q: Turns, t: nat, n: nat): nat
    requires t < |q.v| && n <= |q.v|
  {
    if n == 0 then 0 else AllLeft(q, t, n - 1) + Left(q, t, n - 1)
  }

  lemma {:induction false} AllLeftChange(q: Turns, q': Turns, t: nat, u: nat, n: nat)
    requires t < |q.v| == |q'.v| && u < |q.v| && n <= |q.v|
    requires forall w :: 0 <= w < |q.v| && w != u ==> Left(q', t, w) == Left(q, t, w)
    ensures AllLeft(q', t, n) - AllLeft(q, t, n) == if u < n then Left(q', t, u) - Left(q, t, u) else 0
  {
    if n > 0 { AllLeftChange(q, q', t, u, n - 1); }
  }

  /** Each pick of another task uses up a turn, and putting a task back adds none. */
  lemma LeftStep(q: Turns, e: Event, t: nat)
    requires Ordered(q.tree, q.v) && Enabled(q, e) && t in q.tree && t < |q.v| && (e.Pick? ==> q.tree[0] != t)
    ensures var q' := Apply(q, e);
            && t in q'.tree && |q'.v| == |q.v|
            && AllLeft(q', t, |q.v|) + (if e.Pick? then 1 else 0) <= AllLeft(q, t, |q.v|)
  {
    var q', u := Apply(q, e), if e.Pick? then q.tree[0] else e.u;
    OrderedStep(q, e);
    if e.Pick? { FrontIsLeast(q, t); }
    hide Insert, AllLeft, Ascending, Distinct;
    AllLeftChange(q, q', t, u, |q.v|);
  }

  lemma FrontIsLeast(q: Turns, t: nat)
    requires Ordered(q.tree, q.v) && t in q.tree && q.tree[0] != t
    ensures t < |q.v| && q.v[q.tree[0]] <= q.v[t]
    ensures forall w :: w in q.tree[1..] <==> w in q.tree && w != q.tree[0]
  {
    var i :| 0 <= i < |q.tree| && q.tree[i] == t;
    assert q.tree == [q.tree[0]] + q.tree[1..] && q.tree[0] !in q.tree[1..];
  }

  lemma {:induction false} PicksBounded(q: Turns, events: seq<Event>, t: nat)
    requires Ordered(q.tree, q.v) && t in q.tree && t < |q.v| && Waits(q, events, t)
    ensures Picks(events) <= AllLeft(q, t, |q.v|)
    decreases |events|
  {
    if events != [] {
      LeftStep(q, events[0], t);
      PicksBounded(Apply(q, events[0]), events[1..], t);
    }
  }

  lemma {:induction false} LeftIsGap(q: Turns, t: nat, n: nat)
    requires t < |q.v| && n <= |q.v|
    ensures AllLeft(q, t, n) <= Gaps(q.v, t, n)
  {
    if n > 0 { LeftIsGap(q, t, n - 1); }
  }

  /** No starvation: in every interleaving of picks and turns that are charged, on any number of
      CPUs, the picks that pass over a queued task are at most the sum of the gaps between its key
      and those of the others. */
  lemma WaitBound(q: Turns, events: seq<Event>, t: nat)
    requires Ordered(q.tree, q.v) && t in q.tree && t < |q.v| && Waits(q, events, t)
    ensures Picks(events) <= Gaps(q.v, t, |q.v|)
  {
    PicksBounded(q, events, t);
    LeftIsGap(q, t, |q.v|);
  }
}
