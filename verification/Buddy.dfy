/** The buddy page allocator: free lists per order, the O(1) buddy test through page flags,
    splitting on allocation and eager coalescing on release. */
module Buddy {
  import opened Arithmetic
  import opened PageFlags
  import opened BuddyTiling
  import opened Wrappers

  const MAX_ORDER: nat := TOP + 1

  function BlockSize(order: nat): nat { PGSIZE * Pow2(order) }

  /** The smallest order whose block holds `size` bytes. */
  function FindOrder(size: nat): nat {
    TrailingZeros(NextPowerOfTwo((size + PGSIZE - 1) / PGSIZE))
  }

  lemma FindOrderIsLeast(size: nat, k: nat)
    ensures size <= BlockSize(FindOrder(size))
    ensures size <= BlockSize(k) ==> FindOrder(size) <= k
  {
    var cnt := (size + PGSIZE - 1) / PGSIZE;
    var e := NextPowerOfTwoIsLeast(cnt, 0);
    TrailingZerosOfPow2(e);
    if k < e { Pow2Monotone(k, e - 1); }
  }

  /** The bytes handed out, counted in pages. */
  ghost function Pages(m: Blocks): nat {
    if m == map[] then 0 else var p :| p in m; Pow2(m[p]) + Pages(m - {p})
  }

  lemma {:induction false} PagesWithout(m: Blocks, p: nat)
    requires p in m
    ensures Pages(m) == Pow2(m[p]) + Pages(m - {p})
    decreases |m|
  {
    var q :| q in m && Pages(m) == Pow2(m[q]) + Pages(m - {q});
    if q != p {
      PagesWithout(m - {q}, p);
      PagesWithout(m - {p}, q);
      assert m - {q} - {p} == m - {p} - {q};
    }
  }

  lemma PagesInsert(m: Blocks, p: nat, k: nat)
    requires p !in m
    ensures Pages(m[p := k]) == Pages(m) + Pow2(k)
  {
    PagesWithout(m[p := k], p);
    assert m[p := k] - {p} == m;
  }

  // ---------------------------------------------------------------- free lists and page flags

  ghost predicate ListOf(s: seq<nat>, fl: seq<Byte>, k: nat) {
    Distinct(s) && forall p: nat :: p in s ==> p < |fl| && IsFree(fl[p]) && Order(fl[p]) == k
  }

  /** A page's free bit and order bits say exactly on which list it is, if any. */
  ghost predicate Listed(lists: seq<seq<nat>>, fl: seq<Byte>) {
    && |lists| == MAX_ORDER
    && (forall k :: 0 <= k < MAX_ORDER ==> ListOf(lists[k], fl, k))
    && (forall p: nat :: p < |fl| && IsFree(fl[p]) ==>
          Order(fl[p]) < MAX_ORDER && p in lists[Order(fl[p])])
  }

  /** The constant-time buddy test answers what a search of the free list would. */
  lemma FlagTestIsListSearch(lists: seq<seq<nat>>, fl: seq<Byte>, k: nat, p: nat)
    requires Listed(lists, fl) && k < MAX_ORDER
    ensures (p < |fl| && Order(fl[p]) == k && IsFree(fl[p])) <==> p in lists[k]
  {
    assert ListOf(lists[k], fl, k);
  }

  /** Free bytes counted over the free lists below order `k`. */
  function ListBytes(lists: seq<seq<nat>>, k: nat): nat
    requires k <= |lists|
  {
    if k == 0 then 0 else |lists[k - 1]| * BlockSize(k - 1) + ListBytes(lists, k - 1)
  }

  lemma {:induction false} ListBytesUpdate(lists: seq<seq<nat>>, k: nat, j: nat, s: seq<nat>)
    requires k <= |lists| && j < |lists|
    ensures ListBytes(lists[j := s], k) ==
            ListBytes(lists, k) + if j < k then (|s| - |lists[j]|) * BlockSize(j) else 0
  {
    if k > 0 {
      ListBytesUpdate(lists, k - 1, j, s);
      if j == k - 1 {
        var a, b, c := |s|, |lists[j]|, BlockSize(j);
        assert a * c == b * c + (a - b) * c;
      }
    }
  }

  // ---------------------------------------------------------------- the global picture

  /** The blocks of the tiling are the free ones and the ones handed out, told apart by the
      free bit; every one of them has its order in its first page's flags. */
  ghost predicate Booked(fl: seq<Byte>, tile: Blocks, used: Blocks) {
    && (forall p: nat :: p in tile <==> p in used || (p < |fl| && IsFree(fl[p])))
    && (forall p: nat :: p in tile ==> p < |fl| && tile[p] == Order(fl[p]))
    && (forall p: nat :: p in used ==> p < |fl| && !IsFree(fl[p]) && used[p] == Order(fl[p]))
  }

  ghost predicate Accounted(fl: seq<Byte>, tile: Blocks, used: Blocks) {
    Tiling(tile, |fl|) && Booked(fl, tile, used)
  }

  ghost predicate FreeBlock(fl: seq<Byte>, p: nat, k: nat) {
    p < |fl| && IsFree(fl[p]) && Order(fl[p]) == k
  }

  /** The two halves of the block of order k + 1 at `lo`, below the top, are both free. */
  ghost predicate FreePair(fl: seq<Byte>, lo: nat, k: nat) {
    k < TOP && Multiple(lo, k + 1) && FreeBlock(fl, lo, k) && FreeBlock(fl, lo + Pow2(k), k)
  }

  /** The only free pair, if there is one, involves block `x`. */
  ghost predicate CoalescedBut(fl: seq<Byte>, x: nat) {
    forall lo: nat, k: nat :: FreePair(fl, lo, k) ==> lo == x || lo + Pow2(k) == x
  }

  ghost predicate Coalesced(fl: seq<Byte>) {
    forall lo: nat, k: nat :: !FreePair(fl, lo, k)
  }

  lemma CoalescedButAny(fl: seq<Byte>, x: nat)
    requires Coalesced(fl)
    ensures CoalescedBut(fl, x)
  {
  }

  /** The flags of a page on the free list of order `k`, and of a page just taken off it. */
  function FreeByte(k: nat): Byte
    requires k < 128
  {
    128 + k
  }

  // ---------------------------------------------------------------- what each step keeps

  lemma InTile(fl: seq<Byte>, tile: Blocks, used: Blocks, p: nat, k: nat)
    requires Accounted(fl, tile, used) && FreeBlock(fl, p, k)
    ensures p in tile && tile[p] == k && Aligned(|fl|, p, k)
  {
  }

  lemma SplitStep(fl: seq<Byte>, tile: Blocks, used: Blocks, p: nat, k: nat)
    requires Accounted(fl, tile, used) && CoalescedBut(fl, p) && FreeBlock(fl, p, k) && 0 < k <= TOP
    ensures var m := p + Pow2(k - 1);
            && m != p && m < |fl| && !IsFree(fl[m])
            && Accounted(fl[p := FreeByte(k - 1)][m := FreeByte(k - 1)], Split(tile, p), used)
            && CoalescedBut(fl[p := FreeByte(k - 1)][m := FreeByte(k - 1)], p)
  {
    hide NoOverlap, NoGap, Multiple, CoalescedBut, Booked;
    InTile(fl, tile, used, p, k);
    SplitKeepsTiling(tile, |fl|, p);
    assert Aligned(|fl|, p, tile[p]);
    assert Pow2(k) == 2 * Pow2(k - 1);
    SplitBooks(fl, tile, used, p, k, p + Pow2(k - 1));
    SplitPairs(fl, p, k);
  }

  lemma SplitBooks(fl: seq<Byte>, tile: Blocks, used: Blocks, p: nat, k: nat, m: nat)
    requires Booked(fl, tile, used) && FreeBlock(fl, p, k) && 0 < k <= TOP
    requires m < |fl| && m != p && m !in tile
    ensures !IsFree(fl[m])
    ensures Booked(fl[p := FreeByte(k - 1)][m := FreeByte(k - 1)], tile[p := k - 1][m := k - 1], used)
  {
    hide Multiple, Pow2;
  }

  lemma SplitPairs(fl: seq<Byte>, p: nat, k: nat)
    requires CoalescedBut(fl, p) && 0 < k <= TOP && Multiple(p, k) && p + Pow2(k) <= |fl|
    ensures CoalescedBut(fl[p := FreeByte(k - 1)][p + Pow2(k - 1) := FreeByte(k - 1)], p)
  {
    var m := p + Pow2(k - 1);
    var fl' := fl[p := FreeByte(k - 1)][m := FreeByte(k - 1)];
    UpperHalfOdd(p, k - 1);
    forall lo: nat, j: nat | FreePair(fl', lo, j)
      ensures lo == p || lo + Pow2(j) == p
    {
      SplitPair(fl, p, k, m, lo, j);
    }
  }

  lemma SplitPair(fl: seq<Byte>, p: nat, k: nat, m: nat, lo: nat, j: nat)
    requires CoalescedBut(fl, p) && 0 < k <= TOP && p < |fl| && m < |fl| && m == p + Pow2(k - 1) && !Multiple(m, k)
    requires FreePair(fl[p := FreeByte(k - 1)][m := FreeByte(k - 1)], lo, j)
    ensures lo == p || lo + Pow2(j) == p
  {
    hide Multiple, Pow2, CoalescedBut;
    if lo != m && lo + Pow2(j) != m && lo != p && lo + Pow2(j) != p { NotBoth(fl, p, lo, j); }
  }

  lemma NotBoth(fl: seq<Byte>, p: nat, lo: nat, j: nat)
    requires CoalescedBut(fl, p) && FreePair(fl, lo, j)
    ensures lo == p || lo + Pow2(j) == p
  {
  }

  lemma {:induction false} UpperHalfOdd(p: nat, k: nat)
    requires Multiple(p, k + 1)
    ensures !Multiple(p + Pow2(k), k + 1)
  {
    if k > 0 { UpperHalfOdd(p / 2, k - 1); }
  }

  /** The two halves at `lo` become one free block; the upper half is no longer a first page. */
  function Joined(fl: seq<Byte>, lo: nat, k: nat): seq<Byte>
    requires lo < lo + Pow2(k) < |fl| && k < TOP
  {
    fl[lo + Pow2(k) := k][lo := FreeByte(k + 1)]
  }

  lemma MergeStep(fl: seq<Byte>, tile: Blocks, used: Blocks, lo: nat, k: nat, x: nat)
    requires Accounted(fl, tile, used) && FreePair(fl, lo, k)
    requires CoalescedBut(fl, x) && (x == lo || x == lo + Pow2(k))
    ensures Accounted(Joined(fl, lo, k), Join(tile, lo, k), used)
    ensures CoalescedBut(Joined(fl, lo, k), lo)
  {
    MergeTiles(fl, tile, used, lo, k);
    MergeBooks(fl, tile, used, lo, k);
    MergePairs(fl, lo, k, x);
  }

  lemma MergeTiles(fl: seq<Byte>, tile: Blocks, used: Blocks, lo: nat, k: nat)
    requires Accounted(fl, tile, used) && FreePair(fl, lo, k)
    ensures Tiling(Join(tile, lo, k), |fl|)
  {
    var hi := lo + Pow2(k);
    assert Aligned(|fl|, hi, tile[hi]);
    assert Aligned(|fl|, lo, k + 1) by { assert Pow2(k + 1) == 2 * Pow2(k); }
    JoinKeepsTiling(tile, |fl|, lo, k);
  }

  lemma MergeBooks(fl: seq<Byte>, tile: Blocks, used: Blocks, lo: nat, k: nat)
    requires Booked(fl, tile, used) && FreePair(fl, lo, k)
    ensures Booked(Joined(fl, lo, k), Join(tile, lo, k), used)
  {
    hide Multiple, Pow2;
  }

  lemma MergePairs(fl: seq<Byte>, lo: nat, k: nat, x: nat)
    requires FreePair(fl, lo, k) && CoalescedBut(fl, x) && (x == lo || x == lo + Pow2(k))
    ensures CoalescedBut(Joined(fl, lo, k), lo)
  {
    var fl' := Joined(fl, lo, k);
    forall l: nat, j: nat | FreePair(fl', l, j)
      ensures l == lo || l + Pow2(j) == lo
    {
      if l != lo && l + Pow2(j) != lo { assert FreePair(fl, l, j); }
    }
  }

  lemma {:induction false} LowerHalfBuddy(p: nat, k: nat)
    requires Multiple(p, k + 1)
    ensures BuddyOf(p, k) == p + Pow2(k) && BuddyOf(p + Pow2(k), k) == p
  {
    if k > 0 { LowerHalfBuddy(p / 2, k - 1); }
  }

  /** A free block whose buddy is not free as a whole is in no free pair. */
  lemma LoneBlock(fl: seq<Byte>, x: nat, k: nat)
    requires CoalescedBut(fl, x) && FreeBlock(fl, x, k) && k <= TOP
    requires k == TOP || !FreeBlock(fl, BuddyOf(x, k), k)
    ensures Coalesced(fl)
  {
    hide Multiple, Pow2, BuddyOf;
    forall lo: nat, j: nat
      ensures !FreePair(fl, lo, j)
    {
      if FreePair(fl, lo, j) { LowerHalfBuddy(lo, j); }
    }
  }

  lemma NotUsed(fl: seq<Byte>, tile: Blocks, used: Blocks, p: nat, k: nat)
    requires Accounted(fl, tile, used) && FreeBlock(fl, p, k)
    ensures p !in used
  {
  }

  lemma UsedBlock(fl: seq<Byte>, tile: Blocks, used: Blocks, p: nat)
    requires Accounted(fl, tile, used) && p in used
    ensures p < |fl| && !IsFree(fl[p]) && Order(fl[p]) == used[p] && used[p] <= TOP
  {
    assert Aligned(|fl|, p, tile[p]);
  }

  lemma AllocStep(fl: seq<Byte>, tile: Blocks, used: Blocks, x: nat, k: nat)
    requires Accounted(fl, tile, used) && CoalescedBut(fl, x) && FreeBlock(fl, x, k)
    ensures Accounted(fl[x := k], tile, used[x := k]) && Coalesced(fl[x := k])
  {
    hide Tiling, Multiple, Pow2;
    var fl' := fl[x := k];
    forall lo: nat, j: nat
      ensures !FreePair(fl', lo, j)
    {
      assert FreePair(fl', lo, j) ==> FreePair(fl, lo, j);
    }
  }

  lemma FreeStep(fl: seq<Byte>, tile: Blocks, used: Blocks, p: nat, k: nat)
    requires Accounted(fl, tile, used) && Coalesced(fl) && p in used && used[p] == k && k < MAX_ORDER
    ensures Accounted(fl[p := FreeByte(k)], tile, used - {p}) && CoalescedBut(fl[p := FreeByte(k)], p)
  {
    hide Tiling, Multiple, Pow2;
    var fl' := fl[p := FreeByte(k)];
    forall lo: nat, j: nat | FreePair(fl', lo, j)
      ensures lo == p || lo + Pow2(j) == p
    {
      assert !FreePair(fl, lo, j);
    }
  }

  /** With nothing handed out, every block of the tiling is a top-order block. */
  lemma NothingOutMeansTopBlocks(fl: seq<Byte>, tile: Blocks, p: nat)
    requires Accounted(fl, tile, map[]) && Coalesced(fl) && Multiple(|fl|, TOP)
    ensures p in tile <==> p < |fl| && Multiple(p, TOP)
    ensures p in tile ==> tile[p] == TOP
  {
    hide Multiple, NoOverlap, NoGap, Pow2;
    forall lo: nat, k: nat
      ensures !BuddyPair(tile, lo, k)
    {
      assert !FreePair(fl, lo, k);
    }
    NoPairMeansTopOnly(tile, |fl|, TOP);
    if p in tile {
      assert Aligned(|fl|, p, tile[p]);
    } else if p < |fl| && Multiple(p, TOP) {
      TopBlockAt(tile, |fl|, p);
    }
  }

  /** Once everything handed out is back, the free lists hold exactly the top-order blocks:
      page `p` is on list `k` just when `k` is the top order and `p` a multiple of its size. */
  lemma AllReturnedMeansAllMerged(lists: seq<seq<nat>>, fl: seq<Byte>, tile: Blocks, k: nat, p: nat)
    requires Listed(lists, fl) && Accounted(fl, tile, map[]) && Coalesced(fl) && Multiple(|fl|, TOP)
    requires k < MAX_ORDER
    ensures p in lists[k] <==> k == TOP && p < |fl| && Multiple(p, TOP)
  {
    NothingOutMeansTopBlocks(fl, tile, p);
    FlagTestIsListSearch(lists, fl, k, p);
  }

  lemma TopBlockAt(tile: Blocks, n: nat, p: nat)
    requires Tiling(tile, n) && p < n && Multiple(p, TOP)
    requires forall q: nat :: q in tile ==> tile[q] >= TOP
    ensures p in tile && tile[p] == TOP
  {
    var c: nat := ExactlyOneBlockPerPage(tile, n, p);
    assert Aligned(n, c, tile[c]);
    AlignedBlocksNest(c, TOP, p, TOP, p);
  }

  // ---------------------------------------------------------------- the allocator

  function ShiftLeft(x: nat, j: nat): nat {
    if j == 0 then x else 2 * ShiftLeft(x, j - 1)
  }

  lemma {:induction false} ShiftIsTimes(x: nat, j: nat)
    ensures ShiftLeft(x, j) == Pow2(j) * x
  {
    if j > 0 { ShiftIsTimes(x, j - 1); }
  }

  lemma XorDouble(x: nat, y: nat)
    ensures Xor(2 * x, 2 * y) == 2 * Xor(x, y)
  {
  }

  /** Exclusive or with a power of two commutes with going from page numbers to addresses. */
  lemma {:induction false} XorShift(p: nat, k: nat, j: nat)
    ensures Xor(ShiftLeft(p, j), Pow2(k + j)) == ShiftLeft(Xor(p, Pow2(k)), j)
  {
    if j > 0 {
      XorShift(p, k, j - 1);
      XorDouble(ShiftLeft(p, j - 1), Pow2(k + j - 1));
    }
  }

  /** Removes the first occurrence of `x`. */
  function Without(s: seq<nat>, x: nat): seq<nat> {
    if s == [] then [] else if s[0] == x then s[1..] else [s[0]] + Without(s[1..], x)
  }

  lemma {:induction false} WithoutFacts(s: seq<nat>, x: nat)
    requires Distinct(s) && x in s
    ensures |Without(s, x)| == |s| - 1
    ensures Distinct(Without(s, x))
    ensures forall y :: y in Without(s, x) <==> y in s && y != x
  {
    var t := s[1..];
    assert s == [s[0]] + t;
    if s[0] != x {
      WithoutFacts(t, x);
      var w := Without(t, x);
      forall i, j | 0 <= i < j < |[s[0]] + w|
        ensures ([s[0]] + w)[i] != ([s[0]] + w)[j]
      {
        if i == 0 { assert w[j - 1] in t; }
      }
    }
  }

  lemma PushListed(lists: seq<seq<nat>>, fl: seq<Byte>, k: nat, p: nat)
    requires Listed(lists, fl) && k < MAX_ORDER && p < |fl| && !IsFree(fl[p])
    ensures Listed(lists[k := [p] + lists[k]], fl[p := FreeByte(k)])
  {
    var lists', fl' := lists[k := [p] + lists[k]], fl[p := FreeByte(k)];
    forall j | 0 <= j < MAX_ORDER
      ensures ListOf(lists'[j], fl', j)
    {
      assert ListOf(lists[j], fl, j);
    }
  }

  lemma TakeListed(lists: seq<seq<nat>>, fl: seq<Byte>, k: nat, p: nat, rest: seq<nat>)
    requires Listed(lists, fl) && k < MAX_ORDER && p in lists[k]
    requires Distinct(rest) && forall y :: y in rest <==> y in lists[k] && y != p
    ensures p < |fl| && Listed(lists[k := rest], fl[p := k])
  {
    assert ListOf(lists[k], fl, k);
    var lists', fl' := lists[k := rest], fl[p := k];
    forall j | 0 <= j < MAX_ORDER
      ensures ListOf(lists'[j], fl', j)
    {
      assert ListOf(lists[j], fl, j);
    }
  }

  /** Two blocks leave their list: its first one and another one. */
  lemma TakeTwo(lists: seq<seq<nat>>, fl: seq<Byte>, k: nat, x: nat, b: nat)
    requires Listed(lists, fl) && k < MAX_ORDER && lists[k] != [] && x == lists[k][0] && b != x && b in lists[k]
    ensures x < |fl| && b < |fl|
    ensures var rest := Without(lists[k][1..], b);
            Listed(lists[k := rest], fl[x := k][b := k]) && |rest| + 2 == |lists[k]|
    ensures Order(fl[x]) == k && IsFree(fl[x]) && Order(fl[b]) == k && IsFree(fl[b])
  {
    assert ListOf(lists[k], fl, k);
    assert x in lists[k];
    TailFacts(lists[k]);
    WithoutFacts(lists[k][1..], b);
    hide Listed;
    TakeListed(lists, fl, k, x, lists[k][1..]);
    var mid := lists[k := lists[k][1..]];
    TakeListed(mid, fl[x := k], k, b, Without(lists[k][1..], b));
    assert mid[k := Without(lists[k][1..], b)] == lists[k := Without(lists[k][1..], b)];
  }

  lemma TailFacts(s: seq<nat>)
    requires s != [] && Distinct(s)
    ensures s[0] in s && Distinct(s[1..])
    ensures forall y :: y in s[1..] <==> y in s && y != s[0]
  {
    assert s == [s[0]] + s[1..];
  }

  /** Changing the order bits of pages that are not free touches no list. */
  lemma KeepsListed(lists: seq<seq<nat>>, fl: seq<Byte>, fl': seq<Byte>, p: nat, q: nat)
    requires Listed(lists, fl) && p < |fl| == |fl'| && q < |fl| && !IsFree(fl[p]) && !IsFree(fl[q])
    requires forall r: nat :: r < |fl| && r != p && r != q ==> fl'[r] == fl[r]
    requires !IsFree(fl'[p]) && !IsFree(fl'[q])
    ensures Listed(lists, fl')
  {
    forall j | 0 <= j < MAX_ORDER
      ensures ListOf(lists[j], fl', j)
    {
      assert ListOf(lists[j], fl, j);
    }
  }

  lemma PushBytes(l: seq<seq<nat>>, k: nat, p: nat)
    requires |l| == MAX_ORDER && k < MAX_ORDER
    ensures ListBytes(l[k := [p] + l[k]], MAX_ORDER) == ListBytes(l, MAX_ORDER) + BlockSize(k)
  {
    ListBytesUpdate(l, MAX_ORDER, k, [p] + l[k]);
  }

  lemma PopBytes(l: seq<seq<nat>>, k: nat)
    requires |l| == MAX_ORDER && k < MAX_ORDER && l[k] != []
    ensures ListBytes(l[k := l[k][1..]], MAX_ORDER) == ListBytes(l, MAX_ORDER) - BlockSize(k)
  {
    ListBytesUpdate(l, MAX_ORDER, k, l[k][1..]);
  }

  /** The lists after the front block of order `k` became the blocks `p` and `q`. */
  ghost function HalvedLists(l: seq<seq<nat>>, k: nat, p: nat, q: nat): seq<seq<nat>>
    requires |l| == MAX_ORDER && 0 < k < MAX_ORDER && l[k] != []
  {
    l[k := l[k][1..]][k - 1 := [p] + ([q] + l[k - 1])]
  }

  lemma SplitBytes(l: seq<seq<nat>>, k: nat, p: nat, q: nat)
    requires |l| == MAX_ORDER && 0 < k < MAX_ORDER && l[k] != []
    ensures ListBytes(HalvedLists(l, k, p, q), MAX_ORDER) == ListBytes(l, MAX_ORDER)
  {
    var l1 := l[k := l[k][1..]];
    ListBytesUpdate(l, MAX_ORDER, k, l[k][1..]);
    ListBytesUpdate(l1, MAX_ORDER, k - 1, [p] + ([q] + l[k - 1]));
    assert BlockSize(k) == 2 * BlockSize(k - 1);
  }

  lemma MergeBytes(l: seq<seq<nat>>, k: nat, rest: seq<nat>, p: nat)
    requires |l| == MAX_ORDER && k < TOP && |rest| == |l[k]| - 2
    ensures ListBytes(l[k := rest][k + 1 := [p] + l[k + 1]], MAX_ORDER) == ListBytes(l, MAX_ORDER)
  {
    ListBytesUpdate(l, MAX_ORDER, k, rest);
    ListBytesUpdate(l[k := rest], MAX_ORDER, k + 1, [p] + l[k + 1]);
    assert BlockSize(k + 1) == 2 * BlockSize(k);
  }

  /** The lists after the two blocks at `lo` became one. */
  ghost function JoinedLists(l: seq<seq<nat>>, k: nat, lo: nat): seq<seq<nat>>
    requires |l| == MAX_ORDER && k < TOP && l[k] != []
  {
    var b := if l[k][0] == lo then lo + Pow2(k) else lo;
    l[k := Without(l[k][1..], b)][k + 1 := [lo] + l[k + 1]]
  }

  lemma NothingToJoin(l: seq<seq<nat>>, fl: seq<Byte>, k: nat)
    requires Listed(l, fl) && k < TOP && l[k] != [] && CoalescedBut(fl, l[k][0]) && BuddyOf(l[k][0], k) !in l[k]
    ensures Coalesced(fl)
  {
    hide CoalescedBut, Coalesced, BuddyOf;
    FlagTestIsListSearch(l, fl, k, l[k][0]);
    FlagTestIsListSearch(l, fl, k, BuddyOf(l[k][0], k));
    LoneBlock(fl, l[k][0], k);
  }

  lemma JoinedBytes(l: seq<seq<nat>>, fl: seq<Byte>, k: nat, lo: nat)
    requires Listed(l, fl) && FreePair(fl, lo, k) && l[k] != [] && (l[k][0] == lo || l[k][0] == lo + Pow2(k))
    ensures ListBytes(JoinedLists(l, k, lo), MAX_ORDER) == ListBytes(l, MAX_ORDER)
  {
    var b := if l[k][0] == lo then lo + Pow2(k) else lo;
    FlagTestIsListSearch(l, fl, k, b);
    assert ListOf(l[k], fl, k);
    TailFacts(l[k]);
    WithoutFacts(l[k][1..], b);
    hide ListBytes, Pow2;
    MergeBytes(l, k, Without(l[k][1..], b), lo);
  }

  lemma {:induction false} MultiplesApart(x: nat, y: nat, k: nat)
    requires Multiple(x, k) && Multiple(y, k)
    ensures x < y ==> x + Pow2(k) <= y
    ensures Multiple(x + Pow2(k), k)
  {
    if k > 0 { MultiplesApart(x / 2, y / 2, k - 1); }
  }

  /** During `init`: the first `i` pages are top-order blocks, the others are not yet listed. */
  ghost predicate Filled(fl: seq<Byte>, lists: seq<seq<nat>>, tile: Blocks, i: nat) {
    && i <= |fl| && Multiple(i, TOP) && Multiple(|fl|, TOP) && Tiling(tile, i)
    && (forall p: nat :: p in tile <==> p < |fl| && IsFree(fl[p]))
    && (forall p: nat :: p in tile ==> tile[p] == TOP && Order(fl[p]) == TOP)
    && |lists| == MAX_ORDER && forall k :: 0 <= k < TOP ==> lists[k] == []
  }

  lemma EmptyStart(lists: seq<seq<nat>>, fl: seq<Byte>, k: nat)
    requires |lists| == MAX_ORDER && (forall j :: 0 <= j < MAX_ORDER ==> lists[j] == [])
    requires (forall p :: 0 <= p < |fl| ==> fl[p] == 0) && Multiple(|fl|, TOP) && k <= MAX_ORDER
    ensures Filled(fl, lists, map[], 0) && Listed(lists, fl) && ListBytes(lists, k) == 0
  {
    if k > 0 { EmptyStart(lists, fl, k - 1); }
    MultipleZero(TOP);
  }

  lemma {:induction false} MultipleZero(k: nat)
    ensures Multiple(0, k)
  {
    if k > 0 { MultipleZero(k - 1); }
  }

  lemma AppendTop(t: Blocks, i: nat)
    requires Tiling(t, i) && Multiple(i, TOP)
    ensures Tiling(t[i := TOP], i + Pow2(TOP))
  {
    var u, n := t[i := TOP], i + Pow2(TOP);
    hide Multiple, Pow2;
    assert forall p: nat :: p in t ==> Aligned(i, p, t[p]);
    forall p: nat {:trigger Followed(u, n, p)} | p in u
      ensures Followed(u, n, p)
    {
      if p != i { assert Followed(t, i, p); }
    }
  }

  lemma FillStep(fl: seq<Byte>, lists: seq<seq<nat>>, tile: Blocks, i: nat)
    requires Filled(fl, lists, tile, i) && i < |fl|
    ensures i !in tile && !IsFree(fl[i]) && i + Pow2(TOP) <= |fl|
    ensures Filled(fl[i := FreeByte(TOP)], lists[TOP := [i] + lists[TOP]], tile[i := TOP], i + Pow2(TOP))
  {
    hide Tiling, Multiple, Pow2;
    NotYet(tile, i);
    AppendTop(tile, i);
    MultiplesApart(i, |fl|, TOP);
  }

  lemma FillEnds(fl: seq<Byte>, lists: seq<seq<nat>>, tile: Blocks, i: nat)
    requires Filled(fl, lists, tile, i)
    ensures i == |fl| || i + Pow2(TOP) <= |fl|
  {
    hide Tiling, Multiple, Pow2;
    MultiplesApart(i, |fl|, TOP);
  }

  lemma NotYet(t: Blocks, i: nat)
    requires Tiling(t, i)
    ensures i !in t
  {
  }

  lemma FillDone(fl: seq<Byte>, lists: seq<seq<nat>>, tile: Blocks)
    requires Filled(fl, lists, tile, |fl|)
    ensures Accounted(fl, tile, map[]) && Coalesced(fl) && Pages(map[]) == 0 && Multiple(|fl|, TOP)
  {
    hide Tiling;
  }

  class BuddyAllocator {
    const n: nat                     // pages in the managed range
    const startAddress: nat
    const flags: array<Byte>         // the flag byte of each page descriptor
    var lists: seq<seq<nat>>         // free_area[k].list, front first, as page numbers
    var nrFree: seq<nat>             // free_area[k].nr_free
    var freeSize: nat
    ghost var tile: Blocks           // all blocks, free or handed out
    ghost var used: Blocks           // the blocks handed out

    /** What the free areas keep at every moment, also in the middle of an operation. */
    ghost predicate AreasValid()
      reads this, flags
    {
      && flags.Length == n && |lists| == |nrFree| == MAX_ORDER
      && Listed(lists, flags[..])
      && (forall k :: 0 <= k < MAX_ORDER ==> nrFree[k] == |lists[k]|)
    }

    /** What holds whenever the block books are balanced. */
    ghost predicate Balanced()
      reads this, flags
    {
      && AreasValid() && Multiple(n, TOP)
      && Accounted(flags[..], tile, used)
      && freeSize == ListBytes(lists, MAX_ORDER)
      && freeSize + PGSIZE * Pages(used) == PGSIZE * n
    }

    /** What holds between operations. */
    ghost predicate Valid()
      reads this, flags
    {
      Balanced() && Coalesced(flags[..])
    }

    /** The allocator's default state over a table of zeroed page descriptors, then `init`. */
    constructor (base: nat, pages: nat)
      requires Multiple(pages, TOP)
      ensures Valid() && n == pages && startAddress == base && used == map[]
      ensures fresh(flags)
    {
      n, startAddress := pages, base;
      flags := new Byte[pages](_ => 0);
      lists := seq(MAX_ORDER, _ => []);
      nrFree := seq(MAX_ORDER, _ => 0);
      freeSize, tile, used := 0, map[], map[];
      new;
      hide Listed, Filled, ListBytes;
      EmptyStart(lists, flags[..], MAX_ORDER);
      Init();
    }

    /** Covers the range with free top-order blocks. */
    method Init()
      requires AreasValid() && Filled(flags[..], lists, tile, 0)
      requires freeSize == ListBytes(lists, MAX_ORDER) == 0 && used == map[]
      modifies this, flags
      ensures Valid() && used == map[]
    {
      hide Coalesced, Multiple, Pages, Pow2, Accounted, Listed, Filled, ListBytes;
      var addr, end := startAddress, startAddress + PGSIZE * n;
      ghost var i: nat := 0;
      for k := MAX_ORDER downto 0
        invariant AreasValid() && Filled(flags[..], lists, tile, i)
        invariant i == if k == MAX_ORDER then 0 else n
        invariant addr == startAddress + PGSIZE * i
        invariant freeSize == PGSIZE * i == ListBytes(lists, MAX_ORDER)
        invariant used == map[]
      {
        var size := BlockSize(k);
        var saddr := addr;
        while addr + size <= end
          invariant AreasValid() && Filled(flags[..], lists, tile, i)
          invariant k < TOP ==> i == n
          invariant addr == startAddress + PGSIZE * i
          invariant freeSize == saddr - startAddress
          invariant PGSIZE * i == ListBytes(lists, MAX_ORDER)
          invariant used == map[]
        {
          i := PushTop(k, addr, i);
          addr := addr + size;
        }
        FillEnds(flags[..], lists, tile, i);
        freeSize := freeSize + (addr - saddr);
      }
      FillDone(flags[..], lists, tile);
    }

    /** One round of `init`: the block of order `k` at `addr` goes on its free list. */
    method PushTop(k: nat, addr: nat, ghost i: nat) returns (ghost i': nat)
      requires AreasValid() && Filled(flags[..], lists, tile, i) && k == TOP && i < n
      requires addr == startAddress + PGSIZE * i
      modifies this`lists, this`nrFree, this`tile, flags
      ensures AreasValid() && i' == i + Pow2(TOP) && Filled(flags[..], lists, tile, i')
      ensures ListBytes(lists, MAX_ORDER) == old(ListBytes(lists, MAX_ORDER)) + BlockSize(TOP)
    {
      hide Multiple, Pow2, Listed, Filled, ListBytes;
      FillStep(flags[..], lists, tile, i);
      PushBytes(lists, TOP, i);
      var p := PageOf(addr);
      assert p == i;
      PushBlock(k, p);
      tile := tile[i := TOP];
      i' := i + Pow2(TOP);
    }

    function Paddr(p: nat): nat { startAddress + PGSIZE * p }

    function PageOf(addr: nat): nat
      requires addr >= startAddress
    {
      (addr - startAddress) / PGSIZE
    }

    function GetBuddyAddr(addr: nat, order: nat): nat
      requires addr >= startAddress
    {
      Xor(addr - startAddress, Pow2(order + 12)) + startAddress
    }

    method PushFront(order: nat, p: nat)
      requires AreasValid() && order < MAX_ORDER && p < n
      requires !IsFree(flags[p]) && Order(flags[p]) == order
      modifies this`lists, this`nrFree, flags
      ensures AreasValid()
      ensures flags[..] == old(flags[..])[p := FreeByte(order)]
      ensures lists == old(lists[order := [p] + lists[order]])
    {
      PushListed(lists, flags[..], order, p);
      flags[p] := SetFree(flags[p]);
      assert flags[..] == old(flags[..])[p := FreeByte(order)];
      lists := lists[order := [p] + lists[order]];
      nrFree := nrFree[order := nrFree[order] + 1];
    }

    /** Gives a page its order and puts it on that free list. */
    method PushBlock(order: nat, p: nat)
      requires AreasValid() && order < MAX_ORDER && p < n && !IsFree(flags[p])
      modifies this`lists, this`nrFree, flags
      ensures AreasValid()
      ensures flags[..] == old(flags[..])[p := FreeByte(order)]
      ensures lists == old(lists[order := [p] + lists[order]])
    {
      hide Listed;
      ghost var fl := flags[..];
      flags[p] := SetOrder(flags[p], order);
      assert Order(flags[p]) == order && !IsFree(flags[p]);
      KeepsListed(lists, fl, flags[..], p, p);
      PushFront(order, p);
      assert flags[..] == fl[p := FreeByte(order)];
    }

    method PopFront(order: nat) returns (r: Option<nat>)
      requires AreasValid() && order < MAX_ORDER
      modifies this`lists, this`nrFree, flags
      ensures AreasValid()
      ensures r.None? <==> old(lists[order]) == []
      ensures r.None? ==> lists == old(lists) && nrFree == old(nrFree) && flags[..] == old(flags[..])
      ensures r.Some? ==>
                && r.value == old(lists[order][0]) < n
                && FreeBlock(old(flags[..]), r.value, order)
                && flags[..] == old(flags[..])[r.value := order]
                && lists == old(lists[order := lists[order][1..]])
    {
      if lists[order] == [] { return None; }
      var p := lists[order][0];
      TailFacts(lists[order]);
      TakeListed(lists, flags[..], order, p, lists[order][1..]);
      flags[p] := ClearFree(flags[p]);
      assert flags[..] == old(flags[..])[p := order];
      lists := lists[order := lists[order][1..]];
      nrFree := nrFree[order := nrFree[order] - 1];
      r := Some(p);
    }

    /** Takes the front block of order `order` apart into its two halves. */
    method ExpandArea(order: nat) returns (r: Option<(nat, nat)>)
      requires AreasValid() && 0 < order < MAX_ORDER
      requires lists[order] != [] ==>
                 var m := lists[order][0] + Pow2(order - 1);
                 lists[order][0] < m < n && !IsFree(flags[m])
      modifies this`lists, this`nrFree, flags
      ensures AreasValid()
      ensures r.None? <==> old(lists[order]) == []
      ensures r.None? ==> lists == old(lists) && nrFree == old(nrFree) && flags[..] == old(flags[..])
      ensures r.Some? ==>
                && r.value.0 == old(lists[order][0]) && r.value.1 == r.value.0 + Pow2(order - 1) < n
                && flags[..] == old(flags[..])[r.value.0 := order]
                && lists == old(lists[order := lists[order][1..]])
    {
      var front := PopFront(order);
      if front.None? { return None; }
      var p1 := front.value;
      var p2 := PageOf(Paddr(p1) + BlockSize(order) / 2);
      assert BlockSize(order) / 2 == PGSIZE * Pow2(order - 1);
      assert p2 == p1 + Pow2(order - 1);
      ghost var fl := flags[..];
      flags[p1] := ClearFree(flags[p1]);
      flags[p2] := ClearFree(flags[p2]);
      assert flags[..] == fl;
      r := Some((p1, p2));
    }

    /** Takes the front block and its buddy off the list when the buddy is free too. */
    method MergeArea(order: nat) returns (r: Option<nat>)
      requires AreasValid() && order < TOP && Multiple(n, TOP)
      requires forall p :: p in lists[order] ==> Aligned(n, p, order)
      modifies this`lists, this`nrFree, flags
      ensures AreasValid()
      ensures r.None? ==> lists == old(lists) && nrFree == old(nrFree) && flags[..] == old(flags[..])
      ensures r.None? <==>
                old(lists[order]) == [] || BuddyOf(old(lists[order][0]), order) !in old(lists[order])
      ensures r.Some? ==>
                var x := old(lists[order][0]);
                var b := BuddyOf(x, order);
                && x < n && b < n && x != b && r.value == (if x < b then x else b)
                && (if x < b then b == x + Pow2(order) else x == b + Pow2(order))
                && FreePair(old(flags[..]), r.value, order)
                && flags[..] == old(flags[..])[x := order][b := order]
                && lists == old(lists[order := Without(lists[order][1..], b)])
    {
      hide Multiple, Listed;
      if lists[order] == [] { return None; }
      var head := lists[order][0];
      var buddy := PageOf(GetBuddyAddr(Paddr(head), order));
      assert head in lists[order];
      BuddyAddress(head, order);
      MultipleOfFewerBits(n, order + 1, TOP);
      BuddyFacts(n, head, order);
      FlagTestIsListSearch(lists, flags[..], order, buddy);
      if Order(flags[buddy]) != order || !IsFree(flags[buddy]) { return None; }

      TakeTwo(lists, flags[..], order, head, buddy);
      lists := lists[order := Without(lists[order][1..], buddy)];
      nrFree := nrFree[order := nrFree[order] - 2];
      flags[head] := ClearFree(flags[head]);
      flags[buddy] := ClearFree(flags[buddy]);
      assert flags[..] == old(flags[..])[head := order][buddy := order];
      r := Some(if head < buddy then head else buddy);
    }

    lemma FrontCanSplit(order: nat)
      requires Balanced() && 0 < order < MAX_ORDER && lists[order] != []
      requires CoalescedBut(flags[..], lists[order][0])
      ensures var p, m := lists[order][0], lists[order][0] + Pow2(order - 1);
              && p < m < n && !IsFree(flags[m]) && p in tile && tile[p] == order
              && Accounted(flags[..][p := FreeByte(order - 1)][m := FreeByte(order - 1)], Split(tile, p), used)
              && CoalescedBut(flags[..][p := FreeByte(order - 1)][m := FreeByte(order - 1)], p)
    {
      hide Accounted, CoalescedBut, Multiple, ListBytes, Pages;
      var p := lists[order][0];
      assert p in lists[order] && ListOf(lists[order], flags[..], order);
      SplitStep(flags[..], tile, used, p, order);
      InTile(flags[..], tile, used, p, order);
    }

    /** The front block of order `order`, if any, goes over to the list below as its two halves. */
    method HalveFront(order: nat) returns (ok: bool)
      requires AreasValid() && 0 < order < MAX_ORDER
      requires lists[order] != [] ==>
                 var m := lists[order][0] + Pow2(order - 1);
                 lists[order][0] < m < n && !IsFree(flags[m])
      modifies this`lists, this`nrFree, flags
      ensures AreasValid()
      ensures ok <==> old(lists[order]) != []
      ensures !ok ==> lists == old(lists) && nrFree == old(nrFree) && flags[..] == old(flags[..])
      ensures ok ==>
                var p, m := old(lists[order][0]), old(lists[order][0]) + Pow2(order - 1);
                && flags[..] == old(flags[..])[p := FreeByte(order - 1)][m := FreeByte(order - 1)]
                && lists == HalvedLists(old(lists), order, p, m)
    {
      hide Pow2, Listed;
      ghost var fl: seq<Byte> := flags[..];
      var halves := ExpandArea(order);
      if halves.None? { return false; }
      var (block1, block2) := halves.value;
      flags[block1] := SetOrder(flags[block1], order - 1);
      flags[block2] := SetOrder(flags[block2], order - 1);
      KeepsListed(lists, fl[block1 := order], flags[..], block1, block2);
      PushFront(order - 1, block2);
      PushFront(order - 1, block1);
      assert flags[..] == fl[block1 := FreeByte(order - 1)][block2 := FreeByte(order - 1)];
      ok := true;
    }

    /** One round of the splitting loop: the front block of order `order`, if any, is replaced
        by its halves on the list below. */
    method SplitFront(order: nat) returns (ok: bool)
      requires Balanced() && 0 < order < MAX_ORDER
      requires lists[order] != [] ==> CoalescedBut(flags[..], lists[order][0])
      modifies this, flags
      ensures Balanced() && used == old(used) && freeSize == old(freeSize)
      ensures ok <==> old(lists[order]) != []
      ensures !ok ==> lists == old(lists) && nrFree == old(nrFree) && flags[..] == old(flags[..])
      ensures ok ==> lists[order - 1] != [] && CoalescedBut(flags[..], lists[order - 1][0])
    {
      hide Accounted, CoalescedBut, Multiple, ListBytes, Pages, Pow2, Listed;
      ghost var l := lists;
      if lists[order] != [] { FrontCanSplit(order); }
      ok := HalveFront(order);
      if !ok { return; }
      SplitBytes(l, order, l[order][0], l[order][0] + Pow2(order - 1));
      tile := Split(tile, l[order][0]);
    }

    /** Splits larger blocks until the free list below `order` is not empty. */
    method Expand(order: nat) returns (ok: bool)
      requires Valid() && 0 < order
      modifies this, flags
      ensures Balanced() && used == old(used) && freeSize == old(freeSize)
      ensures ok <==> exists j :: order <= j < MAX_ORDER && old(lists[j]) != []
      ensures !ok ==> lists == old(lists) && nrFree == old(nrFree) && flags[..] == old(flags[..])
      ensures ok ==> lists[order - 1] != [] && CoalescedBut(flags[..], lists[order - 1][0])
      decreases MAX_ORDER - order
    {
      hide Accounted, CoalescedBut, Multiple, ListBytes, Pages, Listed;
      if order >= MAX_ORDER { return false; }
      ghost var began := false;
      while true
        invariant Balanced() && used == old(used) && freeSize == old(freeSize)
        invariant !began ==> Coalesced(flags[..]) && lists == old(lists) && nrFree == old(nrFree) &&
                             flags[..] == old(flags[..])
        invariant began ==> lists[order] != [] && CoalescedBut(flags[..], lists[order][0]) &&
                            exists j :: order <= j < MAX_ORDER && old(lists[j]) != []
        decreases !began
      {
        if !began && lists[order] != [] { CoalescedButAny(flags[..], lists[order][0]); }
        var split := SplitFront(order);
        if split { return true; }
        var more := Expand(order + 1);
        if !more { return false; }
        began := true;
      }
    }

    lemma ListedBlocksAligned(order: nat)
      requires Balanced() && order < MAX_ORDER
      ensures forall p :: p in lists[order] ==> Aligned(n, p, order) && FreeBlock(flags[..], p, order)
    {
      hide Accounted, Multiple, ListBytes, Pages;
      forall p | p in lists[order]
        ensures Aligned(n, p, order) && FreeBlock(flags[..], p, order)
      {
        assert ListOf(lists[order], flags[..], order);
        InTile(flags[..], tile, used, p, order);
      }
    }

    /** The front block of order `order` and its buddy, if that is free, go over to the next list as
        one block. */
    method JoinFront(order: nat) returns (r: Option<nat>)
      requires AreasValid() && order < TOP && Multiple(n, TOP)
      requires forall p :: p in lists[order] ==> Aligned(n, p, order)
      modifies this`lists, this`nrFree, flags
      ensures AreasValid()
      ensures r.None? <==>
                old(lists[order]) == [] || BuddyOf(old(lists[order][0]), order) !in old(lists[order])
      ensures r.None? ==> lists == old(lists) && nrFree == old(nrFree) && flags[..] == old(flags[..])
      ensures r.Some? ==>
                var x, lo := old(lists[order][0]), r.value;
                && (x == lo || x == lo + Pow2(order)) && FreePair(old(flags[..]), lo, order)
                && flags[..] == Joined(old(flags[..]), lo, order)
                && lists == JoinedLists(old(lists), order, lo)
    {
      assert ListOf(lists[order], flags[..], order);
      hide Multiple, Pow2, BuddyOf, Listed, Distinct, Aligned;
      ghost var fl: seq<Byte>, l := flags[..], lists;
      r := MergeArea(order);
      if r.None? { return; }
      PushBlock(order + 1, r.value);
      assert flags[..] == Joined(fl, r.value, order);
    }

    /** One round of merging: the front block of order `order` and its buddy, if that is free,
        become a block of the next order. */
    method MergeFront(order: nat) returns (merged: bool)
      requires Balanced() && order < TOP
      requires lists[order] != [] && CoalescedBut(flags[..], lists[order][0])
      modifies this, flags
      ensures Balanced() && used == old(used) && freeSize == old(freeSize)
      ensures merged ==> lists[order + 1] != [] && CoalescedBut(flags[..], lists[order + 1][0])
      ensures !merged ==> Coalesced(flags[..])
    {
      hide Accounted, CoalescedBut, Coalesced, Multiple, ListBytes, Pages, Pow2, BuddyOf, Listed, FreePair, Joined,
        Aligned, FreeBlock, Order, IsFree;
      ghost var fl: seq<Byte>, l, x := flags[..], lists, lists[order][0];
      ListedBlocksAligned(order);
      var r := JoinFront(order);
      if r.None? {
        NothingToJoin(l, fl, order);
        return false;
      }
      MergeStep(fl, tile, used, r.value, order, x);
      JoinedBytes(l, fl, order, r.value);
      tile := Join(tile, r.value, order);
      merged := true;
    }

    method Merge(order: nat)
      requires Balanced() && order < MAX_ORDER
      requires lists[order] != [] && CoalescedBut(flags[..], lists[order][0])
      modifies this, flags
      ensures Valid() && used == old(used) && freeSize == old(freeSize)
    {
      hide Accounted, CoalescedBut, Coalesced, Multiple, ListBytes, Pages, Pow2, Listed;
      var k := order;
      while k < TOP
        invariant order <= k <= TOP
        invariant Balanced() && used == old(used) && freeSize == old(freeSize)
        invariant lists[k] != [] && CoalescedBut(flags[..], lists[k][0])
      {
        var merged := MergeFront(k);
        if !merged { return; }
        k := k + 1;
      }
      ListedBlocksAligned(TOP);
      assert lists[TOP][0] in lists[TOP];
      LoneBlock(flags[..], lists[TOP][0], TOP);
    }

    /** Hands out a block of the given order, splitting a larger one if need be. Fails exactly
        when no free block is large enough, and then changes nothing. */
    method AllocByOrder(order: nat) returns (r: Option<nat>)
      requires Valid()
      modifies this, flags
      ensures Valid()
      ensures r.None? <==> forall j :: order <= j < MAX_ORDER ==> old(lists[j]) == []
      ensures r.None? ==> lists == old(lists) && flags[..] == old(flags[..]) &&
                          freeSize == old(freeSize) && used == old(used)
      ensures r.Some? ==>
                && order < MAX_ORDER && r.value >= startAddress
                && var p := PageOf(r.value);
                && r.value == Paddr(p) && Aligned(n, p, order)
                && p !in old(used) && used == old(used)[p := order]
                && freeSize == old(freeSize) - BlockSize(order)
    {
      hide Accounted, CoalescedBut, Coalesced, Multiple, ListBytes, Pages, Pow2;
      if order >= MAX_ORDER { return None; }
      if lists[order] == [] {
        var ok := Expand(order + 1);
        if !ok { return None; }
      } else {
        CoalescedButAny(flags[..], lists[order][0]);
      }
      ghost var fl: seq<Byte>, l, x := flags[..], lists, lists[order][0];
      ListedBlocksAligned(order);
      assert x in lists[order];
      AllocStep(fl, tile, used, x, order);
      NotUsed(fl, tile, used, x, order);
      PagesInsert(used, x, order);
      PopBytes(l, order);
      var front := PopFront(order);
      freeSize := freeSize - BlockSize(order);
      used := used[x := order];
      r := Some(Paddr(front.value));
    }

    /** Takes back a block that was handed out with the same order. */
    method FreeByOrder(ptr: nat, order: nat)
      requires Valid()
      requires ptr >= startAddress && ptr == Paddr(PageOf(ptr))
      requires PageOf(ptr) in used && used[PageOf(ptr)] == order
      modifies this, flags
      ensures Valid()
      ensures used == old(used) - {PageOf(ptr)}
      ensures freeSize == old(freeSize) + BlockSize(order)
    {
      hide Accounted, CoalescedBut, Coalesced, Multiple, ListBytes, Pages, Pow2, Listed;
      var p := PageOf(ptr);
      UsedBlock(flags[..], tile, used, p);
      FreeStep(flags[..], tile, used, p, order);
      PagesWithout(used, p);
      PushBytes(lists, order, p);
      ghost var fl: seq<Byte>, l := flags[..], lists;
      flags[p] := SetOrder(flags[p], order);
      assert flags[..] == fl;
      PushFront(order, p);
      freeSize := freeSize + BlockSize(order);
      used := used - {p};
      assert flags[..] == fl[p := FreeByte(order)];
      Merge(order);
    }

    /** Once everything is given back, the lists are those of a new allocator. */
    lemma AllMerged(k: nat, p: nat)
      requires Valid() && used == map[] && k < MAX_ORDER
      ensures p in lists[k] <==> k == TOP && p < n && Multiple(p, TOP)
    {
      hide Coalesced, Multiple, Accounted, ListBytes, Pages;
      AllReturnedMeansAllMerged(lists, flags[..], tile, k, p);
    }

    /** Every page lies in exactly one block, and each block is free or handed out. */
    lemma EveryPageInOneBlock(x: nat) returns (c: nat)
      requires Valid() && x < n
      ensures c in tile && c <= x < c + Pow2(tile[c])
      ensures forall q: nat :: q in tile && q <= x < q + Pow2(tile[q]) ==> q == c
      ensures (c in used && tile[c] == used[c]) || c in lists[tile[c]]
    {
      c := ExactlyOneBlockPerPage(tile, n, x);
    }

    /** The exclusive-or address is the address of the buddy. */
    lemma BuddyAddress(p: nat, order: nat)
      requires Multiple(p, order)
      ensures GetBuddyAddr(Paddr(p), order) == Paddr(BuddyOf(p, order))
      ensures PageOf(Paddr(BuddyOf(p, order))) == BuddyOf(p, order)
    {
      XorShift(p, order, 12);
      XorIsBuddy(p, order);
      ShiftIsTimes(p, 12);
      ShiftIsTimes(BuddyOf(p, order), 12);
      assert Pow2(12) == PGSIZE;
    }
  }
}
