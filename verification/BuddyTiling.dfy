/** The tiling of the managed page range by power-of-two blocks: what a split and a merge
    keep, and why a fully free, fully coalesced range consists of top-order blocks only. */
module BuddyTiling {
  import opened Arithmetic

  /** Orders run from 0 to TOP, so there are TOP + 1 free areas (MAX_ORDER in the source). */
  const TOP: nat := 8

  /** A set of blocks: first page of a block, relative to the start of the range -> its order. */
  type Blocks = map<nat, nat>

  /** Page `p` is the first page of a block of order `k` that may lie in a range of `n` pages. */
  predicate Aligned(n: nat, p: nat, k: nat) {
    k <= TOP && Multiple(p, k) && p + Pow2(k) <= n
  }

  ghost predicate AllAligned(t: Blocks, n: nat) {
    forall p: nat :: p in t ==> Aligned(n, p, t[p])
  }

  ghost predicate NoOverlap(t: Blocks) {
    forall p: nat, q: nat :: p in t && q in t && p < q ==> p + Pow2(t[p]) <= q
  }

  /** Each block ends at the end of the range or where another begins. */
  ghost predicate NoGap(t: Blocks, n: nat) {
    && (n > 0 ==> 0 in t)
    && (forall p: nat {:trigger Followed(t, n, p)} :: p in t ==> Followed(t, n, p))
  }

  ghost predicate Tiling(t: Blocks, n: nat) {
    AllAligned(t, n) && NoOverlap(t) && NoGap(t, n)
  }

  /** Block `p` ends at the end of the range or where another block begins. */
  ghost predicate Followed(t: Blocks, n: nat, p: nat)
    requires p in t
  {
    p + Pow2(t[p]) == n || p + Pow2(t[p]) in t
  }

  ghost predicate Covers(t: Blocks, p: nat, x: nat) {
    p in t && p <= x < p + Pow2(t[p])
  }

  lemma SameBlock(t: Blocks, p: nat, q: nat, x: nat)
    requires NoOverlap(t) && Covers(t, p, x) && Covers(t, q, x)
    ensures p == q
  {
  }

  /** No gap and no overlap: every page lies in exactly one block. */
  lemma ExactlyOneBlockPerPage(t: Blocks, n: nat, x: nat) returns (p: nat)
    requires Tiling(t, n) && x < n
    ensures Covers(t, p, x)
    ensures forall q: nat :: Covers(t, q, x) ==> q == p
  {
    p := 0;
    while x >= p + Pow2(t[p])
      invariant p in t && p <= x
      decreases x - p
    {
      assert Followed(t, n, p);
      p := p + Pow2(t[p]);
    }
  }

  /** The buddy of block `p` of order `k`: the other half of the enclosing block of order k + 1. */
  function BuddyOf(p: nat, k: nat): nat {
    if k > 0 then 2 * BuddyOf(p / 2, k - 1)
    else if p % 2 == 0 then p + 1 else p - 1
  }

  /** Flipping bit `k` is exclusive or with 2^k. */
  lemma {:induction false} XorIsBuddy(p: nat, k: nat)
    requires Multiple(p, k)
    ensures Xor(p, Pow2(k)) == BuddyOf(p, k)
  {
    if k == 0 {
      if p > 1 { assert Xor(p / 2, 0) == p / 2; }
    } else {
      XorIsBuddy(p / 2, k - 1);
    }
  }

  lemma {:induction false} BuddyFacts(n: nat, p: nat, k: nat)
    requires Multiple(n, k + 1) && Multiple(p, k) && p + Pow2(k) <= n
    ensures var b := BuddyOf(p, k);
            && Multiple(b, k) && BuddyOf(b, k) == p
            && (if p < b then Multiple(p, k + 1) && b == p + Pow2(k) && p + Pow2(k + 1) <= n
                else Multiple(b, k + 1) && p == b + Pow2(k))
  {
    if k > 0 {
      BuddyFacts(n / 2, p / 2, k - 1);
      var b := BuddyOf(p / 2, k - 1);
      assert BuddyOf(p, k) == 2 * b && (2 * b) / 2 == b;
    }
  }

  /** Splitting block `p` into its two halves. */
  function Split(t: Blocks, p: nat): Blocks
    requires p in t && t[p] > 0
  {
    t[p := t[p] - 1][p + Pow2(t[p] - 1) := t[p] - 1]
  }

  /** Replacing the two halves beginning at `p` by the block of order k + 1. */
  function Join(t: Blocks, p: nat, k: nat): Blocks {
    (t - {p + Pow2(k)})[p := k + 1]
  }

  lemma {:induction false} UpperHalfAligned(p: nat, k: nat)
    requires Multiple(p, k + 1)
    ensures Multiple(p, k) && Multiple(p + Pow2(k), k)
  {
    if k > 0 { UpperHalfAligned(p / 2, k - 1); }
  }

  lemma SplitKeepsOrder(t: Blocks, p: nat)
    requires NoOverlap(t) && p in t && t[p] > 0
    ensures p + Pow2(t[p] - 1) !in t && NoOverlap(Split(t, p))
  {
    var m := p + Pow2(t[p] - 1);
    assert p + Pow2(t[p]) == m + Pow2(t[p] - 1);
    hide Pow2;
  }

  lemma SplitKeepsNoGap(t: Blocks, n: nat, p: nat)
    requires NoGap(t, n) && p in t && t[p] > 0
    ensures NoGap(Split(t, p), n)
  {
    var m, u := p + Pow2(t[p] - 1), Split(t, p);
    assert p + Pow2(t[p]) == m + Pow2(t[p] - 1);
    hide Pow2;
    forall a: nat {:trigger Followed(u, n, a)} | a in u
      ensures Followed(u, n, a)
    {
      assert Followed(t, n, if a == m then p else a);
    }
  }

  lemma SplitKeepsTiling(t: Blocks, n: nat, p: nat)
    requires Tiling(t, n) && p in t && t[p] > 0
    ensures p + Pow2(t[p] - 1) !in t
    ensures Tiling(Split(t, p), n)
  {
    hide NoOverlap, NoGap, Multiple;
    assert Aligned(n, p, t[p]);
    UpperHalfAligned(p, t[p] - 1);
    SplitKeepsOrder(t, p);
    SplitKeepsNoGap(t, n, p);
  }

  lemma JoinKeepsOrder(t: Blocks, p: nat, k: nat)
    requires NoOverlap(t) && p in t && t[p] == k
    requires p + Pow2(k) in t && t[p + Pow2(k)] == k
    ensures NoOverlap(Join(t, p, k))
  {
    assert Pow2(k + 1) == Pow2(k) + Pow2(k);
    hide Pow2;
  }

  lemma JoinKeepsNoGap(t: Blocks, n: nat, p: nat, k: nat)
    requires NoOverlap(t) && NoGap(t, n) && p in t && t[p] == k
    requires p + Pow2(k) in t && t[p + Pow2(k)] == k
    ensures NoGap(Join(t, p, k), n)
  {
    var m, u := p + Pow2(k), Join(t, p, k);
    assert p + Pow2(k + 1) == m + Pow2(k);
    hide Pow2;
    forall a: nat {:trigger Followed(u, n, a)} | a in u
      ensures Followed(u, n, a)
    {
      if a == p {
        assert Followed(t, n, m);
      } else {
        assert Followed(t, n, a);
        assert a < p ==> a + Pow2(t[a]) <= p;
        assert a > p ==> a > m;
      }
    }
  }

  lemma JoinKeepsTiling(t: Blocks, n: nat, p: nat, k: nat)
    requires Tiling(t, n) && p in t && t[p] == k
    requires p + Pow2(k) in t && t[p + Pow2(k)] == k
    requires Aligned(n, p, k + 1)
    ensures Tiling(Join(t, p, k), n)
  {
    hide NoOverlap, NoGap, Multiple;
    JoinKeepsOrder(t, p, k);
    JoinKeepsNoGap(t, n, p, k);
  }

  /** The two halves of the block of order k + 1 at `lo` are both blocks of the tiling. */
  ghost predicate BuddyPair(t: Blocks, lo: nat, k: nat) {
    k < TOP && Multiple(lo, k + 1) && lo in t && t[lo] == k && lo + Pow2(k) in t && t[lo + Pow2(k)] == k
  }

  /** A tiling without a buddy pair has no block below the top order: take a block of least
      order; the block holding its buddy's first page cannot be larger without overlapping it. */
  lemma {:induction false} NoPairMeansTopOnly(t: Blocks, n: nat, k: nat)
    requires Tiling(t, n) && Multiple(n, TOP) && k <= TOP
    requires forall lo: nat, j: nat :: !BuddyPair(t, lo, j)
    ensures forall p: nat :: p in t ==> t[p] >= k
    decreases k
  {
    if k > 0 {
      NoPairMeansTopOnly(t, n, k - 1);
      forall p | p in t
        ensures t[p] >= k
      {
        if t[p] == k - 1 { LeastOrderHasBuddy(t, n, p); }
      }
    }
  }

  lemma LeastOrderHasBuddy(t: Blocks, n: nat, p: nat)
    requires Tiling(t, n) && Multiple(n, TOP)
    requires p in t && t[p] < TOP && forall q :: q in t ==> t[q] >= t[p]
    ensures exists lo: nat :: BuddyPair(t, lo, t[p])
  {
    hide Multiple, NoOverlap, NoGap, BuddyOf;
    var k := t[p];
    assert Aligned(n, p, k);
    MultipleOfFewerBits(n, k + 1, TOP);
    BuddyFacts(n, p, k);
    var b := BuddyOf(p, k);
    var c: nat := ExactlyOneBlockPerPage(t, n, b);
    var lo := if p < b then p else b;
    CoversBuddy(t, n, p, b, c, lo);
    assert BuddyPair(t, lo, k);
  }

  /** The block that covers the buddy's first page is the buddy. */
  lemma CoversBuddy(t: Blocks, n: nat, p: nat, b: nat, c: nat, lo: nat)
    requires Tiling(t, n) && p in t && c in t && t[c] >= t[p] && c <= b < c + Pow2(t[c])
    requires lo <= p < lo + Pow2(t[p] + 1) && lo <= b < lo + Pow2(t[p] + 1) && b != p
    requires Multiple(lo, t[p] + 1) && Multiple(b, t[p])
    ensures c == b && t[c] == t[p]
  {
    hide Multiple, NoOverlap, NoGap;
    assert Aligned(n, c, t[c]) && Aligned(n, p, t[p]);
    if t[c] == t[p] {
      AlignedBlocksNest(c, t[p], b, t[p], b);
    } else {
      AlignedBlocksNest(c, t[c], lo, t[p] + 1, b);
      SameBlock(t, c, p, p);
    }
  }

  /** An aligned block that shares a page with a block of no smaller order lies inside it. */
  lemma {:induction false} AlignedBlocksNest(c: nat, j: nat, lo: nat, i: nat, x: nat)
    requires i <= j && Multiple(c, j) && Multiple(lo, i)
    requires c <= x < c + Pow2(j) && lo <= x < lo + Pow2(i)
    ensures c <= lo && lo + Pow2(i) <= c + Pow2(j)
  {
    if i > 0 { AlignedBlocksNest(c / 2, j - 1, lo / 2, i - 1, x / 2); }
  }
}
