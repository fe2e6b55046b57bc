/** What a walk over a range of pages asks for: the tables and pages it comes to, how many frames
    they take, and when its index bounds are out of order. */
module RangeNeed {
  import opened Arithmetic
  import opened PageTree
  import opened Sv39Range

  /** The number of the table below the root, and of the leaf table, that holds page `v`. */
  function MidOf(v: nat): nat { v / (ENTRIES * ENTRIES) }

  function LeafOf(v: nat): nat { v / ENTRIES }

  function Tables(level: nat): nat
    requires level <= 1
  {
    if level == 1 then ENTRIES else ENTRIES * ENTRIES
  }

  /** Table `n` of all tables at `level`. */
  function TableNo(level: nat, n: nat): (p: Path)
    requires level <= 1 && n < Tables(level)
    ensures IsPath(p, 2) && |p| == 2 - level
  {
    if level == 1 then [n] else [n / ENTRIES, n % ENTRIES]
  }

  ghost predicate HasTable(root: nat, m: Memory, level: nat, n: nat)
    requires level <= 1 && n < Tables(level)
  {
    TableAddr(root, m, TableNo(level, n)) != 0
  }

  /** How many of the tables from `lo` up to `hi` are missing. */
  ghost function Missing(root: nat, m: Memory, level: nat, lo: nat, hi: nat): nat
    requires level <= 1 && hi <= Tables(level)
  {
    if lo >= hi then 0
    else Missing(root, m, level, lo, hi - 1) + if HasTable(root, m, level, hi - 1) then 0 else 1
  }

  /** One past the last table below the root that a walk to page `e` comes to. */
  function MidEnd(e: nat): nat { if e == PAGES then 0 else (e + ENTRIES * ENTRIES - 1) / (ENTRIES * ENTRIES) }

  /** One past the last leaf table that a walk to page `e` comes to. */
  function LeafEnd(e: nat): nat {
    if e % (ENTRIES * ENTRIES) != 0 then (e + ENTRIES - 1) / ENTRIES
    else if e == 0 || e == PAGES then 0
    else e / ENTRIES - ENTRIES
  }

  /** The walk from `s` to `e` slices a table with its start index after its end index. */
  predicate Misordered(s: nat, e: nat) {
    && s < e
    && if e == PAGES then s >= ENTRIES * ENTRIES
       else if e % (ENTRIES * ENTRIES) == 0 then s + ENTRIES * ENTRIES >= e + ENTRIES
       else e % ENTRIES == 0 && s + ENTRIES > e
  }

  // ---------------------------------------------------------------- frontiers

  /** How far a walk has come: all its tables below the root before `mid`, all its leaf tables
      before `leaf` and all its pages before `page`. */
  datatype Frontier = Frontier(mid: nat, leaf: nat, page: nat)

  predicate Proper(f: Frontier) { f.mid <= ENTRIES && f.leaf <= ENTRIES * ENTRIES && f.page <= PAGES }

  /** Before an entry at `level` for page `p`, with the tables above it in place. */
  function FrontierAt(level: nat, p: nat): Frontier {
    Frontier(MidOf(p) + (if level < 2 then 1 else 0), LeafOf(p) + (if level < 1 then 1 else 0), p)
  }

  /** All that the pages before `q` need. */
  function After(q: nat): Frontier {
    Frontier((q + ENTRIES * ENTRIES - 1) / (ENTRIES * ENTRIES), (q + ENTRIES - 1) / ENTRIES, q)
  }

  /** All that the walk from `s` to `e` comes to. */
  function Last(s: nat, e: nat): (f: Frontier)
    requires e <= PAGES
  {
    Frontier(Max(MidEnd(e), MidOf(s)), Max(LeafEnd(e), LeafOf(s)), Max(EffectiveEnd(e), s))
  }

  /** All of that for the pages up to and with `k`. */
  function Through(s: nat, e: nat, k: nat): Frontier
    requires e <= PAGES
  {
    Frontier(Max(Min(MidEnd(e), MidOf(k) + 1), MidOf(s)), Max(Min(LeafEnd(e), LeafOf(k) + 1), LeafOf(s)),
             Max(Min(EffectiveEnd(e), k + 1), s))
  }

  /** The frames that a walk from `s` takes up to a frontier. */
  ghost function Used(root: nat, m: Memory, s: nat, f: Frontier): nat
    requires Proper(f)
  {
    Missing(root, m, 1, MidOf(s), f.mid) + Missing(root, m, 0, LeafOf(s), f.leaf) +
    if f.page > s then f.page - s else 0
  }

  predicate Upto(f: Frontier, g: Frontier) { f.mid <= g.mid && f.leaf <= g.leaf && f.page <= g.page }

  lemma {:induction false} MissingMore(root: nat, m: Memory, level: nat, lo: nat, mid: nat, hi: nat)
    requires level <= 1 && mid <= hi <= Tables(level)
    ensures Missing(root, m, level, lo, mid) <= Missing(root, m, level, lo, hi)
    decreases hi
  {
    hide HasTable;
    if mid < hi { MissingMore(root, m, level, lo, mid, hi - 1); }
  }

  lemma {:induction false} MissingAtMost(root: nat, m: Memory, level: nat, lo: nat, hi: nat)
    requires level <= 1 && lo <= hi <= Tables(level)
    ensures Missing(root, m, level, lo, hi) <= hi - lo
    decreases hi
  {
    hide HasTable;
    if lo < hi { MissingAtMost(root, m, level, lo, hi - 1); }
  }

  lemma UsedMore(root: nat, m: Memory, s: nat, f: Frontier, g: Frontier)
    requires Proper(f) && Proper(g) && Upto(f, g)
    ensures Used(root, m, s, f) <= Used(root, m, s, g)
  {
    MissingMore(root, m, 1, MidOf(s), f.mid, g.mid);
    MissingMore(root, m, 0, LeafOf(s), f.leaf, g.leaf);
    hide Missing, MidOf, LeafOf;
  }

  /** A missing table at the frontier takes a frame. */
  lemma UsedMid(root: nat, m: Memory, s: nat, f: Frontier)
    requires Proper(f) && f.mid < ENTRIES && MidOf(s) <= f.mid
    ensures Used(root, m, s, f.(mid := f.mid + 1)) ==
            Used(root, m, s, f) + if HasTable(root, m, 1, f.mid) then 0 else 1
  {
    hide HasTable, MidOf, LeafOf;
  }

  lemma UsedLeaf(root: nat, m: Memory, s: nat, f: Frontier)
    requires Proper(f) && f.leaf < ENTRIES * ENTRIES && LeafOf(s) <= f.leaf
    ensures Used(root, m, s, f.(leaf := f.leaf + 1)) ==
            Used(root, m, s, f) + if HasTable(root, m, 0, f.leaf) then 0 else 1
  {
    hide HasTable, MidOf, LeafOf;
  }

  // ---------------------------------------------------------------- where the walk goes

  /** An iterator of the walk from `s` to `e`: its bounds are those of the range in its table, its
      table is the last one just when the walk ends in it. */
  ghost predicate Placed(it: TableIter, s: nat, e: nat) {
    && s <= e <= PAGES && it.level <= 2 && Begins(it.level, it.base) && it.base + Pages(it.level, ENTRIES) <= PAGES
    && (it.level == 2 ==> it.first && it.last)
    && (if it.first then it.base <= s < it.base + Pages(it.level, ENTRIES) && it.start == IndexOf(it.level, s)
        else s < it.base && it.start == 0)
    && (if it.last then
          EndsIn(it.level, it.base, e) && it.end == UpperBoundIndex(it.level, e) && LastTable(it.level, it.base, e)
        else it.base + Pages(it.level, ENTRIES) <= EffectiveEnd(e) && it.end == ENTRIES)
  }

  predicate LastTable(level: nat, b: nat, e: nat) {
    (level < 2 ==> MidOf(b) + 1 == MidEnd(e)) && (level < 1 ==> LeafOf(b) + 1 == LeafEnd(e))
  }

  /** The frontier after the walk of a table or of an entry that ends at `q`. */
  function Exit(last: bool, q: nat, s: nat, e: nat): Frontier
    requires e <= PAGES
  {
    if last then Last(s, e) else After(q)
  }

  lemma RootPlaced(root: nat, s: nat, e: nat)
    requires s <= e <= PAGES && 0 < e && s < PAGES
    ensures Placed(NewIter(root, 2, 0, s, e, true, true), s, e)
  {
  }

  /** The ends by table: the walk below the root ends with entry `MidEnd`, and the walk of its last
      table with entry `LeafEnd`. */
  lemma RootEnds(e: nat)
    requires 0 < e <= PAGES
    ensures UpperBoundIndex(2, e) == MidEnd(e)
  {
    assert e < PAGES ==> e / (ENTRIES * ENTRIES) < ENTRIES;
  }

  lemma MidTableEnds(b: nat, e: nat)
    requires EndsIn(1, b, e) && e <= PAGES && MidOf(b) + 1 == MidEnd(e)
    ensures LeafOf(b) + UpperBoundIndex(1, e) == LeafEnd(e)
  {
    LastChild(1, b, e);
    var n := b / (ENTRIES * ENTRIES);
    assert b == ENTRIES * ENTRIES * n;
    RootEntryEndsAt(n, e);
    ByEntries(b, ENTRIES * n, 0);
    var u := UpperBoundIndex(1, e);
    if u == 0 {
      ByEntries(e, ENTRIES * n + ENTRIES, 0);
    } else {
      var c := b + ENTRIES * (u - 1);
      assert EndsIn(0, c, e);
      hide UpperBoundIndex;
      CeilEntries(c, ENTRIES * n + u - 1, e);
    }
  }

  lemma CeilEntries(c: nat, q: nat, e: nat)
    requires c == ENTRIES * q && c < e <= c + ENTRIES
    ensures (e + ENTRIES - 1) / ENTRIES == q + 1
  {
  }

  /** How the three ends of a walk lie: the last table of each kind begins no later than the walk
      ends below it, and holds that end. */
  lemma Ends(e: nat)
    requires e <= PAGES
    ensures MidEnd(e) <= ENTRIES && LeafEnd(e) <= ENTRIES * MidEnd(e) && EffectiveEnd(e) <= ENTRIES * LeafEnd(e)
    ensures MidEnd(e) > 0 ==> ENTRIES * (MidEnd(e) - 1) <= LeafEnd(e)
    ensures LeafEnd(e) > 0 ==> ENTRIES * (LeafEnd(e) - 1) <= EffectiveEnd(e)
    ensures MidEnd(e) > 0 ==> ENTRIES * ENTRIES * (MidEnd(e) - 1) <= EffectiveEnd(e)
  {
    var n, r := e / (ENTRIES * ENTRIES), e % (ENTRIES * ENTRIES);
    assert e == ENTRIES * ENTRIES * n + r;
    if 0 < e < PAGES {
      if r == 0 {
        ByEntries(e, ENTRIES * n, 0);
        CeilMid(n - 1, e);
      } else {
        CeilMid(n, e);
        EndsLeaf(n, r, e);
      }
    }
  }

  lemma CeilMid(n: nat, e: nat)
    requires ENTRIES * ENTRIES * n < e <= ENTRIES * ENTRIES * (n + 1)
    ensures (e + ENTRIES * ENTRIES - 1) / (ENTRIES * ENTRIES) == n + 1
  {
  }

  lemma EndsLeaf(n: nat, r: nat, e: nat)
    requires e == ENTRIES * ENTRIES * n + r && 0 < r < ENTRIES * ENTRIES && e < PAGES
    ensures e % (ENTRIES * ENTRIES) == r
    ensures ENTRIES * n < LeafEnd(e) <= ENTRIES * n + ENTRIES
    ensures ENTRIES * (LeafEnd(e) - 1) <= EffectiveEnd(e) <= ENTRIES * LeafEnd(e)
  {
    RestOfMid(n, r, e);
    var q := if r % ENTRIES == 0 then r / ENTRIES - 1 else r / ENTRIES;
    var j := ENTRIES * n + q;
    assert ENTRIES * j < e <= ENTRIES * j + ENTRIES;
    CeilEntries(ENTRIES * j, j, e);
    ByEntries(ENTRIES * j, j, 0);
    EntryEndsAt(ENTRIES * j, e);
  }

  lemma RestOfMid(n: nat, r: nat, e: nat)
    requires e == ENTRIES * ENTRIES * n + r && r < ENTRIES * ENTRIES
    ensures e % (ENTRIES * ENTRIES) == r
  {
  }

  /** A range that is out of order reaches no page. */
  lemma MisorderedEnd(s: nat, e: nat)
    requires e <= PAGES && Misordered(s, e)
    ensures EffectiveEnd(e) <= s
  {
  }

  /** What the pages of one leaf table have in common. */
  lemma InLeafTable(b: nat, v: nat)
    requires b % ENTRIES == 0 && b <= v < b + ENTRIES
    ensures LeafOf(v) == LeafOf(b) && MidOf(v) == MidOf(b)
  {
    ByEntries(v, b / ENTRIES, v - b);
    assert v / (ENTRIES * ENTRIES) == v / ENTRIES / ENTRIES && b / (ENTRIES * ENTRIES) == b / ENTRIES / ENTRIES;
  }

  lemma InMidTable(b: nat, v: nat)
    requires b % (ENTRIES * ENTRIES) == 0 && b <= v < b + ENTRIES * ENTRIES
    ensures MidOf(v) == MidOf(b)
  {
  }

  /** Where page `k` lies in its tables. */
  lemma Lies(k: nat)
    ensures ENTRIES * LeafOf(k) <= k < ENTRIES * LeafOf(k) + ENTRIES
    ensures ENTRIES * MidOf(k) <= LeafOf(k) < ENTRIES * MidOf(k) + ENTRIES
    ensures k % ENTRIES == 0 ==> k == ENTRIES * LeafOf(k)
    ensures k % (ENTRIES * ENTRIES) == 0 ==> k == ENTRIES * LeafOf(k) && LeafOf(k) == ENTRIES * MidOf(k)
  {
    assert k / (ENTRIES * ENTRIES) == k / ENTRIES / ENTRIES;
  }

  lemma PageBefore(k: nat)
    requires k % ENTRIES != 0
    ensures LeafOf(k - 1) == LeafOf(k) && MidOf(k - 1) == MidOf(k)
  {
    InLeafTable(k - k % ENTRIES, k);
    InLeafTable(k - k % ENTRIES, k - 1);
  }

  lemma AfterTable(q: nat)
    requires q % ENTRIES == 0
    ensures After(q).leaf == LeafOf(q)
    ensures q % (ENTRIES * ENTRIES) == 0 ==> After(q).mid == MidOf(q)
    ensures q % (ENTRIES * ENTRIES) != 0 ==> After(q).mid == MidOf(q) + 1
  {
    ByEntries(q + ENTRIES - 1, q / ENTRIES, ENTRIES - 1);
  }

  /** No entry to visit: all is done at once. */
  lemma NoEntries(it: TableIter, s: nat, e: nat)
    requires Placed(it, s, e) && it.start == it.end
    ensures it.last && FrontierAt(it.level, EntryStart(it, s, it.start)) == Last(s, e) && !Misordered(s, e)
  {
    if it.first { StartFits(it.level, it.base, s); }
    if it.level == 2 {
      NoRootEntries(s, e);
    } else if it.level == 1 {
      NoMidEntries(it, s, e);
    } else {
      NoLeafEntries(it, s, e);
    }
  }

  lemma NoRootEntries(s: nat, e: nat)
    requires s < PAGES && s <= e <= PAGES && 0 < e && IndexOf(2, s) == UpperBoundIndex(2, e)
    ensures FrontierAt(2, s) == Last(s, e) && !Misordered(s, e)
  {
    RootEnds(e);
    var n := s / (ENTRIES * ENTRIES);
    assert s == ENTRIES * ENTRIES * n + s % (ENTRIES * ENTRIES) && IndexOf(2, s) == n;
    hide UpperBoundIndex;
    if e < PAGES { MidsUpTo(e, n); }
  }

  /** A range that ends with table `n` below the root begins there only if it is empty. */
  lemma MidsUpTo(e: nat, n: nat)
    requires 0 < e < PAGES && n == MidEnd(e)
    ensures e <= ENTRIES * ENTRIES * n
    ensures e == ENTRIES * ENTRIES * n ==> EffectiveEnd(e) <= e && LeafEnd(e) <= LeafOf(e) && MidOf(e) == n
  {
  }

  lemma NoMidEntries(it: TableIter, s: nat, e: nat)
    requires Placed(it, s, e) && it.level == 1 && it.start == it.end
    ensures it.last && FrontierAt(1, EntryStart(it, s, it.start)) == Last(s, e) && !Misordered(s, e)
  {
    if it.first {
      StartFits(1, it.base, s);
      MidsFrom(it.base, s, e);
    } else {
      MidsBefore(it.base, s, e);
    }
    hide IndexOf, UpperBoundIndex, EffectiveEnd, Begins, EndsIn, MidOf, LeafOf, MidEnd, LeafEnd, Misordered, Last,
      FrontierAt;
  }

  /** A range that begins in the table at `b` and has no entries there. */
  lemma MidsFrom(b: nat, s: nat, e: nat)
    requires Begins(1, b) && b <= s < b + ENTRIES * ENTRIES && s <= e && IndexOf(1, s) == UpperBoundIndex(1, e)
    requires EndsIn(1, b, e) && e <= PAGES && LastTable(1, b, e)
    ensures FrontierAt(1, s) == Last(s, e) && !Misordered(s, e)
  {
    StartFits(1, b, s);
    LastChild(1, b, e);
    MidTableEnds(b, e);
  }

  /** A range that begins before the table at `b` and has no entries there. */
  lemma MidsBefore(b: nat, s: nat, e: nat)
    requires Begins(1, b) && s < b && UpperBoundIndex(1, e) == 0 && EndsIn(1, b, e) && e <= PAGES && LastTable(1, b, e)
    ensures FrontierAt(1, b) == Last(s, e) && !Misordered(s, e)
  {
    LastChild(1, b, e);
    MidTableEnds(b, e);
  }

  lemma NoLeafEntries(it: TableIter, s: nat, e: nat)
    requires Placed(it, s, e) && it.level == 0 && it.start == it.end
    ensures it.last && FrontierAt(0, EntryStart(it, s, it.start)) == Last(s, e) && !Misordered(s, e)
  {
    LeafTableEnd(it.base, e);
  }

  /** A slice out of order. */
  lemma OutOfOrder(it: TableIter, s: nat, e: nat)
    requires Placed(it, s, e) && it.start > it.end
    ensures it.first && it.last && Misordered(s, e) && FrontierAt(it.level, s) == Last(s, e)
  {
    if it.first { StartFits(it.level, it.base, s); }
    if it.level == 2 {
      RootOutOfOrder(s, e);
    } else if it.level == 1 {
      MidOutOfOrder(it.base, s, e);
    } else {
      LeafOutOfOrder(it.base, s, e);
    }
    hide Misordered, FrontierAt, Last, EffectiveEnd, UpperBoundIndex, Pages, Begins;
  }

  lemma RootOutOfOrder(s: nat, e: nat)
    requires s < PAGES && s <= e <= PAGES && 0 < e && IndexOf(2, s) > UpperBoundIndex(2, e)
    ensures Misordered(s, e) && FrontierAt(2, s) == Last(s, e)
  {
    RootEnds(e);
  }

  lemma MidOutOfOrder(b: nat, s: nat, e: nat)
    requires EndsIn(1, b, e) && b <= s < b + ENTRIES * ENTRIES && s <= e <= PAGES && LastTable(1, b, e)
    requires IndexOf(1, s) > UpperBoundIndex(1, e)
    ensures Misordered(s, e) && FrontierAt(1, s) == Last(s, e)
  {
    var n := b / (ENTRIES * ENTRIES);
    StartFits(1, b, s);
    LastChild(1, b, e);
    MidTableEnds(b, e);
    MidLast(b, e);
    InMidTable(b, s);
    RootEntryEndsAt(n, e);
    hide UpperBoundIndex, IndexOf, EffectiveEnd, LeafEnd;
  }

  lemma LeafOutOfOrder(b: nat, s: nat, e: nat)
    requires EndsIn(0, b, e) && b <= s < b + ENTRIES && s <= e <= PAGES && LastTable(0, b, e)
    requires IndexOf(0, s) > UpperBoundIndex(0, e)
    ensures Misordered(s, e) && FrontierAt(0, s) == Last(s, e)
  {
    LeafTableEnd(b, e);
  }

  /** What was passed before an entry is all that the pages before it need. */
  lemma NextEntry(level: nat, b: nat, i: nat)
    requires level <= 2 && Begins(level, b) && 0 < i < ENTRIES
    ensures var q := b + Pages(level, i); After(q) == FrontierAt(level, q)
  {
    if level == 0 {
      NextPage(b, i);
    } else if level == 1 {
      NextLeafTable(b, i);
    } else {
      AfterTable(ENTRIES * ENTRIES * i);
    }
  }

  lemma NextPage(b: nat, i: nat)
    requires b % ENTRIES == 0 && 0 < i < ENTRIES
    ensures After(b + i) == FrontierAt(0, b + i)
  {
    InLeafTable(b, b + i);
    ByEntries(b, b / ENTRIES, 0);
    ByEntries(b + i + ENTRIES - 1, b / ENTRIES + 1, i - 1);
    SameMid(b / ENTRIES, b + i, i);
  }

  lemma NextLeafTable(b: nat, i: nat)
    requires b % (ENTRIES * ENTRIES) == 0 && 0 < i < ENTRIES
    ensures After(b + ENTRIES * i) == FrontierAt(1, b + ENTRIES * i)
  {
    var n, q := b / (ENTRIES * ENTRIES), b + ENTRIES * i;
    assert q == ENTRIES * ENTRIES * n + ENTRIES * i;
    NoMultiple(n, ENTRIES * i, q);
    ByEntries(q, ENTRIES * n + i, 0);
    AfterTable(q);
    hide After, MidOf, LeafOf;
  }

  lemma NoMultiple(n: nat, r: nat, q: nat)
    requires q == ENTRIES * ENTRIES * n + r && 0 < r < ENTRIES * ENTRIES
    ensures q % (ENTRIES * ENTRIES) != 0
  {
  }

  lemma SameMid(j: nat, q: nat, i: nat)
    requires q == ENTRIES * j + i && 0 < i < ENTRIES
    ensures (q + ENTRIES * ENTRIES - 1) / (ENTRIES * ENTRIES) == MidOf(q) + 1
  {
  }

  /** The walk of a last table ends where the whole walk ends. */
  lemma LastTableEnd(it: TableIter, s: nat, e: nat)
    requires Placed(it, s, e) && it.last
    ensures EndOfWalk(it.level, it.base, e) == EffectiveEnd(e)
  {
    if it.level == 2 {
      EffectiveEndIsEndOfWalk(e);
    } else if it.level == 1 {
      EndOfWalk1(it.base, e);
      MidLast(it.base, e);
    } else {
      LeafTableEnd(it.base, e);
      LeafOnly(it.base, e);
    }
  }

  lemma MidLast(b: nat, e: nat)
    requires EndsIn(1, b, e) && MidOf(b) + 1 == MidEnd(e) && e <= PAGES
    ensures EffectiveEnd(e) == if e == b + Pages(1, ENTRIES) then b else if e % ENTRIES == 0 then e - ENTRIES else e
  {
    RootEntryEndsAt(b / (ENTRIES * ENTRIES), e);
  }

  lemma LeafOnly(b: nat, e: nat)
    requires EndsIn(0, b, e) && LeafOf(b) + 1 == LeafEnd(e) && e <= PAGES
    ensures EffectiveEnd(e) == if e == b + ENTRIES then b else e
  {
    EntryEndsAt(b, e);
    ByEntries(b, b / ENTRIES, 0);
    if e == b + ENTRIES { ByEntries(e, b / ENTRIES + 1, 0); }
  }

  /** A walk that passes its first entry was in order. */
  lemma PassedStart(it: TableIter, s: nat, e: nat)
    requires Placed(it, s, e) && it.first && it.last && it.start + 1 < it.end
    ensures !Misordered(s, e)
  {
    hide EffectiveEnd, EndOfWalk, Misordered, UpperBoundIndex, IndexOf, LastTable, Pages, Begins, EndsIn;
    StartFits(it.level, it.base, s);
    EndFits(it.level, it.base, e);
    LastTableEnd(it, s, e);
    ChildSpan(it.level, it.start, it.end);
    if Misordered(s, e) { MisorderedEnd(s, e); }
  }

  /** After the page of an entry of a leaf table. */
  lemma LeafExit(it: TableIter, s: nat, e: nat, i: nat)
    requires Placed(it, s, e) && it.level == 0 && it.start <= i < it.end <= ENTRIES
    ensures var v := it.base + i;
            && s <= v < EffectiveEnd(e)
            && FrontierAt(0, v).(page := v + 1) == Exit(it.last && i + 1 == it.end, v + 1, s, e)
            && (it.first && it.last && i == it.start && i + 1 == it.end ==> !Misordered(s, e))
  {
    var v := it.base + i;
    if it.first { StartFits(0, it.base, s); }
    InLeafTable(it.base, v);
    if it.last {
      LeafTableEnd(it.base, e);
    }
    if it.last && i + 1 == it.end {
      LeafLast(it.base, e);
    } else {
      ByEntries(v + ENTRIES, it.base / ENTRIES + 1, i);
      SameMid1(it.base / ENTRIES, v, i);
    }
  }

  lemma LeafLast(b: nat, e: nat)
    requires EndsIn(0, b, e) && e != b + ENTRIES && e <= PAGES
    ensures e % ENTRIES != 0 && EffectiveEnd(e) == e
  {
  }

  lemma SameMid1(j: nat, v: nat, i: nat)
    requires v == ENTRIES * j + i && i < ENTRIES
    ensures (v + ENTRIES * ENTRIES) / (ENTRIES * ENTRIES) == MidOf(v) + 1
  {
  }

  lemma ChildPlaced(root: nat, m: Memory, it: TableIter, table: nat, s: nat, e: nat)
    requires Placed(it, s, e) && IterOk(root, m, it, s, e) && it.level > 0
    ensures Placed(Child(it, table, s, e), s, e)
  {
    hide Pages, Begins, EndsIn, IndexOf, UpperBoundIndex, EndOfWalk, LastTable, EffectiveEnd, TableAddr, TablePath;
    ChildBounds(root, m, it, s, e);
    WalkEndFits(root, m, it, s, e);
    ChildSpan(it.level, it.cur, it.end);
    if it.first && it.cur > it.start { ChildSpan(it.level, it.start, it.cur + 1); }
    if it.last {
      LastTableEnd(it, s, e);
      if it.cur + 1 == it.end { ChildLast(it, s, e); }
    }
  }

  lemma ChildSpan(level: nat, i: nat, n: nat)
    requires level <= 2 && i < n <= ENTRIES
    ensures Pages(level, i) + Pages(level, 1) == Pages(level, i + 1) <= Pages(level, n) <= Pages(level, ENTRIES)
    ensures i + 1 < n ==> Pages(level, i + 1) <= Pages(level, n - 1)
  {
  }

  lemma ChildLast(it: TableIter, s: nat, e: nat)
    requires Placed(it, s, e) && it.level > 0 && it.last && it.cur + 1 == it.end <= ENTRIES
    ensures LastTable(it.level - 1, it.base + Pages(it.level, it.cur), e)
  {
    RootEnds(e);
    if it.level == 1 {
      MidTableEnds(it.base, e);
      LeafTableNo(it.base, it.cur);
    }
    hide Placed, MidEnd, LeafEnd, UpperBoundIndex;
  }

  lemma LeafTableNo(b: nat, i: nat)
    requires b % (ENTRIES * ENTRIES) == 0 && i < ENTRIES
    ensures MidOf(b + ENTRIES * i) == MidOf(b) && LeafOf(b + ENTRIES * i) == LeafOf(b) + i
  {
    InMidTable(b, b + ENTRIES * i);
    ByEntries(b, b / ENTRIES, 0);
    ByEntries(b + ENTRIES * i, b / ENTRIES + i, 0);
  }
}
