/** What a file's blocks need: the places on the way to them, which of those are empty, and whether
    the free blocks last for them. */
module BlockNeed {
  import opened BlockMap

  /** A place and the tables it lies in. */
  function Trail(s: Slot): set<Slot> { {s} + if s.Entry? then Trail(s.parent) else {} }

  /** The places for the blocks from `lo` up to `hi` of a file. */
  function Places(lo: nat, hi: nat): set<Slot>
    decreases hi - lo
  {
    if lo >= hi then {} else Places(lo, hi - 1) + Trail(DataSlot(hi - 1))
  }

  lemma TrailLegal(n: nat)
    requires n < MAX_BLOCKS
    ensures forall s :: s in Trail(DataSlot(n)) ==> Legal(s)
  {
    DataSlotFacts(n, n);
    var s := DataSlot(n);
    if s.Entry? && s.parent.Entry? { assert Trail(s.parent) == {s.parent, Double}; }
  }

  lemma {:induction false} PlacesLegal(lo: nat, hi: nat)
    requires hi <= MAX_BLOCKS
    ensures forall s :: s in Places(lo, hi) ==> Legal(s)
    decreases hi - lo
  {
    if lo < hi {
      PlacesLegal(lo, hi - 1);
      TrailLegal(hi - 1);
      hide Trail, DataSlot, Legal;
    }
  }

  lemma {:induction false} PlacesGrow(lo: nat, mid: nat, hi: nat)
    requires mid <= hi
    ensures Places(lo, mid) <= Places(lo, hi)
    decreases hi - mid
  {
    hide Trail, DataSlot;
    if mid < hi { PlacesGrow(lo, mid, hi - 1); }
  }

  /** The empty ones among some places. */
  ghost function Gaps(st: Store, ino: nat, x: set<Slot>): set<Slot>
    requires Shaped(st) && ino in st.inodes
  {
    set s | s in x && Legal(s) && Val(st, ino, s) == 0
  }

  /** With `n` of `cap` blocks in use there are not enough for the empty places. */
  ghost predicate Short(st: Store, n: nat, cap: nat, ino: nat, x: set<Slot>)
    requires Shaped(st) && ino in st.inodes
  {
    n + |Gaps(st, ino, x)| > cap
  }

  /** Just the empty ones among the places `x` of a file were filled, with one block each: `n` blocks
      were in use, and now `n'` are. */
  ghost predicate Filled(st: Store, st': Store, n: nat, n': nat, ino: nat, x: set<Slot>)
    requires Shaped(st) && Shaped(st')
  {
    && ino in st.inodes && st'.inodes.Keys == st.inodes.Keys
    && (forall s :: s in x ==> Legal(s) && Val(st', ino, s) != 0)
    && (forall j, t :: j in st.inodes && Legal(t) && (Val(st, j, t) != 0 || !(j == ino && t in x)) ==>
          Val(st', j, t) == Val(st, j, t))
    && n' == n + |Gaps(st, ino, x)|
  }

  lemma FilledNothing(st: Store, n: nat, ino: nat)
    requires Shaped(st) && ino in st.inodes
    ensures Filled(st, st, n, n, ino, {})
  {
    assert Gaps(st, ino, {}) == {};
  }

  lemma GapsThen(a: Store, b: Store, n0: nat, n1: nat, ino: nat, x: set<Slot>, y: set<Slot>)
    requires Shaped(a) && Shaped(b) && Filled(a, b, n0, n1, ino, x)
    ensures |Gaps(a, ino, x + y)| == |Gaps(a, ino, x)| + |Gaps(b, ino, y)|
  {
    hide Val;
    assert Gaps(a, ino, x + y) == Gaps(a, ino, x) + Gaps(b, ino, y) && Gaps(a, ino, x) !! Gaps(b, ino, y);
  }

  lemma FilledThen(a: Store, b: Store, c: Store, n0: nat, n1: nat, n2: nat, ino: nat, x: set<Slot>, y: set<Slot>)
    requires Shaped(a) && Shaped(b) && Shaped(c) && Filled(a, b, n0, n1, ino, x) && Filled(b, c, n1, n2, ino, y)
    ensures Filled(a, c, n0, n2, ino, x + y)
  {
    hide Val;
    GapsThen(a, b, n0, n1, ino, x, y);
    hide Gaps;
  }

  lemma ShortThen(a: Store, b: Store, n0: nat, n1: nat, cap: nat, ino: nat, x: set<Slot>, y: set<Slot>)
    requires Shaped(a) && Shaped(b) && Filled(a, b, n0, n1, ino, x) && Short(b, n1, cap, ino, y)
    ensures Short(a, n0, cap, ino, x + y)
  {
    GapsThen(a, b, n0, n1, ino, x, y);
    hide Gaps;
  }

  lemma ShortMore(st: Store, n: nat, cap: nat, ino: nat, x: set<Slot>, y: set<Slot>)
    requires Shaped(st) && ino in st.inodes && Short(st, n, cap, ino, x) && x <= y
    ensures Short(st, n, cap, ino, y)
  {
    hide Val;
    var a, b := Gaps(st, ino, x), Gaps(st, ino, y);
    assert b == a + (b - a);
  }

  /** No place changed. */
  ghost predicate SamePlaces(st: Store, st': Store)
    requires Shaped(st) && Shaped(st')
  {
    st'.inodes.Keys == st.inodes.Keys && forall j, t :: j in st.inodes && Legal(t) ==> Val(st', j, t) == Val(st, j, t)
  }

  /** Only places of one file changed. */
  ghost predicate OnlyIn(st: Store, st': Store, ino: nat)
    requires Shaped(st) && Shaped(st')
  {
    && st'.inodes.Keys == st.inodes.Keys
    && forall j, t :: j in st.inodes && j != ino && Legal(t) ==> Val(st', j, t) == Val(st, j, t)
  }

  lemma OnlyInThen(a: Store, b: Store, c: Store, ino: nat)
    requires Shaped(a) && Shaped(b) && Shaped(c) && OnlyIn(a, b, ino) && OnlyIn(b, c, ino)
    ensures OnlyIn(a, c, ino)
  {
    hide Val;
  }

  lemma FilledOnlyIn(st: Store, st': Store, n: nat, n': nat, ino: nat, x: set<Slot>)
    requires Shaped(st) && Shaped(st') && Filled(st, st', n, n', ino, x)
    ensures OnlyIn(st, st', ino)
  {
    hide Val, Gaps;
  }

  lemma FilledSame(a: Store, b: Store, c: Store, n: nat, n': nat, ino: nat, x: set<Slot>)
    requires Shaped(a) && Shaped(b) && Shaped(c) && Filled(a, b, n, n', ino, x) && SamePlaces(b, c)
    ensures Filled(a, c, n, n', ino, x)
  {
    hide Val, Gaps;
  }
}
