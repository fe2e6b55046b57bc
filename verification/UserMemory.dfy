/** User memory through the page table: writing byte strings across pages. */
module UserMemory {
  import opened Wrappers
  import opened Pte
  import opened PageTree
  import Sv39

  /** Which frame a page is mapped to, and what the frames hold that the kernel can access. */
  type Frames = map<nat, nat>
  type Phys = map<nat, seq<Byte>>

  ghost predicate Backed(m: Frames, phys: Phys, a: nat) {
    a / PGSIZE in m && m[a / PGSIZE] in phys && |phys[m[a / PGSIZE]]| == PGSIZE
  }

  ghost predicate BackedRange(m: Frames, phys: Phys, va: nat, n: nat) {
    forall a :: va <= a < va + n ==> Backed(m, phys, a)
  }

  ghost function ByteAt(m: Frames, phys: Phys, a: nat): Byte
    requires Backed(m, phys, a)
  {
    phys[m[a / PGSIZE]][a % PGSIZE]
  }

  /** The pages from `lo` up to `hi` are backed by frames of their own. */
  ghost predicate OwnFrames(m: Frames, phys: Phys, lo: nat, hi: nat) {
    && (forall p :: lo <= p < hi ==> p in m && m[p] in phys && |phys[m[p]]| == PGSIZE)
    && (forall p, q :: lo <= p < q < hi ==> m[p] != m[q])
  }

  /** `n` bytes from `va` on lie in the pages from `lo` up to `hi`. */
  predicate InRegion(va: nat, n: nat, lo: nat, hi: nat) { lo * PGSIZE <= va && va + n <= hi * PGSIZE }

  predicate Within(a: nat, lo: nat, hi: nat) { lo * PGSIZE <= a < hi * PGSIZE }

  lemma OwnIsBacked(m: Frames, phys: Phys, lo: nat, hi: nat, a: nat)
    requires OwnFrames(m, phys, lo, hi) && Within(a, lo, hi)
    ensures lo <= a / PGSIZE < hi && Backed(m, phys, a)
  {
  }

  lemma RegionBacked(m: Frames, phys: Phys, lo: nat, hi: nat, va: nat, n: nat)
    requires OwnFrames(m, phys, lo, hi) && InRegion(va, n, lo, hi)
    ensures BackedRange(m, phys, va, n)
  {
    forall a | va <= a < va + n
      ensures Backed(m, phys, a)
    {
      OwnIsBacked(m, phys, lo, hi, a);
    }
  }

  /** `bytes` was stored at `va`; the rest of the region is as before. */
  ghost predicate Stored(m: Frames, a: Phys, b: Phys, lo: nat, hi: nat, va: nat, bytes: seq<Byte>) {
    && OwnFrames(m, a, lo, hi) && OwnFrames(m, b, lo, hi)
    && forall x: nat :: Within(x, lo, hi) ==>
         && Backed(m, a, x) && Backed(m, b, x)
         && ByteAt(m, b, x) == if va <= x < va + |bytes| then bytes[x - va] else ByteAt(m, a, x)
  }

  /** The region's bytes from `va` on are `bytes`. */
  ghost predicate Holds(m: Frames, phys: Phys, lo: nat, hi: nat, va: nat, bytes: seq<Byte>) {
    && OwnFrames(m, phys, lo, hi) && InRegion(va, |bytes|, lo, hi)
    && forall x: nat :: va <= x < va + |bytes| ==> Backed(m, phys, x) && ByteAt(m, phys, x) == bytes[x - va]
  }

  lemma StoredHolds(m: Frames, a: Phys, b: Phys, lo: nat, hi: nat, va: nat, bytes: seq<Byte>)
    requires Stored(m, a, b, lo, hi, va, bytes) && InRegion(va, |bytes|, lo, hi)
    ensures Holds(m, b, lo, hi, va, bytes)
  {
    hide OwnFrames, Backed, ByteAt;
    assert forall x: nat :: va <= x < va + |bytes| ==> Within(x, lo, hi);
  }

  /** Storing elsewhere leaves it alone. */
  lemma StillHolds(m: Frames, a: Phys, b: Phys, lo: nat, hi: nat, va: nat, bytes: seq<Byte>, va': nat,
                   bytes': seq<Byte>)
    requires Holds(m, a, lo, hi, va, bytes) && Stored(m, a, b, lo, hi, va', bytes') && va' + |bytes'| <= va
    ensures Holds(m, b, lo, hi, va, bytes)
  {
    hide OwnFrames, Backed, ByteAt;
    assert forall x: nat :: va <= x < va + |bytes| ==> Within(x, lo, hi);
  }

  lemma StoredNothing(m: Frames, a: Phys, lo: nat, hi: nat, va: nat)
    requires OwnFrames(m, a, lo, hi)
    ensures Stored(m, a, a, lo, hi, va, [])
  {
    forall x: nat | Within(x, lo, hi)
      ensures Backed(m, a, x)
    {
      OwnIsBacked(m, a, lo, hi, x);
    }
  }

  lemma StoredThen(m: Frames, a: Phys, b: Phys, c: Phys, lo: nat, hi: nat, va: nat, x: seq<Byte>, y: seq<Byte>)
    requires Stored(m, a, b, lo, hi, va, x) && Stored(m, b, c, lo, hi, va + |x|, y)
    ensures Stored(m, a, c, lo, hi, va, x + y)
  {
    hide OwnFrames, Backed, ByteAt, Within;
  }

  /** A chunk that fits into one page is stored by copying it into the page's frame. */
  lemma ChunkStored(m: Frames, a: Phys, lo: nat, hi: nat, va: nat, chunk: seq<Byte>)
    requires OwnFrames(m, a, lo, hi) && Within(va, lo, hi) && va % PGSIZE + |chunk| <= PGSIZE
    ensures Backed(m, a, va)
    ensures var f := m[va / PGSIZE]; Stored(m, a, a[f := Patch(a[f], va % PGSIZE, chunk)], lo, hi, va, chunk)
  {
    OwnIsBacked(m, a, lo, hi, va);
    var f := m[va / PGSIZE];
    var b := a[f := Patch(a[f], va % PGSIZE, chunk)];
    assert OwnFrames(m, b, lo, hi);
    forall x: nat | Within(x, lo, hi)
      ensures Backed(m, a, x) && Backed(m, b, x)
      ensures ByteAt(m, b, x) == if va <= x < va + |chunk| then chunk[x - va] else ByteAt(m, a, x)
    {
      OwnIsBacked(m, a, lo, hi, x);
      OwnIsBacked(m, b, lo, hi, x);
      ChunkByte(m, a, va, chunk, x);
    }
  }

  lemma ChunkByte(m: Frames, a: Phys, va: nat, chunk: seq<Byte>, x: nat)
    requires Backed(m, a, va) && Backed(m, a, x) && va % PGSIZE + |chunk| <= PGSIZE
    requires x / PGSIZE != va / PGSIZE ==> m[x / PGSIZE] != m[va / PGSIZE]
    ensures var b := a[m[va / PGSIZE] := Patch(a[m[va / PGSIZE]], va % PGSIZE, chunk)];
            Backed(m, b, x) && ByteAt(m, b, x) == if va <= x < va + |chunk| then chunk[x - va] else ByteAt(m, a, x)
  {
    var p, o, q, r := va / PGSIZE, va % PGSIZE, x / PGSIZE, x % PGSIZE;
    assert va == PGSIZE * p + o && x == PGSIZE * q + r;
  }

  /** The mapped pages of a page table. */
  ghost function FramesOf(root: nat, mem: Memory): Frames {
    map v | 0 <= v < PAGES && IsValid(Leaf(root, mem, v)) :: PhysicalAddr(Leaf(root, mem, v))
  }

  /** A user address space: the page table and the memory that the kernel can access. */
  class Vm {
    const pt: Sv39.PageTable
    var phys: Phys

    ghost function Map(): Frames
      reads this, pt
    {
      FramesOf(pt.root, pt.mem)
    }

    ghost predicate Valid()
      reads this, pt
    {
      pt.Valid() && forall f :: f in phys ==> |phys[f]| == PGSIZE
    }

    constructor (table: Sv39.PageTable, frames: Phys)
      requires table.Valid() && forall f :: f in frames ==> |frames[f]| == PGSIZE
      ensures Valid() && pt == table && phys == frames
    {
      pt, phys := table, frames;
    }

    /** `write`: copies page by page; fails exactly when a page of the range is not mapped to
        memory that the kernel can access.  It writes the first `k` bytes: all of them, or those
        before the first address without such a page.  In a region of pages with frames of their
        own it stores these bytes and nothing else, and it changes no frame of other pages. */
    method Write(va: nat, bytes: seq<Byte>, ghost lo: nat, ghost hi: nat) returns (r: Result<nat>, ghost k: nat)
      requires Valid() && va + |bytes| <= Sv39.VA_END && OwnFrames(Map(), phys, lo, hi)
      modifies this`phys
      ensures Valid() && OwnFrames(Map(), phys, lo, hi)
      ensures r.Ok? <==> BackedRange(Map(), old(phys), va, |bytes|)
      ensures r.Ok? ==> r.value == va + |bytes| && k == |bytes|
      ensures r.Err? ==> r.error == InvalidArgument && k < |bytes| && !Backed(Map(), old(phys), va + k)
      ensures k <= |bytes| && BackedRange(Map(), old(phys), va, k)
      ensures InRegion(va, k, lo, hi) ==> Stored(Map(), old(phys), phys, lo, hi, va, bytes[..k])
      ensures OnlyTouched(Map(), old(phys), phys, va, k)
    {
      hide FramesOf, Stored, BackedRange, OwnFrames, Backed, InRegion, Within, Sofar, OnlyTouched;
      var at, rest := va, bytes;
      ghost var m, before := Map(), phys;
      NothingSofar(m, phys, va, bytes, lo, hi);
      while rest != []
        invariant va <= at <= va + |bytes| && rest == bytes[at - va..]
        invariant Valid() && Map() == m && Sofar(m, before, phys, va, bytes, at, lo, hi)
      {
        ghost var mid := phys;
        SofarMeans(m, before, phys, va, bytes, at, lo, hi);
        var n := CopyChunk(at, rest, lo, hi);
        if n == 0 { return Err(InvalidArgument), at - va; }
        MoreSofar(m, before, mid, phys, va, bytes, at, n, lo, hi);
        at, rest := at + n, rest[n..];
      }
      SofarMeans(m, before, phys, va, bytes, at, lo, hi);
      return Ok(at), |bytes|;
    }

    /** A load by the user program. */
    method Load(a: nat) returns (x: Byte)
      requires Valid() && a < Sv39.VA_END && Backed(Map(), phys, a)
      ensures x == ByteAt(Map(), phys, a)
    {
      hide Leaf, IsValid, PhysicalAddr, FramesOf;
      var entry := pt.GetEntry(a);
      Looked(pt.root, pt.mem, a / PGSIZE);
      x := phys[PhysicalAddr(pt.mem[entry.value.0][entry.value.1])][a % PGSIZE];
    }

    /** Copies what fits into the page of `at`; nothing if that page cannot be written. */
    method CopyChunk(at: nat, rest: seq<Byte>, ghost lo: nat, ghost hi: nat) returns (n: nat)
      requires Valid() && rest != [] && at + |rest| <= Sv39.VA_END && OwnFrames(Map(), phys, lo, hi)
      modifies this`phys
      ensures Valid() && phys.Keys == old(phys).Keys && OwnFrames(Map(), phys, lo, hi)
      ensures n == 0 <==> !Backed(Map(), old(phys), at)
      ensures n <= |rest| && at % PGSIZE + n <= PGSIZE
      ensures n > 0 && Within(at, lo, hi) ==> Stored(Map(), old(phys), phys, lo, hi, at, rest[..n])
      ensures n == 0 ==> phys == old(phys)
      ensures forall f :: f in phys && phys[f] != old(phys)[f] ==> at / PGSIZE in Map() && Map()[at / PGSIZE] == f
    {
      hide Leaf, IsValid, PhysicalAddr, FramesOf, Stored, BackedRange;
      var entry := pt.GetEntry(at - at % PGSIZE);
      PageOf(at);
      Looked(pt.root, pt.mem, at / PGSIZE);
      if entry.None? { return 0; }
      var pa := PhysicalAddr(pt.mem[entry.value.0][entry.value.1]);
      if pa !in phys { return 0; }
      var offset := at % PGSIZE;
      n := if |rest| < PGSIZE - offset then |rest| else PGSIZE - offset;
      if Within(at, lo, hi) { ChunkStored(Map(), phys, lo, hi, at, rest[..n]); }
      phys := phys[pa := Patch(phys[pa], offset, rest[..n])];
    }
  }

  /** Only frames of pages that hold one of the `k` addresses from `va` on changed. */
  ghost predicate OnlyTouched(m: Frames, a: Phys, b: Phys, va: nat, k: nat) {
    a.Keys == b.Keys && forall f :: f in a && b[f] != a[f] ==> Touched(m, va, k, f)
  }

  ghost predicate Touched(m: Frames, va: nat, k: nat, f: nat) {
    exists x :: va <= x < va + k && x / PGSIZE in m && m[x / PGSIZE] == f
  }

  /** The bytes before address `at` are written. */
  ghost predicate Sofar(m: Frames, a: Phys, b: Phys, va: nat, bytes: seq<Byte>, at: nat, lo: nat, hi: nat)
    requires va <= at <= va + |bytes|
  {
    && OnlyTouched(m, a, b, va, at - va) && OwnFrames(m, b, lo, hi) && BackedRange(m, a, va, at - va)
    && (forall f :: f in a ==> |a[f]| == PGSIZE)
    && (InRegion(va, at - va, lo, hi) ==> Stored(m, a, b, lo, hi, va, bytes[..at - va]))
  }

  lemma NothingSofar(m: Frames, a: Phys, va: nat, bytes: seq<Byte>, lo: nat, hi: nat)
    requires OwnFrames(m, a, lo, hi) && forall f :: f in a ==> |a[f]| == PGSIZE
    ensures Sofar(m, a, a, va, bytes, va, lo, hi)
  {
    StoredNothing(m, a, lo, hi, va);
    hide Stored, OwnFrames;
  }

  lemma SofarMeans(m: Frames, a: Phys, b: Phys, va: nat, bytes: seq<Byte>, at: nat, lo: nat, hi: nat)
    requires va <= at <= va + |bytes| && Sofar(m, a, b, va, bytes, at, lo, hi)
    requires forall f :: f in b ==> |b[f]| == PGSIZE
    ensures OwnFrames(m, b, lo, hi) && OnlyTouched(m, a, b, va, at - va) && BackedRange(m, a, va, at - va)
    ensures InRegion(va, at - va, lo, hi) ==> Stored(m, a, b, lo, hi, va, bytes[..at - va])
    ensures !Backed(m, b, at) ==> !Backed(m, a, at)
    ensures at < va + |bytes| && !Backed(m, b, at) ==> !BackedRange(m, a, va, |bytes|)
  {
    hide Stored, OwnFrames;
    assert at < va + |bytes| && BackedRange(m, a, va, |bytes|) ==> Backed(m, a, at);
  }

  lemma MoreSofar(m: Frames, a: Phys, b: Phys, c: Phys, va: nat, bytes: seq<Byte>, at: nat, n: nat, lo: nat, hi: nat)
    requires va <= at && 0 < n && at + n <= va + |bytes| && Sofar(m, a, b, va, bytes, at, lo, hi)
    requires c.Keys == b.Keys && OwnFrames(m, c, lo, hi) && Backed(m, b, at) && at % PGSIZE + n <= PGSIZE
    requires forall f :: f in b ==> |b[f]| == PGSIZE
    requires forall f :: f in c && c[f] != b[f] ==> at / PGSIZE in m && m[at / PGSIZE] == f
    requires Within(at, lo, hi) ==> Stored(m, b, c, lo, hi, at, bytes[at - va..][..n])
    ensures Sofar(m, a, c, va, bytes, at + n, lo, hi)
  {
    MoreBacked(m, a, va, at, n);
    MoreTouched(m, a, b, c, va, at, n);
    hide OwnFrames, BackedRange, Stored, OnlyTouched;
    if InRegion(va, at + n - va, lo, hi) {
      assert Within(at, lo, hi);
      StoredThen(m, a, b, c, lo, hi, va, bytes[..at - va], bytes[at - va..][..n]);
      assert bytes[..at - va] + bytes[at - va..][..n] == bytes[..at + n - va];
    }
  }

  lemma MoreTouched(m: Frames, a: Phys, b: Phys, c: Phys, va: nat, at: nat, n: nat)
    requires va <= at && 0 < n && OnlyTouched(m, a, b, va, at - va) && c.Keys == b.Keys
    requires forall f :: f in c && c[f] != b[f] ==> at / PGSIZE in m && m[at / PGSIZE] == f
    ensures OnlyTouched(m, a, c, va, at + n - va)
  {
    forall f | f in a && c[f] != a[f]
      ensures Touched(m, va, at + n - va, f)
    {
      if c[f] != b[f] {
        assert va <= at < va + (at + n - va) && m[at / PGSIZE] == f;
      } else {
        assert Touched(m, va, at - va, f);
        var x :| va <= x < va + (at - va) && x / PGSIZE in m && m[x / PGSIZE] == f;
        assert va <= x < va + (at + n - va);
      }
    }
  }

  lemma PageOf(a: nat)
    ensures (a - a % PGSIZE) / PGSIZE == a / PGSIZE
  {
  }

  lemma Looked(root: nat, mem: Memory, v: nat)
    requires v < PAGES
    ensures v in FramesOf(root, mem) <==> IsValid(Leaf(root, mem, v))
    ensures v in FramesOf(root, mem) ==> FramesOf(root, mem)[v] == PhysicalAddr(Leaf(root, mem, v))
  {
  }

  lemma MoreBacked(m: Frames, a: Phys, va: nat, at: nat, n: nat)
    requires va <= at && BackedRange(m, a, va, at - va) && Backed(m, a, at) && at % PGSIZE + n <= PGSIZE
    ensures BackedRange(m, a, va, at + n - va)
  {
    forall x | va <= x < at + n
      ensures Backed(m, a, x)
    {
      if x >= at { assert x / PGSIZE == at / PGSIZE; }
    }
  }
}
