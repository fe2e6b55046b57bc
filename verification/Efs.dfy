/** Reading and writing files: the mutating block-map walk, which allocates missing blocks, and
    the loops over it. Every file behaves like a flat byte array. */
module Efs {
  import opened BlockMap
  import opened BlockNeed
  import opened LittleEndian
  import opened Wrappers
  import Bitmap
  import SuperBlock

  /** What the state keeps: blocks in use are marked in the data bitmap and owned by one place,
      free data blocks are zeroed, and files are backed by blocks up to their size. */
  ghost predicate Consistent(st: Store, owner: Owners, bits: set<nat>, dataStart: nat, dataBlocks: nat) {
    && Shaped(st) && Owned(st, owner) && Zeroed(st.disk[0])
    && 0 < dataStart && dataStart + dataBlocks <= |st.disk| <= Pow256(8)
    && (forall b :: b in owner ==> dataStart <= b < dataStart + dataBlocks && b - dataStart in bits)
    && (forall b :: dataStart <= b < dataStart + dataBlocks && b - dataStart !in bits ==> Zeroed(st.disk[b]))
    && (forall ino :: ino in st.inodes ==> Backed(st, ino))
  }

  /** Place `p` holds block `b`. */
  ghost predicate HoldsBlock(st: Store, p: (nat, Slot), b: nat)
    requires Shaped(st)
  {
    p.0 in st.inodes && Legal(p.1) && Val(st, p.0, p.1) == b
  }

  /** Nothing is lost: each marked block is held by a place. */
  ghost predicate NoLeak(st: Store, owner: Owners, bits: set<nat>, dataStart: nat)
    requires Shaped(st)
  {
    && (forall b :: b in owner ==> HoldsBlock(st, owner[b], b))
    && (forall i :: i in bits ==> i + dataStart in owner)
  }

  /** Inodes that are not initialized hold no block. */
  ghost predicate Blank(st: Store)
    requires Shaped(st)
  {
    forall ino, s :: ino in st.inodes && st.inodes[ino].typ == Unknown && Legal(s) ==> Val(st, ino, s) == 0
  }

  lemma StaysBlank(st: Store, st': Store, ino: nat)
    requires Shaped(st) && Shaped(st') && OnlyIn(st, st', ino) && Blank(st)
    requires ino in st.inodes && st.inodes[ino].typ != Unknown
    requires forall j :: j in st.inodes ==> st'.inodes[j].typ == st.inodes[j].typ
    ensures Blank(st')
  {
    hide Val;
  }

  /** The number of all blocks marked when there is no other. */
  lemma {:induction false} AllMarked(bits: set<nat>, n: nat)
    requires forall i :: i in bits ==> i < n
    ensures |bits| <= n && (|bits| == n <==> forall i: nat :: i < n ==> i in bits)
  {
    if n > 0 {
      var rest := bits - {n - 1};
      AllMarked(rest, n - 1);
      if n - 1 in bits { assert bits == rest + {n - 1}; } else { assert rest == bits; }
    } else {
      assert bits == {};
    }
  }

  lemma HangLeaksNothing(st: Store, st': Store, owner: Owners, bits: set<nat>, ds: nat, ino: nat, s: Slot, b: nat)
    requires Shaped(st) && Owned(st, owner) && NoLeak(st, owner, bits, ds) && ino in st.inodes && Legal(s)
    requires s.Entry? ==> 0 < Val(st, ino, s.parent) < |st.disk|
    requires Val(st, ino, s) == 0 && 0 < b < |st.disk| && b < Pow256(8) && ds <= b && b !in owner && Zeroed(st.disk[b])
    requires st' == Put(st, ino, s, b) && Shaped(st') && Extends(st, st') && b - ds !in bits
    ensures NoLeak(st', owner[b := (ino, s)], bits + {b - ds}, ds)
    ensures Filled(st, st', |bits|, |bits + {b - ds}|, ino, {s})
  {
    hide Val, Put, Zeroed, Pow256;
    forall j, t | j in st.inodes && Legal(t)
      ensures Val(st', j, t) == if (j, t) == (ino, s) then b else Val(st, j, t)
    {
      PutFresh(st, owner, ino, s, b, j, t);
    }
    assert Gaps(st, ino, {s}) == {s};
    forall x | x in owner
      ensures HoldsBlock(st', owner[x], x)
    {
      assert HoldsBlock(st, owner[x], x);
    }
    hide Owned, Extends, Gaps;
  }

  /** Hanging a block that was just marked in use into an empty place. */
  lemma HangBlock(st: Store, st': Store, owner: Owners, bits: set<nat>, ds: nat, nb: nat, ino: nat, s: Slot, b: nat)
    requires Consistent(st, owner, bits, ds, nb) && ino in st.inodes && Legal(s)
    requires s.Entry? ==> 0 < Val(st, ino, s.parent) < |st.disk|
    requires Val(st, ino, s) == 0 && ds <= b < ds + nb && b - ds in bits && b !in owner && Zeroed(st.disk[b])
    requires st' == Put(st, ino, s, b)
    ensures Consistent(st', owner[b := (ino, s)], bits, ds, nb)
    ensures Extends(st, st') && Val(st', ino, s) == b
  {
    hide Val, Put, Zeroed, Pow256, Owned, Extends, Backed;
    AttachFresh(st, owner, ino, s, b);
    ExtendedContents(st, st', owner);
    SameFiles(st, st');
    hide Consistent;
    StaysConsistent(st, st', owner, bits, ds, nb, b, (ino, s));
  }

  /** Blocks that are in use changed, and one more block is in use. */
  lemma StaysConsistent(st: Store, st': Store, owner: Owners, bits: set<nat>, ds: nat, nb: nat, b: nat,
                        place: (nat, Slot))
    requires Consistent(st, owner, bits, ds, nb) && Shaped(st') && Owned(st', owner[b := place])
    requires |st'.disk| == |st.disk| && ds <= b < ds + nb && b - ds in bits
    requires forall x :: 0 <= x < |st.disk| && st'.disk[x] != st.disk[x] ==> x in owner
    requires forall j :: j in st'.inodes ==> Backed(st', j)
    ensures Consistent(st', owner[b := place], bits, ds, nb)
  {
    hide Zeroed, Pow256, Owned, Backed;
  }

  lemma SameFiles(st: Store, st': Store)
    requires Shaped(st) && Shaped(st') && Extends(st, st')
    ensures st'.inodes.Keys == st.inodes.Keys && |st'.disk| == |st.disk|
  {
  }

  lemma ExtendedContents(st: Store, st': Store, owner: Owners)
    requires Shaped(st) && Shaped(st') && Extends(st, st') && Owned(st, owner)
    requires forall j :: j in st.inodes ==> Backed(st, j)
    ensures forall j :: j in st.inodes ==> Backed(st', j) && Content(st', j) == Content(st, j)
  {
    forall j | j in st.inodes
      ensures Backed(st', j) && Content(st', j) == Content(st, j)
    {
      ExtendsKeepsContent(st, st', owner, j);
    }
  }

  lemma HeldBlock(st: Store, owner: Owners, ino: nat, s: Slot)
    requires Shaped(st) && Owned(st, owner) && ino in st.inodes && Legal(s) && Val(st, ino, s) != 0
    ensures 0 < Val(st, ino, s) < |st.disk| && Val(st, ino, s) in owner
  {
  }

  lemma HeldOnce(st: Store, owner: Owners, bits: set<nat>, ds: nat, nb: nat, i: nat, s: Slot, j: nat, t: Slot)
    requires Consistent(st, owner, bits, ds, nb) && i in st.inodes && j in st.inodes && Legal(s) && Legal(t)
    requires Val(st, i, s) != 0
    ensures ds <= Val(st, i, s) < ds + nb && Val(st, i, s) - ds in bits
    ensures Val(st, j, t) == Val(st, i, s) ==> j == i && t == s
  {
    hide Val, Zeroed, Pow256, Backed;
    HeldBlock(st, owner, i, s);
    if Val(st, j, t) == Val(st, i, s) { NoSharing(st, owner, i, s, j, t); }
  }

  /** Below the size of a file the walk finds the block. */
  lemma BlockFound(st: Store, owner: Owners, ino: nat, off: nat)
    requires Shaped(st) && Owned(st, owner) && Zeroed(st.disk[0]) && ino in st.inodes && Backed(st, ino)
    requires off < st.inodes[ino].size
    ensures Legal(DataSlot(off / BLOCK_SIZE))
    ensures Bmap(st, ino, off) == Ok(Val(st, ino, DataSlot(off / BLOCK_SIZE)))
    ensures Val(st, ino, DataSlot(off / BLOCK_SIZE)) < |st.disk|
  {
    hide Val, Owned, Zeroed, Bmap, DataSlot;
    var n := off / BLOCK_SIZE;
    assert n * BLOCK_SIZE < st.inodes[ino].size;
    BmapIsVal(st, owner, ino, off);
    HeldBlock(st, owner, ino, DataSlot(n));
  }

  /** A byte of a file that lies in the block of `off`. */
  lemma ByteOfBlock(st: Store, ino: nat, off: nat, b: nat, len: nat, x: nat)
    requires Shaped(st) && ino in st.inodes && off + len <= MAX_FILE_SIZE && off % BLOCK_SIZE + len <= BLOCK_SIZE
    requires Legal(DataSlot(off / BLOCK_SIZE)) && b == Val(st, ino, DataSlot(off / BLOCK_SIZE)) < |st.disk|
    requires off <= x < off + len
    ensures ByteAt(st, ino, x) == st.disk[b][off % BLOCK_SIZE + (x - off)]
  {
    hide Val, DataSlot;
    ChunkArithmetic(off, len, x);
  }

  /** One chunk of a write, on the whole state. */
  lemma ChunkContents(st: Store, owner: Owners, bits: set<nat>, ds: nat, nb: nat, ino: nat, off: nat, bytes: seq<Byte>)
    requires Consistent(st, owner, bits, ds, nb) && ChunkFits(st, owner, ino, off, bytes)
    requires off <= st.inodes[ino].size
    ensures var st' := WriteChunk(st, ino, off, bytes);
            Consistent(st', owner, bits, ds, nb) && Overwritten(st, st', ino, off, bytes)
  {
    hide Val, Content, Pow256, Owned, Overwrite, WriteChunk, DataSlot;
    var st' := WriteChunk(st, ino, off, bytes);
    ChunkKeepsInodes(st, owner, ino, off, bytes);
    ChunkKeepsPlaces(st, owner, ino, off, bytes);
    forall j | j in st.inodes
      ensures Backed(st', j)
      ensures Content(st', j) == if j == ino then Overwrite(Content(st, j), off, bytes) else Content(st, j)
    {
      ChunkOverwrites(st, owner, ino, off, bytes, j);
    }
    ChunkDisk(st, owner, ino, off, bytes);
  }

  /** The file of `ino` is overwritten from `off` by `bytes`, and no other file changes. */
  ghost predicate Overwritten(st: Store, st': Store, ino: nat, off: nat, bytes: seq<Byte>) {
    && Shaped(st) && Shaped(st') && st'.inodes.Keys == st.inodes.Keys
    && ino in st.inodes && off <= st.inodes[ino].size && off + |bytes| <= st'.inodes[ino].size
    && forall j :: j in st.inodes ==>
         && st.inodes[j].size <= MAX_FILE_SIZE && st'.inodes[j].size <= MAX_FILE_SIZE
         && st'.inodes[j].typ == st.inodes[j].typ
         && Content(st', j) == if j == ino then Overwrite(Content(st, j), off, bytes) else Content(st, j)
  }

  lemma OverwrittenMeans(st: Store, st': Store, ino: nat, off: nat, bytes: seq<Byte>)
    requires Overwritten(st, st', ino, off, bytes)
    ensures st'.inodes.Keys == st.inodes.Keys && ino in st'.inodes
    ensures off + |bytes| <= st'.inodes[ino].size <= MAX_FILE_SIZE
  {
  }

  lemma NothingWritten(st: Store, owner: Owners, bits: set<nat>, ds: nat, nb: nat, ino: nat, off: nat)
    requires Consistent(st, owner, bits, ds, nb) && ino in st.inodes && off <= st.inodes[ino].size
    ensures Overwritten(st, st, ino, off, [])
  {
    hide Val, Owned, Zeroed, Pow256, Content, Overwrite;
    BackedSizes(st);
    OverwriteNothing(Content(st, ino), off);
  }

  lemma BackedSizes(st: Store)
    requires Shaped(st) && forall j :: j in st.inodes ==> Backed(st, j)
    ensures forall j :: j in st.inodes ==> st.inodes[j].size <= MAX_FILE_SIZE
  {
  }

  /** Two writes one after the other. */
  lemma OverwrittenThen(a: Store, b: Store, c: Store, ino: nat, off: nat, x: seq<Byte>, y: seq<Byte>)
    requires Overwritten(a, b, ino, off, x) && Overwritten(b, c, ino, off + |x|, y)
    ensures Overwritten(a, c, ino, off, x + y)
  {
    hide Content, Overwrite, Shaped;
    OverwriteTwice(Content(a, ino), off, x, y);
  }

  /** Nothing was written before, or after. */
  lemma OverwrittenAfter(a: Store, b: Store, c: Store, ino: nat, off: nat, x: seq<Byte>)
    requires Overwritten(a, b, ino, off, []) && Overwritten(b, c, ino, off, x)
    ensures Overwritten(a, c, ino, off, x)
  {
    hide Overwritten;
    OverwrittenThen(a, b, c, ino, off, [], x);
    assert [] + x == x;
  }

  lemma OverwrittenBefore(a: Store, b: Store, c: Store, ino: nat, off: nat, x: seq<Byte>, end: nat)
    requires Overwritten(a, b, ino, off, x) && end == off + |x| && Overwritten(b, c, ino, end, [])
    ensures Overwritten(a, c, ino, off, x)
  {
    hide Overwritten;
    OverwrittenThen(a, b, c, ino, off, x, []);
    assert x + [] == x;
  }

  /** Hanging blocks into a file writes nothing. */
  lemma ExtendedFiles(st: Store, st': Store, owner: Owners, ino: nat, off: nat)
    requires Shaped(st) && Shaped(st') && Extends(st, st') && Owned(st, owner)
    requires forall j :: j in st.inodes ==> Backed(st, j)
    requires ino in st.inodes && off <= st.inodes[ino].size
    ensures Overwritten(st, st', ino, off, [])
  {
    hide Val, Owned, Content, Overwrite;
    BackedSizes(st);
    ExtendedContents(st, st', owner);
    BackedSizes(st');
    OverwriteNothing(Content(st, ino), off);
    hide Backed;
  }

  lemma SameSizes(st: Store, st': Store)
    requires Shaped(st) && Shaped(st') && Extends(st, st')
    ensures st'.inodes.Keys == st.inodes.Keys && forall j :: j in st.inodes ==> st'.inodes[j].size == st.inodes[j].size
  {
  }

  lemma KeepsBlank(st: Store, st': Store, ino: nat, off: nat, bytes: seq<Byte>)
    requires Shaped(st) && Shaped(st') && OnlyIn(st, st', ino) && Overwritten(st, st', ino, off, bytes)
    requires st.inodes[ino].typ != Unknown
    ensures Blank(st) ==> Blank(st')
  {
    hide Val, Content, Overwrite, OnlyIn;
    if Blank(st) { StaysBlank(st, st', ino); }
  }

  lemma ChunkDisk(st: Store, owner: Owners, ino: nat, off: nat, bytes: seq<Byte>)
    requires ChunkFits(st, owner, ino, off, bytes)
    ensures var st' := WriteChunk(st, ino, off, bytes);
            && st'.disk[0] == st.disk[0]
            && forall x :: 0 <= x < |st.disk| && st'.disk[x] != st.disk[x] ==> x in owner
  {
    hide Val;
    assert Val(st, ino, DataSlot(off / BLOCK_SIZE)) in owner;
  }

  lemma FreshInode(st: Store, owner: Owners, bits: set<nat>, ds: nat, nb: nat, ino: nat, typ: FileType)
    requires Consistent(st, owner, bits, ds, nb) && ino in st.inodes
    ensures Consistent(st.(inodes := st.inodes[ino := FRESH_INODE.(typ := typ)]), owner, bits, ds, nb)
  {
    hide Pow256, Zeroed;
    var st' := st.(inodes := st.inodes[ino := FRESH_INODE.(typ := typ)]);
    forall j, t | j in st.inodes && Legal(t)
      ensures Val(st', j, t) == if j == ino then 0 else Val(st, j, t)
    {
      if j == ino { FreshVal(st', j, t); } else { SizeIsNoPlace(st, st', j, t); }
    }
    hide Val;
  }

  lemma ChunkLeaksNothing(st: Store, owner: Owners, bits: set<nat>, ds: nat, ino: nat, off: nat, bytes: seq<Byte>)
    requires ChunkFits(st, owner, ino, off, bytes) && NoLeak(st, owner, bits, ds)
    ensures Shaped(WriteChunk(st, ino, off, bytes)) && NoLeak(WriteChunk(st, ino, off, bytes), owner, bits, ds)
    ensures SamePlaces(st, WriteChunk(st, ino, off, bytes))
  {
    hide Val, WriteChunk, DataSlot;
    var st' := WriteChunk(st, ino, off, bytes);
    ChunkKeepsInodes(st, owner, ino, off, bytes);
    ChunkKeepsPlaces(st, owner, ino, off, bytes);
    forall j, t | j in st.inodes && Legal(t)
      ensures Val(st', j, t) == Val(st, j, t)
    {
      ChunkKeepsPlace(st, owner, ino, off, bytes, j, t);
    }
    hide ChunkFits;
    forall x | x in owner
      ensures HoldsBlock(st', owner[x], x)
    {
      assert HoldsBlock(st, owner[x], x);
    }
  }

  lemma FreshLeaksNothing(st: Store, owner: Owners, bits: set<nat>, ds: nat, ino: nat, typ: FileType)
    requires Shaped(st) && Owned(st, owner) && NoLeak(st, owner, bits, ds) && Blank(st)
    requires ino in st.inodes && st.inodes[ino].typ == Unknown
    ensures var st' := st.(inodes := st.inodes[ino := FRESH_INODE.(typ := typ)]);
            Shaped(st') && NoLeak(st', owner, bits, ds) && Blank(st')
  {
    var st' := st.(inodes := st.inodes[ino := FRESH_INODE.(typ := typ)]);
    forall j, t | j in st.inodes && Legal(t)
      ensures Val(st', j, t) == if j == ino then 0 else Val(st, j, t)
    {
      if j == ino { FreshVal(st', j, t); } else { SizeIsNoPlace(st, st', j, t); }
    }
    hide Val;
    forall x | x in owner
      ensures HoldsBlock(st', owner[x], x)
    {
      assert HoldsBlock(st, owner[x], x);
    }
  }

  const FRESH_INODE := RawINode(Unknown, 0, seq(NUM_DIRECT, _ => 0), 0, 0)

  /** The numbers below `n`. */
  function Numbers(n: nat): (s: set<nat>)
    ensures forall i: nat :: i in s <==> i < n
  {
    if n == 0 then {} else Numbers(n - 1) + {n - 1}
  }

  lemma FreshStore(st: Store, ds: nat, nb: nat)
    requires 0 < ds && ds + nb == |st.disk| <= Pow256(8)
    requires forall b :: 0 <= b < |st.disk| ==> Zeroed(st.disk[b])
    requires forall ino :: ino in st.inodes ==> st.inodes[ino] == FRESH_INODE
    ensures Consistent(st, map[], {}, ds, nb) && Blank(st)
  {
    hide Pow256, Zeroed;
    assert Shaped(st) by { ZeroedShape(st.disk); }
    forall ino, s | ino in st.inodes && Legal(s)
      ensures Val(st, ino, s) == 0
    {
      FreshVal(st, ino, s);
    }
  }

  lemma ZeroedShape(disk: seq<Block>)
    requires forall b :: 0 <= b < |disk| ==> Zeroed(disk[b])
    ensures forall b :: 0 <= b < |disk| ==> |disk[b]| == BLOCK_SIZE
  {
  }

  lemma {:induction false} FreshVal(st: Store, ino: nat, s: Slot)
    requires Shaped(st) && ino in st.inodes && Legal(s)
    requires st.inodes[ino] == FRESH_INODE.(typ := st.inodes[ino].typ)
    ensures Val(st, ino, s) == 0
    decreases s
  {
    if s.Entry? { FreshVal(st, ino, s.parent); }
  }

  lemma OnlyInNothing(st: Store, ino: nat)
    requires Shaped(st)
    ensures OnlyIn(st, st, ino)
  {
  }

  /** One place: full, or empty and in need of a block. */
  lemma OnePlace(st: Store, n: nat, ino: nat, s: Slot)
    requires Shaped(st) && ino in st.inodes && Legal(s)
    ensures Val(st, ino, s) != 0 ==> Filled(st, st, n, n, ino, {s})
    ensures Val(st, ino, s) == 0 ==> Short(st, n, n, ino, {s})
  {
    hide Val;
    assert Gaps(st, ino, {s}) == if Val(st, ino, s) == 0 then {s} else {};
  }

  /** Where a write of `len` bytes ends. */
  function EndOf(offset: nat, len: nat): nat {
    if offset + len <= MAX_FILE_SIZE then offset + len else MAX_FILE_SIZE
  }

  /** The places for the blocks of the bytes from `offset` up to `end`. */
  function PlacesFor(offset: nat, end: nat): set<Slot> {
    if end <= offset then {} else Places(offset / BLOCK_SIZE, (end - 1) / BLOCK_SIZE + 1)
  }

  /** The free blocks last for what was written, which ends with a block, and not for one block more. */
  ghost predicate StopsShort(st: Store, n: nat, cap: nat, ino: nat, offset: nat, written: nat)
    requires Shaped(st) && ino in st.inodes
  {
    var b := (offset + written) / BLOCK_SIZE;
    && (written == 0 || (offset + written) % BLOCK_SIZE == 0)
    && !Short(st, n, cap, ino, Places(offset / BLOCK_SIZE, b))
    && Short(st, n, cap, ino, Places(offset / BLOCK_SIZE, b + 1))
  }

  /** How far a write from `offset` on has come: the blocks before `done` are written. */
  ghost predicate Written(offset: nat, off: nat, rest: seq<Byte>, done: nat) {
    && offset <= off && offset / BLOCK_SIZE <= done
    && (off == offset ==> done == offset / BLOCK_SIZE)
    && (off > offset ==> done == (off - 1) / BLOCK_SIZE + 1)
    && (rest != [] && off > offset ==> off % BLOCK_SIZE == 0)
  }

  lemma NoPlaces(st: Store, n: nat, ino: nat, b: nat)
    requires Shaped(st) && ino in st.inodes
    ensures Filled(st, st, n, n, ino, Places(b, b))
  {
    FilledNothing(st, n, ino);
  }

  lemma MorePlaces(offset: nat, off: nat, rest: seq<Byte>, done: nat, len: nat)
    requires Written(offset, off, rest, done) && 0 < len <= |rest| && off % BLOCK_SIZE + len <= BLOCK_SIZE
    requires len == |rest| || (off + len) % BLOCK_SIZE == 0
    ensures off / BLOCK_SIZE == done && Written(offset, off + len, rest[len..], done + 1)
    ensures Places(offset / BLOCK_SIZE, done + 1) == Places(offset / BLOCK_SIZE, done) + Trail(DataSlot(done))
  {
    var q, o := off / BLOCK_SIZE, off % BLOCK_SIZE;
    assert off == BLOCK_SIZE * q + o;
    BlockOf(q, o + len - 1);
    if off > offset { BlockBefore(off); }
    hide Trail, DataSlot;
  }

  /** A write that got to its end. */
  lemma WroteAll(st: Store, st': Store, n: nat, n': nat, cap: nat, ino: nat, offset: nat, off: nat, rest: seq<Byte>,
                 len: nat, done: nat)
    requires Shaped(st) && Shaped(st') && Written(offset, off, rest, done) && n' <= cap
    requires Filled(st, st', n, n', ino, Places(offset / BLOCK_SIZE, done))
    requires off + |rest| == offset + len && off <= MAX_FILE_SIZE && (rest == [] || off >= MAX_FILE_SIZE)
    ensures off == EndOf(offset, len) && !Short(st, n, cap, ino, PlacesFor(offset, EndOf(offset, len)))
  {
    hide Places, Val;
    if off == offset { assert Gaps(st, ino, {}) == {}; }
  }

  /** A write that stopped for want of blocks. */
  lemma RanShort(st: Store, st': Store, n: nat, n': nat, cap: nat, ino: nat, offset: nat, off: nat, rest: seq<Byte>,
                 len: nat, done: nat)
    requires Shaped(st) && Shaped(st') && Written(offset, off, rest, done) && rest != [] && n' <= cap
    requires Filled(st, st', n, n', ino, Places(offset / BLOCK_SIZE, done))
    requires Short(st', n', cap, ino, Trail(DataSlot(off / BLOCK_SIZE)))
    requires off + |rest| == offset + len && off < MAX_FILE_SIZE
    ensures StopsShort(st, n, cap, ino, offset, off - offset)
    ensures Short(st, n, cap, ino, PlacesFor(offset, EndOf(offset, len)))
  {
    hide Places, Trail, DataSlot, Gaps, Val, Filled, Short;
    var b, end := offset / BLOCK_SIZE, EndOf(offset, len);
    MorePlaces(offset, off, [0], done, 1);
    NotShort(st, st', n, n', cap, ino, Places(b, done));
    ShortThen(st, st', n, n', cap, ino, Places(b, done), Trail(DataSlot(done)));
    BlocksGrow(off, end - 1);
    PlacesGrow(b, done + 1, (end - 1) / BLOCK_SIZE + 1);
    ShortMore(st, n, cap, ino, Places(b, done + 1), Places(b, (end - 1) / BLOCK_SIZE + 1));
  }

  lemma NotShort(st: Store, st': Store, n: nat, n': nat, cap: nat, ino: nat, x: set<Slot>)
    requires Shaped(st) && Shaped(st') && Filled(st, st', n, n', ino, x) && n' <= cap
    ensures ino in st.inodes && !Short(st, n, cap, ino, x)
  {
  }

  lemma BlocksGrow(x: nat, y: nat)
    requires x <= y
    ensures x / BLOCK_SIZE <= y / BLOCK_SIZE
  {
  }

  lemma BlockOf(q: nat, o: nat)
    requires o < BLOCK_SIZE
    ensures (BLOCK_SIZE * q + o) / BLOCK_SIZE == q
  {
  }

  lemma BlockBefore(off: nat)
    requires off > 0 && off % BLOCK_SIZE == 0
    ensures (off - 1) / BLOCK_SIZE + 1 == off / BLOCK_SIZE
  {
  }

  /** How many levels of tables lie below the table that a place points to. */
  function Level(s: Slot): nat { if s == Double then 1 else 0 }

  /** The place that the walk from table `s` reaches for block `idx`. */
  function Target(s: Slot, level: nat, idx: nat): Slot
    decreases level
  {
    if level == 0 then Entry(s, idx)
    else Target(Entry(s, idx / PerEntry(level)), level - 1, idx % PerEntry(level))
  }

  /** The places that the walk comes to below table `s`. */
  function Steps(s: Slot, level: nat, idx: nat): set<Slot>
    decreases level
  {
    if level == 0 then {Entry(s, idx)}
    else
      var t := Entry(s, idx / PerEntry(level));
      {t} + Steps(t, level - 1, idx % PerEntry(level))
  }

  /** The walk for block `n` of a file comes to the places on the trail of that block. */
  lemma StepsAreTrail(n: nat)
    ensures n < NUM_DIRECT ==> DataSlot(n) == Direct(n) && Trail(DataSlot(n)) == {Direct(n)}
    ensures NUM_DIRECT <= n < NUM_DIRECT + PER_TABLE ==>
              Trail(DataSlot(n)) == {Indirect} + Steps(Indirect, 0, n - NUM_DIRECT)
    ensures NUM_DIRECT + PER_TABLE <= n ==>
              Trail(DataSlot(n)) == {Double} + Steps(Double, 1, n - NUM_DIRECT - PER_TABLE)
  {
    assert PerEntry(1) == PER_TABLE;
    if NUM_DIRECT + PER_TABLE <= n {
      var i := n - NUM_DIRECT - PER_TABLE;
      var t := Entry(Double, i / PER_TABLE);
      assert Trail(t) == {t, Double} && Steps(Double, 1, i) == {t} + Steps(t, 0, i % PER_TABLE);
    }
  }

  lemma TargetStep(s: Slot, level: nat, idx: nat)
    requires IsTable(s) && level == Level(s)
    ensures level == 0 ==> PerEntry(level) == 1 && Target(s, level, idx) == Entry(s, idx)
    ensures level == 0 ==> Steps(s, level, idx) == {Entry(s, idx)}
    ensures level == 0 && idx < PER_TABLE ==> Legal(Entry(s, idx))
    ensures level != 0 ==>
              var next, rest := idx / PerEntry(level), idx % PerEntry(level);
              && (next < PER_TABLE <==> idx < PER_TABLE * PerEntry(level))
              && rest < PER_TABLE * PerEntry(level - 1)
              && Target(s, level, idx) == Target(Entry(s, next), level - 1, rest)
              && Steps(s, level, idx) == {Entry(s, next)} + Steps(Entry(s, next), level - 1, rest)
              && (next < PER_TABLE ==> IsTable(Entry(s, next)) && Level(Entry(s, next)) == level - 1)
  {
    assert PerEntry(1) == PER_TABLE;
  }

  class EfsFileSystem {
    const sb: SuperBlock.RawSuperBlock
    const dataBitmap: Bitmap.BitmapBlocks
    var disk: seq<Block>
    var inodes: map<nat, RawINode>
    ghost var owner: Owners

    function St(): Store
      reads this
    {
      Store(disk, inodes)
    }

    /** What holds also between marking a block and hanging it into its place. */
    ghost predicate Sound()
      reads this, dataBitmap
    {
      && dataBitmap.Valid() && dataBitmap.bitsLen == sb.dataBlocks
      && Consistent(St(), owner, dataBitmap.Bits(), sb.dataStart, sb.dataBlocks)
    }

    ghost predicate Valid()
      reads this, dataBitmap
    {
      Sound() && NoLeak(St(), owner, dataBitmap.Bits(), sb.dataStart)
    }

    /** How many data blocks are in use. */
    ghost function Marked(): nat
      reads dataBitmap
      requires dataBitmap.Valid()
    {
      |dataBitmap.Bits()|
    }

    /** All blocks are in use just when every bit is set. */
    lemma MarkedMeans()
      requires dataBitmap.Valid() && dataBitmap.bitsLen == sb.dataBlocks
      ensures Marked() <= sb.dataBlocks
      ensures Marked() == sb.dataBlocks <==> forall i: nat :: i < sb.dataBlocks ==> i in dataBitmap.Bits()
    {
      AllMarked(dataBitmap.Bits(), sb.dataBlocks);
    }

    lemma ValidMeans()
      requires Valid()
      ensures Shaped(St()) && dataBitmap.Valid() && Marked() <= sb.dataBlocks
    {
      MarkedMeans();
    }

    lemma SoundMeans()
      requires Sound()
      ensures Shaped(St()) && Owned(St(), owner)
    {
    }

    /** Each block that a file reaches, table or data, lies in the data region, is marked in the
        data bitmap, and is reached by that one path only. */
    lemma BlockOwnership(i: nat, s: Slot, j: nat, t: Slot)
      requires Valid() && i in inodes && j in inodes && Legal(s) && Legal(t) && Val(St(), i, s) != 0
      ensures sb.dataStart <= Val(St(), i, s) < sb.dataStart + sb.dataBlocks
      ensures Val(St(), i, s) - sb.dataStart in dataBitmap.Bits()
      ensures Val(St(), j, t) == Val(St(), i, s) ==> j == i && t == s
    {
      hide Val, Consistent, Bitmap.BitmapBlocks.Valid, NoLeak, Shaped;
      HeldOnce(St(), owner, dataBitmap.Bits(), sb.dataStart, sb.dataBlocks, i, s, j, t);
    }

    /** Each block that is marked in the data bitmap is held by a place: none is lost. */
    lemma MarkedIsHeld(i: nat) returns (ino: nat, s: Slot)
      requires Valid() && i in dataBitmap.Bits()
      ensures ino in inodes && Legal(s) && Val(St(), ino, s) == i + sb.dataStart
    {
      hide Val, Consistent, Bitmap.BitmapBlocks.Valid, Bitmap.Below;
      SoundMeans();
      assert i + sb.dataStart in owner;
      assert HoldsBlock(St(), owner[i + sb.dataStart], i + sb.dataStart);
      ino, s := owner[i + sb.dataStart].0, owner[i + sb.dataStart].1;
    }

    /** A freshly made image: all blocks zero, nothing in use, no inode initialized. */
    constructor (layout: SuperBlock.RawSuperBlock)
      requires layout.dataStart + layout.dataBlocks <= Pow256(8)
      ensures Valid() && Blank(St()) && sb == layout && fresh(dataBitmap) && dataBitmap.Bits() == {}
      ensures inodes == map ino | ino in Numbers(layout.inodeCounts) :: FRESH_INODE
    {
      sb := layout;
      var bitmap := new Bitmap.BitmapBlocks(layout.dataBitmapStart, layout.dataBlocks);
      dataBitmap := bitmap;
      disk := seq(layout.dataStart + layout.dataBlocks, _ => seq(BLOCK_SIZE, _ => 0));
      inodes := map ino | ino in Numbers(layout.inodeCounts) :: FRESH_INODE;
      owner := map[];
      new;
      FreshStore(St(), layout.dataStart, layout.dataBlocks);
    }

    method AllocDataBlock() returns (r: Result<nat>)
      requires Valid()
      modifies dataBitmap
      ensures Sound()
      ensures r.Err? <==> old(Marked()) == sb.dataBlocks
      ensures r.Err? ==> r.error == NoSpaceLeft && dataBitmap.Bits() == old(dataBitmap.Bits())
      ensures r.Ok? ==>
                && sb.dataStart <= r.value < sb.dataStart + sb.dataBlocks
                && r.value - sb.dataStart !in old(dataBitmap.Bits())
                && dataBitmap.Bits() == old(dataBitmap.Bits()) + {r.value - sb.dataStart}
                && r.value !in owner && Zeroed(disk[r.value])
    {
      hide Shaped, Owned, Backed, Bitmap.Below, Zeroed, Pow256;
      MarkedMeans();
      var bit := dataBitmap.AllocBit();
      r := if bit.None? then Err(NoSpaceLeft) else Ok(bit.value + sb.dataStart);
    }

    /** The closure of `bmap_and_alloc_if_need`, which is also how a missing table is made: a
        place without a block gets a fresh one. */
    method AllocIfNeed(ino: nat, s: Slot) returns (r: Result<nat>)
      requires Valid() && ino in inodes && Legal(s)
      requires s.Entry? ==> Val(St(), ino, s.parent) != 0
      modifies this, dataBitmap
      ensures Valid() && Extends(old(St()), St()) && OnlyIn(old(St()), St(), ino)
      ensures r.Ok? ==> r.value == Val(St(), ino, s) != 0 && Filled(old(St()), St(), old(Marked()), Marked(), ino, {s})
      ensures r.Err? ==>
                r.error == NoSpaceLeft && Short(old(St()), old(Marked()), sb.dataBlocks, ino, {s}) && St() == old(St())
    {
      hide Val, Put, Owned, Backed, Zeroed, Pow256, Bitmap.Below, Bitmap.BitmapBlocks.Valid, NoLeak, Filled, OnlyIn;
      ExtendsItself(St());
      OnlyInNothing(St(), ino);
      OnePlace(St(), Marked(), ino, s);
      var v := Val(St(), ino, s);
      if v != 0 { return Ok(v); }
      ghost var bits := dataBitmap.Bits();
      var b := AllocDataBlock();
      if b.Err? { return Err(b.error); }
      if s.Entry? { HeldBlock(St(), owner, ino, s.parent); }
      HangBlock(St(), Put(St(), ino, s, b.value), owner, dataBitmap.Bits(), sb.dataStart, sb.dataBlocks, ino, s,
          b.value);
      HangLeaksNothing(St(), Put(St(), ino, s, b.value), owner, bits, sb.dataStart, ino, s, b.value);
      FilledOnlyIn(St(), Put(St(), ino, s, b.value), |bits|, Marked(), ino, {s});
      var st := Put(St(), ino, s, b.value);
      owner := owner[b.value := (ino, s)];
      disk, inodes := st.disk, st.inodes;
      r := Ok(b.value);
    }

    /** Reaches, below table `s`, the place for block `idx`, making what is missing. */
    method Bmap0Mut(ino: nat, s: Slot, level: nat, idx: nat) returns (r: Result<nat>)
      requires Valid() && ino in inodes && IsTable(s) && level == Level(s) && Val(St(), ino, s) != 0
      modifies this, dataBitmap
      ensures Valid() && Extends(old(St()), St()) && OnlyIn(old(St()), St(), ino)
      ensures r.Ok? ==>
                && idx < PER_TABLE * PerEntry(level) && Legal(Target(s, level, idx))
                && r.value == Val(St(), ino, Target(s, level, idx)) != 0
                && Filled(old(St()), St(), old(Marked()), Marked(), ino, Steps(s, level, idx))
      ensures idx >= PER_TABLE * PerEntry(level) ==>
                r == Err(FileTooLarge) && St() == old(St()) && Marked() == old(Marked())
      ensures r.Err? && idx < PER_TABLE * PerEntry(level) ==> r.error == NoSpaceLeft
      ensures r == Err(NoSpaceLeft) ==> Short(old(St()), old(Marked()), sb.dataBlocks, ino, Steps(s, level, idx))
      decreases level, 0
    {
      ExtendsItself(St());
      OnlyInNothing(St(), ino);
      TargetStep(s, level, idx);
      hide Val, Valid, Extends, PerEntry, Target, Legal, IsTable, Filled, Short, Steps, OnlyIn;
      if level == 0 {
        if idx >= PER_TABLE { return Err(FileTooLarge); }
        r := AllocIfNeed(ino, Entry(s, idx));
      } else {
        var next := idx / PerEntry(level);
        if next >= PER_TABLE { return Err(FileTooLarge); }
        r := BmapMutFromBlk(ino, Entry(s, next), level - 1, idx % PerEntry(level));
      }
    }

    /** The outcome for a block past the last one below table `s`: the table is made all the same, and
        that fails first. */
    ghost predicate TooFar(r: Result<nat>, before: Store, n: nat, ino: nat, s: Slot)
      reads this, dataBitmap
      requires Valid() && Shaped(before) && ino in before.inodes
    {
      ValidMeans();
      if Short(before, n, sb.dataBlocks, ino, {s}) then r == Err(NoSpaceLeft) && St() == before
      else r == Err(FileTooLarge) && Filled(before, St(), n, Marked(), ino, {s})
    }

    method BmapMutFromBlk(ino: nat, s: Slot, level: nat, idx: nat) returns (r: Result<nat>)
      requires Valid() && ino in inodes && IsTable(s) && level == Level(s)
      requires s.Entry? ==> Val(St(), ino, s.parent) != 0
      modifies this, dataBitmap
      ensures Valid() && Extends(old(St()), St()) && OnlyIn(old(St()), St(), ino)
      ensures r.Ok? ==>
                && idx < PER_TABLE * PerEntry(level) && Legal(Target(s, level, idx))
                && r.value == Val(St(), ino, Target(s, level, idx)) != 0
                && Filled(old(St()), St(), old(Marked()), Marked(), ino, {s} + Steps(s, level, idx))
      ensures idx < PER_TABLE * PerEntry(level) ==>
                && (r.Err? ==> r.error == NoSpaceLeft)
                && (r.Ok? <==> !Short(old(St()), old(Marked()), sb.dataBlocks, ino, {s} + Steps(s, level, idx)))
      ensures idx >= PER_TABLE * PerEntry(level) ==> TooFar(r, old(St()), old(Marked()), ino, s)
      decreases level, 1
    {
      hide Val, Valid, Extends, PerEntry, Target, Filled, Short, Steps, Shaped, Bitmap.BitmapBlocks.Valid, OnlyIn;
      ValidMeans();
      ghost var before, n0 := St(), Marked();
      var t := AllocIfNeed(ino, s);
      ValidMeans();
      SameFiles(before, St());
      if t.Err? {
        ShortMore(before, n0, sb.dataBlocks, ino, {s}, {s} + Steps(s, level, idx));
        return t;
      }
      ghost var mid, n1 := St(), Marked();
      NotShort(before, mid, n0, n1, sb.dataBlocks, ino, {s});
      r := Bmap0Mut(ino, s, level, idx);
      ValidMeans();
      ExtendsTransitive(before, mid, St());
      OnlyInThen(before, mid, St(), ino);
      if r.Ok? {
        FilledThen(before, mid, St(), n0, n1, Marked(), ino, {s}, Steps(s, level, idx));
        NotShort(before, St(), n0, Marked(), sb.dataBlocks, ino, {s} + Steps(s, level, idx));
      }
      if r == Err(NoSpaceLeft) { ShortThen(before, mid, n0, n1, sb.dataBlocks, ino, {s}, Steps(s, level, idx)); }
    }

    /** The data block of an offset, allocated with its tables if it is missing: it succeeds exactly
        when there is such an offset and the free blocks last for the places that are empty.  Past the
        maximal size the file is too large unless there is not even a block for the table. */
    method BmapAndAllocIfNeed(ino: nat, offset: nat) returns (r: Result<nat>)
      requires Valid() && ino in inodes
      modifies this, dataBitmap
      ensures Valid() && Extends(old(St()), St()) && OnlyIn(old(St()), St(), ino)
      ensures r.Ok? ==>
                && offset < MAX_FILE_SIZE && Legal(DataSlot(offset / BLOCK_SIZE))
                && r.value == Val(St(), ino, DataSlot(offset / BLOCK_SIZE)) != 0
                && Filled(old(St()), St(), old(Marked()), Marked(), ino, Trail(DataSlot(offset / BLOCK_SIZE)))
      ensures offset < MAX_FILE_SIZE ==>
                && (r.Err? ==> r.error == NoSpaceLeft)
                && (r.Ok? <==>
                      !Short(old(St()), old(Marked()), sb.dataBlocks, ino, Trail(DataSlot(offset / BLOCK_SIZE))))
      ensures offset >= MAX_FILE_SIZE ==> TooFar(r, old(St()), old(Marked()), ino, Double)
    {
      hide Val, Valid, Extends, Filled, Short, Steps, Trail, OnlyIn;
      ValidMeans();
      ghost var before, n0 := St(), Marked();
      var n := offset / BLOCK_SIZE;
      StepsAreTrail(n);
      if n < NUM_DIRECT {
        r := AllocIfNeed(ino, Direct(n));
        ValidMeans();
        if r.Ok? { NotShort(before, St(), n0, Marked(), sb.dataBlocks, ino, {Direct(n)}); }
        return;
      }
      n := n - NUM_DIRECT;
      if n < PER_TABLE { r := BmapMutFromBlk(ino, Indirect, 0, n); return; }
      n := n - PER_TABLE;
      assert PerEntry(1) == PER_TABLE;
      r := BmapMutFromBlk(ino, Double, 1, n);
    }

    /** Initializes an inode; that loses no block as long as inodes that are not initialized have
        none. */
    method InitInode(ino: nat, typ: FileType) returns (r: Result<()>)
      requires Valid() && ino in inodes && typ != Unknown
      modifies this
      ensures Sound() && (old(Blank(St())) ==> Valid() && Blank(St()))
      ensures r.Err? <==> old(inodes[ino].typ) != Unknown
      ensures r.Err? ==> St() == old(St()) && r.error == FileSystemCorruption && Valid()
      ensures r.Ok? ==> inodes == old(inodes)[ino := FRESH_INODE.(typ := typ)] && disk == old(disk)
    {
      if inodes[ino].typ != Unknown { return Err(FileSystemCorruption); }
      hide Consistent, NoLeak, Owned, Blank;
      SoundMeans();
      FreshInode(St(), owner, dataBitmap.Bits(), sb.dataStart, sb.dataBlocks, ino, typ);
      if Blank(St()) { FreshLeaksNothing(St(), owner, dataBitmap.Bits(), sb.dataStart, ino, typ); }
      inodes := inodes[ino := FRESH_INODE.(typ := typ)];
      r := Ok(());
    }

    /** Writes `src` at `offset`, as far as the maximal file size and the free blocks allow. In
        every outcome the file is its old contents overwritten by a prefix of `src`, and no other
        file changes.  It gets as far as it should exactly when the free blocks last for the empty
        places of all the blocks it writes; else it stops before the first block that they do not
        last for. */
    method Write(ino: nat, offset: nat, src: seq<Byte>) returns (r: Result<nat>, ghost written: nat)
      requires Valid() && ino in inodes
      modifies this, dataBitmap
      ensures Valid() && (old(Blank(St())) ==> Blank(St()))
      ensures offset > old(inodes[ino].size) ==> r == Err(InvalidArgument) && St() == old(St())
      ensures offset <= old(inodes[ino].size) && old(inodes[ino].typ) in {Unknown, Device} ==>
                r == Err(InvalidData) && St() == old(St())
      ensures offset <= old(inodes[ino].size) && old(inodes[ino].typ) !in {Unknown, Device} ==>
                && written <= |src| && Overwritten(old(St()), St(), ino, offset, src[..written])
                && (r.Ok? ==> r.value == written == EndOf(offset, |src|) - offset)
                && (r.Err? ==> r.error == NoSpaceLeft)
                && (r.Ok? <==>
                      !Short(old(St()), old(Marked()), sb.dataBlocks, ino, PlacesFor(offset, EndOf(offset, |src|))))
                && (r.Err? ==> StopsShort(old(St()), old(Marked()), sb.dataBlocks, ino, offset, written))
    {
      hide Val, Consistent, DataSlot, Bitmap.BitmapBlocks.Valid, NoLeak, Filled, Short, Places, Trail, OnlyIn,
        PlacesFor, StopsShort, EndOf, Blank, Overwritten, Shaped;
      if offset > inodes[ino].size { return Err(InvalidArgument), 0; }
      if inodes[ino].typ in {Unknown, Device} { return Err(InvalidData), 0; }

      var off, rest, writeLen: nat := offset, src, 0;
      ghost var st0, n0: nat, done: nat := St(), Marked(), offset / BLOCK_SIZE;
      ValidMeans();
      NothingWritten(st0, owner, dataBitmap.Bits(), sb.dataStart, sb.dataBlocks, ino, offset);
      OverwrittenMeans(st0, st0, ino, offset, []);
      NoPlaces(st0, n0, ino, done);
      OnlyInNothing(st0, ino);
      assert src[..0] == [];
      while rest != []
        invariant Valid() && Shaped(St()) && dataBitmap.Valid()
        invariant writeLen <= |src| && off == offset + writeLen <= MAX_FILE_SIZE && rest == src[writeLen..]
        invariant Overwritten(st0, St(), ino, offset, src[..writeLen]) && OnlyIn(st0, St(), ino)
        invariant Filled(st0, St(), n0, Marked(), ino, Places(offset / BLOCK_SIZE, done))
        invariant Written(offset, off, rest, done)
        decreases |rest|
      {
        if off >= MAX_FILE_SIZE { break; }
        ghost var mid, n1 := St(), Marked();
        MarkedMeans();
        OverwrittenMeans(st0, mid, ino, offset, src[..writeLen]);
        var len := WriteRound(ino, off, rest);
        ValidMeans();
        OnlyInThen(st0, mid, St(), ino);
        if len.Err? {
          RanShort(st0, mid, n0, n1, sb.dataBlocks, ino, offset, off, rest, |src|, done);
          OverwrittenBefore(st0, mid, St(), ino, offset, src[..writeLen], off);
          KeepsBlank(st0, St(), ino, offset, src[..writeLen]);
          return Err(len.error), writeLen;
        }
        OverwrittenThen(st0, mid, St(), ino, offset, src[..writeLen], rest[..len.value]);
        assert src[..writeLen] + rest[..len.value] == src[..writeLen + len.value];
        FilledThen(st0, mid, St(), n0, n1, Marked(), ino, Places(offset / BLOCK_SIZE, done),
            Trail(DataSlot(off / BLOCK_SIZE)));
        MorePlaces(offset, off, rest, done, len.value);
        OverwrittenMeans(st0, St(), ino, offset, src[..writeLen + len.value]);
        rest := rest[len.value..];
        writeLen := writeLen + len.value;
        off := off + len.value;
        done := done + 1;
      }
      MarkedMeans();
      WroteAll(st0, St(), n0, Marked(), sb.dataBlocks, ino, offset, off, rest, |src|, done);
      KeepsBlank(st0, St(), ino, offset, src[..writeLen]);
      r, written := Ok(writeLen), writeLen;
    }

    /** One round of the loop in `write`: as much as the block of `off` takes. */
    method WriteRound(ino: nat, off: nat, rest: seq<Byte>) returns (r: Result<nat>)
      requires Valid() && ino in inodes && off <= inodes[ino].size && off < MAX_FILE_SIZE && rest != []
      modifies this, dataBitmap
      ensures Valid() && OnlyIn(old(St()), St(), ino)
      ensures r.Ok? ==>
                && 0 < r.value <= |rest| && off % BLOCK_SIZE + r.value <= BLOCK_SIZE
                && (r.value == |rest| || (off + r.value) % BLOCK_SIZE == 0)
                && Overwritten(old(St()), St(), ino, off, rest[..r.value])
                && Filled(old(St()), St(), old(Marked()), Marked(), ino, Trail(DataSlot(off / BLOCK_SIZE)))
      ensures r.Err? ==>
                && r.error == NoSpaceLeft && Overwritten(old(St()), St(), ino, off, [])
                && Short(old(St()), old(Marked()), sb.dataBlocks, ino, Trail(DataSlot(off / BLOCK_SIZE)))
    {
      hide Val, Backed, DataSlot, Bitmap.BitmapBlocks.Valid, NoLeak, Filled, Short, Trail, OnlyIn, SamePlaces,
        Overwritten, Extends, Content, Consistent, Owned, Shaped, ChunkFits;
      ValidMeans();
      FilesBacked();
      ghost var before, n0 := St(), Marked();
      var b := BmapAndAllocIfNeed(ino, off);
      ValidMeans();
      ExtendedFiles(before, St(), old(owner), ino, off);
      if b.Err? { return Err(b.error); }
      var o := off % BLOCK_SIZE;
      var len := if BLOCK_SIZE - o < |rest| then BLOCK_SIZE - o else |rest|;
      SameSizes(before, St());
      ChunkReady(ino, off, rest[..len]);
      ghost var mid := St();
      PutChunk(ino, off, rest[..len], b.value);
      ValidMeans();
      FilledSame(before, mid, St(), n0, Marked(), ino, Trail(DataSlot(off / BLOCK_SIZE)));
      FilledOnlyIn(before, St(), n0, Marked(), ino, Trail(DataSlot(off / BLOCK_SIZE)));
      OverwrittenAfter(before, mid, St(), ino, off, rest[..len]);
      r := Ok(len);
    }

    lemma FilesBacked()
      requires Valid()
      ensures Owned(St(), owner) && Shaped(St()) && forall j :: j in inodes ==> Backed(St(), j)
    {
      hide Owned, Backed, NoLeak;
    }

    lemma ChunkReady(ino: nat, off: nat, bytes: seq<Byte>)
      requires Valid() && ino in inodes && off < MAX_FILE_SIZE && off % BLOCK_SIZE + |bytes| <= BLOCK_SIZE
      requires Shaped(St()) && Val(St(), ino, DataSlot(off / BLOCK_SIZE)) != 0
      ensures ChunkFits(St(), owner, ino, off, bytes)
    {
      hide Val, Owned, NoLeak, DataSlot, Backed, Bitmap.BitmapBlocks.Valid;
      DataSlotFacts(off / BLOCK_SIZE, 0);
      HeldBlock(St(), owner, ino, DataSlot(off / BLOCK_SIZE));
    }

    /** Copies a chunk into its block and updates the size. */
    method PutChunk(ino: nat, off: nat, bytes: seq<Byte>, b: nat)
      requires Valid() && ChunkFits(St(), owner, ino, off, bytes) && off <= inodes[ino].size
      requires b == Val(St(), ino, DataSlot(off / BLOCK_SIZE))
      modifies this
      ensures Valid() && St() == WriteChunk(old(St()), ino, off, bytes) && SamePlaces(old(St()), St())
      ensures Overwritten(old(St()), St(), ino, off, bytes)
    {
      hide Val, Content, Overwritten, Consistent, Pow256, Owned, Overwrite, DataSlot, Bitmap.BitmapBlocks.Valid,
        Bitmap.Below, Zeroed, NoLeak, SamePlaces;
      ChunkContents(St(), owner, dataBitmap.Bits(), sb.dataStart, sb.dataBlocks, ino, off, bytes);
      ChunkLeaksNothing(St(), owner, dataBitmap.Bits(), sb.dataStart, ino, off, bytes);
      disk := disk[b := Patch(disk[b], off % BLOCK_SIZE, bytes)];
      var n := inodes[ino];
      inodes := inodes[ino := n.(size := if n.size < off + |bytes| then off + |bytes| else n.size)];
    }

    /** Reads exactly the part of the flat byte array from `offset` on that fits in `dst`; no
        block below the file's size is ever missing. */
    method Read(ino: nat, offset: nat, dst: array<Byte>) returns (r: Result<nat>)
      requires Valid() && ino in inodes
      modifies dst
      ensures offset > inodes[ino].size ==> r == Err(InvalidArgument)
      ensures offset <= inodes[ino].size && inodes[ino].typ in {Unknown, Device} ==> r == Err(InvalidData)
      ensures r.Err? ==> dst[..] == old(dst[..])
      ensures offset <= inodes[ino].size && inodes[ino].typ !in {Unknown, Device} ==>
                && r.Ok?
                && r.value == (if dst.Length < inodes[ino].size - offset then dst.Length else inodes[ino].size - offset)
                && dst[..r.value] == Content(St(), ino)[offset..offset + r.value]
                && dst[r.value..] == old(dst[r.value..])
    {
      hide Val, Pow256, Owned, DataSlot, Bitmap.BitmapBlocks.Valid, Bitmap.Below, Zeroed, ByteAt, Bmap, NoLeak;
      if offset > inodes[ino].size { return Err(InvalidArgument); }
      if inodes[ino].typ in {Unknown, Device} { return Err(InvalidData); }

      var off, readLen: nat := offset, 0;
      var remaining := inodes[ino].size - offset;
      while readLen < dst.Length && readLen < remaining
        invariant readLen <= dst.Length && readLen <= remaining && off == offset + readLen
        invariant forall i :: 0 <= i < readLen ==> dst[i] == ByteAt(St(), ino, offset + i)
        invariant forall i :: readLen <= i < dst.Length ==> dst[i] == old(dst[i])
        decreases remaining - readLen
      {
        if off >= MAX_FILE_SIZE { return Ok(readLen); }
        var b := Bmap(St(), ino, off);
        BlockFound(St(), owner, ino, off);
        var o := off % BLOCK_SIZE;
        var len := BLOCK_SIZE - o;
        if dst.Length - readLen < len { len := dst.Length - readLen; }
        if remaining - readLen < len { len := remaining - readLen; }
        forall i | 0 <= i < len { dst[readLen + i] := disk[b.value][o + i]; }
        forall i | 0 <= i < readLen + len
          ensures dst[i] == ByteAt(St(), ino, offset + i)
        {
          if i >= readLen {
            ByteOfBlock(St(), ino, off, b.value, len, offset + i);
            assert dst[readLen + (i - readLen)] == disk[b.value][o + (i - readLen)];
          }
        }
        readLen := readLen + len;
        off := off + len;
      }
      r := Ok(readLen);
    }
  }
}
