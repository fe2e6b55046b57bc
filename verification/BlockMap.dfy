/** The block map of an EFS inode on a flat block store: direct pointers, an indirect table and
    a double-indirect table of tables, all of them little-endian words in data blocks. */
module BlockMap {
  import opened LittleEndian
  import opened Wrappers

  const PER_TABLE: nat := 512         // BLK_NUMS_PER_BLOCK
  const NUM_DIRECT: nat := 12
  const MAX_BLOCKS: nat := NUM_DIRECT + PER_TABLE + PER_TABLE * PER_TABLE
  const MAX_FILE_SIZE: nat := MAX_BLOCKS * BLOCK_SIZE

  type Block = seq<Byte>

  datatype FileType = Unknown | Directory | File | Device | Symlink

  datatype RawINode = RawINode(typ: FileType, size: nat, direct: seq<nat>, indirect: nat, dbl: nat)

  // ---------------------------------------------------------------- words in blocks

  /** Entry `i` of a block read as a table. */
  function GetEntry(b: Block, i: nat): nat
    requires |b| == BLOCK_SIZE && i < PER_TABLE
  {
    Decode(b[8 * i..8 * i + 8])
  }

  function SetEntry(b: Block, i: nat, v: nat): (b': Block)
    requires |b| == BLOCK_SIZE && i < PER_TABLE
    ensures |b'| == BLOCK_SIZE
  {
    b[..8 * i] + Encode(v, 8) + b[8 * i + 8..]
  }

  lemma GetSetEntry(b: Block, i: nat, v: nat, j: nat)
    requires |b| == BLOCK_SIZE && i < PER_TABLE && j < PER_TABLE && v < Pow256(8)
    ensures GetEntry(SetEntry(b, i, v), j) == if i == j then v else GetEntry(b, j)
  {
    var b' := SetEntry(b, i, v);
    if i == j {
      assert b'[8 * i..8 * i + 8] == Encode(v, 8);
      DecodeEncode(v, 8);
    } else {
      assert b'[8 * j..8 * j + 8] == b[8 * j..8 * j + 8];
    }
  }

  ghost predicate Zeroed(b: Block) {
    |b| == BLOCK_SIZE && forall i :: 0 <= i < BLOCK_SIZE ==> b[i] == 0
  }

  lemma ZeroEntry(b: Block, i: nat)
    requires Zeroed(b) && i < PER_TABLE
    ensures GetEntry(b, i) == 0
  {
    DecodeZeros(b[8 * i..8 * i + 8]);
  }

  // ---------------------------------------------------------------- places for block numbers

  /** A place that holds a block number: in the inode, or an entry of the table that another
      place points to. */
  datatype Slot = Direct(i: nat) | Indirect | Double | Entry(parent: Slot, idx: nat)

  predicate IsTable(s: Slot) {
    s == Indirect || s == Double || (s.Entry? && s.parent == Double && s.idx < PER_TABLE)
  }

  predicate IsData(s: Slot) {
    match s
    case Direct(i) => i < NUM_DIRECT
    case Entry(p, i) => i < PER_TABLE && (p == Indirect || (p.Entry? && p.parent == Double && p.idx < PER_TABLE))
    case _ => false
  }

  predicate Legal(s: Slot) { IsTable(s) || IsData(s) }

  /** The place of the block number of a file's block `n`. */
  function DataSlot(n: nat): Slot {
    if n < NUM_DIRECT then Direct(n)
    else if n - NUM_DIRECT < PER_TABLE then Entry(Indirect, n - NUM_DIRECT)
    else
      var i := n - NUM_DIRECT - PER_TABLE;
      Entry(Entry(Double, i / PER_TABLE), i % PER_TABLE)
  }

  lemma DataSlotFacts(n: nat, m: nat)
    requires n < MAX_BLOCKS && m < MAX_BLOCKS
    ensures IsData(DataSlot(n))
    ensures DataSlot(n) == DataSlot(m) ==> n == m
  {
    var i, j := n - NUM_DIRECT - PER_TABLE, m - NUM_DIRECT - PER_TABLE;
    if i >= 0 && j >= 0 { assert i / PER_TABLE < PER_TABLE && j / PER_TABLE < PER_TABLE; }
  }

  // ---------------------------------------------------------------- the store

  /** The block store and the inodes on it. */
  datatype Store = Store(disk: seq<Block>, inodes: map<nat, RawINode>)

  ghost predicate Shaped(st: Store) {
    && |st.disk| > 0
    && (forall b :: 0 <= b < |st.disk| ==> |st.disk[b]| == BLOCK_SIZE)
    && (forall ino :: ino in st.inodes ==> |st.inodes[ino].direct| == NUM_DIRECT)
  }

  /** The block number in a place; 0 when there is none, also along a missing table. */
  function Val(st: Store, ino: nat, s: Slot): nat
    requires Shaped(st) && ino in st.inodes && Legal(s)
  {
    match s
    case Direct(i) => st.inodes[ino].direct[i]
    case Indirect => st.inodes[ino].indirect
    case Double => st.inodes[ino].dbl
    case Entry(p, i) =>
      var t := Val(st, ino, p);
      if 0 < t < |st.disk| then GetEntry(st.disk[t], i) else 0
  }

  /** Writes a block number into a place. */
  function Put(st: Store, ino: nat, s: Slot, v: nat): Store
    requires Shaped(st) && ino in st.inodes && Legal(s)
    requires s.Entry? ==> 0 < Val(st, ino, s.parent) < |st.disk|
  {
    var n := st.inodes[ino];
    match s
    case Direct(i) => st.(inodes := st.inodes[ino := n.(direct := n.direct[i := v])])
    case Indirect => st.(inodes := st.inodes[ino := n.(indirect := v)])
    case Double => st.(inodes := st.inodes[ino := n.(dbl := v)])
    case Entry(p, i) =>
      var t := Val(st, ino, p);
      st.(disk := st.disk[t := SetEntry(st.disk[t], i, v)])
  }

  /** Each block that any place holds is held by that place alone; `owner` says by which. */
  type Owners = map<nat, (nat, Slot)>

  ghost predicate Owned(st: Store, owner: Owners)
    requires Shaped(st)
  {
    && (forall ino, s :: ino in st.inodes && Legal(s) && Val(st, ino, s) != 0 ==>
          Val(st, ino, s) in owner && owner[Val(st, ino, s)] == (ino, s))
    && (forall b :: b in owner ==> 0 < b < |st.disk|)
  }

  /** Two places that hold the same block are the same place. */
  lemma NoSharing(st: Store, owner: Owners, i: nat, s: Slot, j: nat, t: Slot)
    requires Shaped(st) && Owned(st, owner) && i in st.inodes && j in st.inodes && Legal(s) && Legal(t)
    requires Val(st, i, s) == Val(st, j, t) != 0
    ensures i == j && s == t
  {
    assert owner[Val(st, i, s)] == (i, s) && owner[Val(st, j, t)] == (j, t);
  }

  /** Storing a fresh zeroed block in an empty place changes that place and no other. */
  lemma {:induction false} PutFresh(st: Store, owner: Owners, ino: nat, s: Slot, b: nat, j: nat, t: Slot)
    requires Shaped(st) && Owned(st, owner) && ino in st.inodes && j in st.inodes && Legal(s) && Legal(t)
    requires s.Entry? ==> 0 < Val(st, ino, s.parent) < |st.disk|
    requires Val(st, ino, s) == 0 && 0 < b < |st.disk| && b < Pow256(8) && b !in owner && Zeroed(st.disk[b])
    ensures Shaped(Put(st, ino, s, b))
    ensures Val(Put(st, ino, s, b), j, t) == if (j, t) == (ino, s) then b else Val(st, j, t)
    decreases t
  {
    hide Pow256, Zeroed, GetEntry, SetEntry;
    var st' := Put(st, ino, s, b);
    if t.Entry? {
      var p, i := t.parent, t.idx;
      PutFresh(st, owner, ino, s, b, j, p);
      var q := Val(st, j, p);
      if (j, p) == (ino, s) {
        ZeroEntry(st.disk[b], i);
        if s.Entry? { assert Val(st, ino, s.parent) in owner; }
      } else if s.Entry? && q != 0 {
        var par := Val(st, ino, s.parent);
        if q == par {
          NoSharing(st, owner, ino, s.parent, j, p);
          GetSetEntry(st.disk[par], s.idx, b, i);
        }
      }
    }
  }

  /** Writing to a file's data block changes no place at all. */
  lemma {:induction false} WriteDataKeepsPlaces(st: Store, owner: Owners, ino: nat, s: Slot, data: Block, j: nat,
                                                t: Slot)
    requires Shaped(st) && Owned(st, owner) && ino in st.inodes && j in st.inodes && IsData(s) && Legal(t)
    requires 0 < Val(st, ino, s) < |st.disk| && |data| == BLOCK_SIZE
    ensures var st' := st.(disk := st.disk[Val(st, ino, s) := data]);
            Shaped(st') && Val(st', j, t) == Val(st, j, t)
    decreases t
  {
    if t.Entry? {
      WriteDataKeepsPlaces(st, owner, ino, s, data, j, t.parent);
      if Val(st, j, t.parent) == Val(st, ino, s) { NoSharing(st, owner, ino, s, j, t.parent); }
    }
  }

  // ---------------------------------------------------------------- reading the map

  /** How many blocks an entry of a table with `level` levels below it stands for. */
  function PerEntry(level: nat): (n: nat)
    ensures n > 0
  {
    if level == 0 then 1 else PER_TABLE * PerEntry(level - 1)
  }

  function TableOf(b: Block): seq<nat>
    requires |b| == BLOCK_SIZE
  {
    seq(PER_TABLE, i requires 0 <= i < PER_TABLE => GetEntry(b, i))
  }

  function Bmap0(st: Store, table: seq<nat>, level: nat, idx: nat): Result<nat>
    requires Shaped(st)
    decreases level, 0
  {
    if level == 0 then
      if idx >= |table| then Err(FileTooLarge)
      else if table[idx] == 0 then Err(InvalidArgument)
      else Ok(table[idx])
    else if idx / PerEntry(level) >= |table| then Err(FileTooLarge)
    else
      var blk := table[idx / PerEntry(level)];
      if blk == 0 then Err(InvalidArgument)
      else BmapFromBlk(st, blk, level - 1, idx % PerEntry(level))
  }

  function BmapFromBlk(st: Store, blk: nat, level: nat, idx: nat): Result<nat>
    requires Shaped(st)
    decreases level, 1
  {
    if blk >= |st.disk| then Err(IOError) else Bmap0(st, TableOf(st.disk[blk]), level, idx)
  }

  /** The data block of a file offset, by the recursive walk. */
  function Bmap(st: Store, ino: nat, offset: nat): Result<nat>
    requires Shaped(st) && ino in st.inodes
  {
    var n := offset / BLOCK_SIZE;
    if n < NUM_DIRECT then Bmap0(st, st.inodes[ino].direct, 0, n)
    else if n - NUM_DIRECT < PER_TABLE then BmapFromBlk(st, st.inodes[ino].indirect, 0, n - NUM_DIRECT)
    else BmapFromBlk(st, st.inodes[ino].dbl, 1, n - NUM_DIRECT - PER_TABLE)
  }

  /** The walk finds what the place of that block holds, and reports a missing block otherwise;
      a missing top-level table is read as block 0, which is never written. */
  lemma BmapIsVal(st: Store, owner: Owners, ino: nat, offset: nat)
    requires Shaped(st) && Owned(st, owner) && ino in st.inodes && Zeroed(st.disk[0])
    requires offset < MAX_FILE_SIZE
    ensures Legal(DataSlot(offset / BLOCK_SIZE))
    ensures var v := Val(st, ino, DataSlot(offset / BLOCK_SIZE));
            Bmap(st, ino, offset) == if v == 0 then Err(InvalidArgument) else Ok(v)
  {
    hide Owned, Zeroed, Val, BmapFromBlk, Bmap0;
    var n := offset / BLOCK_SIZE;
    DataSlotFacts(n, n);
    if n < NUM_DIRECT {
      BmapDirect(st, ino, n);
    } else if n - NUM_DIRECT < PER_TABLE {
      BmapSingle(st, owner, ino, n - NUM_DIRECT);
    } else {
      BmapDouble(st, owner, ino, n - NUM_DIRECT - PER_TABLE);
    }
  }

  lemma BmapDirect(st: Store, ino: nat, i: nat)
    requires Shaped(st) && ino in st.inodes && i < NUM_DIRECT
    ensures var v := Val(st, ino, Direct(i));
            Bmap0(st, st.inodes[ino].direct, 0, i) == if v == 0 then Err(InvalidArgument) else Ok(v)
  {
  }

  lemma BmapSingle(st: Store, owner: Owners, ino: nat, i: nat)
    requires Shaped(st) && Owned(st, owner) && ino in st.inodes && Zeroed(st.disk[0])
    requires i < PER_TABLE
    ensures IsData(Entry(Indirect, i))
    ensures var v := Val(st, ino, Entry(Indirect, i));
            BmapFromBlk(st, st.inodes[ino].indirect, 0, i) == if v == 0 then Err(InvalidArgument) else Ok(v)
  {
    hide Owned, GetEntry, Zeroed;
    TableIsPlaces(st, owner, ino, Indirect, i);
  }

  lemma BmapDouble(st: Store, owner: Owners, ino: nat, i: nat)
    requires Shaped(st) && Owned(st, owner) && ino in st.inodes && Zeroed(st.disk[0])
    requires i < PER_TABLE * PER_TABLE
    ensures IsData(Entry(Entry(Double, i / PER_TABLE), i % PER_TABLE))
    ensures var v := Val(st, ino, Entry(Entry(Double, i / PER_TABLE), i % PER_TABLE));
            BmapFromBlk(st, st.inodes[ino].dbl, 1, i) == if v == 0 then Err(InvalidArgument) else Ok(v)
  {
    hide Owned, GetEntry, Zeroed;
    var q, r := i / PER_TABLE, i % PER_TABLE;
    assert PerEntry(0) == 1 && PerEntry(1) == PER_TABLE;
    TableIsPlaces(st, owner, ino, Double, q);
    TableIsPlaces(st, owner, ino, Entry(Double, q), r);
  }

  lemma TableIsPlaces(st: Store, owner: Owners, ino: nat, s: Slot, i: nat)
    requires Shaped(st) && Owned(st, owner) && ino in st.inodes && Zeroed(st.disk[0])
    requires IsTable(s) && Legal(Entry(s, i)) && i < PER_TABLE
    ensures Val(st, ino, s) < |st.disk|
    ensures TableOf(st.disk[Val(st, ino, s)])[i] == Val(st, ino, Entry(s, i))
  {
    hide Zeroed;
    if Val(st, ino, s) == 0 { ZeroEntry(st.disk[0], i); }
  }

  // ---------------------------------------------------------------- file contents

  ghost function ByteAt(st: Store, ino: nat, x: nat): Byte
    requires Shaped(st) && ino in st.inodes && x < MAX_FILE_SIZE
  {
    DataSlotFacts(x / BLOCK_SIZE, 0);
    var b := Val(st, ino, DataSlot(x / BLOCK_SIZE));
    if b < |st.disk| then st.disk[b][x % BLOCK_SIZE] else 0
  }

  /** Sizes are in range and every block below the size is there. */
  ghost predicate Backed(st: Store, ino: nat)
    requires Shaped(st) && ino in st.inodes
  {
    && st.inodes[ino].size <= MAX_FILE_SIZE
    && forall n: nat :: n < MAX_BLOCKS && n * BLOCK_SIZE < st.inodes[ino].size ==>
         Legal(DataSlot(n)) && Val(st, ino, DataSlot(n)) != 0
  }

  /** The file as a flat byte array. */
  ghost function Content(st: Store, ino: nat): (c: seq<Byte>)
    requires Shaped(st) && ino in st.inodes && st.inodes[ino].size <= MAX_FILE_SIZE
    ensures |c| == st.inodes[ino].size
  {
    seq(st.inodes[ino].size, x requires 0 <= x < st.inodes[ino].size => ByteAt(st, ino, x))
  }

  /** From `st` to `st'` blocks were added to files, and nothing else changed. */
  ghost predicate Extends(st: Store, st': Store)
    requires Shaped(st) && Shaped(st')
  {
    && st'.inodes.Keys == st.inodes.Keys && |st'.disk| == |st.disk|
    && (forall i :: i in st.inodes ==> st'.inodes[i].size == st.inodes[i].size && st'.inodes[i].typ == st.inodes[i].typ)
    && (forall i, s :: i in st.inodes && Legal(s) && Val(st, i, s) != 0 ==> Val(st', i, s) == Val(st, i, s))
    && (forall i, s :: i in st.inodes && IsData(s) && 0 < Val(st, i, s) < |st.disk| ==>
          st'.disk[Val(st, i, s)] == st.disk[Val(st, i, s)])
  }

  lemma ExtendsKeepsContent(st: Store, st': Store, owner: Owners, ino: nat)
    requires Shaped(st) && Shaped(st') && Extends(st, st') && Owned(st, owner)
    requires ino in st.inodes && Backed(st, ino)
    ensures Backed(st', ino) && Content(st', ino) == Content(st, ino)
  {
    forall x: nat | x < st.inodes[ino].size
      ensures ByteAt(st', ino, x) == ByteAt(st, ino, x)
    {
      var n := x / BLOCK_SIZE;
      DataSlotFacts(n, 0);
      assert n * BLOCK_SIZE < st.inodes[ino].size && Val(st, ino, DataSlot(n)) != 0;
    }
  }

  lemma ExtendsItself(st: Store)
    requires Shaped(st)
    ensures Extends(st, st)
  {
  }

  lemma ExtendsTransitive(a: Store, b: Store, c: Store)
    requires Shaped(a) && Shaped(b) && Shaped(c) && Extends(a, b) && Extends(b, c)
    ensures Extends(a, c)
  {
  }

  /** `bytes` written over `c` at `off`. */
  function Overwrite(c: seq<Byte>, off: nat, bytes: seq<Byte>): seq<Byte>
    requires off <= |c|
  {
    c[..off] + bytes + (if off + |bytes| <= |c| then c[off + |bytes|..] else [])
  }

  lemma OverwriteNothing(c: seq<Byte>, off: nat)
    requires off <= |c|
    ensures Overwrite(c, off, []) == c
  {
  }

  lemma OverwriteTwice(c: seq<Byte>, off: nat, a: seq<Byte>, b: seq<Byte>)
    requires off <= |c|
    ensures Overwrite(Overwrite(c, off, a), off + |a|, b) == Overwrite(c, off, a + b)
  {
  }

  // ---------------------------------------------------------------- the two ways to change the store

  /** Hanging a fresh zeroed block into an empty place keeps the ownership and only adds. */
  lemma AttachFresh(st: Store, owner: Owners, ino: nat, s: Slot, b: nat)
    requires Shaped(st) && Owned(st, owner) && ino in st.inodes && Legal(s)
    requires s.Entry? ==> 0 < Val(st, ino, s.parent) < |st.disk|
    requires Val(st, ino, s) == 0 && 0 < b < |st.disk| && b < Pow256(8) && b !in owner && Zeroed(st.disk[b])
    ensures var st' := Put(st, ino, s, b);
            && Shaped(st') && Owned(st', owner[b := (ino, s)]) && Extends(st, st')
            && Val(st', ino, s) == b
            && forall x :: 0 <= x < |st.disk| && st'.disk[x] != st.disk[x] ==> x in owner
  {
    var st' := Put(st, ino, s, b);
    PutFresh(st, owner, ino, s, b, ino, s);
    forall j, t | j in st.inodes && Legal(t)
      ensures Val(st', j, t) == if (j, t) == (ino, s) then b else Val(st, j, t)
    {
      PutFresh(st, owner, ino, s, b, j, t);
    }
    if s.Entry? { TableNotData(st, owner, ino, s.parent); }
    hide Val, Zeroed, SetEntry;
  }

  /** The block of a table is no file's data block. */
  lemma TableNotData(st: Store, owner: Owners, ino: nat, s: Slot)
    requires Shaped(st) && Owned(st, owner) && ino in st.inodes && IsTable(s) && Val(st, ino, s) != 0
    ensures Val(st, ino, s) in owner
    ensures forall j, t :: j in st.inodes && IsData(t) ==> Val(st, j, t) != Val(st, ino, s)
  {
    forall j, t | j in st.inodes && IsData(t)
      ensures Val(st, j, t) != Val(st, ino, s)
    {
      if Val(st, j, t) == Val(st, ino, s) { NoSharing(st, owner, ino, s, j, t); }
    }
  }

  /** Copies `bytes` into the data block of `off`, from there on, and grows the file if need be. */
  function WriteChunk(st: Store, ino: nat, off: nat, bytes: seq<Byte>): Store
    requires Shaped(st) && ino in st.inodes && off < MAX_FILE_SIZE
    requires off % BLOCK_SIZE + |bytes| <= BLOCK_SIZE
    requires Legal(DataSlot(off / BLOCK_SIZE)) && Val(st, ino, DataSlot(off / BLOCK_SIZE)) < |st.disk|
  {
    var b, o := Val(st, ino, DataSlot(off / BLOCK_SIZE)), off % BLOCK_SIZE;
    var n := st.inodes[ino];
    Store(st.disk[b := Patch(st.disk[b], o, bytes)],
          st.inodes[ino := n.(size := if n.size < off + |bytes| then off + |bytes| else n.size)])
  }

  /** A chunk may go to this place of this file: its block is there and it fits in the block. */
  ghost predicate ChunkFits(st: Store, owner: Owners, ino: nat, off: nat, bytes: seq<Byte>) {
    && Shaped(st) && Owned(st, owner) && ino in st.inodes && off < MAX_FILE_SIZE
    && off % BLOCK_SIZE + |bytes| <= BLOCK_SIZE
    && IsData(DataSlot(off / BLOCK_SIZE)) && 0 < Val(st, ino, DataSlot(off / BLOCK_SIZE)) < |st.disk|
  }

  lemma ChunkKeepsPlace(st: Store, owner: Owners, ino: nat, off: nat, bytes: seq<Byte>, j: nat, t: Slot)
    requires ChunkFits(st, owner, ino, off, bytes) && j in st.inodes && Legal(t)
    ensures Shaped(WriteChunk(st, ino, off, bytes))
    ensures Val(WriteChunk(st, ino, off, bytes), j, t) == Val(st, j, t)
  {
    var st' := WriteChunk(st, ino, off, bytes);
    var s := DataSlot(off / BLOCK_SIZE);
    assert Shaped(st');
    var b := Val(st, ino, s);
    var mid := st.(disk := st.disk[b := st'.disk[b]]);
    WriteDataKeepsPlaces(st, owner, ino, s, st'.disk[b], j, t);
    hide Val, Owned, DataSlot;
    SizeIsNoPlace(mid, st', j, t);
  }

  lemma ChunkKeepsPlaces(st: Store, owner: Owners, ino: nat, off: nat, bytes: seq<Byte>)
    requires ChunkFits(st, owner, ino, off, bytes)
    ensures Shaped(WriteChunk(st, ino, off, bytes)) && Owned(WriteChunk(st, ino, off, bytes), owner)
  {
    hide Val, WriteChunk;
    ChunkKeepsPlace(st, owner, ino, off, bytes, ino, Double);
    var st' := WriteChunk(st, ino, off, bytes);
    ChunkKeepsInodes(st, owner, ino, off, bytes);
    forall j, t | j in st'.inodes && Legal(t) && Val(st', j, t) != 0
      ensures Val(st', j, t) in owner && owner[Val(st', j, t)] == (j, t)
    {
      ChunkKeepsPlace(st, owner, ino, off, bytes, j, t);
    }
  }

  lemma ChunkKeepsInodes(st: Store, owner: Owners, ino: nat, off: nat, bytes: seq<Byte>)
    requires ChunkFits(st, owner, ino, off, bytes)
    ensures var st' := WriteChunk(st, ino, off, bytes);
            && st'.inodes.Keys == st.inodes.Keys && |st'.disk| == |st.disk|
            && (forall j :: j in st.inodes && j != ino ==> st'.inodes[j] == st.inodes[j])
            && st'.inodes[ino].typ == st.inodes[ino].typ
            && st'.inodes[ino].size ==
               if st.inodes[ino].size < off + |bytes| then off + |bytes| else st.inodes[ino].size
  {
  }

  /** A byte of the chunk reads back; any other byte of any file is as before. */
  lemma ChunkByte(st: Store, owner: Owners, ino: nat, off: nat, bytes: seq<Byte>, j: nat, x: nat)
    requires ChunkFits(st, owner, ino, off, bytes) && j in st.inodes && x < MAX_FILE_SIZE
    requires IsData(DataSlot(x / BLOCK_SIZE))
    requires Val(st, j, DataSlot(x / BLOCK_SIZE)) != 0
    ensures Shaped(WriteChunk(st, ino, off, bytes)) && j in WriteChunk(st, ino, off, bytes).inodes
    ensures ByteAt(WriteChunk(st, ino, off, bytes), j, x) ==
            if j == ino && off <= x < off + |bytes| then bytes[x - off] else ByteAt(st, j, x)
  {
    var s, t := DataSlot(off / BLOCK_SIZE), DataSlot(x / BLOCK_SIZE);
    ChunkKeepsPlace(st, owner, ino, off, bytes, j, t);
    SameBlockSamePlace(st, owner, ino, off, j, x);
    ChunkArithmetic(off, |bytes|, x);
    PatchAt(st.disk[Val(st, ino, s)], off % BLOCK_SIZE, bytes, x % BLOCK_SIZE);
    hide Val, Owned, DataSlot, Shaped, Patch;
  }

  lemma SameBlockSamePlace(st: Store, owner: Owners, ino: nat, off: nat, j: nat, x: nat)
    requires Shaped(st) && Owned(st, owner) && ino in st.inodes && j in st.inodes
    requires off < MAX_FILE_SIZE && x < MAX_FILE_SIZE
    requires IsData(DataSlot(off / BLOCK_SIZE)) && IsData(DataSlot(x / BLOCK_SIZE))
    requires Val(st, j, DataSlot(x / BLOCK_SIZE)) != 0
    ensures Val(st, j, DataSlot(x / BLOCK_SIZE)) == Val(st, ino, DataSlot(off / BLOCK_SIZE)) <==>
            j == ino && x / BLOCK_SIZE == off / BLOCK_SIZE
    ensures Val(st, j, DataSlot(x / BLOCK_SIZE)) < |st.disk|
  {
    DataSlotFacts(x / BLOCK_SIZE, off / BLOCK_SIZE);
    hide Val, DataSlot;
    var s, t := DataSlot(off / BLOCK_SIZE), DataSlot(x / BLOCK_SIZE);
    assert Val(st, j, t) in owner;
    if Val(st, j, t) == Val(st, ino, s) { NoSharing(st, owner, ino, s, j, t); }
  }

  lemma ChunkArithmetic(off: nat, len: nat, x: nat)
    requires off % BLOCK_SIZE + len <= BLOCK_SIZE
    ensures off <= x < off + len ==> x / BLOCK_SIZE == off / BLOCK_SIZE
    ensures x / BLOCK_SIZE == off / BLOCK_SIZE ==> x - off == x % BLOCK_SIZE - off % BLOCK_SIZE
  {
  }

  /** What a chunk does to the files: it overwrites that part of one flat byte array. */
  lemma ChunkOverwrites(st: Store, owner: Owners, ino: nat, off: nat, bytes: seq<Byte>, j: nat)
    requires ChunkFits(st, owner, ino, off, bytes) && j in st.inodes
    requires Backed(st, ino) && Backed(st, j) && off <= st.inodes[ino].size
    ensures var st' := WriteChunk(st, ino, off, bytes);
            && Shaped(st') && j in st'.inodes && Backed(st', j)
            && Content(st', j) == if j == ino then Overwrite(Content(st, j), off, bytes) else Content(st, j)
  {
    hide ByteAt, WriteChunk, DataSlot, Val, Owned, Shaped;
    var st' := WriteChunk(st, ino, off, bytes);
    ChunkKeepsInodes(st, owner, ino, off, bytes);
    ChunkKeepsBacking(st, owner, ino, off, bytes, j);
    forall x: nat | x < st'.inodes[j].size
      ensures ByteAt(st', j, x) ==
              if j == ino && off <= x < off + |bytes| then bytes[x - off] else ByteAt(st, j, x)
    {
      ChunkByteInFile(st, owner, ino, off, bytes, j, x);
    }
    if j == ino {
      ContentIs(st', j, Overwrite(Content(st, j), off, bytes));
    } else {
      ContentIs(st', j, Content(st, j));
    }
    hide Content, Backed;
  }

  lemma ContentIs(st: Store, j: nat, c: seq<Byte>)
    requires Shaped(st) && j in st.inodes && Backed(st, j) && |c| == st.inodes[j].size
    requires forall x: nat :: x < |c| ==> ByteAt(st, j, x) == c[x]
    ensures Content(st, j) == c
  {
    hide ByteAt;
  }

  lemma ChunkByteInFile(st: Store, owner: Owners, ino: nat, off: nat, bytes: seq<Byte>, j: nat, x: nat)
    requires ChunkFits(st, owner, ino, off, bytes) && j in st.inodes
    requires Backed(st, ino) && Backed(st, j) && off <= st.inodes[ino].size
    requires x < WriteChunk(st, ino, off, bytes).inodes[j].size && x < MAX_FILE_SIZE
    ensures Shaped(WriteChunk(st, ino, off, bytes)) && j in WriteChunk(st, ino, off, bytes).inodes
    ensures ByteAt(WriteChunk(st, ino, off, bytes), j, x) ==
            if j == ino && off <= x < off + |bytes| then bytes[x - off] else ByteAt(st, j, x)
  {
    hide ByteAt, WriteChunk, DataSlot, Val, Owned, Shaped;
    var n := x / BLOCK_SIZE;
    DataSlotFacts(n, 0);
    ChunkKeepsBacking(st, owner, ino, off, bytes, j);
    ChunkKeepsPlace(st, owner, ino, off, bytes, j, DataSlot(n));
    assert n * BLOCK_SIZE < WriteChunk(st, ino, off, bytes).inodes[j].size;
    ChunkByte(st, owner, ino, off, bytes, j, x);
  }

  lemma ChunkKeepsBacking(st: Store, owner: Owners, ino: nat, off: nat, bytes: seq<Byte>, j: nat)
    requires ChunkFits(st, owner, ino, off, bytes) && j in st.inodes
    requires Backed(st, ino) && Backed(st, j) && off <= st.inodes[ino].size
    ensures var st' := WriteChunk(st, ino, off, bytes);
            Shaped(st') && j in st'.inodes && Backed(st', j)
  {
    var st' := WriteChunk(st, ino, off, bytes);
    ChunkKeepsInodes(st, owner, ino, off, bytes);
    ChunkKeepsPlaces(st, owner, ino, off, bytes);
    hide WriteChunk, Owned;
    forall n: nat | n < MAX_BLOCKS && n * BLOCK_SIZE < st'.inodes[j].size
      ensures Legal(DataSlot(n)) && Val(st', j, DataSlot(n)) != 0
    {
      DataSlotFacts(n, 0);
      ChunkKeepsPlace(st, owner, ino, off, bytes, j, DataSlot(n));
      if n * BLOCK_SIZE >= st.inodes[j].size { assert n == off / BLOCK_SIZE; }
    }
  }

  lemma {:induction false} SizeIsNoPlace(a: Store, b: Store, j: nat, t: Slot)
    requires Shaped(a) && Shaped(b) && Legal(t) && a.disk == b.disk && j in a.inodes && j in b.inodes
    requires b.inodes[j] == a.inodes[j].(size := b.inodes[j].size)
    ensures Val(a, j, t) == Val(b, j, t)
    decreases t
  {
    if t.Entry? { SizeIsNoPlace(a, b, j, t.parent); }
  }
}
