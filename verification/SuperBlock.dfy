/** The disk layout: where the bitmaps, the inodes and the data blocks lie. */
module SuperBlock {
  import opened Wrappers

  const RAW_INODE_SIZE: nat := 132
  const NINODES_PER_BLOCK: nat := 31
  const EFS_SB_MAGIC: nat := 0xEFFF

  datatype RawSuperBlock = RawSuperBlock(
    magic: nat, size: nat, inodeBitmapBlocks: nat, inodeBlocks: nat, dataBitmapBlocks: nat, dataBlocks: nat)
  {
    const inodeBitmapStart: nat := 2
    const inodeStart: nat := 2 + inodeBitmapBlocks
    const dataBitmapStart: nat := inodeStart + inodeBlocks
    const dataStart: nat := dataBitmapStart + dataBitmapBlocks
    const inodeCounts: nat := inodeBlocks * NINODES_PER_BLOCK

    predicate Verify() {
      && magic == EFS_SB_MAGIC
      && VerifyBitmap(inodeBitmapBlocks, inodeCounts)
      && VerifyBitmap(dataBitmapBlocks, dataBlocks)
    }
  }

  predicate VerifyBitmap(blocks: nat, bits: nat) {
    blocks * BLOCK_SIZE * 8 >= bits
  }

  function DivCeil(a: nat, b: nat): nat
    requires b > 0
  {
    (a + b - 1) / b
  }

  /** What `RawSuperBlock::new` asserts of its arguments. */
  predicate Asserted(potentialSize: nat, inodeSize: nat) {
    && potentialSize % BLOCK_SIZE == 0 && potentialSize > BLOCK_SIZE * 128
    && potentialSize > inodeSize && inodeSize > 1024 * 8
  }

  /** What `mkfs` checks of its arguments. */
  predicate MkfsAccepts(size: nat, inodeSize: nat) {
    size >= 40 * 1024 * 1024 && size % 4096 == 0 && inodeSize >= 1024 * 8 && inodeSize < size / 3
  }

  /** The blocks left for data and its bitmap; negative when the inodes leave no room. */
  function Remaining(potentialSize: nat, inodeSize: nat): int {
    potentialSize / BLOCK_SIZE - DivCeil(inodeSize, BLOCK_SIZE) - DivCeil(inodeSize, BLOCK_SIZE * 8) - 2
  }

  /** `RawSuperBlock::new`; the subtraction must not underflow. */
  function New(potentialSize: nat, inodeSize: nat): RawSuperBlock
    requires Asserted(potentialSize, inodeSize) && Remaining(potentialSize, inodeSize) >= 0
  {
    var remaining := Remaining(potentialSize, inodeSize);
    var dataBitmapBlocks := DivCeil(remaining, BLOCK_SIZE * 8);
    RawSuperBlock(
      EFS_SB_MAGIC, potentialSize / BLOCK_SIZE * BLOCK_SIZE, DivCeil(inodeSize, BLOCK_SIZE * 8),
      DivCeil(inodeSize, BLOCK_SIZE), dataBitmapBlocks, remaining - dataBitmapBlocks)
  }

  /** Every size that mkfs accepts, but for the smallest inode size, which `new` refuses, gives
      a layout that fills the image exactly, passes its own verification and has data blocks. */
  lemma MkfsLayout(size: nat, inodeSize: nat)
    requires MkfsAccepts(size, inodeSize)
    ensures Asserted(size, inodeSize) <==> inodeSize != 1024 * 8
    ensures Remaining(size, inodeSize) > 0
    ensures inodeSize != 1024 * 8 ==>
              var sb := New(size, inodeSize);
              && sb.Verify() && sb.dataBlocks > 0
              && sb.dataStart + sb.dataBlocks == size / BLOCK_SIZE
              && 0 < 1 < sb.inodeBitmapStart < sb.inodeStart < sb.dataBitmapStart < sb.dataStart
  {
  }

  /** The block that holds an inode and its byte offset in there. */
  function Placement(sb: RawSuperBlock, ino: nat): (nat, nat) {
    (sb.inodeStart + ino / NINODES_PER_BLOCK, RAW_INODE_SIZE * (ino % NINODES_PER_BLOCK))
  }

  /** Inodes lie inside the inode region and two inodes never share a byte. */
  lemma InodesDisjoint(sb: RawSuperBlock, a: nat, b: nat)
    requires a < sb.inodeCounts && b < sb.inodeCounts
    ensures var (blk, off) := Placement(sb, a);
            sb.inodeStart <= blk < sb.dataBitmapStart && off + RAW_INODE_SIZE <= BLOCK_SIZE
    ensures var (x, i) := Placement(sb, a);
            var (y, j) := Placement(sb, b);
            a != b ==> x != y || i + RAW_INODE_SIZE <= j || j + RAW_INODE_SIZE <= i
  {
    if a / NINODES_PER_BLOCK == b / NINODES_PER_BLOCK && a != b {
      assert a % NINODES_PER_BLOCK != b % NINODES_PER_BLOCK;
    }
  }
}
