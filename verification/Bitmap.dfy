/** The allocation bitmap: blocks of 64-bit words, scanned a word at a time. It refines a
    finite set of indices. */
module Bitmap {
  import opened Arithmetic
  import opened Wrappers

  const WORD: nat := 64
  const WORDS_PER_BLOCK: nat := 512
  const BLOCK_BITS: nat := 32768

  // ---------------------------------------------------------------- one word

  /** The number of ones below the lowest zero among the low `k` bits. */
  function TrailingOnes(w: nat, k: nat := WORD): nat {
    if k > 0 && w % 2 == 1 then 1 + TrailingOnes(w / 2, k - 1) else 0
  }

  /** The number of ones among the low `k` bits. */
  function CountOnes(w: nat, k: nat := WORD): nat {
    if k == 0 then 0 else w % 2 + CountOnes(w / 2, k - 1)
  }

  lemma {:induction false} TrailingOnesIsLeastClear(w: nat, k: nat)
    ensures TrailingOnes(w, k) <= k
    ensures forall j: nat :: j < TrailingOnes(w, k) ==> BitAt(w, j)
    ensures TrailingOnes(w, k) < k ==> !BitAt(w, TrailingOnes(w, k))
  {
    if k > 0 && w % 2 == 1 {
      TrailingOnesIsLeastClear(w / 2, k - 1);
      forall j: nat | j < TrailingOnes(w, k)
        ensures BitAt(w, j)
      {
        assert j > 0 ==> BitAt(w / 2, j - 1);
      }
    }
  }

  lemma {:induction false} CountOnesTop(w: nat, k: nat)
    ensures CountOnes(w, k + 1) == CountOnes(w, k) + if BitAt(w, k) then 1 else 0
  {
    if k > 0 { CountOnesTop(w / 2, k - 1); }
  }

  // ---------------------------------------------------------------- all words

  type Blocks = seq<seq<nat>>

  ghost predicate Shaped(blocks: Blocks) {
    forall b :: 0 <= b < |blocks| ==> |blocks[b]| == WORDS_PER_BLOCK
  }

  lemma WordIndexFits(i: nat, n: nat)
    requires i < n * BLOCK_BITS
    ensures i / WORD / WORDS_PER_BLOCK < n
  {
  }

  /** Index `i` is bit `k` of word `u` of block `b`. */
  lemma Position(b: nat, u: nat, k: nat)
    requires u < WORDS_PER_BLOCK && k < WORD
    ensures var i := b * BLOCK_BITS + u * WORD + k;
            && i / WORD == b * WORDS_PER_BLOCK + u && i % WORD == k
            && i / WORD / WORDS_PER_BLOCK == b && i / WORD % WORDS_PER_BLOCK == u
            && i / BLOCK_BITS == b
  {
  }

  /** Whether bit `i` is set; bit 0 is the low bit of the first word of the first block. */
  predicate Get(blocks: Blocks, i: nat)
    requires Shaped(blocks) && i < |blocks| * BLOCK_BITS
  {
    WordIndexFits(i, |blocks|);
    BitAt(blocks[i / WORD / WORDS_PER_BLOCK][i / WORD % WORDS_PER_BLOCK], i % WORD)
  }

  ghost predicate AllSetBelow(blocks: Blocks, n: nat)
    requires Shaped(blocks) && n <= |blocks| * BLOCK_BITS
  {
    forall i: nat :: i < n ==> Get(blocks, i)
  }

  /** The position of a bit: block, word in the block, bit in the word. */
  function LocateBitPos(index: nat): (nat, nat, nat) {
    var b := index / BLOCK_BITS;
    (b, (index - b * BLOCK_BITS) / WORD, index % WORD)
  }

  lemma LocateIsConsistent(index: nat)
    ensures var (b, u, k) := LocateBitPos(index);
            && u < WORDS_PER_BLOCK && k < WORD && index == b * BLOCK_BITS + u * WORD + k
  {
    var v := index / WORD;
    Position(v / WORDS_PER_BLOCK, v % WORDS_PER_BLOCK, index % WORD);
  }

  function SetWord(blocks: Blocks, b: nat, u: nat, w: nat): Blocks
    requires Shaped(blocks) && b < |blocks| && u < WORDS_PER_BLOCK
  {
    var block: seq<nat> := blocks[b][u := w];
    blocks[b := block]
  }

  /** Replacing one word by one that differs in bit `k` at most changes that one index at most. */
  lemma ChangeOneWord(blocks: Blocks, b: nat, u: nat, k: nat, w: nat, on: bool, i: nat)
    requires Shaped(blocks) && b < |blocks| && u < WORDS_PER_BLOCK && k < WORD
    requires forall j: nat :: BitAt(w, j) <==> if j == k then on else BitAt(blocks[b][u], j)
    requires i < |blocks| * BLOCK_BITS
    ensures Shaped(SetWord(blocks, b, u, w))
    ensures Get(SetWord(blocks, b, u, w), i) <==>
            if i == b * BLOCK_BITS + u * WORD + k then on else Get(blocks, i)
  {
    hide BitAt;
  }

  /** The set bits below `n`. */
  ghost function Below(blocks: Blocks, n: nat): set<nat>
    requires Shaped(blocks) && n <= |blocks| * BLOCK_BITS
  {
    set i: nat | i < n && Get(blocks, i)
  }

  lemma {:induction false} WordAdds(blocks: Blocks, v: nat, k: nat)
    requires Shaped(blocks) && v < |blocks| * WORDS_PER_BLOCK && k <= WORD
    ensures |Below(blocks, v * WORD + k)| ==
            |Below(blocks, v * WORD)| + CountOnes(blocks[v / WORDS_PER_BLOCK][v % WORDS_PER_BLOCK], k)
  {
    if k > 0 {
      var i := v * WORD + k - 1;
      hide BitAt, CountOnes;
      assert i / WORD == v && i % WORD == k - 1;
      WordAdds(blocks, v, k - 1);
      CountOnesTop(blocks[v / WORDS_PER_BLOCK][v % WORDS_PER_BLOCK], k - 1);
      var s := Below(blocks, i);
      assert Below(blocks, i + 1) == if Get(blocks, i) then s + {i} else s;
    }
  }

  lemma OnesExtend(blocks: Blocks, b: nat, u: nat, k: nat)
    requires Shaped(blocks) && b < |blocks| && u < WORDS_PER_BLOCK && k <= WORD
    requires AllSetBelow(blocks, b * BLOCK_BITS + u * WORD)
    requires forall j: nat :: j < k ==> BitAt(blocks[b][u], j)
    ensures AllSetBelow(blocks, b * BLOCK_BITS + u * WORD + k)
    ensures k < WORD ==> Get(blocks, b * BLOCK_BITS + u * WORD + k) == BitAt(blocks[b][u], k)
  {
    hide BitAt;
    var i := b * BLOCK_BITS + u * WORD;
    if k < WORD { Position(b, u, k); }
    forall x: nat | x < i + k
      ensures Get(blocks, x)
    {
      if x >= i { Position(b, u, x - i); }
    }
  }

  /** The bitmap refines the set `Bits()` of the indices in use, all below `bitsLen`. */
  class BitmapBlocks {
    const startBlkNo: nat
    const bitsLen: nat
    var blocks: Blocks

    ghost predicate Valid()
      reads this
    {
      && Shaped(blocks) && |blocks| == (bitsLen + BLOCK_BITS - 1) / BLOCK_BITS
      && forall i: nat :: bitsLen <= i < |blocks| * BLOCK_BITS ==> !Get(blocks, i)
    }

    ghost function Bits(): set<nat>
      requires Valid()
      reads this
    {
      Below(blocks, bitsLen)
    }

    constructor (start: nat, bits: nat)
      ensures Valid() && startBlkNo == start && bitsLen == bits && Bits() == {}
    {
      startBlkNo, bitsLen := start, bits;
      blocks := seq((bits + BLOCK_BITS - 1) / BLOCK_BITS, _ => seq(WORDS_PER_BLOCK, _ => 0));
      new;
      forall i: nat | i < |blocks| * BLOCK_BITS
        ensures !Get(blocks, i)
      {
        NoBits(i % WORD);
      }
    }

    /** Writes a word that differs from the old one in bit `k` at most. */
    method Update(b: nat, u: nat, k: nat, w: nat, on: bool)
      requires Valid() && b < |blocks| && u < WORDS_PER_BLOCK && k < WORD
      requires forall j: nat :: BitAt(w, j) <==> if j == k then on else BitAt(blocks[b][u], j)
      requires b * BLOCK_BITS + u * WORD + k < bitsLen
      modifies this
      ensures Valid()
      ensures var i := b * BLOCK_BITS + u * WORD + k;
              Bits() == if on then old(Bits()) + {i} else old(Bits()) - {i}
    {
      hide BitAt, Get;
      forall i: nat | i < |blocks| * BLOCK_BITS
        ensures Shaped(SetWord(blocks, b, u, w))
        ensures Get(SetWord(blocks, b, u, w), i) <==>
                if i == b * BLOCK_BITS + u * WORD + k then on else Get(blocks, i)
      {
        ChangeOneWord(blocks, b, u, k, w, on, i);
      }
      blocks := SetWord(blocks, b, u, w);
    }

    /** Takes the least index that is not in use; fails just when all are in use. */
    method AllocBit() returns (r: Option<nat>)
      requires Valid()
      modifies this
      ensures Valid()
      ensures r.None? ==> Bits() == old(Bits()) && forall i: nat :: i < bitsLen ==> i in Bits()
      ensures r.Some? ==>
                && r.value < bitsLen && r.value !in old(Bits())
                && Bits() == old(Bits()) + {r.value}
                && forall i: nat :: i < r.value ==> i in old(Bits())
    {
      hide BitAt, TrailingOnes;
      var bitIdx, v := 0, 0;
      for b := 0 to |blocks|
        invariant Valid() && blocks == old(blocks)
        invariant v == b * WORDS_PER_BLOCK && bitIdx == v * WORD
        invariant b < |blocks| ==> bitIdx < bitsLen
        invariant b == |blocks| ==> bitIdx >= bitsLen
        invariant AllSetBelow(blocks, bitIdx)
      {
        for u := 0 to WORDS_PER_BLOCK
          invariant Valid() && blocks == old(blocks)
          invariant v == b * WORDS_PER_BLOCK + u && bitIdx == v * WORD < bitsLen
          invariant AllSetBelow(blocks, bitIdx)
        {
          var w := blocks[b][u];
          var k := TrailingOnes(w);
          TrailingOnesIsLeastClear(w, WORD);
          OnesExtend(blocks, b, u, k);
          bitIdx := bitIdx + k;
          if k < WORD && bitIdx < bitsLen {
            forall j: nat { OrMask(w, k, j); }
            Update(b, u, k, Or(w, Pow2(k)), true);
            return Some(v * WORD + k);
          }
          v := v + 1;
          if v * WORD >= bitsLen { return None; }
        }
      }
      r := None;
    }

    method GetBit(index: nat) returns (r: Result<bool>)
      requires Valid()
      ensures r.Err? <==> index >= bitsLen
      ensures r.Err? ==> r.error == InvalidArgument
      ensures r.Ok? ==> r.value == (index in Bits())
    {
      if index >= bitsLen { return Err(InvalidArgument); }
      LocateIsConsistent(index);
      var (b, u, k) := LocateBitPos(index);
      Position(b, u, k);
      r := Ok(BitAt(blocks[b][u], k));
    }

    method SetBit(index: nat) returns (r: Result<()>)
      requires Valid()
      modifies this
      ensures Valid() && (r.Err? <==> index >= bitsLen)
      ensures r.Err? ==> r.error == InvalidArgument
      ensures Bits() == if r.Ok? then old(Bits()) + {index} else old(Bits())
    {
      hide BitAt;
      if index >= bitsLen { return Err(InvalidArgument); }
      LocateIsConsistent(index);
      var (b, u, k) := LocateBitPos(index);
      Position(b, u, k);
      forall j: nat { OrMask(blocks[b][u], k, j); }
      Update(b, u, k, Or(blocks[b][u], Pow2(k)), true);
      r := Ok(());
    }

    method ClearBit(index: nat) returns (r: Result<()>)
      requires Valid()
      modifies this
      ensures Valid() && (r.Err? <==> index >= bitsLen)
      ensures r.Err? ==> r.error == InvalidArgument
      ensures Bits() == if r.Ok? then old(Bits()) - {index} else old(Bits())
    {
      hide BitAt;
      if index >= bitsLen { return Err(InvalidArgument); }
      LocateIsConsistent(index);
      var (b, u, k) := LocateBitPos(index);
      Position(b, u, k);
      forall j: nat { AndNotMask(blocks[b][u], k, j); }
      Update(b, u, k, AndNot(blocks[b][u], Pow2(k)), false);
      r := Ok(());
    }

    /** The word-wise count is the number of indices in use, since no bit past the end is set. */
    method CountAllocatedBits() returns (total: nat)
      requires Valid()
      ensures total == |Bits()|
    {
      hide BitAt, CountOnes, Get;
      var v := 0;
      total := 0;
      assert Below(blocks, 0) == {};
      for b := 0 to |blocks|
        invariant v == b * WORDS_PER_BLOCK
        invariant b > 0 ==> v * WORD < bitsLen
        invariant v * WORD <= |blocks| * BLOCK_BITS && total == |Below(blocks, v * WORD)|
      {
        for u := 0 to WORDS_PER_BLOCK
          invariant v == b * WORDS_PER_BLOCK + u && v * WORD < bitsLen
          invariant total == |Below(blocks, v * WORD)|
        {
          WordAdds(blocks, v, WORD);
          total := total + CountOnes(blocks[b][u]);
          v := v + 1;
          if v * WORD >= bitsLen {
            assert Below(blocks, v * WORD) == Below(blocks, bitsLen);
            return;
          }
        }
      }
    }
  }
}
