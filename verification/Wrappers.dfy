/** Sizes, bytes, lists without repetition, optional values, results and the error kinds the models
    return. */
module Wrappers {
  /** The bytes of a page, and of a block of the file system. */
  const PGSIZE: nat := 4096
  const BLOCK_SIZE: nat := 4096

  type Byte = x: int | 0 <= x < 256

  predicate Distinct(s: seq<nat>) { forall i, j :: 0 <= i < j < |s| ==> s[i] != s[j] }

  datatype Option<+T> = None | Some(value: T)

  datatype Error =
    | InvalidArgument | NoSpaceLeft | FileTooLarge | InvalidData | FileSystemCorruption | IOError
    | OutOfMemory | Interrupted

  datatype Result<+T> = Ok(value: T) | Err(error: Error)

  /** `b` with `bytes` copied into it from `o` on. */
  function Patch(b: seq<Byte>, o: nat, bytes: seq<Byte>): (b': seq<Byte>)
    requires o + |bytes| <= |b|
    ensures |b'| == |b|
  {
    b[..o] + bytes + b[o + |bytes|..]
  }

  lemma PatchAt(b: seq<Byte>, o: nat, bytes: seq<Byte>, k: nat)
    requires o + |bytes| <= |b| && k < |b|
    ensures Patch(b, o, bytes)[k] == if o <= k < o + |bytes| then bytes[k - o] else b[k]
  {
  }
}
