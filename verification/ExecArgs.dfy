/** The argument and environment blocks: the kernel writes them onto the new user stack, the user
    library reads them back. */
module ExecArgs {
  import opened Arithmetic
  import opened Wrappers
  import opened LittleEndian
  import opened UserMemory
  import opened PageTree
  import opened Pte
  import opened Sv39
  import opened Sv39Range
  import opened RangeNeed
  import opened RangeState
  import Vmap

  const USER_ARGUMENTS_MAX_SIZE: nat := PGSIZE
  const ENV_VARS_MAX_SIZE: nat := PGSIZE * 3

  type Cstr = seq<Byte>

  // ---------------------------------------------------------------- the block

  /** The strings, each with a null byte behind it. */
  function Flat(cstrs: seq<Cstr>): seq<Byte> {
    if cstrs == [] then [] else cstrs[0] + [0] + Flat(cstrs[1..])
  }

  /** The number of strings and the strings. */
  function Block(cstrs: seq<Cstr>): seq<Byte> { Encode(|cstrs|, 8) + Flat(cstrs) }

  function AlignToWord(n: nat): nat { AlignUp(n, 8) }

  /** The bytes of a word hold it, and less than a word is added. */
  lemma AlignToWordFits(n: nat)
    ensures n <= AlignToWord(n) < n + 8
  {
    assert Pow2(3) == 8 by { assert Pow2(1) == 2 && Pow2(2) == 4; }
    var q := AlignUpIsLeast(n, 3, (n + 7) / 8);
  }

  /** What `push_cstr_array` reserves. */
  function LayoutSize(cstrs: seq<Cstr>): nat { AlignToWord(|Block(cstrs)|) }

  lemma {:induction false} FlatAppend(cstrs: seq<Cstr>, c: Cstr)
    ensures Flat(cstrs + [c]) == Flat(cstrs) + c + [0]
  {
    if cstrs == [] {
      assert [c][1..] == [];
    } else {
      assert (cstrs + [c])[1..] == cstrs[1..] + [c];
      FlatAppend(cstrs[1..], c);
    }
  }

  /** No null byte before index `k`. */
  predicate NoNul(bytes: seq<Byte>, k: nat)
    requires k <= |bytes|
  {
    forall i :: 0 <= i < k ==> bytes[i] != 0
  }

  predicate NulFree(c: Cstr) { NoNul(c, |c|) }

  // ---------------------------------------------------------------- reading it back

  /** `strlen`: the first null byte. */
  function FirstNul(bytes: seq<Byte>): (k: nat)
    ensures k <= |bytes| && NoNul(bytes, k) && (k < |bytes| ==> bytes[k] == 0)
  {
    if bytes == [] || bytes[0] == 0 then 0 else 1 + FirstNul(bytes[1..])
  }

  lemma FirstNulIs(bytes: seq<Byte>, k: nat)
    requires k < |bytes| && NoNul(bytes, k) && bytes[k] == 0
    ensures FirstNul(bytes) == k
  {
    var f := FirstNul(bytes);
    hide FirstNul;
  }

  /** `n` strings can be read. */
  ghost predicate HasStrings(bytes: seq<Byte>, n: nat)
    decreases n
  {
    n == 0 || (FirstNul(bytes) < |bytes| && HasStrings(bytes[FirstNul(bytes) + 1..], n - 1))
  }

  /** The strings that reading `n` of them gives. */
  function ReadStrings(bytes: seq<Byte>, n: nat): seq<Cstr>
    requires HasStrings(bytes, n)
    decreases n
  {
    if n == 0 then []
    else
      var k := FirstNul(bytes);
      [bytes[..k]] + ReadStrings(bytes[k + 1..], n - 1)
  }

  /** More bytes in front of the first null byte do not hurt. */
  lemma {:induction false} HasStringsBehind(x: seq<Byte>, bytes: seq<Byte>, n: nat)
    requires HasStrings(bytes, n)
    ensures HasStrings(x + bytes, n)
    decreases n, |x|
  {
    hide HasStrings, FirstNul;
    if n == 0 {
      NoneLeft(x + bytes);
    } else if x == [] {
      assert x + bytes == bytes;
    } else {
      var rest := x[1..] + bytes;
      assert x + bytes == [x[0]] + rest;
      if x[0] == 0 {
        FewerStrings(bytes, n);
        HasStringsBehind(x[1..], bytes, n - 1);
        NulThen(rest, n - 1);
      } else {
        HasStringsBehind(x[1..], bytes, n);
        NonNulFront(x[0], rest, n);
      }
    }
  }

  lemma {:induction false} FewerStrings(bytes: seq<Byte>, n: nat)
    requires n > 0 && HasStrings(bytes, n)
    ensures HasStrings(bytes, n - 1)
    decreases n
  {
    if n > 1 { FewerStrings(bytes[FirstNul(bytes) + 1..], n - 1); }
  }

  lemma NonNulFront(c: Byte, bytes: seq<Byte>, n: nat)
    requires c != 0 && HasStrings(bytes, n)
    ensures HasStrings([c] + bytes, n)
  {
    var more := [c] + bytes;
    assert more[1..] == bytes;
    assert FirstNul(more) == FirstNul(bytes) + 1;
    hide FirstNul;
    if n > 0 { assert more[FirstNul(more) + 1..] == bytes[FirstNul(bytes) + 1..]; }
  }

  lemma {:induction false} FlatHasStrings(cstrs: seq<Cstr>)
    ensures HasStrings(Flat(cstrs), |cstrs|)
  {
    if cstrs != [] {
      FlatHasStrings(cstrs[1..]);
      var rest := Flat(cstrs[1..]);
      NulThen(rest, |cstrs| - 1);
      HasStringsBehind(cstrs[0], [0] + rest, |cstrs|);
      FlatIs(cstrs);
      hide HasStrings, Flat;
    }
  }

  lemma FlatIs(cstrs: seq<Cstr>)
    requires cstrs != []
    ensures Flat(cstrs) == cstrs[0] + ([0] + Flat(cstrs[1..]))
  {
  }

  lemma NulThen(bytes: seq<Byte>, n: nat)
    requires HasStrings(bytes, n)
    ensures HasStrings([0] + bytes, n + 1)
  {
    FirstNulIs([0] + bytes, 0);
    assert ([0] + bytes)[1..] == bytes;
  }

  /** Reading the first string. */
  lemma ReadFirst(c: Cstr, rest: seq<Byte>, n: nat)
    requires HasStrings(rest, n) && HasStrings(c + ([0] + rest), n + 1)
    ensures NulFree(c) ==> ReadStrings(c + ([0] + rest), n + 1) == [c] + ReadStrings(rest, n)
    ensures !NulFree(c) ==> |ReadStrings(c + ([0] + rest), n + 1)[0]| < |c|
  {
    var bytes := c + ([0] + rest);
    var k := FirstNul(bytes);
    if NulFree(c) {
      assert forall i :: 0 <= i < |c| ==> bytes[i] == c[i];
      FirstNulIs(bytes, |c|);
      assert bytes[..k] == c && bytes[k + 1..] == rest;
    } else {
      var i :| 0 <= i < |c| && c[i] == 0;
      assert bytes[i] == 0;
      assert k <= i;
    }
  }

  predicate AllNulFree(cstrs: seq<Cstr>) { forall i :: 0 <= i < |cstrs| ==> NulFree(cstrs[i]) }

  /** Reading gives the strings back exactly when none of them holds a null byte. */
  lemma {:induction false} RoundTrip(cstrs: seq<Cstr>)
    ensures HasStrings(Flat(cstrs), |cstrs|)
    ensures ReadStrings(Flat(cstrs), |cstrs|) == cstrs <==> AllNulFree(cstrs)
  {
    FlatHasStrings(cstrs);
    if cstrs != [] {
      var c, rest := cstrs[0], cstrs[1..];
      RoundTrip(rest);
      FlatIs(cstrs);
      hide HasStrings, Flat, ReadStrings, NulFree;
      AllOfList(cstrs);
      hide AllNulFree;
      ReadFirst(c, Flat(rest), |rest|);
      if NulFree(c) { SameHead(c, ReadStrings(Flat(rest), |rest|), cstrs); }
    }
  }

  lemma SameHead(c: Cstr, x: seq<Cstr>, cstrs: seq<Cstr>)
    requires cstrs != [] && cstrs[0] == c
    ensures [c] + x == cstrs <==> x == cstrs[1..]
  {
    assert cstrs == [c] + cstrs[1..];
    assert ([c] + x)[1..] == x;
  }

  lemma AllOfList(cstrs: seq<Cstr>)
    requires cstrs != []
    ensures AllNulFree(cstrs) <==> NulFree(cstrs[0]) && AllNulFree(cstrs[1..])
  {
    hide NulFree;
    if NulFree(cstrs[0]) && AllNulFree(cstrs[1..]) {
      forall i | 0 <= i < |cstrs|
        ensures NulFree(cstrs[i])
      {
        if i > 0 { assert cstrs[i] == cstrs[1..][i - 1]; }
      }
    }
    assert forall i :: 0 <= i < |cstrs[1..]| ==> cstrs[1..][i] == cstrs[i + 1];
  }

  // ---------------------------------------------------------------- the kernel writes

  /** `push_cstr_array` within a region of stack pages that have frames of their own: it fails
      exactly when the block is larger than allowed; else the block lies below `sp`. */
  method PushCstrArray(vm: Vm, sp: nat, cstrs: seq<Cstr>, maxLen: nat, ghost lo: nat, ghost hi: nat)
    returns (r: Result<nat>)
    requires vm.Valid() && OwnFrames(vm.Map(), vm.phys, lo, hi) && hi <= PAGES
    requires lo * PGSIZE + maxLen <= sp <= hi * PGSIZE
    modifies vm`phys
    ensures vm.Valid() && OwnFrames(vm.Map(), vm.phys, lo, hi)
    ensures r.Err? <==> LayoutSize(cstrs) > maxLen
    ensures r.Err? ==> r.error == InvalidArgument && vm.phys == old(vm.phys)
    ensures r.Ok? ==>
              && r.value == sp - LayoutSize(cstrs)
              && Stored(vm.Map(), old(vm.phys), vm.phys, lo, hi, r.value, Block(cstrs))
  {
    hide FramesOf, Stored, OwnFrames, Flat, Encode, BackedRange, AlignUp;
    var size := BlockSize(cstrs);
    AlignToWordFits(size);
    if AlignToWord(size) > maxLen { return Err(InvalidArgument); }
    var newSp := sp - AlignToWord(size);
    ghost var before := vm.phys;
    ghost var m := vm.Map();
    var w := WriteInside(vm, newSp, Encode(|cstrs|, 8), lo, hi);
    FlatNone(cstrs);
    assert Encode(|cstrs|, 8) + [] == Encode(|cstrs|, 8);
    for i := 0 to |cstrs|
      invariant vm.Valid() && vm.Map() == m
      invariant w == newSp + 8 + |Flat(cstrs[..i])| <= newSp + size
      invariant Stored(m, before, vm.phys, lo, hi, newSp, Encode(|cstrs|, 8) + Flat(cstrs[..i]))
    {
      FlatNext(cstrs, i);
      FlatShorter(cstrs, i + 1);
      w := WriteString(vm, w, cstrs[i], before, newSp, Encode(|cstrs|, 8) + Flat(cstrs[..i]), lo, hi);
      Regroup(Encode(|cstrs|, 8), Flat(cstrs[..i]), cstrs[i]);
    }
    assert cstrs[..|cstrs|] == cstrs;
    StoredOwn(m, before, vm.phys, lo, hi, newSp, Encode(|cstrs|, 8) + Flat(cstrs));
    return Ok(newSp);
  }

  /** The bytes that the count and the strings with their null bytes take. */
  method BlockSize(cstrs: seq<Cstr>) returns (size: nat)
    ensures size == |Block(cstrs)| == 8 + |Flat(cstrs)|
  {
    hide Flat;
    size := 8;
    FlatNone(cstrs);
    for i := 0 to |cstrs|
      invariant size == 8 + |Flat(cstrs[..i])|
    {
      FlatNext(cstrs, i);
      size := size + |cstrs[i]| + 1;
    }
    assert cstrs[..|cstrs|] == cstrs;
  }

  lemma Regroup(x: seq<Byte>, y: seq<Byte>, z: seq<Byte>)
    ensures x + y + z + [0] == x + (y + z + [0])
  {
  }

  lemma {:induction false} FlatShorter(cstrs: seq<Cstr>, i: nat)
    requires i <= |cstrs|
    ensures |Flat(cstrs[..i])| <= |Flat(cstrs)|
    decreases |cstrs| - i
  {
    if i == |cstrs| {
      assert cstrs[..i] == cstrs;
    } else {
      FlatNext(cstrs, i);
      FlatShorter(cstrs, i + 1);
    }
  }

  /** Writes a string and its null byte behind what is there already. */
  method WriteString(vm: Vm, at: nat, c: Cstr, ghost before: Phys, ghost start: nat, ghost done: seq<Byte>,
                     ghost lo: nat, ghost hi: nat)
    returns (end: nat)
    requires vm.Valid() && hi <= PAGES && at == start + |done| && InRegion(at, |c| + 1, lo, hi)
    requires Stored(vm.Map(), before, vm.phys, lo, hi, start, done)
    modifies vm`phys
    ensures vm.Valid() && end == at + |c| + 1
    ensures Stored(vm.Map(), before, vm.phys, lo, hi, start, done + c + [0])
  {
    StoredOwn(vm.Map(), before, vm.phys, lo, hi, start, done);
    hide FramesOf, Stored, OwnFrames;
    ghost var m, p0 := vm.Map(), vm.phys;
    end := WriteInside(vm, at, c, lo, hi);
    StoredThen(m, before, p0, vm.phys, lo, hi, start, done, c);
    ghost var p1 := vm.phys;
    end := WriteInside(vm, end, [0], lo, hi);
    StoredThen(m, before, p1, vm.phys, lo, hi, start, done + c, [0]);
  }

  lemma StoredOwn(m: Frames, a: Phys, b: Phys, lo: nat, hi: nat, va: nat, bytes: seq<Byte>)
    requires Stored(m, a, b, lo, hi, va, bytes)
    ensures OwnFrames(m, b, lo, hi)
  {
  }

  lemma FlatNone(cstrs: seq<Cstr>)
    ensures Flat(cstrs[..0]) == []
  {
  }

  lemma FlatNext(cstrs: seq<Cstr>, i: nat)
    requires i < |cstrs|
    ensures Flat(cstrs[..i + 1]) == Flat(cstrs[..i]) + cstrs[i] + [0]
  {
    assert cstrs[..i + 1] == cstrs[..i] + [cstrs[i]];
    FlatAppend(cstrs[..i], cstrs[i]);
  }

  /** A write inside the region succeeds. */
  method WriteInside(vm: Vm, va: nat, bytes: seq<Byte>, ghost lo: nat, ghost hi: nat) returns (end: nat)
    requires vm.Valid() && OwnFrames(vm.Map(), vm.phys, lo, hi) && hi <= PAGES && InRegion(va, |bytes|, lo, hi)
    modifies vm`phys
    ensures vm.Valid() && OwnFrames(vm.Map(), vm.phys, lo, hi) && end == va + |bytes|
    ensures Stored(vm.Map(), old(vm.phys), vm.phys, lo, hi, va, bytes)
  {
    RegionBacked(vm.Map(), vm.phys, lo, hi, va, |bytes|);
    ghost var k;
    var r;
    r, k := vm.Write(va, bytes, lo, hi);
    assert bytes[..k] == bytes;
    end := r.value;
  }

  /** The two pushes of `execve` below the top of the stack: they fail exactly when a list is too
      long; else both blocks lie in the four pages below the top and do not overlap. */
  method PushBoth(vm: Vm, top: nat, args: seq<Cstr>, env: seq<Cstr>) returns (r: Result<(nat, nat)>)
    requires vm.Valid() && 4 <= top <= PAGES && OwnFrames(vm.Map(), vm.phys, top - 4, top)
    modifies vm`phys
    ensures vm.Valid()
    ensures r.Ok? <==> LayoutSize(args) <= USER_ARGUMENTS_MAX_SIZE && LayoutSize(env) <= ENV_VARS_MAX_SIZE
    ensures r.Ok? ==>
              && Holds(vm.Map(), vm.phys, top - 4, top, r.value.0, Block(args))
              && Holds(vm.Map(), vm.phys, top - 4, top, r.value.1, Block(env))
  {
    hide FramesOf, Stored, OwnFrames, Block, Holds;
    ghost var m, p0 := vm.Map(), vm.phys;
    var a := PushCstrArray(vm, top * PGSIZE, args, USER_ARGUMENTS_MAX_SIZE, top - 4, top);
    if a.Err? { return Err(a.error); }
    LayoutHolds(args);
    StoredHolds(m, p0, vm.phys, top - 4, top, a.value, Block(args));
    ghost var p1 := vm.phys;
    var e := PushCstrArray(vm, a.value, env, ENV_VARS_MAX_SIZE, top - 4, top);
    if e.Err? { return Err(e.error); }
    LayoutHolds(env);
    StoredHolds(m, p1, vm.phys, top - 4, top, e.value, Block(env));
    StillHolds(m, p1, vm.phys, top - 4, top, a.value, Block(args), e.value, Block(env));
    return Ok((a.value, e.value));
  }

  lemma LayoutHolds(cstrs: seq<Cstr>)
    ensures |Block(cstrs)| <= LayoutSize(cstrs)
  {
    AlignToWordFits(|Block(cstrs)|);
  }

  // ---------------------------------------------------------------- the user library reads

  /** `read_cstr_array` on a block that lies in memory. */
  method ReadCstrArray(vm: Vm, ptr: nat, ghost lo: nat, ghost hi: nat, ghost cstrs: seq<Cstr>) returns (r: seq<Cstr>)
    requires vm.Valid() && hi <= PAGES && |cstrs| < Pow256(8)
    requires Holds(vm.Map(), vm.phys, lo, hi, ptr, Block(cstrs))
    ensures HasStrings(Flat(cstrs), |cstrs|) && r == ReadStrings(Flat(cstrs), |cstrs|)
  {
    FlatHasStrings(cstrs);
    DecodeEncode(|cstrs|, 8);
    hide FramesOf, Holds, Flat, Encode, Pow256, HasStrings, ReadStrings, Decode;
    var count := ReadWord(vm, ptr, lo, hi, Block(cstrs));
    assert Block(cstrs)[..8] == Encode(|cstrs|, 8) && Block(cstrs)[8..] == Flat(cstrs);
    HoldsTail(vm.Map(), vm.phys, lo, hi, ptr, Block(cstrs), 8);
    r := ReadAll(vm, ptr + 8, lo, hi, Flat(cstrs), count);
  }

  /** The loop of `read_cstr_array` over the strings. */
  method ReadAll(vm: Vm, ptr: nat, ghost lo: nat, ghost hi: nat, ghost bytes: seq<Byte>, count: nat)
    returns (r: seq<Cstr>)
    requires vm.Valid() && hi <= PAGES && HasStrings(bytes, count) && Holds(vm.Map(), vm.phys, lo, hi, ptr, bytes)
    ensures r == ReadStrings(bytes, count)
  {
    hide FramesOf, Holds, HasStrings, ReadStrings, FirstNul;
    var at: nat := ptr;
    r := [];
    ghost var rest := bytes;
    for n := 0 to count
      invariant HasStrings(rest, count - n) && Holds(vm.Map(), vm.phys, lo, hi, at, rest)
      invariant r + ReadStrings(rest, count - n) == ReadStrings(bytes, count)
    {
      ReadOne(rest, count - n, FirstNul(rest));
      var c := ReadCstr(vm, at, lo, hi, rest);
      HoldsTail(vm.Map(), vm.phys, lo, hi, at, rest, |c| + 1);
      AddOne(r, c, ReadStrings(rest[|c| + 1..], count - n - 1));
      r := r + [c];
      at, rest := at + |c| + 1, rest[|c| + 1..];
    }
    NoneLeft(rest);
  }

  lemma AddOne(r: seq<Cstr>, c: Cstr, x: seq<Cstr>)
    ensures r + ([c] + x) == r + [c] + x
  {
  }

  lemma NoneLeft(rest: seq<Byte>)
    ensures HasStrings(rest, 0) && ReadStrings(rest, 0) == []
  {
  }

  lemma ReadOne(rest: seq<Byte>, n: nat, k: nat)
    requires n > 0 && HasStrings(rest, n) && k == FirstNul(rest)
    ensures k < |rest| && HasStrings(rest[k + 1..], n - 1)
    ensures ReadStrings(rest, n) == [rest[..k]] + ReadStrings(rest[k + 1..], n - 1)
  {
    hide FirstNul;
  }

  lemma HoldsTail(m: Frames, phys: Phys, lo: nat, hi: nat, va: nat, bytes: seq<Byte>, k: nat)
    requires Holds(m, phys, lo, hi, va, bytes) && k <= |bytes|
    ensures Holds(m, phys, lo, hi, va + k, bytes[k..])
  {
    hide OwnFrames, Backed, ByteAt;
  }

  /** A little-endian word at the beginning of `bytes`. */
  method ReadWord(vm: Vm, ptr: nat, ghost lo: nat, ghost hi: nat, ghost bytes: seq<Byte>) returns (w: nat)
    requires vm.Valid() && hi <= PAGES && |bytes| >= 8 && Holds(vm.Map(), vm.phys, lo, hi, ptr, bytes)
    ensures w == Decode(bytes[..8])
  {
    hide FramesOf, OwnFrames, Decode;
    var word: seq<Byte> := [];
    for i := 0 to 8
      invariant word == bytes[..i]
    {
      assert Backed(vm.Map(), vm.phys, ptr + i);
      var x := vm.Load(ptr + i);
      word := word + [x];
    }
    w := Decode(word);
  }

  /** The bytes up to the first null byte. */
  method ReadCstr(vm: Vm, at: nat, ghost lo: nat, ghost hi: nat, ghost bytes: seq<Byte>) returns (c: Cstr)
    requires vm.Valid() && hi <= PAGES && FirstNul(bytes) < |bytes| && Holds(vm.Map(), vm.phys, lo, hi, at, bytes)
    ensures c == bytes[..FirstNul(bytes)]
  {
    ghost var k := FirstNul(bytes);
    hide FramesOf, OwnFrames, FirstNul;
    c := [];
    var len := 0;
    while true
      invariant len <= k && c == bytes[..len]
      decreases k - len
    {
      assert Backed(vm.Map(), vm.phys, at + len);
      var x := vm.Load(at + len);
      if x == 0 { break; }
      c := c + [x];
      len := len + 1;
    }
  }

  // ---------------------------------------------------------------- the whole way

  const USER_BASE: nat := 0x300000      // pages
  const USER_END: nat := 0x340000
  const STACK_PAGES: nat := 32

  const RW: EntryPerm := EntryPerm(false, true, true, false, false)
  const NONE: EntryPerm := EntryPerm(false, false, false, false, false)

  /** The flags of a user page. */
  function UserPage(perm: EntryPerm): EntryPerm { perm.(valid := true, user := true) }

  /** A size in bytes, in pages. */
  function PagesOf(size: nat): nat { (size + PGSIZE - 1) / PGSIZE }

  /** `uvalloc`: changes the size of the user area, in bytes.  The pages it grows by are mapped to
      fresh frames, or not yet when it is `lazy`; those it shrinks by are unmapped. */
  method UvAlloc(pt: PageTable, size: nat, newSize: nat, perm: EntryPerm, lazy: bool)
    returns (r: Vmap.Outcome, end: nat, ghost k: nat)
    requires pt.Valid() && PagesOf(size) <= USER_END
    requires PagesOf(newSize) < PagesOf(size) ==>
               FramesOk(pt.root, ViewOf(pt), USER_BASE + PagesOf(newSize), EffectiveEnd(USER_BASE + PagesOf(size)))
    modifies pt
    ensures pt.Valid() && end == if r.Done? && PagesOf(newSize) != PagesOf(size) then newSize else size
    ensures PagesOf(newSize) > USER_END ==> r.NoMemory? && ViewOf(pt) == old(ViewOf(pt))
    ensures PagesOf(newSize) == PagesOf(size) ==> r.Done? && ViewOf(pt) == old(ViewOf(pt))
    ensures PagesOf(newSize) < PagesOf(size) ==>
              && r.Done?
              && Unmapped(pt.root, old(ViewOf(pt)), ViewOf(pt), USER_BASE + PagesOf(newSize),
                          EffectiveEnd(USER_BASE + PagesOf(size)))
    ensures PagesOf(size) < PagesOf(newSize) <= USER_END && lazy ==>
              r == (if perm == RW then Vmap.Done else Vmap.Panicked) && ViewOf(pt) == old(ViewOf(pt))
    ensures PagesOf(size) < PagesOf(newSize) <= USER_END && !lazy ==>
              Grown(pt.root, old(ViewOf(pt)), ViewOf(pt), r, USER_BASE + PagesOf(size), USER_BASE + PagesOf(newSize),
                  k, perm)
  {
    hide Leaf, IsValid, PageTable.Valid, FramesOk, Unmapped, EffectiveEnd, SameLeaves, Vmap.Need, Misordered,
      Vmap.Fits, Vmap.Made, Vmap.BrokeOff, PagesOf, Grew;
    r, end, k := Vmap.Done, size, 0;
    var now, next := PagesOf(size), PagesOf(newSize);
    if next > USER_END { return Vmap.NoMemory(0), size, 0; }
    if now == next { return; }
    if next > now {
      if lazy {
        r := if perm == RW then Vmap.Done else Vmap.Panicked;
      } else {
        r, k := Vmap.Vmap(pt, USER_BASE + now, USER_BASE + next, perm.(user := true));
      }
    } else {
      Vmap.Vunmap(pt, USER_BASE + next, USER_BASE + now);
    }
    if r.Done? { end := newSize; }
  }

  /** What comes of mapping the pages from `s` up to `e` for a growing user area. */
  ghost predicate Grown(root: nat, a: View, b: View, r: Vmap.Outcome, s: nat, e: nat, k: nat, perm: EntryPerm) {
    && s <= e <= PAGES
    && (r.Done? <==> Vmap.Fits(root, a, s, e))
    && (r.Panicked? <==> Misordered(s, e) && Vmap.Need(root, a.mem, s, e) <= |a.free|)
    && (r.Done? ==> Vmap.Made(root, a, b, s, e, UserPage(perm)))
    && (r.Panicked? ==> Grew(root, a, b) && SameLeaves(root, a.mem, b.mem))
    && (Vmap.Failed(r) ==> Vmap.BrokeOff(root, a, b, r, s, e, k))
  }

  const FIRST: nat := USER_BASE          // the guard page below the stack
  const EAGER: nat := USER_BASE + 29     // the four pages that are mapped at once
  const TOP: nat := USER_BASE + 33       // the guard page above the stack
  const STACK_MID: nat := 12             // the tables that all of them lie in
  const STACK_LEAF: nat := 0x1800

  /** The stack can be set up: its pages are not mapped yet, and there are frames for them and for
      the tables that are missing. */
  ghost predicate StackFits(root: nat, a: View) {
    && !IsValid(Leaf(root, a.mem, FIRST)) && (forall v :: EAGER <= v <= TOP ==> !IsValid(Leaf(root, a.mem, v)))
    && StackTables(root, a.mem) + 6 <= |a.free|
  }

  /** The tables of the stack that are missing. */
  ghost function StackTables(root: nat, m: Memory): nat {
    (if HasTable(root, m, 1, STACK_MID) then 0 else 1) + (if HasTable(root, m, 0, STACK_LEAF) then 0 else 1)
  }

  /** A range inside the stack's leaf table. */
  lemma StackRange(root: nat, a: View, s: nat, e: nat)
    requires USER_BASE <= s < e <= TOP + 1
    ensures !Misordered(s, e) && EffectiveEnd(e) == e && Last(s, e) == Frontier(STACK_MID + 1, STACK_LEAF + 1, e)
    ensures Vmap.Need(root, a.mem, s, e) == StackTables(root, a.mem) + (e - s)
  {
    assert MidOf(s) == STACK_MID && LeafOf(s) == STACK_LEAF;
    hide HasTable;
    assert Missing(root, a.mem, 1, STACK_MID, STACK_MID) == 0 && Missing(root, a.mem, 0, STACK_LEAF, STACK_LEAF) == 0;
  }

  /** Once one of them is made, the tables are there. */
  lemma StackMade(root: nat, a: View, b: View, s: nat, e: nat, perm: EntryPerm)
    requires USER_BASE <= s < e <= TOP + 1 && Vmap.Made(root, a, b, s, e, perm)
    ensures StackTables(root, b.mem) == 0 && |b.free| + StackTables(root, a.mem) + (e - s) == |a.free|
    ensures forall v :: 0 <= v < PAGES && !(s <= v < e) ==> Leaf(root, b.mem, v) == Leaf(root, a.mem, v)
    ensures b.free <= a.free && Mapped(root, a, b, s, e, perm)
  {
    StackRange(root, a, s, e);
    hide HasTable, Leaf, IsValid, Perm, PhysicalAddr, Vmap.Need, Last, EffectiveEnd, TableAddr, FramesOk;
    assert MidOf(s) == STACK_MID && LeafOf(s) == STACK_LEAF;
    hide MidOf, LeafOf;
  }

  /** `init_user_stack` of a new address space: a guard page, the stack of which the last four pages
      are mapped at once, and another guard page.  It does not panic, and succeeds exactly when there
      is room for it; the four pages below the top have then frames of their own. */
  method InitUserStack(vm: Vm) returns (r: Vmap.Outcome, top: nat)
    requires vm.Valid() && forall f :: f in vm.pt.free ==> f in vm.phys
    modifies vm.pt
    ensures vm.Valid() && !r.Panicked?
    ensures r.Done? <==> StackFits(vm.pt.root, old(ViewOf(vm.pt)))
    ensures r.Done? ==> top == TOP && OwnFrames(vm.Map(), vm.phys, top - 4, top)
  {
    hide Leaf, IsValid, PhysicalAddr, Perm, OwnFrames, PageTable.Valid, StackTables, Misordered, Vmap.Need, Vmap.Made,
      Vmap.BrokeOff, Grew, SameLeaves, Mapped;
    top := 0;
    var size: nat;
    ghost var k, root, a := 0, vm.pt.root, ViewOf(vm.pt);
    StackRange(root, a, FIRST, FIRST + 1);
    r, size, k := UvAlloc(vm.pt, 0, PGSIZE, NONE, false);
    if !r.Done? { return; }
    ghost var b := ViewOf(vm.pt);
    StackMade(root, a, b, FIRST, FIRST + 1, UserPage(NONE));
    r, size, k := UvAlloc(vm.pt, size, size + STACK_PAGES * PGSIZE - 4 * PGSIZE, RW, true);
    StackRange(root, b, EAGER, TOP);
    r, size, k := UvAlloc(vm.pt, size, size + 4 * PGSIZE, RW, false);
    if !r.Done? { return; }
    ghost var c := ViewOf(vm.pt);
    StackMade(root, b, c, EAGER, TOP, UserPage(RW));
    top := USER_BASE + size / PGSIZE;
    StackRange(root, c, TOP, TOP + 1);
    r, size, k := UvAlloc(vm.pt, size, size + PGSIZE, NONE, false);
    if !r.Done? { return; }
    StackMade(root, c, ViewOf(vm.pt), TOP, TOP + 1, UserPage(NONE));
    StackMapped(root, b, c, ViewOf(vm.pt), vm.phys);
  }

  lemma StackMapped(root: nat, a: View, b: View, c: View, phys: Phys)
    requires Mapped(root, a, b, EAGER, TOP, UserPage(RW)) && Mapped(root, b, c, TOP, TOP + 1, UserPage(NONE))
    requires (forall f :: f in a.free ==> f in phys) && forall f :: f in phys ==> |phys[f]| == PGSIZE
    ensures OwnFrames(FramesOf(root, c.mem), phys, EAGER, TOP)
  {
    var m := FramesOf(root, c.mem);
    forall v | EAGER <= v < TOP
      ensures v in m && m[v] == PhysicalAddr(Leaf(root, b.mem, v)) && m[v] in phys
    {
      assert Perm(Leaf(root, b.mem, v)).valid;
      hide Leaf, PhysicalAddr;
      assert Leaf(root, c.mem, v) == Leaf(root, b.mem, v);
      Looked(root, c.mem, v);
      assert Fresh(a, b, PhysicalAddr(Leaf(root, b.mem, v)));
    }
    hide Leaf, PhysicalAddr, IsValid, Perm, FramesOf;
  }

  /** From `execve` to the user program: exactly when the stack can be set up and the lists fit, the
      program reads back exactly the lists, provided no string holds a null byte. */
  method PassArguments(vm: Vm, args: seq<Cstr>, env: seq<Cstr>)
    returns (r: Result<(seq<Cstr>, seq<Cstr>)>, stack: Vmap.Outcome)
    requires vm.Valid() && (forall f :: f in vm.pt.free ==> f in vm.phys)
    modifies vm.pt, vm`phys
    ensures !stack.Panicked? && (stack.Done? <==> StackFits(vm.pt.root, old(ViewOf(vm.pt))))
    ensures r.Ok? <==>
              stack.Done? && LayoutSize(args) <= USER_ARGUMENTS_MAX_SIZE && LayoutSize(env) <= ENV_VARS_MAX_SIZE
    ensures r.Ok? ==> (r.value.0 == args <==> AllNulFree(args)) && (r.value.1 == env <==> AllNulFree(env))
  {
    hide FramesOf, OwnFrames, Holds, ReadStrings, HasStrings, AllNulFree, Pow256;
    var top;
    stack, top := InitUserStack(vm);
    if !stack.Done? { return Err(OutOfMemory), stack; }
    var p := PushBoth(vm, top, args, env);
    if p.Err? { return Err(p.error), stack; }
    FewStrings(args);
    FewStrings(env);
    var a := ReadCstrArray(vm, p.value.0, top - 4, top, args);
    var e := ReadCstrArray(vm, p.value.1, top - 4, top, env);
    RoundTrip(args);
    RoundTrip(env);
    return Ok((a, e)), stack;
  }

  lemma {:induction false} FewStrings(cstrs: seq<Cstr>)
    ensures LayoutSize(cstrs) <= ENV_VARS_MAX_SIZE ==> |cstrs| < Pow256(8)
  {
    CountBelow(cstrs);
    LayoutHolds(cstrs);
    assert Pow256(2) == 65536 && Pow256(4) == 65536 * Pow256(2) && Pow256(6) == 65536 * Pow256(4)
        && Pow256(8) == 65536 * Pow256(6);
  }

  lemma {:induction false} CountBelow(cstrs: seq<Cstr>)
    ensures |cstrs| <= |Flat(cstrs)|
  {
    if cstrs != [] { CountBelow(cstrs[1..]); }
  }
}
