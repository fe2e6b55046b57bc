/** Page table entries: the flag bits 0 to 9 and the physical page number above them. */
module Pte {
  import opened Arithmetic
  import opened Wrappers

  datatype EntryPerm = EntryPerm(valid: bool, writable: bool, readable: bool, user: bool, executable: bool)

  const VALID: nat := 0
  const READ: nat := 1
  const WRITE: nat := 2
  const EXEC: nat := 3
  const USER: nat := 4
  const FLAG_BITS: nat := 10

  /** x >> k */
  function ShiftRight(x: nat, k: nat): nat {
    if k == 0 then x else ShiftRight(x / 2, k - 1)
  }

  /** (low & ((1 << k) - 1)) | (high << k) */
  function Compose(low: nat, high: nat, k: nat): nat {
    if k == 0 then high else 2 * Compose(low / 2, high, k - 1) + low % 2
  }

  function SetFlag(e: nat, i: nat, on: bool): nat {
    if on then Or(e, Pow2(i)) else AndNot(e, Pow2(i))
  }

  predicate IsValid(e: nat) { BitAt(e, VALID) }

  function PhysicalAddr(e: nat): nat { ShiftRight(e, FLAG_BITS) * PGSIZE }

  function SetPhysicalAddr(e: nat, addr: nat): nat
    requires addr % PGSIZE == 0 && addr != 0
  {
    Compose(e, addr / PGSIZE, FLAG_BITS)
  }

  /** Valid, and neither readable nor writable nor executable. */
  predicate IsPageTable(e: nat) {
    IsValid(e) && !BitAt(e, READ) && !BitAt(e, WRITE) && !BitAt(e, EXEC)
  }

  function MakePde(addr: nat): nat { Compose(1, addr / PGSIZE, FLAG_BITS) }

  function Perm(e: nat): EntryPerm {
    EntryPerm(BitAt(e, VALID), BitAt(e, WRITE), BitAt(e, READ), BitAt(e, USER), BitAt(e, EXEC))
  }

  function ApplyPerm(e: nat, p: EntryPerm): nat {
    SetFlag(SetFlag(SetFlag(SetFlag(SetFlag(e, VALID, p.valid), WRITE, p.writable), READ, p.readable), USER, p.user),
        EXEC, p.executable)
  }

  /** The flag word of a permission, bit by bit. */
  function ArchPerm(p: EntryPerm): nat {
    (if p.valid then 1 else 0) + (if p.readable then 2 else 0) + (if p.writable then 4 else 0) +
    (if p.executable then 8 else 0) + (if p.user then 16 else 0)
  }

  /** (e & !FLAGS_MASK) | perm */
  function SetPerm(e: nat, p: EntryPerm): nat {
    Compose(ArchPerm(p), ShiftRight(e, FLAG_BITS), FLAG_BITS)
  }

  lemma {:induction false} ComposeParts(low: nat, high: nat, k: nat, i: nat)
    ensures ShiftRight(Compose(low, high, k), k) == high
    ensures i < k ==> (BitAt(Compose(low, high, k), i) <==> BitAt(low, i))
  {
    if k > 0 {
      var c := Compose(low / 2, high, k - 1);
      ComposeParts(low / 2, high, k - 1, if i > 0 then i - 1 else 0);
      assert Compose(low, high, k) / 2 == c && Compose(low, high, k) % 2 == low % 2;
    }
  }

  /** Changing a low bit changes no bit that is shifted to the bottom. */
  lemma {:induction false} SetFlagBelow(e: nat, i: nat, k: nat, on: bool)
    requires i < k
    ensures ShiftRight(SetFlag(e, i, on), k) == ShiftRight(e, k)
  {
    if e == 0 {
      if on { SmallShifts(i, k); }
    } else if i == 0 {
      assert Or(e / 2, 0) == e / 2 && AndNot(e / 2, 0) == e / 2;
      assert SetFlag(e, i, on) / 2 == e / 2;
    } else {
      SetFlagBelow(e / 2, i - 1, k - 1, on);
      assert SetFlag(e, i, on) / 2 == SetFlag(e / 2, i - 1, on);
    }
  }

  lemma {:induction false} SmallShifts(i: nat, k: nat)
    requires i < k
    ensures ShiftRight(Pow2(i), k) == 0 == ShiftRight(0, k)
  {
    if i > 0 { SmallShifts(i - 1, k - 1); } else { ZeroShifts(k - 1); }
  }

  lemma {:induction false} ZeroShifts(k: nat)
    ensures ShiftRight(0, k) == 0
  {
    if k > 0 { ZeroShifts(k - 1); }
  }

  lemma SetFlagBit(e: nat, i: nat, on: bool, j: nat)
    ensures BitAt(SetFlag(e, i, on), j) <==> if i == j then on else BitAt(e, j)
  {
    OrMask(e, i, j);
    AndNotMask(e, i, j);
  }

  /** Applying a permission and reading it back; the address stays. */
  lemma ApplyPermPerm(e: nat, p: EntryPerm)
    ensures Perm(ApplyPerm(e, p)) == p && PhysicalAddr(ApplyPerm(e, p)) == PhysicalAddr(e)
  {
    hide SetFlag, BitAt, ShiftRight;
    var e1 := SetFlag(e, VALID, p.valid);
    var e2 := SetFlag(e1, WRITE, p.writable);
    var e3 := SetFlag(e2, READ, p.readable);
    var e4 := SetFlag(e3, USER, p.user);
    forall j { SetFlagBit(e, VALID, p.valid, j); }
    forall j { SetFlagBit(e1, WRITE, p.writable, j); }
    forall j { SetFlagBit(e2, READ, p.readable, j); }
    forall j { SetFlagBit(e3, USER, p.user, j); }
    forall j { SetFlagBit(e4, EXEC, p.executable, j); }
    SetFlagBelow(e, VALID, FLAG_BITS, p.valid);
    SetFlagBelow(e1, WRITE, FLAG_BITS, p.writable);
    SetFlagBelow(e2, READ, FLAG_BITS, p.readable);
    SetFlagBelow(e3, USER, FLAG_BITS, p.user);
    SetFlagBelow(e4, EXEC, FLAG_BITS, p.executable);
  }

  /** What `map` leaves in a leaf entry. */
  lemma MappedEntry(e: nat, addr: nat, p: EntryPerm)
    requires addr % PGSIZE == 0 && addr != 0
    ensures Perm(ApplyPerm(SetPhysicalAddr(e, addr), p)) == p
    ensures PhysicalAddr(ApplyPerm(SetPhysicalAddr(e, addr), p)) == addr
  {
    ApplyPermPerm(SetPhysicalAddr(e, addr), p);
    ComposeParts(e, addr / PGSIZE, FLAG_BITS, 0);
  }

  /** What `vmap` leaves in a leaf entry. */
  lemma VmappedEntry(e: nat, addr: nat, p: EntryPerm)
    requires addr % PGSIZE == 0 && addr != 0
    ensures Perm(SetPerm(SetPhysicalAddr(e, addr), p)) == p
    ensures PhysicalAddr(SetPerm(SetPhysicalAddr(e, addr), p)) == addr
  {
    var e1 := SetPhysicalAddr(e, addr);
    ComposeParts(e, addr / PGSIZE, FLAG_BITS, 0);
    forall i | 0 <= i < 5
      ensures BitAt(SetPerm(e1, p), i) <==> BitAt(ArchPerm(p), i)
    {
      ComposeParts(ArchPerm(p), ShiftRight(e1, FLAG_BITS), FLAG_BITS, i);
    }
    ComposeParts(ArchPerm(p), ShiftRight(e1, FLAG_BITS), FLAG_BITS, 0);
    ArchPermBits(p);
    hide BitAt, ShiftRight, SetPerm;
  }

  lemma ArchPermBits(p: EntryPerm)
    ensures Perm(ArchPerm(p)) == p
  {
    var w := ArchPerm(p);
    var w1 := w / 2;
    var w2 := w1 / 2;
    var w3 := w2 / 2;
    assert BitAt(w, 1) == BitAt(w1, 0);
    assert BitAt(w, 2) == BitAt(w1, 1) == BitAt(w2, 0);
    assert BitAt(w, 3) == BitAt(w1, 2) == BitAt(w2, 1) == BitAt(w3, 0);
    assert BitAt(w, 4) == BitAt(w1, 3) == BitAt(w2, 2) == BitAt(w3, 1) == BitAt(w3 / 2, 0);
  }

  /** An entry for a table is recognized as one and leads to it; a zero entry is not valid. */
  lemma PdeFacts(addr: nat)
    requires addr % PGSIZE == 0
    ensures IsPageTable(MakePde(addr)) && PhysicalAddr(MakePde(addr)) == addr && !IsValid(0)
  {
    forall i | 0 <= i < 5
      ensures BitAt(MakePde(addr), i) <==> BitAt(1, i)
    {
      ComposeParts(1, addr / PGSIZE, FLAG_BITS, i);
    }
    ComposeParts(1, addr / PGSIZE, FLAG_BITS, 0);
    BitOfPow2(0, 1);
    BitOfPow2(0, 2);
    BitOfPow2(0, 3);
  }
}
