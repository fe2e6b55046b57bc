/** Powers of two, bitwise operations on naturals, and the rounding used to size blocks. */
module Arithmetic {
  function Max(a: nat, b: nat): nat { if a < b then b else a }

  function Min(a: nat, b: nat): nat { if a < b then a else b }

  function Pow2(k: nat): (r: nat)
    ensures r >= 1
  {
    if k == 0 then 1 else 2 * Pow2(k - 1)
  }

  /** Bitwise exclusive or, bit by bit from the low end. */
  function Xor(a: nat, b: nat): nat {
    if a == 0 then b
    else if b == 0 then a
    else 2 * Xor(a / 2, b / 2) + (if a % 2 == b % 2 then 0 else 1)
  }

  /** Bit `i` of a number. */
  predicate BitAt(w: nat, i: nat) {
    if i == 0 then w % 2 == 1 else BitAt(w / 2, i - 1)
  }

  /** Bitwise `a | b`. */
  function Or(a: nat, b: nat): nat {
    if a == 0 then b
    else if b == 0 then a
    else 2 * Or(a / 2, b / 2) + (if a % 2 == 1 || b % 2 == 1 then 1 else 0)
  }

  /** Bitwise `a & !b`. */
  function AndNot(a: nat, b: nat): nat {
    if a == 0 || b == 0 then a
    else 2 * AndNot(a / 2, b / 2) + (if a % 2 == 1 && b % 2 == 0 then 1 else 0)
  }

  lemma {:induction false} OrMask(w: nat, i: nat, j: nat)
    ensures BitAt(Or(w, Pow2(i)), j) <==> i == j || BitAt(w, j)
  {
    if w == 0 {
      BitOfPow2(i, j);
      NoBits(j);
    } else if i == 0 {
      assert Or(w / 2, 0) == w / 2;
    } else if j > 0 {
      OrMask(w / 2, i - 1, j - 1);
    }
  }

  lemma {:induction false} AndNotMask(w: nat, i: nat, j: nat)
    ensures BitAt(AndNot(w, Pow2(i)), j) <==> i != j && BitAt(w, j)
  {
    if w == 0 {
      NoBits(j);
    } else if i == 0 {
      assert AndNot(w / 2, 0) == w / 2;
    } else if j > 0 {
      AndNotMask(w / 2, i - 1, j - 1);
    }
  }

  lemma {:induction false} BitOfPow2(i: nat, j: nat)
    ensures BitAt(Pow2(i), j) <==> i == j
  {
    if i > 0 && j > 0 { BitOfPow2(i - 1, j - 1); }
    else if j > 0 { NoBits(j - 1); }
  }

  lemma {:induction false} NoBits(j: nat)
    ensures !BitAt(0, j)
  {
    if j > 0 { NoBits(j - 1); }
  }

  /** The low `k` bits of `x` are zero. */
  predicate Multiple(x: nat, k: nat) {
    k == 0 || (x % 2 == 0 && Multiple(x / 2, k - 1))
  }

  lemma {:induction false} MultipleMeans(x: nat, k: nat) returns (q: nat)
    ensures Multiple(x, k) ==> x == q * Pow2(k)
  {
    if k == 0 || x % 2 != 0 {
      q := x;
    } else {
      q := MultipleMeans(x / 2, k - 1);
    }
  }

  lemma {:induction false} MultipleOfFewerBits(x: nat, j: nat, k: nat)
    requires j <= k && Multiple(x, k)
    ensures Multiple(x, j)
  {
    if j > 0 { MultipleOfFewerBits(x / 2, j - 1, k - 1); }
  }

  /** The least power of two that is not below `n`, searching from 2^k. */
  function NextPowerOfTwo(n: nat, k: nat := 0): (r: nat)
    ensures n <= r
    decreases if Pow2(k) >= n then 0 else n - Pow2(k)
  {
    if Pow2(k) >= n then Pow2(k) else NextPowerOfTwo(n, k + 1)
  }

  function TrailingZeros(n: nat): nat
    requires n > 0
  {
    if n % 2 == 1 then 0 else 1 + TrailingZeros(n / 2)
  }

  lemma {:induction false} TrailingZerosOfPow2(k: nat)
    ensures TrailingZeros(Pow2(k)) == k
  {
    if k > 0 { TrailingZerosOfPow2(k - 1); }
  }

  lemma {:induction false} NextPowerOfTwoIsLeast(n: nat, k: nat) returns (e: nat)
    requires k == 0 || Pow2(k - 1) < n
    ensures NextPowerOfTwo(n, k) == Pow2(e) && n <= Pow2(e)
    ensures k <= e && (e == 0 || Pow2(e - 1) < n)
    decreases if Pow2(k) >= n then 0 else n - Pow2(k)
  {
    if Pow2(k) >= n { e := k; } else { e := NextPowerOfTwoIsLeast(n, k + 1); }
  }

  lemma {:induction false} Pow2Monotone(j: nat, k: nat)
    requires j <= k
    ensures Pow2(j) <= Pow2(k)
  {
    if j < k { Pow2Monotone(j, k - 1); }
  }

  // ---------------------------------------------------------------- rounding up

  /** (n + (align - 1)) & !(align - 1) */
  function AlignUp(n: nat, align: nat): nat
    requires align > 0
  {
    AndNot(n + (align - 1), align - 1)
  }

  lemma AndNotOdd(x: nat, p: nat)
    requires p > 0
    ensures AndNot(x, 0) == x
    ensures AndNot(x, 2 * p - 1) == 2 * AndNot(x / 2, p - 1)
  {
    assert (2 * p - 1) / 2 == p - 1 && (2 * p - 1) % 2 == 1;
  }

  /** Clearing the low `k` bits rounds down to a multiple of 2^k. */
  lemma {:induction false} MaskRoundsDown(x: nat, k: nat) returns (q: nat)
    ensures AndNot(x, Pow2(k) - 1) == q * Pow2(k) <= x < q * Pow2(k) + Pow2(k)
  {
    if k == 0 {
      AndNotOdd(x, 1);
      q := x;
    } else {
      q := MaskRoundsDown(x / 2, k - 1);
      AndNotOdd(x, Pow2(k - 1));
      Doubled(q, Pow2(k - 1));
      hide AndNot;
    }
  }

  lemma Doubled(q: nat, p: nat)
    ensures q * (2 * p) == 2 * (q * p)
  {
  }

  /** For powers of two the mask gives the least multiple that is no less than `n`. */
  lemma AlignUpIsLeast(n: nat, k: nat, m: nat) returns (q: nat)
    ensures n <= AlignUp(n, Pow2(k)) == q * Pow2(k)
    ensures n <= m * Pow2(k) ==> AlignUp(n, Pow2(k)) <= m * Pow2(k)
  {
    q := MaskRoundsDown(n + (Pow2(k) - 1), k);
    if m < q {
      Scaled(Pow2(k), m + 1, q);
      assert (m + 1) * Pow2(k) == m * Pow2(k) + Pow2(k);
    } else {
      Scaled(Pow2(k), q, m);
    }
  }

  lemma Scaled(a: nat, x: nat, y: nat)
    requires x <= y
    ensures x * a <= y * a
  {
  }

  // ---------------------------------------------------------------- sums

  function Total(s: seq<nat>): nat {
    if s == [] then 0 else s[0] + Total(s[1..])
  }

  lemma {:induction false} TotalUpdate(s: seq<nat>, i: nat, v: nat)
    requires i < |s|
    ensures Total(s[i := v]) == Total(s) - s[i] + v
  {
    if i > 0 {
      TotalUpdate(s[1..], i - 1, v);
      assert s[i := v][1..] == s[1..][i - 1 := v];
    } else {
      assert s[i := v][1..] == s[1..];
    }
  }

  lemma {:induction false} TotalSnoc(s: seq<nat>, i: nat)
    requires i < |s|
    ensures Total(s[..i + 1]) == Total(s[..i]) + s[i]
  {
    if i > 0 {
      TotalSnoc(s[1..], i - 1);
      assert s[..i + 1][1..] == s[1..][..i] && s[..i][1..] == s[1..][..i - 1];
    }
  }

  lemma TotalAppend(s: seq<nat>, x: nat)
    ensures Total(s + [x]) == Total(s) + x
  {
    TotalSnoc(s + [x], |s|);
    assert (s + [x])[..|s| + 1] == s + [x] && (s + [x])[..|s|] == s;
  }

  lemma {:induction false} TotalZero(s: seq<nat>)
    requires forall i :: 0 <= i < |s| ==> s[i] == 0
    ensures Total(s) == 0
  {
    if s != [] { TotalZero(s[1..]); }
  }
}
