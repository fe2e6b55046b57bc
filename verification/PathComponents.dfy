/** Paths as byte strings and the double-ended iterator over their components. */
module PathComponents {
  import opened Wrappers

  const SLASH: Byte := 47
  const DOT: Byte := 46

  datatype Component = RootDir | CurDir | ParentDir | Normal(name: seq<Byte>)

  // ---------------------------------------------------------------- the forward list

  predicate NoSlash(buf: seq<Byte>, i: nat, j: nat)
    requires j <= |buf|
  {
    forall k :: i <= k < j ==> buf[k] != SLASH
  }

  predicate AllSlash(buf: seq<Byte>, i: nat, j: nat)
    requires j <= |buf|
  {
    forall k :: i <= k < j ==> buf[k] == SLASH
  }

  /** The first slash from `i` on, or `j` if there is none before. */
  function FirstSlash(buf: seq<Byte>, i: nat, j: nat): (e: nat)
    requires i <= j <= |buf|
    ensures i <= e <= j && (e < j ==> buf[e] == SLASH) && NoSlash(buf, i, e)
    decreases j - i
  {
    if i == j || buf[i] == SLASH then i else FirstSlash(buf, i + 1, j)
  }

  /** What a segment that begins at `start` stands for. */
  function Head(segment: seq<Byte>, start: nat): seq<Component> {
    if segment == [] then (if start == 0 then [RootDir] else [])
    else if segment == [DOT] then (if start == 0 then [CurDir] else [])
    else if segment == [DOT, DOT] then [ParentDir]
    else [Normal(segment)]
  }

  function SegmentHead(buf: seq<Byte>, i: nat, e: nat): seq<Component>
    requires i <= e <= |buf|
  {
    Head(buf[i..e], i)
  }

  /** The components of `buf` between `i` and `j`, from front to back. */
  function Comps(buf: seq<Byte>, i: nat, j: nat): seq<Component>
    requires i <= j <= |buf|
    decreases j - i
  {
    if i == j then []
    else
      var e := FirstSlash(buf, i, j);
      if e < j then SegmentHead(buf, i, e) + Comps(buf, e + 1, j) else SegmentHead(buf, i, j)
  }

  /** The same list defined by splitting at slashes and dropping what means nothing. */
  function Split(buf: seq<Byte>): (r: seq<seq<Byte>>)
    ensures r != []
  {
    if buf == [] then [[]]
    else
      var rest := Split(buf[1..]);
      if buf[0] == SLASH then [[]] + rest else [[buf[0]] + rest[0]] + rest[1..]
  }

  function Meaningful(segments: seq<seq<Byte>>): seq<Component> {
    if segments == [] then [] else Head(segments[0], 1) + Meaningful(segments[1..])
  }

  /** All components of a path: the first segment also counts when it is empty or a dot. */
  function ComponentsOf(path: seq<Byte>): seq<Component> {
    if path == [] then [] else Head(Split(path)[0], 0) + Meaningful(Split(path)[1..])
  }

  lemma {:induction false} SplitHead(buf: seq<Byte>, i: nat)
    requires i <= |buf|
    ensures var e, s := FirstSlash(buf, i, |buf|), Split(buf[i..]);
            && s[0] == buf[i..e]
            && (e < |buf| ==> s[1..] == Split(buf[e + 1..]))
            && (e == |buf| ==> |s| == 1)
    decreases |buf| - i
  {
    if i < |buf| {
      assert buf[i..][1..] == buf[i + 1..];
      SplitHead(buf, i + 1);
    }
  }

  lemma {:induction false} RestIsMeaningful(buf: seq<Byte>, i: nat)
    requires 0 < i <= |buf|
    ensures Comps(buf, i, |buf|) == Meaningful(Split(buf[i..]))
    decreases |buf| - i
  {
    SplitHead(buf, i);
    var e, s := FirstSlash(buf, i, |buf|), Split(buf[i..]);
    if e < |buf| {
      RestIsMeaningful(buf, e + 1);
    } else {
      assert s[1..] == [];
      assert Comps(buf, e, |buf|) == [];
    }
  }

  /** The two definitions agree. */
  lemma CompsIsComponentsOf(path: seq<Byte>)
    ensures Comps(path, 0, |path|) == ComponentsOf(path)
  {
    if path != [] {
      SplitHead(path, 0);
      assert path[0..] == path;
      var e := FirstSlash(path, 0, |path|);
      if e < |path| { RestIsMeaningful(path, e + 1); } else { assert Split(path)[1..] == []; }
    }
  }

  // ---------------------------------------------------------------- cutting at a boundary

  /** A segment begins at `m`. */
  predicate Boundary(buf: seq<Byte>, i: nat, m: nat) { i == m || (i < m <= |buf| && buf[m - 1] == SLASH) }

  lemma {:induction false} FirstSlashIs(buf: seq<Byte>, i: nat, j: nat, e: nat)
    requires i <= e <= j <= |buf| && (e < j ==> buf[e] == SLASH) && NoSlash(buf, i, e)
    ensures FirstSlash(buf, i, j) == e
  {
    var f := FirstSlash(buf, i, j);
    hide FirstSlash;
  }

  lemma CompsStep(buf: seq<Byte>, i: nat, j: nat, e: nat)
    requires i <= e <= j <= |buf| && i < j
    requires (e < j ==> buf[e] == SLASH) && NoSlash(buf, i, e)
    ensures e < j ==> Comps(buf, i, j) == SegmentHead(buf, i, e) + Comps(buf, e + 1, j)
    ensures e == j ==> Comps(buf, i, j) == SegmentHead(buf, i, j)
  {
    FirstSlashIs(buf, i, j, e);
    hide SegmentHead, FirstSlash;
  }

  lemma {:induction false} CompsSplit(buf: seq<Byte>, i: nat, m: nat, j: nat)
    requires i <= m <= j <= |buf| && Boundary(buf, i, m)
    ensures Comps(buf, i, j) == Comps(buf, i, m) + Comps(buf, m, j)
    decreases m - i
  {
    if i < m {
      var e := FirstSlash(buf, i, j);
      assert e < m;
      hide Comps, FirstSlash, NoSlash;
      CompsSplit(buf, e + 1, m, j);
      SplitStep(buf, i, e, m, j);
    }
  }

  lemma SplitStep(buf: seq<Byte>, i: nat, e: nat, m: nat, j: nat)
    requires i <= e < m <= j <= |buf| && buf[e] == SLASH && NoSlash(buf, i, e)
    requires Comps(buf, e + 1, j) == Comps(buf, e + 1, m) + Comps(buf, m, j)
    ensures Comps(buf, i, j) == Comps(buf, i, m) + Comps(buf, m, j)
  {
    hide Comps, SegmentHead, NoSlash;
    CompsStep(buf, i, j, e);
    CompsStep(buf, i, m, e);
    Regroup(SegmentHead(buf, i, e), Comps(buf, e + 1, m), Comps(buf, m, j));
  }

  lemma Regroup(x: seq<Component>, y: seq<Component>, z: seq<Component>)
    ensures x + (y + z) == x + y + z
  {
  }

  /** Slashes at the end mean nothing, unless they are all there is. */
  lemma {:induction false} TrailingSlashes(buf: seq<Byte>, i: nat, end: nat, j: nat)
    requires i <= end <= j <= |buf| && i < j && AllSlash(buf, end, j)
    ensures i < end ==> Comps(buf, i, j) == Comps(buf, i, end)
    ensures i == end ==> Comps(buf, i, j) == if i == 0 then [RootDir] else []
    decreases j - i
  {
    NoComps(buf, j);
    NoComps(buf, end);
    hide Comps;
    if i == end {
      assert AllSlash(buf, i + 1, j);
      assert buf[i..i] == [];
      CompsStep(buf, i, j, i);
      if i + 1 < j { TrailingSlashes(buf, i + 1, i + 1, j); }
    } else {
      var e := FirstSlash(buf, i, j);
      assert end < j ==> buf[end] == SLASH;
      assert e <= end && AllSlash(buf, if e + 1 < end then end else e + 1, j);
      hide FirstSlash, SegmentHead, NoSlash, AllSlash;
      CompsStep(buf, i, j, e);
      CompsStep(buf, i, end, e);
      if e + 1 < j { TrailingSlashes(buf, e + 1, if e + 1 < end then end else e + 1, j); }
    }
  }

  /** One segment without a slash. */
  lemma OneSegment(buf: seq<Byte>, i: nat, j: nat)
    requires i < j <= |buf| && NoSlash(buf, i, j)
    ensures Comps(buf, i, j) == Head(buf[i..j], i)
  {
    CompsStep(buf, i, j, j);
  }

  lemma LocalHead(buf: seq<Byte>, i: nat, e: nat, j: nat)
    requires i <= e <= j <= |buf|
    ensures SegmentHead(buf[..j], i, e) == SegmentHead(buf, i, e)
  {
    assert buf[..j][i..e] == buf[i..e];
  }

  /** Only the bytes in between matter. */
  lemma {:induction false} Local(buf: seq<Byte>, i: nat, j: nat)
    requires i <= j <= |buf|
    ensures Comps(buf[..j], i, j) == Comps(buf, i, j)
    decreases j - i
  {
    NoComps(buf, j);
    NoComps(buf[..j], j);
    if i < j {
      var e := FirstSlash(buf, i, j);
      assert NoSlash(buf[..j], i, e);
      LocalHead(buf, i, e, j);
      hide Comps, SegmentHead, FirstSlash, NoSlash;
      CompsStep(buf, i, j, e);
      CompsStep(buf[..j], i, j, e);
      if e < j { Local(buf, e + 1, j); }
    }
  }

  // ---------------------------------------------------------------- the iterator

  /** The end without the slashes before it, but for the first byte. */
  function TrimEnd(buf: seq<Byte>, back: nat): (e: nat)
    requires back <= |buf|
    ensures e <= back
  {
    if back > 1 && buf[back - 1] == SLASH then TrimEnd(buf, back - 1) else back
  }

  class Components {
    const buf: seq<Byte>
    var front: nat
    var back: nat

    predicate Valid()
      reads this
    {
      front <= back <= |buf|
    }

    /** The components not yet returned. */
    function Rest(): seq<Component>
      reads this
      requires Valid()
    {
      Comps(buf, front, back)
    }

    constructor (path: seq<Byte>)
      ensures Valid() && buf == path && front == 0 && back == |path| && Rest() == ComponentsOf(path)
    {
      buf, front, back := path, 0, |path|;
      CompsIsComponentsOf(path);
    }

    method Next() returns (r: Option<Component>)
      requires Valid()
      modifies this`front
      ensures Valid() && (r.None? <==> old(Rest()) == [])
      ensures r.None? ==> Rest() == []
      ensures r.Some? ==> old(Rest()) == [r.value] + Rest()
      ensures old(front) < back ==>
                var e := FirstSlash(buf, old(front), back);
                SegmentHead(buf, old(front), e) != [] ==> front == if e < back then e + 1 else back
      decreases back - front
    {
      if front == back { return None; }
      var start, end := front, front;
      while end < back && buf[end] != SLASH
        invariant start <= end <= back && NoSlash(buf, start, end)
      {
        end := end + 1;
      }
      FirstSlashIs(buf, start, back, end);
      front := end;
      if front < back && buf[front] == SLASH { front := front + 1; }
      var segment := buf[start..end];
      if segment == [] {
        if start == 0 { return Some(RootDir); }
        r := Next();
      } else if segment == [DOT] {
        if start == 0 { return Some(CurDir); }
        r := Next();
      } else if segment == [DOT, DOT] {
        return Some(ParentDir);
      } else {
        return Some(Normal(segment));
      }
    }

    method NextBack() returns (r: Option<Component>)
      requires Valid()
      modifies this`back
      ensures Valid() && back <= old(back) && (r.None? <==> old(Rest()) == [])
      ensures r.None? ==> Rest() == []
      ensures r.Some? ==> old(Rest()) == Rest() + [r.value]
      decreases back - front
    {
      hide Comps;
      if front == back {
        NoComps(buf, front);
        return None;
      }
      var end := back;
      while end > front && buf[end - 1] == SLASH
        invariant front <= end <= back && AllSlash(buf, end, back)
      {
        end := end - 1;
      }
      TrailingSlashes(buf, front, end, back);
      back := end;
      var start := back;
      while start > front && buf[start - 1] != SLASH
        invariant front <= start <= back && NoSlash(buf, start, back)
      {
        start := start - 1;
      }
      if front < end { Segment(buf, front, start, end); } else { NoComps(buf, front); }
      var segment := buf[start..back];
      back := start;
      if segment == [] {
        if start == 0 { return Some(RootDir); }
        r := NextBack();
      } else if segment == [DOT] {
        if start == 0 { return Some(CurDir); }
        r := NextBack();
      } else if segment == [DOT, DOT] {
        return Some(ParentDir);
      } else {
        return Some(Normal(segment));
      }
    }

    /** `as_path`, which panics, as `None` says, exactly when nothing but slashes is left and the byte
        before the front is one more, past the first byte.  Otherwise the components of the path are
        those left, unless what is left begins with a slash or with a lone dot that now counts. */
    method AsPath() returns (r: Option<seq<Byte>>)
      requires Valid()
      ensures r.None? <==> front > 1 && AllSlash(buf, front - 1, back)
      ensures r.Some? ==> front <= TrimEnd(buf, back) <= back && r.value == buf[front..TrimEnd(buf, back)]
      ensures r.Some? ==> (ComponentsOf(r.value) == Rest() <==> front == 0 || NothingSpecial(buf, front, back))
    {
      hide Comps, ComponentsOf, NothingSpecial;
      if back == 0 {
        NoComps(buf, 0);
        NothingOf();
        return Some([]);
      }
      var e: nat := back - 1;
      while e != 0 && buf[e] == SLASH
        invariant e < back && AllSlash(buf, e + 1, back) && TrimEnd(buf, back) == TrimEnd(buf, e + 1)
      {
        e := e - 1;
      }
      if front > e + 1 { return None; }
      r := Some(buf[front..e + 1]);
      PathLeft(buf, front, e + 1, back);
    }
  }

  /** What is left begins with a segment that means the same at the beginning of a path. */
  predicate NothingSpecial(buf: seq<Byte>, i: nat, j: nat)
    requires i <= j <= |buf|
  {
    AllSlash(buf, i, j) || (buf[i] != SLASH && buf[i..FirstSlash(buf, i, j)] != [DOT])
  }

  lemma NothingLeft(buf: seq<Byte>, i: nat, j: nat)
    requires 0 < i <= j <= |buf| && AllSlash(buf, i, j)
    ensures Comps(buf, i, j) == [] && ComponentsOf(buf[i..i]) == []
  {
    if i < j { TrailingSlashes(buf, i, i, j); }
  }

  lemma NothingOf()
    ensures ComponentsOf([]) == []
  {
  }

  /** The components of what is left, without the slashes at its end. */
  lemma PathLeft(buf: seq<Byte>, i: nat, end: nat, j: nat)
    requires i <= end <= j <= |buf| && 0 < end && AllSlash(buf, end, j) && (end == 1 || buf[end - 1] != SLASH)
    ensures ComponentsOf(buf[i..end]) == Comps(buf, i, j) <==> i == 0 || NothingSpecial(buf, i, j)
  {
    hide Comps, ComponentsOf, FirstSlash;
    if end == i {
      NothingLeft(buf, i, j);
    } else {
      if end < j { TrailingSlashes(buf, i, end, j); }
      TakenOut(buf, i, end);
      CompsIsComponentsOf(buf[i..end]);
      SameFirst(buf, i, end, j);
    }
  }

  /** Slashes at the end do not change the first segment. */
  lemma SameFirst(buf: seq<Byte>, i: nat, end: nat, j: nat)
    requires i < end <= j <= |buf| && AllSlash(buf, end, j) && (end == 1 || buf[end - 1] != SLASH)
    ensures i == 0 || !AllSlash(buf, i, j)
    ensures FirstSlash(buf, i, j) == FirstSlash(buf, i, end)
  {
    FirstSlashIs(buf, i, j, FirstSlash(buf, i, end));
  }

  lemma SliceOfSlice(buf: seq<Byte>, i: nat, j: nat, a: nat, b: nat)
    requires a <= b && i + b <= j <= |buf|
    ensures buf[i..j][a..b] == buf[i + a..i + b]
  {
    var x, y := buf[i..j][a..b], buf[i + a..i + b];
    assert |x| == |y|;
    forall k | 0 <= k < |x|
      ensures x[k] == y[k]
    {
      assert x[k] == buf[i..j][a + k] == buf[i + (a + k)];
    }
  }

  /** The same segment in the path that was taken out. */
  lemma SameSegment(buf: seq<Byte>, p: seq<Byte>, i: nat, j: nat, m: nat, e: nat)
    requires i < m <= e <= j <= |buf| && p == buf[i..j] && NoSlash(buf, m, e)
    ensures NoSlash(p, m - i, e - i) && SegmentHead(p, m - i, e - i) == SegmentHead(buf, m, e)
  {
    SliceOfSlice(buf, i, j, m - i, e - i);
    assert NoSlash(p, m - i, e - i);
  }

  /** A path taken out of another one: beyond its first segment its components are the same. */
  lemma TakenOut(buf: seq<Byte>, i: nat, j: nat)
    requires i < j <= |buf|
    ensures var p, e := buf[i..j], FirstSlash(buf, i, j);
            Comps(p, 0, |p|) == Comps(buf, i, j) <==> i == 0 || (buf[i] != SLASH && buf[i..e] != [DOT])
  {
    var p, e := buf[i..j], FirstSlash(buf, i, j);
    hide Comps, FirstSlash, Head;
    assert (buf[i..e] == [] <==> e == i) && (buf[i] == SLASH <==> e == i);
    FirstSegment(buf, i, j, e);
    var tail := if e < j then Comps(buf, e + 1, j) else [];
    HeadAnywhere(buf[i..e], i, tail);
  }

  lemma FirstSegment(buf: seq<Byte>, i: nat, j: nat, e: nat)
    requires i <= e <= j <= |buf| && i < j && NoSlash(buf, i, e) && (e < j ==> buf[e] == SLASH)
    ensures var p, tail := buf[i..j], if e < j then Comps(buf, e + 1, j) else [];
            Comps(p, 0, |p|) == Head(buf[i..e], 0) + tail && Comps(buf, i, j) == Head(buf[i..e], i) + tail
  {
    hide Comps, Head;
    var p := buf[i..j];
    SliceOfSlice(buf, i, j, 0, e - i);
    assert NoSlash(p, 0, e - i);
    CompsStep(buf, i, j, e);
    CompsStep(p, 0, |p|, e - i);
    if e < j { Shifted(buf, p, i, j, e + 1); }
  }

  /** What a segment means at the beginning of a path and elsewhere. */
  lemma HeadAnywhere(segment: seq<Byte>, i: nat, tail: seq<Component>)
    ensures Head(segment, 0) + tail == Head(segment, i) + tail <==> i == 0 || (segment != [] && segment != [DOT])
  {
    if i > 0 && (segment == [] || segment == [DOT]) {
      assert |Head(segment, 0) + tail| == |Head(segment, i) + tail| + 1;
    } else {
      assert Head(segment, 0) == Head(segment, i);
    }
  }

  lemma {:induction false} Shifted(buf: seq<Byte>, p: seq<Byte>, i: nat, j: nat, m: nat)
    requires i < m <= j <= |buf| && p == buf[i..j]
    ensures Comps(p, m - i, |p|) == Comps(buf, m, j)
    decreases j - m
  {
    if m < j {
      var e := FirstSlash(buf, m, j);
      hide Comps, FirstSlash, NoSlash, SegmentHead;
      if e < j { Shifted(buf, p, i, j, e + 1); }
      ShiftedStep(buf, p, i, j, m, e);
    } else {
      NoComps(buf, j);
      NoComps(p, |p|);
    }
  }

  lemma ShiftedStep(buf: seq<Byte>, p: seq<Byte>, i: nat, j: nat, m: nat, e: nat)
    requires i < m <= e <= j <= |buf| && m < j && p == buf[i..j] && NoSlash(buf, m, e) && (e < j ==> buf[e] == SLASH)
    requires e < j ==> Comps(p, e + 1 - i, |p|) == Comps(buf, e + 1, j)
    ensures Comps(p, m - i, |p|) == Comps(buf, m, j)
  {
    hide Comps, FirstSlash, NoSlash, SegmentHead;
    SameSegment(buf, p, i, j, m, e);
    CompsStep(buf, m, j, e);
    CompsStep(p, m - i, |p|, e - i);
  }

  lemma NoComps(buf: seq<Byte>, i: nat)
    requires i <= |buf|
    ensures Comps(buf, i, i) == []
  {
  }

  /** The last segment, from `start` to `end`. */
  lemma Segment(buf: seq<Byte>, i: nat, start: nat, end: nat)
    requires i <= start < end <= |buf| && Boundary(buf, i, start) && NoSlash(buf, start, end)
    ensures Comps(buf, i, end) == Comps(buf, i, start) + Head(buf[start..end], start)
  {
    CompsSplit(buf, i, start, end);
    OneSegment(buf, start, end);
  }

  // ---------------------------------------------------------------- whole runs, and the parent

  function Reversed(s: seq<Component>): seq<Component> { if s == [] then [] else Reversed(s[1..]) + [s[0]] }

  /** Any interleaving of `next` (true) and `next_back` (false): the components from the front, the
      rest and the components from the back in reverse are the forward list. */
  method Interleave(path: seq<Byte>, calls: seq<bool>)
    returns (fronts: seq<Component>, backs: seq<Component>, it: Components)
    ensures fresh(it) && it.Valid()
    ensures fronts + it.Rest() + Reversed(backs) == ComponentsOf(path)
    ensures |fronts| + |backs| < |calls| ==> it.Rest() == []
  {
    it := new Components(path);
    fronts, backs := [], [];
    for n := 0 to |calls|
      invariant fresh(it) && it.Valid()
      invariant fronts + it.Rest() + Reversed(backs) == ComponentsOf(path)
      invariant |fronts| + |backs| == n || (|fronts| + |backs| < n && it.Rest() == [])
    {
      hide Comps, ComponentsOf, Reversed;
      ghost var rest := it.Rest();
      if calls[n] {
        var r := it.Next();
        if r.Some? {
          AddFront(fronts, r.value, it.Rest(), Reversed(backs));
          fronts := fronts + [r.value];
        }
      } else {
        var r := it.NextBack();
        if r.Some? {
          AddBack(fronts, it.Rest(), r.value, backs);
          backs := backs + [r.value];
        }
      }
    }
  }

  lemma AddFront(x: seq<Component>, c: Component, y: seq<Component>, z: seq<Component>)
    ensures x + ([c] + y) + z == x + [c] + y + z
  {
  }

  lemma {:induction false} ReversedAppend(s: seq<Component>, c: Component)
    ensures Reversed(s + [c]) == [c] + Reversed(s)
  {
    if s == [] {
      assert [c][1..] == [];
    } else {
      assert (s + [c])[1..] == s[1..] + [c];
      ReversedAppend(s[1..], c);
    }
  }

  lemma AddBack(x: seq<Component>, y: seq<Component>, c: Component, backs: seq<Component>)
    ensures x + (y + [c]) + Reversed(backs) == x + y + Reversed(backs + [c])
  {
    ReversedAppend(backs, c);
  }

  /** `parent()`: the path without its last component; none when that is the root or a leading
      dot, or when there is no component. */
  method Parent(path: seq<Byte>) returns (r: Option<seq<Byte>>)
    ensures r.Some? ==>
              && ComponentsOf(path) != []
              && ComponentsOf(r.value) == ComponentsOf(path)[..|ComponentsOf(path)| - 1]
    ensures r.None? <==>
              var c := ComponentsOf(path);
              c == [] || c[|c| - 1] == RootDir || c[|c| - 1] == CurDir
  {
    var it := new Components(path);
    hide Comps, ComponentsOf;
    var comp := it.NextBack();
    if comp.None? || comp.value == RootDir || comp.value == CurDir { return None; }
    r := it.AsPath();
  }

  /** "a//b" after one component: the path that is left is "/b", which reads as an absolute one. */
  method PathLeftIsAbsolute() returns (r: Option<seq<Byte>>, ghost rest: seq<Component>)
    ensures rest == [Normal([98])] && r == Some([SLASH, 98]) && ComponentsOf([SLASH, 98]) == [RootDir, Normal([98])]
  {
    ReadOut();
    hide Comps, ComponentsOf, FirstSlash, SegmentHead;
    var it := new Components([97, SLASH, SLASH, 98]);
    var c := it.Next();
    rest := it.Rest();
    assert it.front == 2 && it.buf[2..4] == [SLASH, 98] && it.buf[3] != SLASH;
    r := it.AsPath();
  }

  lemma ReadOut()
    ensures var x: seq<Byte> := [97, SLASH, SLASH, 98];
            && FirstSlash(x, 0, 4) == 1 && SegmentHead(x, 0, 1) == [Normal([97])] && Comps(x, 2, 4) == [Normal([98])]
    ensures ComponentsOf([SLASH, 98]) == [RootDir, Normal([98])]
  {
    var x: seq<Byte> := [97, SLASH, SLASH, 98];
    var y: seq<Byte> := [SLASH, 98];
    FirstSlashIs(x, 0, 4, 1);
    CompsStep(x, 2, 4, 2);
    CompsStep(x, 3, 4, 4);
    assert x[3..4] == [98] && x[2..2] == [] && x[0..1] == [97];
    CompsIsComponentsOf(y);
    CompsStep(y, 0, 2, 0);
    CompsStep(y, 1, 2, 2);
    assert y[0..0] == [] && y[1..2] == [98];
  }

  /** "a//" after one component: `as_path` panics. */
  method PathLeftPanics() returns (r: Option<seq<Byte>>)
    ensures r.None?
  {
    var x: seq<Byte> := [97, SLASH, SLASH];
    FirstSlashIs(x, 0, 3, 1);
    assert x[0..1] == [97];
    hide Comps, ComponentsOf, FirstSlash, NothingSpecial;
    var it := new Components(x);
    var c := it.Next();
    r := it.AsPath();
  }
}
