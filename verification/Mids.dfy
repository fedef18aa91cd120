/** Stable cut points: where a group must end whatever the unseen neighbours are.

A *mid* is a cut whose distances to the previous and to the next cut are both valid gaps.
`find_stable_start` returns the place after the first mid, `find_stable_end` the place
after the last one. */
module Mids {
  import opened Aggregation
  import opened Wrappers

  ghost predicate Triple(s: seq<Node>, a: int, b: int, c: int) {
    GapPair(s, a, b) && GapPair(s, b, c)
  }

  ghost predicate IsMid(s: seq<Node>, b: int) {
    exists a, c :: Triple(s, a, b, c)
  }

  ghost predicate NoMid(s: seq<Node>) {
    forall i :: !IsMid(s, i)
  }

  /** The first mid at or after `i`, or the length. */
  ghost function FirstMid(s: seq<Node>, i: nat): (m: nat)
    requires i <= |s|
    ensures i <= m <= |s|
    ensures m < |s| ==> IsMid(s, m)
    ensures forall j :: i <= j < m ==> !IsMid(s, j)
    decreases |s| - i
  {
    if i == |s| || IsMid(s, i) then i else FirstMid(s, i + 1)
  }

  /** The last mid before `n`, or -1. */
  ghost function LastMid(s: seq<Node>, n: nat): (m: int)
    requires n <= |s|
    ensures -1 <= m < n
    ensures m >= 0 ==> IsMid(s, m)
    ensures forall j :: m < j < n ==> !IsMid(s, j)
  {
    if n == 0 then -1 else if IsMid(s, n - 1) then n - 1 else LastMid(s, n - 1)
  }

  // ---------------------------------------------------------------- moving mids around

  lemma {:induction false} MidBounds(s: seq<Node>, i: int)
    requires IsMid(s, i)
    ensures 3 <= i < |s| - 3 && Cut(s[i])
  {
  }

  lemma {:induction false} OnlyCutsAreMids(s: seq<Node>)
    ensures forall i :: IsMid(s, i) ==> 3 <= i < |s| - 3 && Cut(s[i])
  {
  }

  lemma {:induction false} MidInContext(x: seq<Node>, s: seq<Node>, y: seq<Node>, i: int)
    requires IsMid(s, i)
    ensures IsMid(x + s + y, |x| + i)
  {
    var a, c :| Triple(s, a, i, c);
    assert Triple(x + s + y, |x| + a, |x| + i, |x| + c);
  }

  /** A cut to the left shields a mid from everything before that cut. */
  lemma {:induction false} MidDropLeft(x: seq<Node>, s: seq<Node>, i: int, p: int)
    requires IsMid(x + s, |x| + i) && 0 <= p < i < |s| && Cut(s[p])
    ensures IsMid(s, i)
  {
    var a, c :| Triple(x + s, a, |x| + i, c);
    assert (x + s)[|x| + p] == s[p];
    assert forall j :: 0 <= j < |s| ==> s[j] == (x + s)[|x| + j];
    assert Triple(s, a - |x|, i, c - |x|);
  }

  /** A cut to the right shields a mid from everything after that cut. */
  lemma {:induction false} MidDropRight(s: seq<Node>, y: seq<Node>, i: int, p: int)
    requires IsMid(s + y, i) && i < p < |s| && Cut(s[p])
    ensures IsMid(s, i)
  {
    var a, c :| Triple(s + y, a, i, c);
    assert forall j :: 0 <= j < |s| ==> s[j] == (s + y)[j];
    assert Triple(s, a, i, c);
  }

  lemma {:induction false} MidCongruent(s: seq<Node>, t: seq<Node>, i: int)
    requires IsMid(s, i) && |s| == |t|
    requires forall j :: 0 <= j < |s| ==> Cut(s[j]) == Cut(t[j])
    ensures IsMid(t, i)
  {
    var a, c :| Triple(s, a, i, c);
    assert Triple(t, a, i, c);
  }

  /** Everything up to and including a mid ends stably. */
  lemma {:induction false} MidIsStableEnd(s: seq<Node>, i: int)
    requires IsMid(s, i)
    ensures 0 <= i < |s| && StableEnd(s[..i + 1])
  {
    var a, c :| Triple(s, a, i, c);
    assert EndsGapPair(s[..i + 1], a);
  }

  lemma {:induction false} StableEndCut(p: seq<Node>)
    requires StableEnd(p)
    ensures |p| >= 4 && Cut(p[|p| - 1])
  {
  }

  // ---------------------------------------------------------------- the two searches

  /** `c` holds the position of the last cut before `pos`, if any. */
  ghost predicate LastCutBefore(s: seq<Node>, pos: int, c: Option<nat>) {
    match c
    case None => forall j :: 0 <= j < pos && j < |s| ==> !Cut(s[j])
    case Some(i) => i < pos && i < |s| && Cut(s[i]) && forall j :: i < j < pos && j < |s| ==> !Cut(s[j])
  }

  ghost predicate FirstCutFrom(s: seq<Node>, pos: int, c: Option<nat>) {
    match c
    case None => forall j :: 0 <= pos <= j < |s| ==> !Cut(s[j])
    case Some(i) => pos <= i < |s| && Cut(s[i]) && forall j :: 0 <= pos <= j < i ==> !Cut(s[j])
  }

  method NextCutUnbounded(s: seq<Node>, pos: nat) returns (c: Option<nat>)
    requires pos <= |s|
    ensures FirstCutFrom(s, pos, c)
  {
    var i := pos;
    while i < |s|
      invariant pos <= i <= |s|
      invariant forall j :: pos <= j < i ==> !Cut(s[j])
    {
      var cut := IsNaturalCut(s[i]);
      if cut {
        return Some(i);
      }
      i := i + 1;
    }
    c := None;
  }

  method PrevCutUnbounded(s: seq<Node>, pos: nat) returns (c: Option<nat>)
    requires pos <= |s|
    ensures LastCutBefore(s, pos, c)
  {
    var i := pos;
    while i > 0
      invariant 0 <= i <= pos
      invariant forall j :: i <= j < pos ==> !Cut(s[j])
    {
      i := i - 1;
      var cut := IsNaturalCut(s[i]);
      if cut {
        return Some(i);
      }
    }
    c := None;
  }

  lemma {:induction false} MidNeedsNeighbours(s: seq<Node>, p: Option<nat>, b: int, n: Option<nat>)
    requires 0 <= b < |s| && Cut(s[b]) && LastCutBefore(s, b, p) && FirstCutFrom(s, b + 1, n)
    ensures IsMid(s, b) <==> p.Some? && n.Some? && ValidGap(b - p.value) && ValidGap(n.value - b)
  {
    if p.Some? && n.Some? && ValidGap(b - p.value) && ValidGap(n.value - b) {
      assert Triple(s, p.value, b, n.value);
    }
    if IsMid(s, b) {
      var a, c :| Triple(s, a, b, c);
      assert p == Some(a) && n == Some(c);
    }
  }

  /** The first stable edge: the place after the first mid. */
  method FindStableStart(s: seq<Node>) returns (r: Option<nat>)
    ensures r == if FirstMid(s, 0) == |s| then None else Some(FirstMid(s, 0) + 1)
  {
    if |s| < 3 {
      return None;
    }
    var prevPrev: Option<nat>, prev: Option<nat> := None, None;
    var pos := 0;
    while pos < |s|
      invariant 0 <= pos <= |s|
      invariant LastCutBefore(s, pos, prev)
      invariant prev.Some? ==> pos == prev.value + 1 && LastCutBefore(s, prev.value, prevPrev)
      invariant prev.None? ==> prevPrev.None?
      invariant forall j :: j < pos - 1 ==> !IsMid(s, j)
      invariant prev.None? ==> forall j :: j < pos ==> !IsMid(s, j)
    {
      var found := NextCutUnbounded(s, pos);
      if prev.Some? {
        MidNeedsNeighbours(s, prevPrev, prev.value, found);
      }
      if found.None? {
        OnlyCutsAreMids(s);
        return None;
      }
      var cut := found.value;
      if prev.Some? && ValidGap(cut - prev.value) && prevPrev.Some? && ValidGap(prev.value - prevPrev.value) {
        return Some(prev.value + 1);
      }
      assert forall j :: pos <= j < cut ==> !IsMid(s, j);
      prevPrev := prev;
      prev := Some(cut);
      pos := cut + 1;
    }
    OnlyCutsAreMids(s);
    r := None;
  }

  /** The last stable edge: the place after the last mid. */
  method FindStableEnd(s: seq<Node>) returns (r: Option<nat>)
    ensures r == if LastMid(s, |s|) < 0 then None else Some(LastMid(s, |s|) + 1)
  {
    if |s| < 3 {
      return None;
    }
    var nextNext: Option<nat>, next: Option<nat> := None, None;
    var pos := |s|;
    while pos > 0
      invariant 0 <= pos <= |s|
      invariant FirstCutFrom(s, pos, next)
      invariant next.Some? ==> pos == next.value && FirstCutFrom(s, pos + 1, nextNext)
      invariant next.None? ==> nextNext.None?
      invariant forall j :: pos < j ==> !IsMid(s, j)
      invariant next.None? ==> forall j :: pos <= j ==> !IsMid(s, j)
    {
      var found := PrevCutUnbounded(s, pos);
      if next.Some? {
        MidNeedsNeighbours(s, found, next.value, nextNext);
      }
      if found.None? {
        OnlyCutsAreMids(s);
        return None;
      }
      var cut := found.value;
      if next.Some? && ValidGap(next.value - cut) && nextNext.Some? && ValidGap(nextNext.value - next.value) {
        return Some(next.value + 1);
      }
      assert forall j :: cut < j < pos ==> !IsMid(s, j);
      nextNext := next;
      next := Some(cut);
      pos := cut;
    }
    OnlyCutsAreMids(s);
    r := None;
  }
}
