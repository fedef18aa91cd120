/** Humps: partially aggregated ranges of a chunk list, level by level.

A level keeps the nodes that could not yet be grouped; the grouped middle lives on the
levels above. The three `…Open` predicates say what true node list a hump stands for,
depending on which of its two ends is a file boundary, and the lemmas show that building
and merging respect them. */
module Humps {
  import opened Lists
  import opened Aggregation
  import opened Mids

  datatype Level = Level(left: seq<Node>, right: seq<Node>)
  datatype Parts = Parts(left: seq<Node>, middle: seq<Node>, right: seq<Node>)

  const EMPTY := Level([], [])

  /** What `split_and_promote` keeps on either side, and what it promotes. */
  ghost function Split(s: seq<Node>, atStart: bool, atEnd: bool): (p: Parts)
    ensures p.left + p.middle + p.right == s
    ensures p.middle == [] ==> p == Parts(s, [], [])
    ensures |s| <= 1 ==> p.middle == []
  {
    if |s| <= 1 then Parts(s, [], [])
    else
      var lo := if atStart then 0 else Min(FirstMid(s, 0) + 1, |s|);
      var t := s[lo..];
      var hi := if atEnd then |s| else lo + LastMid(t, |t|) + 1;
      if hi <= lo then Parts(s, [], []) else Parts(s[..lo], s[lo..hi], s[hi..])
  }

  ghost function BuildHump(mg: Merger, s: seq<Node>, atStart: bool, atEnd: bool): (levels: seq<Level>)
    ensures levels != []
    decreases |s|
  {
    var p := Split(s, atStart, atEnd);
    [Level(p.left, p.right)] +
    if p.middle == [] then []
    else BuildHump(mg, Groups(mg, p.middle), atStart && p.left == [], atEnd && p.right == [])
  }

  function Head(levels: seq<Level>): Level {
    if levels == [] then EMPTY else levels[0]
  }

  function Tail(levels: seq<Level>): seq<Level> {
    if levels == [] then [] else levels[1..]
  }

  function Full(a: Level, carry: seq<Node>, b: Level): seq<Node> {
    a.left + a.right + carry + b.left + b.right
  }

  /** Level-by-level merge; what is promoted on one level is carried to the next. */
  ghost function MergeLevels(mg: Merger, a: seq<Level>, b: seq<Level>, carry: seq<Node>,
                             atStart: bool, atEnd: bool): (levels: seq<Level>)
    decreases |a| + |b|
  {
    if a == [] && b == [] then
      if carry == [] then [] else BuildHump(mg, carry, atStart, atEnd)
    else
      var p := Split(Full(Head(a), carry, Head(b)), atStart, atEnd);
      [Level(p.left, p.right)] +
      MergeLevels(mg, Tail(a), Tail(b), Groups(mg, p.middle), atStart && p.left == [], atEnd && p.right == [])
  }

  function Trim(levels: seq<Level>): (r: seq<Level>)
    ensures levels != [] ==> r != []
  {
    if |levels| > 1 && levels[|levels| - 1] == EMPTY then Trim(levels[..|levels| - 1]) else levels
  }

  // ---------------------------------------------------------------- meaning

  /** Everything in `t` but its last `n` nodes. */
  function Front(t: seq<Node>, n: nat): seq<Node>
    requires n <= |t|
  {
    t[..|t| - n]
  }

  predicate IsPrefix(l: seq<Node>, t: seq<Node>) {
    |l| <= |t| && t[..|l|] == l
  }

  predicate IsSuffix(r: seq<Node>, t: seq<Node>) {
    |r| <= |t| && t[|t| - |r|..] == r
  }

  /** The left end is the start of the file, the right end is open: each level keeps a tail. */
  ghost predicate StartOpen(mg: Merger, levels: seq<Level>, t: seq<Node>)
    decreases |levels|
  {
    if levels == [] then t == []
    else
      var s := levels[0].left + levels[0].right;
      && IsSuffix(s, t)
      && NoMid(s)
      && var p := Front(t, |s|);
         && (p != [] ==> StableEnd(p) && |s| >= 2)
         && StartOpen(mg, levels[1..], Groups(mg, p))
  }

  /** The right end is the end of the file, the left end is open: each level keeps a head. */
  ghost predicate EndOpen(mg: Merger, levels: seq<Level>, t: seq<Node>)
    decreases |levels|
  {
    if levels == [] then t == []
    else
      var l := levels[0].left;
      && levels[0].right == []
      && IsPrefix(l, t)
      && (l != t ==> StableEnd(l))
      && EndOpen(mg, levels[1..], Groups(mg, t[|l|..]))
  }

  /** The only mid of `l + r` is the last node of `l`. */
  ghost predicate Joint(l: seq<Node>, r: seq<Node>) {
    forall i :: IsMid(l + r, i) <==> i == |l| - 1
  }

  /** Both ends open, as built from chunks: the one mid of a level marks where its middle was. */
  ghost predicate BothOpen(mg: Merger, levels: seq<Level>, t: seq<Node>)
    decreases |levels|
  {
    if levels == [] then t == []
    else
      var l, r := levels[0].left, levels[0].right;
      && |l| + |r| <= |t| && IsPrefix(l, t) && IsSuffix(r, t)
      && var g := t[|l|..|t| - |r|];
         && (g == [] ==> r == [])
         && (g != [] ==> StableEnd(l) && StableEnd(g) && Joint(l, r))
         && BothOpen(mg, levels[1..], Groups(mg, g))
  }

  /** Both ends are file boundaries: everything has collapsed into one node on one level. */
  ghost predicate Closed(mg: Merger, levels: seq<Level>, t: seq<Node>)
    decreases |levels|
  {
    if levels == [] then t == []
    else if |t| <= 1 then levels[0] == Level(t, []) && AllEmpty(levels[1..])
    else levels[0] == EMPTY && Closed(mg, levels[1..], Groups(mg, t))
  }

  predicate AllEmpty(levels: seq<Level>) {
    forall i :: 0 <= i < |levels| ==> levels[i] == EMPTY
  }

  /** What a hump with the given ends stands for. */
  ghost predicate Stands(mg: Merger, levels: seq<Level>, atStart: bool, atEnd: bool, t: seq<Node>) {
    if atStart && atEnd then Closed(mg, levels, t)
    else if atStart then StartOpen(mg, levels, t)
    else if atEnd then EndOpen(mg, levels, t)
    else BothOpen(mg, levels, t)
  }

  // ---------------------------------------------------------------- folding and unfolding the meanings

  lemma {:induction false} BuildUnfold(mg: Merger, s: seq<Node>, atStart: bool, atEnd: bool, p: Parts)
    requires p == Split(s, atStart, atEnd)
    ensures p.middle == [] ==> BuildHump(mg, s, atStart, atEnd) == [Level(p.left, p.right)]
    ensures p.middle != [] ==> |Groups(mg, p.middle)| < |s|
    ensures p.middle != [] ==>
              BuildHump(mg, s, atStart, atEnd) == [Level(p.left, p.right)] +
                BuildHump(mg, Groups(mg, p.middle), atStart && p.left == [], atEnd && p.right == [])
  {
  }

  lemma {:induction false} StartOpenFold(mg: Merger, v: Level, rest: seq<Level>, p: seq<Node>)
    requires NoMid(v.left + v.right) && (p != [] ==> StableEnd(p) && |v.left + v.right| >= 2)
    requires StartOpen(mg, rest, Groups(mg, p))
    ensures StartOpen(mg, [v] + rest, p + (v.left + v.right))
  {
    var levels, s := [v] + rest, v.left + v.right;
    assert levels[1..] == rest;
    assert Front(p + s, |s|) == p && IsSuffix(s, p + s);
  }

  lemma {:induction false} GroupsEmpty(mg: Merger, s: seq<Node>)
    ensures Groups(mg, s) == [] <==> s == []
  {
  }

  lemma {:induction false} StartOpenUnfold(mg: Merger, levels: seq<Level>, t: seq<Node>) returns (p: seq<Node>)
    requires StartOpen(mg, levels, t)
    ensures t == p + (Head(levels).left + Head(levels).right)
    ensures NoMid(Head(levels).left + Head(levels).right)
    ensures p != [] ==> StableEnd(p) && |Head(levels).left + Head(levels).right| >= 2
    ensures StartOpen(mg, Tail(levels), Groups(mg, p))
  {
    hide IsMid, StableEnd, Groups;
    OnlyCutsAreMids([]);
    GroupsEmpty(mg, []);
    p := if levels == [] then [] else Front(t, |levels[0].left + levels[0].right|);
  }

  lemma {:induction false} EndOpenFold(mg: Merger, l: seq<Node>, rest: seq<Level>, q: seq<Node>)
    requires q != [] ==> StableEnd(l)
    requires EndOpen(mg, rest, Groups(mg, q))
    ensures EndOpen(mg, [Level(l, [])] + rest, l + q)
  {
    var levels := [Level(l, [])] + rest;
    assert levels[1..] == rest && (l + q)[|l|..] == q && IsPrefix(l, l + q);
    if q == [] {
      assert l + q == l;
    }
  }

  lemma {:induction false} EndOpenUnfold(mg: Merger, levels: seq<Level>, t: seq<Node>) returns (q: seq<Node>)
    requires EndOpen(mg, levels, t)
    ensures t == Head(levels).left + q && Head(levels).right == []
    ensures q != [] ==> StableEnd(Head(levels).left)
    ensures EndOpen(mg, Tail(levels), Groups(mg, q))
  {
    hide StableEnd, Groups;
    GroupsEmpty(mg, []);
    q := if levels == [] then [] else t[|levels[0].left|..];
  }

  lemma {:induction false} BothOpenFold(mg: Merger, l: seq<Node>, g: seq<Node>, r: seq<Node>, rest: seq<Level>)
    requires g == [] ==> r == []
    requires g != [] ==> StableEnd(l) && StableEnd(g) && Joint(l, r)
    requires BothOpen(mg, rest, Groups(mg, g))
    ensures BothOpen(mg, [Level(l, r)] + rest, l + g + r)
  {
    var levels, t := [Level(l, r)] + rest, l + g + r;
    assert levels[1..] == rest && t[|l|..|t| - |r|] == g && IsPrefix(l, t) && IsSuffix(r, t);
  }

  lemma {:induction false} BothOpenUnfold(mg: Merger, levels: seq<Level>, t: seq<Node>) returns (g: seq<Node>)
    requires BothOpen(mg, levels, t)
    ensures t == Head(levels).left + g + Head(levels).right
    ensures g == [] ==> Head(levels).right == []
    ensures g != [] ==> StableEnd(Head(levels).left) && StableEnd(g) && Joint(Head(levels).left, Head(levels).right)
    ensures BothOpen(mg, Tail(levels), Groups(mg, g))
  {
    hide StableEnd, Groups, Joint;
    GroupsEmpty(mg, []);
    g := if levels == [] then [] else t[|levels[0].left|..|t| - |levels[0].right|];
  }

  // ---------------------------------------------------------------- building

  lemma {:induction false} NoMidInSuffix(x: seq<Node>, s: seq<Node>)
    requires forall j :: |x| <= j < |x + s| ==> !IsMid(x + s, j)
    ensures NoMid(s)
  {
    hide IsMid;
    forall i ensures !IsMid(s, i) {
      if IsMid(s, i) {
        MidInContext(x, s, [], i);
        assert x + s + [] == x + s;
        MidBounds(s, i);
      }
    }
  }

  lemma {:induction false} NoMidInTail(t: seq<Node>)
    ensures NoMid(t[LastMid(t, |t|) + 1..])
  {
    hide *;
    var m := LastMid(t, |t|);
    assert t[..m + 1] + t[m + 1..] == t;
    NoMidInSuffix(t[..m + 1], t[m + 1..]);
  }

  /** With the start known, everything up to the last mid is promoted. */
  lemma {:induction false} SplitFromStart(s: seq<Node>, p: Parts)
    requires p == Split(s, true, false)
    ensures p.middle == [] ==> p == Parts(s, [], []) && NoMid(s)
    ensures p.middle != [] ==> p.left == [] && IsMid(s, |p.middle| - 1) && NoMid(p.right) && |p.right| >= 3
    ensures p.middle != [] ==> StableEnd(p.middle) && forall i :: |p.middle| <= i ==> !IsMid(s, i)
  {
    hide IsMid, StableEnd;
    OnlyCutsAreMids(s);
    if |s| > 1 {
      assert s[0..] == s;
      var m := LastMid(s, |s|);
      NoMidInTail(s);
      if m >= 0 {
        MidIsStableEnd(s, m);
      }
    }
  }

  /** With the end known, everything after the first mid is promoted. */
  lemma {:induction false} SplitToEnd(s: seq<Node>, p: Parts)
    requires p == Split(s, false, true)
    ensures p.right == []
    ensures p.middle == [] ==> p.left == s && NoMid(s)
    ensures p.middle != [] ==>
              StableEnd(p.left) && IsMid(s, |p.left| - 1) && forall i :: i < |p.left| - 1 ==> !IsMid(s, i)
  {
    hide IsMid, StableEnd;
    OnlyCutsAreMids(s);
    if |s| > 1 {
      var m := FirstMid(s, 0);
      if m < |s| {
        MidIsStableEnd(s, m);
      }
    }
  }

  lemma {:induction false} BuildStartOpen(mg: Merger, s: seq<Node>)
    ensures StartOpen(mg, BuildHump(mg, s, true, false), s)
    decreases |s|
  {
    hide *;
    var p := Split(s, true, false);
    BuildUnfold(mg, s, true, false, p);
    SplitFromStart(s, p);
    if p.middle == [] {
      StartOpenNil(mg);
      assert s + [] == s && [] + s == s;
      StartOpenFold(mg, Level(s, []), [], []);
      assert [Level(s, [])] + [] == [Level(s, [])];
    } else {
      BuildStartOpen(mg, Groups(mg, p.middle));
      assert [] + p.right == p.right;
      StartOpenFold(mg, Level([], p.right), BuildHump(mg, Groups(mg, p.middle), true, false), p.middle);
      assert [] + p.middle + p.right == p.middle + p.right;
    }
  }

  lemma {:induction false} StartOpenNil(mg: Merger)
    ensures Groups(mg, []) == [] && StartOpen(mg, [], []) && EndOpen(mg, [], []) && BothOpen(mg, [], [])
  {
  }

  lemma {:induction false} BuildEndOpen(mg: Merger, s: seq<Node>)
    ensures EndOpen(mg, BuildHump(mg, s, false, true), s)
    decreases |s|
  {
    hide *;
    var p := Split(s, false, true);
    BuildUnfold(mg, s, false, true, p);
    SplitToEnd(s, p);
    if p.middle == [] {
      StartOpenNil(mg);
      EndOpenFold(mg, s, [], []);
      assert s + [] == s && [Level(s, [])] + [] == [Level(s, [])];
    } else {
      BuildEndOpen(mg, Groups(mg, p.middle));
      EndOpenFold(mg, p.left, BuildHump(mg, Groups(mg, p.middle), false, true), p.middle);
      assert p.left + p.middle + [] == p.left + p.middle;
    }
  }

  /** Cutting out a middle that lies between a first and a last mid leaves exactly one mid. */
  lemma {:induction false} JointAfterRemoval(l: seq<Node>, g: seq<Node>, r: seq<Node>)
    requires l != [] && g != []
    requires IsMid(l + g + r, |l| - 1) && forall i :: i < |l| - 1 ==> !IsMid(l + g + r, i)
    requires IsMid(g + r, |g| - 1) && forall i :: |g| <= i ==> !IsMid(g + r, i)
    ensures Joint(l, r)
  {
    hide IsMid;
    JointIsMid(l, g, r);
    forall i | IsMid(l + r, i) ensures i == |l| - 1 {
      if i < |l| - 1 {
        NoMidBeforeJoint(l, g, r, i);
      } else if i > |l| - 1 {
        NoMidAfterJoint(l, g, r, i);
      }
    }
  }

  lemma {:induction false} JointIsMid(l: seq<Node>, g: seq<Node>, r: seq<Node>)
    requires l != [] && g != []
    requires IsMid(l + g + r, |l| - 1) && IsMid(g + r, |g| - 1)
    ensures Cut(l[|l| - 1]) && Cut(g[|g| - 1])
    ensures IsMid(l + r, |l| - 1)
  {
    var t, u := l + g + r, g + r;
    var a, b :| Triple(t, a, |l| - 1, b);
    var d, e :| Triple(u, d, |g| - 1, e);
    assert forall j :: 0 <= j < |l| ==> t[j] == l[j] == (l + r)[j];
    assert forall j :: 0 <= j < |r| ==> u[|g| + j] == r[j] == (l + r)[|l| + j];
    assert GapPair(l + r, a, |l| - 1);
    assert forall j :: |g| <= j < e ==> !Cut(u[j]);
    assert GapPair(l + r, |l| - 1, |l| + e - |g|);
    assert Triple(l + r, a, |l| - 1, |l| + e - |g|);
  }

  lemma {:induction false} NoMidBeforeJoint(l: seq<Node>, g: seq<Node>, r: seq<Node>, i: int)
    requires l != [] && Cut(l[|l| - 1]) && i < |l| - 1 && IsMid(l + r, i)
    ensures IsMid(l + g + r, i)
  {
    hide *;
    MidDropRight(l, r, i, |l| - 1);
    MidInContext([], l, g + r, i);
    assert [] + l + (g + r) == l + g + r;
  }

  lemma {:induction false} NoMidAfterJoint(l: seq<Node>, g: seq<Node>, r: seq<Node>, i: int)
    requires l != [] && g != [] && Cut(l[|l| - 1]) && Cut(g[|g| - 1]) && |l| <= i && IsMid(l + r, i)
    ensures IsMid(g + r, |g| + (i - |l|))
  {
    hide *;
    var x, s := l[..|l| - 1], [l[|l| - 1]] + r;
    assert x + s == l + r;
    MidBounds(l + r, i);
    MidDropLeft(x, s, i - |x|, 0);
    var s' := [g[|g| - 1]] + r;
    MidCongruent(s, s', i - |x|);
    MidInContext(g[..|g| - 1], s', [], i - |x|);
    assert g[..|g| - 1] + s' + [] == g + r;
  }

  lemma {:induction false} SplitInside(s: seq<Node>, p: Parts)
    requires p == Split(s, false, false) && p.middle != []
    ensures StableEnd(p.left) && StableEnd(p.middle) && Joint(p.left, p.right)
  {
    hide Joint, IsMid, StableEnd;
    OnlyCutsAreMids(s);
    var m := FirstMid(s, 0);
    var t := s[m + 1..];
    OnlyCutsAreMids(t);
    var n := LastMid(t, |t|);
    var l, g, r := p.left, p.middle, p.right;
    assert l == s[..m + 1] && g == s[m + 1..m + 2 + n] == t[..n + 1] && r == s[m + 2 + n..];
    assert g + r == t;
    MidIsStableEnd(s, m); MidIsStableEnd(t, n);
    JointAfterRemoval(l, g, r);
  }

  lemma {:induction false} BuildBothOpen(mg: Merger, s: seq<Node>)
    ensures BothOpen(mg, BuildHump(mg, s, false, false), s)
    decreases |s|
  {
    hide *;
    var p := Split(s, false, false);
    BuildUnfold(mg, s, false, false, p);
    if p.middle == [] {
      StartOpenNil(mg);
      BothOpenFold(mg, s, [], [], []);
      assert s + [] + [] == s && [Level(s, [])] + [] == [Level(s, [])];
    } else {
      SplitInside(s, p);
      BuildBothOpen(mg, Groups(mg, p.middle));
      BothOpenFold(mg, p.left, p.middle, p.right, BuildHump(mg, Groups(mg, p.middle), false, false));
    }
  }

  lemma {:induction false} BuildClosed(mg: Merger, s: seq<Node>)
    ensures Closed(mg, BuildHump(mg, s, true, true), s)
    decreases |s|
  {
    var levels := BuildHump(mg, s, true, true);
    if |s| > 1 {
      assert Split(s, true, true) == Parts([], s, []);
      BuildClosed(mg, Groups(mg, s));
      assert levels[1..] == BuildHump(mg, Groups(mg, s), true, true);
    }
  }

  /** A hump built from chunks stands for those chunks. */
  lemma {:induction false} BuildStands(mg: Merger, s: seq<Node>, atStart: bool, atEnd: bool)
    ensures Stands(mg, BuildHump(mg, s, atStart, atEnd), atStart, atEnd, s)
  {
    if atStart && atEnd { BuildClosed(mg, s); }
    else if atStart { BuildStartOpen(mg, s); }
    else if atEnd { BuildEndOpen(mg, s); }
    else { BuildBothOpen(mg, s); }
  }
}
