/** The stored form of a hump: one flat node array with per-level counts and offsets,
rebuilt in place by every merge. */
module SubtreeStore {
  import opened Lists
  import opened Aggregation
  import opened Mids
  import opened Humps
  import opened HumpMerge
  import opened MergeOrders

  type Counts = seq<(nat, nat)>

  // ---------------------------------------------------------------- flat layout

  ghost function Lefts(levels: seq<Level>): seq<Node> {
    if levels == [] then [] else Lefts(levels[..|levels| - 1]) + levels[|levels| - 1].left
  }

  /** All right sides, ascending by level: the order in which they are produced. */
  ghost function RightsUp(levels: seq<Level>): seq<Node> {
    if levels == [] then [] else RightsUp(levels[..|levels| - 1]) + levels[|levels| - 1].right
  }

  /** All right sides, descending by level: the order in which they are stored. */
  ghost function RightsDown(levels: seq<Level>): seq<Node> {
    if levels == [] then [] else levels[|levels| - 1].right + RightsDown(levels[..|levels| - 1])
  }

  ghost function Flat(levels: seq<Level>): seq<Node> {
    Lefts(levels) + RightsDown(levels)
  }

  ghost function CountsOf(levels: seq<Level>): (c: Counts)
    ensures |c| == |levels|
    ensures forall i :: 0 <= i < |c| ==> c[i] == (|levels[i].left|, |levels[i].right|)
  {
    seq(|levels|, i requires 0 <= i < |levels| => (|levels[i].left|, |levels[i].right|))
  }

  function SumLeft(c: Counts): nat {
    if c == [] then 0 else SumLeft(c[..|c| - 1]) + c[|c| - 1].0
  }

  function SumRight(c: Counts): nat {
    if c == [] then 0 else SumRight(c[..|c| - 1]) + c[|c| - 1].1
  }

  lemma {:induction false} Snoc(levels: seq<Level>, v: Level)
    ensures Lefts(levels + [v]) == Lefts(levels) + v.left
    ensures RightsUp(levels + [v]) == RightsUp(levels) + v.right
    ensures RightsDown(levels + [v]) == v.right + RightsDown(levels)
    ensures CountsOf(levels + [v]) == CountsOf(levels) + [(|v.left|, |v.right|)]
  {
    assert (levels + [v])[..|levels|] == levels;
  }

  /** The layout without its top level. */
  lemma {:induction false} Top(levels: seq<Level>)
    requires levels != []
    ensures var front, v := levels[..|levels| - 1], levels[|levels| - 1];
            var c, d := CountsOf(levels), CountsOf(front);
            && Lefts(levels) == Lefts(front) + v.left
            && RightsUp(levels) == RightsUp(front) + v.right
            && RightsDown(levels) == v.right + RightsDown(front)
            && c[..|levels| - 1] == d
            && SumLeft(c) == SumLeft(d) + |v.left| && SumRight(c) == SumRight(d) + |v.right|
  {
    assert CountsOf(levels)[..|levels| - 1] == CountsOf(levels[..|levels| - 1]);
  }

  lemma {:induction false} Sizes(levels: seq<Level>)
    ensures |Lefts(levels)| == SumLeft(CountsOf(levels))
    ensures |RightsUp(levels)| == |RightsDown(levels)| == SumRight(CountsOf(levels))
  {
    hide *;
    if levels == [] {
      NoSides();
    } else {
      Top(levels);
      Sizes(levels[..|levels| - 1]);
    }
  }

  /** Where level `i` sits inside the flat array. */
  lemma {:induction false} Locate(levels: seq<Level>, i: nat)
    requires i < |levels|
    ensures var c := CountsOf(levels);
            var lo, ro := SumLeft(c[..i]), SumLeft(c) + SumRight(c) - SumRight(c[..i + 1]);
            && 0 <= lo <= lo + |levels[i].left| <= |Flat(levels)|
            && 0 <= ro <= ro + |levels[i].right| <= |Flat(levels)|
            && Flat(levels)[lo..lo + |levels[i].left|] == levels[i].left
            && Flat(levels)[ro..ro + |levels[i].right|] == levels[i].right
  {
    hide Lefts, RightsDown, SumLeft, SumRight;
    LocateLeft(levels, i); LocateRight(levels, i); Sizes(levels);
    var l, r := Lefts(levels), RightsDown(levels);
    assert forall j :: 0 <= j < |r| ==> (l + r)[|l| + j] == r[j];
  }

  lemma {:induction false} LocateLeft(levels: seq<Level>, i: nat)
    requires i < |levels|
    ensures var lo := SumLeft(CountsOf(levels)[..i]);
            lo + |levels[i].left| <= |Lefts(levels)| && Lefts(levels)[lo..lo + |levels[i].left|] == levels[i].left
  {
    hide *;
    var n := |levels| - 1;
    var front, c := levels[..n], CountsOf(levels);
    Top(levels);
    Sizes(front);
    if i < n {
      LocateLeft(front, i);
      assert c[..n][..i] == c[..i];
      SliceLeft(Lefts(front), levels[n].left, SumLeft(c[..i]), |levels[i].left|);
    } else {
      SliceRight(Lefts(front), levels[n].left, 0, |levels[n].left|);
    }
  }

  lemma {:induction false} LocateRight(levels: seq<Level>, i: nat)
    requires i < |levels|
    ensures var ro := SumRight(CountsOf(levels)) - SumRight(CountsOf(levels)[..i + 1]);
            && 0 <= ro && ro + |levels[i].right| <= |RightsDown(levels)|
            && RightsDown(levels)[ro..ro + |levels[i].right|] == levels[i].right
  {
    hide *;
    var n := |levels| - 1;
    var front, c := levels[..n], CountsOf(levels);
    Top(levels);
    Sizes(front);
    if i < n {
      LocateRight(front, i);
      assert c[..n][..i + 1] == c[..i + 1];
      SliceRight(levels[n].right, RightsDown(front), SumRight(c[..n]) - SumRight(c[..i + 1]), |levels[i].right|);
    } else {
      assert c[..i + 1] == c;
      SliceLeft(levels[n].right, RightsDown(front), 0, |levels[n].right|);
    }
  }

  lemma {:induction false} SliceLeft(a: seq<Node>, b: seq<Node>, i: nat, n: nat)
    requires i + n <= |a|
    ensures (a + b)[i..i + n] == a[i..i + n]
    ensures n == |a| ==> a[i..i + n] == a
  {
  }

  lemma {:induction false} SliceRight(a: seq<Node>, b: seq<Node>, i: nat, n: nat)
    requires i + n <= |b|
    ensures (a + b)[|a| + i..|a| + i + n] == b[i..i + n]
    ensures n == |b| ==> b[i..i + n] == b
  {
  }

  lemma {:induction false} SumNext(c: Counts, i: nat)
    requires i < |c|
    ensures SumLeft(c[..i + 1]) == SumLeft(c[..i]) + c[i].0 && SumRight(c[..i + 1]) == SumRight(c[..i]) + c[i].1
  {
    assert c[..i + 1][..i] == c[..i];
  }

  lemma {:induction false} SumNone(c: Counts)
    ensures SumLeft(c[..0]) == 0 && SumRight(c[..0]) == 0 && c[..|c|] == c
  {
  }

  method ComputeOffsets(levels: Counts) returns (leftOffsets: seq<nat>, rightOffsets: seq<nat>)
    ensures |leftOffsets| == |rightOffsets| == |levels|
    ensures forall i :: 0 <= i < |levels| ==> leftOffsets[i] == SumLeft(levels[..i])
    ensures forall i :: 0 <= i < |levels| ==>
              rightOffsets[i] == SumLeft(levels) + SumRight(levels) - SumRight(levels[..i + 1])
  {
    hide SumLeft, SumRight;
    SumNone(levels);
    leftOffsets, rightOffsets := [], [];
    var left, right := 0, 0;
    for i := 0 to |levels|
      invariant |leftOffsets| == i && left == SumLeft(levels[..i]) && right == SumRight(levels[..i])
      invariant forall j :: 0 <= j < i ==> leftOffsets[j] == SumLeft(levels[..j])
    {
      leftOffsets := leftOffsets + [left];
      SumNext(levels, i);
      left, right := left + levels[i].0, right + levels[i].1;
    }
    var after: int := right;
    for i := 0 to |levels|
      invariant |rightOffsets| == i && after == right - SumRight(levels[..i])
      invariant forall j :: 0 <= j < i ==> rightOffsets[j] == left + right - SumRight(levels[..j + 1])
    {
      SumNext(levels, i);
      SumRightMonotone(levels, i + 1);
      after := after - levels[i].1;
      rightOffsets := rightOffsets + [left + after];
    }
  }

  lemma {:induction false} SumRightMonotone(c: Counts, i: nat)
    requires i <= |c|
    ensures SumRight(c[..i]) <= SumRight(c)
  {
    if i == |c| {
      assert c[..i] == c;
    } else {
      SumRightMonotone(c[..|c| - 1], i);
      assert c[..|c| - 1][..i] == c[..i];
    }
  }

  // ---------------------------------------------------------------- one level

  /** Keeps the unstable ends and merges the groups between them. */
  method SplitAndPromote(mg: Merger, nodes: seq<Node>, atStart: bool, atEnd: bool)
    returns (prefixLen: nat, suffixLen: nat, promoted: seq<Node>)
    ensures prefixLen + suffixLen <= |nodes|
    ensures var p := Split(nodes, atStart, atEnd);
            && nodes[..prefixLen] == p.left
            && nodes[|nodes| - suffixLen..] == p.right
            && promoted == Groups(mg, p.middle)
  {
    hide IsMid, Groups, NextMergeCut;
    NothingOpen(mg, []);
    if |nodes| <= 1 {
      return |nodes|, 0, [];
    }
    var stableStart := 0;
    if !atStart {
      var found := FindStableStart(nodes);
      if found.None? {
        assert LastMid(nodes[|nodes|..], 0) == -1;
        return |nodes|, 0, [];
      }
      stableStart := found.value;
    }
    var stableEnd := |nodes|;
    if !atEnd {
      var found := FindStableEnd(nodes[stableStart..]);
      if found.None? {
        return |nodes|, 0, [];
      }
      stableEnd := stableStart + found.value;
    }
    if stableStart >= stableEnd {
      return |nodes|, 0, [];
    }
    prefixLen, suffixLen := stableStart, |nodes| - stableEnd;
    var mergeable := nodes[stableStart..stableEnd];
    promoted := [];
    var pos := 0;
    while pos < |mergeable|
      invariant 0 <= pos <= |mergeable| && Boundary(mergeable, pos)
      invariant promoted == Groups(mg, mergeable[..pos])
      decreases |mergeable| - pos
    {
      var k := FindMergeCut(mergeable[pos..]);
      var next := pos + k;
      GroupsSnoc(mg, mergeable, pos, next);
      promoted := promoted + [mg(mergeable[pos..next])];
      pos := next;
    }
    assert mergeable[..pos] == mergeable;
  }

  /** Lays out the collected sides: all lefts, then the rights from the top level down. */
  method Flatten(outLeft: seq<Node>, outRight: seq<Node>, levels: Counts, ghost hump: seq<Level>)
    returns (nodes: seq<Node>)
    requires outLeft == Lefts(hump) && outRight == RightsUp(hump) && levels == CountsOf(hump)
    ensures nodes == Flat(hump)
  {
    hide Lefts, RightsUp, RightsDown;
    nodes := outLeft;
    var end := |outRight|;
    var i := |levels|;
    assert hump[..i] == hump;
    ghost var down: seq<Node> := [];
    NoSides();
    while i > 0
      invariant 0 <= i <= |levels| == |hump| && 0 <= end <= |outRight|
      invariant outRight[..end] == RightsUp(hump[..i])
      invariant nodes == outLeft + down && down + RightsDown(hump[..i]) == RightsDown(hump)
    {
      i := i - 1;
      ghost var v := hump[i];
      assert hump[..i + 1] == hump[..i] + [v];
      Snoc(hump[..i], v);
      var start := end - levels[i].1;
      assert outRight[..end][..start] == outRight[..start];
      assert outRight[start..end] == outRight[..end][start..] == v.right;
      nodes := nodes + outRight[start..end];
      down := down + v.right;
      end := start;
    }
  }

  /** The output buffers hold the levels `done` so far, in production order. */
  ghost predicate Holds(outLeft: seq<Node>, outRight: seq<Node>, levels: Counts, done: seq<Level>) {
    outLeft == Lefts(done) && outRight == RightsUp(done) && levels == CountsOf(done)
  }

  /** Splits one level and appends what it keeps to the output buffers. */
  method PushLevel(mg: Merger, current: seq<Node>, atStart: bool, atEnd: bool,
                   outLeft: seq<Node>, outRight: seq<Node>, levels: Counts, ghost done: seq<Level>)
    returns (outLeft': seq<Node>, outRight': seq<Node>, levels': Counts, promoted: seq<Node>,
             leftEmpty: bool, rightEmpty: bool, ghost done': seq<Level>)
    requires Holds(outLeft, outRight, levels, done)
    ensures var p := Split(current, atStart, atEnd);
            && done' == done + [Level(p.left, p.right)]
            && promoted == Groups(mg, p.middle)
            && leftEmpty == (p.left == []) && rightEmpty == (p.right == [])
            && Holds(outLeft', outRight', levels', done + [Level(p.left, p.right)])
  {
    hide Split, Groups, Lefts, RightsUp, RightsDown;
    var prefixLen, suffixLen;
    prefixLen, suffixLen, promoted := SplitAndPromote(mg, current, atStart, atEnd);
    ghost var p := Split(current, atStart, atEnd);
    Snoc(done, Level(p.left, p.right));
    outLeft' := outLeft + current[..prefixLen];
    outRight' := outRight + current[|current| - suffixLen..];
    levels' := levels + [(prefixLen, suffixLen)];
    leftEmpty, rightEmpty := prefixLen == 0, suffixLen == 0;
    done' := done + [Level(p.left, p.right)];
  }

  /** Continues upward from one level until nothing more is promoted. */
  method PushAbove(mg: Merger, start: seq<Node>, atStart: bool, atEnd: bool,
                   outLeft: seq<Node>, outRight: seq<Node>, levels: Counts, ghost done: seq<Level>)
    returns (outLeft': seq<Node>, outRight': seq<Node>, levels': Counts, ghost done': seq<Level>)
    requires Holds(outLeft, outRight, levels, done)
    ensures done' == done + if start == [] then [] else BuildHump(mg, start, atStart, atEnd)
    ensures Holds(outLeft', outRight', levels', done + if start == [] then [] else BuildHump(mg, start, atStart, atEnd))
  {
    hide *;
    var carry, s, e := start, atStart, atEnd;
    outLeft', outRight', levels', done' := outLeft, outRight, levels, done;
    while carry != []
      invariant Holds(outLeft', outRight', levels', done')
      invariant done + (if start == [] then [] else BuildHump(mg, start, atStart, atEnd))
             == done' + if carry == [] then [] else BuildHump(mg, carry, s, e)
      decreases |carry|
    {
      ghost var p := Split(carry, s, e);
      ghost var before := done';
      BuildUnfold(mg, carry, s, e, p);
      GroupsEmpty(mg, []);
      if |carry| == 1 {
        BuildOne(mg, carry, s, e);
        HoldsSnoc(outLeft', outRight', levels', done', carry);
        outLeft', levels', done' := outLeft' + carry, levels' + [(|carry|, 0)], done' + [Level(carry, [])];
        carry := [];
      } else {
        var le, re;
        outLeft', outRight', levels', carry, le, re, done' :=
          PushLevel(mg, carry, s, e, outLeft', outRight', levels', done');
        s, e := s && le, e && re;
        GroupsEmpty(mg, p.middle);
        Assoc(before, [Level(p.left, p.right)], if carry == [] then [] else BuildHump(mg, carry, s, e));
      }
    }
  }

  lemma {:induction false} Assoc(a: seq<Level>, b: seq<Level>, c: seq<Level>)
    ensures a + (b + c) == a + b + c && a + [] == a
  {
  }

  lemma {:induction false} HoldsSnoc(outLeft: seq<Node>, outRight: seq<Node>, levels: Counts, done: seq<Level>,
      top: seq<Node>)
    requires Holds(outLeft, outRight, levels, done)
    ensures Holds(outLeft + top, outRight, levels + [(|top|, 0)], done + [Level(top, [])])
  {
    Snoc(done, Level(top, []));
    assert RightsUp(done) + [] == RightsUp(done);
  }

  lemma {:induction false} HoldsNothing()
    ensures Holds([], [], [], [])
  {
  }

  /** Builds the hump of a chunk list level by level. */
  method BuildUp(mg: Merger, chunks: seq<Node>, atStart: bool, atEnd: bool)
    returns (outLeft: seq<Node>, outRight: seq<Node>, levels: Counts, ghost hump: seq<Level>)
    ensures hump == BuildHump(mg, chunks, atStart, atEnd)
    ensures Holds(outLeft, outRight, levels, BuildHump(mg, chunks, atStart, atEnd))
  {
    hide *;
    HoldsNothing();
    var promoted, le, re;
    outLeft, outRight, levels, promoted, le, re, hump := PushLevel(mg, chunks, atStart, atEnd, [], [], [], []);
    ghost var p := Split(chunks, atStart, atEnd);
    BuildUnfold(mg, chunks, atStart, atEnd, p);
    NothingOpen(mg, []);
    outLeft, outRight, levels, hump :=
      PushAbove(mg, promoted, atStart && le, atEnd && re, outLeft, outRight, levels, hump);
  }

  lemma {:induction false} NoSides()
    ensures Lefts([]) == [] && RightsUp([]) == [] && RightsDown([]) == [] && CountsOf([]) == []
    ensures SumLeft([]) == 0 && SumRight([]) == 0
  {
  }

  lemma {:induction false} BuildOne(mg: Merger, s: seq<Node>, f: bool, e: bool)
    requires |s| == 1
    ensures BuildHump(mg, s, f, e) == [Level(s, [])]
  {
  }

  /** Drops the empty levels at the top, but never the last level. */
  method TrimLevels(outLeft: seq<Node>, outRight: seq<Node>, levels: Counts, ghost done: seq<Level>)
    returns (levels': Counts, ghost done': seq<Level>)
    requires Holds(outLeft, outRight, levels, done)
    ensures done' == Trim(done)
    ensures Holds(outLeft, outRight, levels', Trim(done))
  {
    levels', done' := levels, done;
    while |levels'| > 1 && levels'[|levels'| - 1] == (0, 0)
      invariant Holds(outLeft, outRight, levels', done') && Trim(done') == Trim(done)
      decreases |levels'|
    {
      assert done'[|done'| - 1] == EMPTY;
      assert CountsOf(done'[..|done'| - 1]) == levels'[..|levels'| - 1];
      levels', done' := levels'[..|levels'| - 1], done'[..|done'| - 1];
    }
  }

  /** The levels from `i` on; none beyond the top. */
  ghost function From(levels: seq<Level>, i: nat): seq<Level> {
    levels[Min(i, |levels|)..]
  }

  lemma {:induction false} FromTail(levels: seq<Level>, i: nat)
    ensures Tail(From(levels, i)) == From(levels, i + 1)
    ensures Head(From(levels, i)) == if i < |levels| then levels[i] else EMPTY
  {
  }

  lemma {:induction false} FromAll(levels: seq<Level>)
    ensures From(levels, 0) == levels
  {
  }

  lemma {:induction false} FromLevel(levels: seq<Level>, i: nat)
    ensures From(levels, i) == [] <==> i >= |levels|
  {
  }

  // ---------------------------------------------------------------- the mutable subtree

  /** The flat arrays represent the hump. */
  ghost predicate Laid(nodes: seq<Node>, levels: Counts, leftOffsets: seq<nat>, rightOffsets: seq<nat>,
      hump: seq<Level>) {
    && hump != []
    && Topped(hump)
    && nodes == Flat(hump)
    && levels == CountsOf(hump)
    && |leftOffsets| == |rightOffsets| == |levels|
    && (forall i :: 0 <= i < |levels| ==> leftOffsets[i] == SumLeft(levels[..i]))
    && (forall i :: 0 <= i < |levels| ==>
          rightOffsets[i] == SumLeft(levels) + SumRight(levels) - SumRight(levels[..i + 1]))
  }

  lemma {:induction false} LaidAt(nodes: seq<Node>, levels: Counts, leftOffsets: seq<nat>, rightOffsets: seq<nat>,
                                  hump: seq<Level>, i: nat)
    requires Laid(nodes, levels, leftOffsets, rightOffsets, hump) && i < |hump|
    ensures |levels| == |leftOffsets| == |rightOffsets| == |hump|
    ensures leftOffsets[i] + levels[i].0 <= |nodes| && rightOffsets[i] + levels[i].1 <= |nodes|
    ensures nodes[leftOffsets[i]..leftOffsets[i] + levels[i].0] == hump[i].left
    ensures nodes[rightOffsets[i]..rightOffsets[i] + levels[i].1] == hump[i].right
  {
    hide Lefts, RightsDown, SumLeft, SumRight, Flat, Topped;
    Locate(hump, i);
  }

  lemma {:induction false} NothingAbove(hump: seq<Level>, i: nat)
    ensures i >= |hump| ==> Head(From(hump, i)) == EMPTY && EMPTY.left == [] && EMPTY.right == []
  {
  }

  method LayOut(outLeft: seq<Node>, outRight: seq<Node>, levels: Counts, ghost hump: seq<Level>)
    returns (nodes: seq<Node>, leftOffsets: seq<nat>, rightOffsets: seq<nat>)
    requires Holds(outLeft, outRight, levels, hump) && hump != [] && Topped(hump)
    ensures Laid(nodes, levels, leftOffsets, rightOffsets, hump)
  {
    nodes := Flatten(outLeft, outRight, levels, hump);
    leftOffsets, rightOffsets := ComputeOffsets(levels);
  }

  class MerkleHashSubtree {
    var nodes: seq<Node>
    var levels: Counts
    var leftOffsets: seq<nat>
    var rightOffsets: seq<nat>
    var atStart: bool
    var atEnd: bool
    ghost var hump: seq<Level>

    ghost predicate Valid()
      reads this
    {
      Laid(nodes, levels, leftOffsets, rightOffsets, hump)
    }

    lemma {:induction false} Shape()
      requires Valid()
      ensures |levels| == |hump| > 0
    {
    }

    ghost function Value(): Hump
      reads this
    {
      Hump(hump, atStart, atEnd)
    }

    constructor FromChunks(mg: Merger, atStart: bool, chunks: seq<Node>, atEnd: bool)
      ensures Valid() && Value() == MergeOrders.FromChunks(mg, atStart, chunks, atEnd)
    {
      hide BuildHump, Laid, Topped, Holds;
      var outLeft, outRight, ls, h := BuildUp(mg, chunks, atStart, atEnd);
      BuildTopped(mg, chunks, atStart, atEnd);
      var ns, lo, ro := LayOut(outLeft, outRight, ls, h);
      nodes, levels, leftOffsets, rightOffsets, hump := ns, ls, lo, ro, h;
      this.atStart, this.atEnd := atStart, atEnd;
    }

    /** The prefix nodes of one level; nothing beyond the top. */
    method LeftAt(level: nat) returns (s: seq<Node>)
      requires Valid()
      ensures s == Head(From(hump, level)).left
    {
      hide Laid, From, Head;
      Shape();
      NothingAbove(hump, level);
      if level >= |levels| {
        return [];
      }
      LaidAt(nodes, levels, leftOffsets, rightOffsets, hump, level);
      FromTail(hump, level);
      s := nodes[leftOffsets[level]..leftOffsets[level] + levels[level].0];
    }

    /** The suffix nodes of one level; nothing beyond the top. */
    method RightAt(level: nat) returns (s: seq<Node>)
      requires Valid()
      ensures s == Head(From(hump, level)).right
    {
      hide Laid, From, Head;
      Shape();
      NothingAbove(hump, level);
      if level >= |levels| {
        return [];
      }
      LaidAt(nodes, levels, leftOffsets, rightOffsets, hump, level);
      FromTail(hump, level);
      s := nodes[rightOffsets[level]..rightOffsets[level] + levels[level].1];
    }

    /** Merges the right neighbour into this subtree, or refuses and changes nothing. */
    method MergeInto(mg: Merger, other: MerkleHashSubtree) returns (ok: bool)
      requires Valid() && other.Valid() && other != this
      modifies this
      ensures Valid()
      ensures ok == MergeOrders.MergeInto(mg, old(Value()), other.Value()).Some?
      ensures ok ==> Value() == MergeOrders.MergeInto(mg, old(Value()), other.Value()).value
      ensures !ok ==> Value() == old(Value()) && nodes == old(nodes) && levels == old(levels)
    {
      hide MergeLevels, Trim, Laid, Topped, Holds;
      if atEnd || other.atStart {
        return false;
      }
      var outLeft, outRight, newLevels;
      ghost var done;
      outLeft, outRight, newLevels, done := MergeUp(mg, other);
      newLevels, done := TrimLevels(outLeft, outRight, newLevels, done);
      Shape();
      MergeTopped(mg, hump, other.hump, atStart, other.atEnd);
      nodes, leftOffsets, rightOffsets := LayOut(outLeft, outRight, newLevels, done);
      levels, hump, atEnd := newLevels, done, other.atEnd;
      ok := true;
    }

    /** The levels of the merged hump, from the bottom up, in the output buffers. */
    method MergeUp(mg: Merger, other: MerkleHashSubtree)
      returns (outLeft: seq<Node>, outRight: seq<Node>, newLevels: Counts, ghost done: seq<Level>)
      requires Valid() && other.Valid()
      ensures done == MergeLevels(mg, hump, other.hump, [], atStart, other.atEnd)
      ensures Holds(outLeft, outRight, newLevels, MergeLevels(mg, hump, other.hump, [], atStart, other.atEnd))
    {
      hide *;
      Shape(); other.Shape();
      var maxLevels := if |levels| < |other.levels| then |other.levels| else |levels|;
      outLeft, outRight, newLevels, done := [], [], [], [];
      var carry: seq<Node>, s, e := [], atStart, other.atEnd;
      HoldsNothing();
      FromAll(hump); FromAll(other.hump);
      for level := 0 to maxLevels
        invariant Holds(outLeft, outRight, newLevels, done)
        invariant MergeLevels(mg, hump, other.hump, [], atStart, other.atEnd)
               == done + MergeLevels(mg, From(hump, level), From(other.hump, level), carry, s, e)
      {
        ghost var a, b := From(hump, level), From(other.hump, level);
        var ll := this.LeftAt(level);
        var lr := this.RightAt(level);
        var rl := other.LeftAt(level);
        var rr := other.RightAt(level);
        var full := ll + lr + carry + rl + rr;
        FullIs(Head(a), carry, Head(b));
        FromLevel(hump, level); FromLevel(other.hump, level);
        MergeUnfold(mg, a, b, carry, s, e, Split(full, s, e));
        FromTail(hump, level); FromTail(other.hump, level);
        var le, re;
        ghost var before, p := done, Split(full, s, e);
        outLeft, outRight, newLevels, carry, le, re, done :=
          PushLevel(mg, full, s, e, outLeft, outRight, newLevels, done);
        s, e := s && le, e && re;
        Assoc(before, [Level(p.left, p.right)], MergeLevels(mg, Tail(a), Tail(b), carry, s, e));
      }
      FromLevel(hump, maxLevels); FromLevel(other.hump, maxLevels);
      MergeNil(mg, carry, s, e);
      outLeft, outRight, newLevels, done := PushAbove(mg, carry, s, e, outLeft, outRight, newLevels, done);
    }

    /** The file hash, once both ends are known. */
    method FinalHash() returns (r: Final)
      requires Valid()
      ensures r == MergeOrders.FinalHash(Value())
      ensures r.Unfinished? <==> !atStart || !atEnd
    {
      if !atStart || !atEnd {
        return Unfinished;
      }
      FlatEmpty(hump);
      if nodes == [] {
        return Known(ZERO_HASH);
      }
      var top := |levels| - 1;
      var topLeft := LeftAt(top);
      FromTail(hump, top);
      r := if topLeft == [] then Panics else Known(topLeft[0].hash);
    }
  }

  lemma {:induction false} FlatEmpty(levels: seq<Level>)
    ensures Flat(levels) == [] <==> AllEmpty(levels)
  {
    if levels != [] {
      FlatEmpty(levels[..|levels| - 1]);
      assert AllEmpty(levels) <==> AllEmpty(levels[..|levels| - 1]) && levels[|levels| - 1] == EMPTY;
    }
  }
}
