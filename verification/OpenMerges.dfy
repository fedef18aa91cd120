/** Why the anchoring condition is exact: joining two open ranges forgets where the middle was.

Take a list of sixteen chunks with a cut at every third one, and move three of its chunks past the
next six. Split at different places, the two lists merge into one and the same hump under every merge
hash. Whatever is merged on later, a hash that tells the two lists apart gives at least one of them a
wrong file hash. */
module OpenMerges {
  import opened HashText
  import opened Aggregation
  import opened Mids
  import opened Humps
  import opened HumpMerge
  import opened MergeOrders

  ghost predicate EveryThird(s: seq<Node>, off: nat) {
    forall i :: 0 <= i < |s| ==> (Cut(s[i]) <==> (i + off) % 3 == 0)
  }

  lemma {:induction false} EveryThirdMids(s: seq<Node>, off: nat, i: int)
    requires EveryThird(s, off)
    ensures IsMid(s, i) <==> 3 <= i < |s| - 3 && (i + off) % 3 == 0
  {
    if 3 <= i < |s| - 3 && (i + off) % 3 == 0 {
      assert Triple(s, i - 3, i, i + 3);
    }
    if IsMid(s, i) {
      MidBounds(s, i);
    }
  }

  /** The second list is the first with chunks 4 to 6 moved past the six after them. */
  ghost predicate Moved(s: seq<Node>, t: seq<Node>) {
    && |s| == |t| == 16 && EveryThird(s, 0)
    && t == s[..4] + s[7..13] + s[4..7] + s[13..]
  }

  /** The hump that remembers the heads and tails of levels 0 and 1 but not where they part. */
  function Blurred(mg: Merger, s: seq<Node>): seq<Level>
    requires |s| == 16
  {
    [Level(s[..7] + s[13..], []), Level([mg(s[7..10]), mg(s[10..13])], [])]
  }

  lemma {:induction false} PairOfGroups(mg: Merger, s: seq<Node>)
    requires |s| == 6 && EveryThird(s, 1)
    ensures Groups(mg, s) == [mg(s[..3]), mg(s[3..])]
  {
    hide Groups, NextMergeCut, Cut;
    NextMergeCutFirst(s, 3);
    GroupsUnfold(mg, s, 3);
    NextMergeCutFirst(s[3..], 3);
    LastGroup(mg, s[3..]);
  }

  lemma {:induction false} LastGroup(mg: Merger, s: seq<Node>)
    requires s != [] && NextMergeCut(s) == |s|
    ensures Groups(mg, s) == [mg(s)]
  {
    GroupsUnfold(mg, s, |s|);
    assert s[..|s|] == s && s[|s|..] == [];
  }

  /** A short list without cuts is one unfinished level. */
  lemma {:induction false} BuildShort(mg: Merger, s: seq<Node>)
    requires |s| < 7
    ensures BuildHump(mg, s, false, false) == [Level(s, [])]
  {
    OnlyCutsAreMids(s);
    SplitNoMid(s, false);
  }

  /** Thirteen chunks with a cut every third one keep four on the left and three on the right. */
  lemma {:induction false} BuildThirteen(mg: Merger, s: seq<Node>)
    requires |s| == 13 && EveryThird(s, 0)
    ensures BuildHump(mg, s, false, false) == [Level(s[..4], s[10..]), Level([mg(s[4..7]), mg(s[7..10])], [])]
  {
    hide IsMid, BuildHump, Groups, NextMergeCut, Cut;
    EveryThirdMids(s, 0, FirstMid(s, 0)); EveryThirdMids(s, 0, 3);
    assert FirstMid(s, 0) == 3;
    var t := s[4..];
    EveryThirdMids(t, 1, LastMid(t, 9)); EveryThirdMids(t, 1, 5);
    assert LastMid(t, 9) == 5;
    var p := Split(s, false, false);
    assert p == Parts(s[..4], s[4..10], s[10..]);
    assert s[4..10][..3] == s[4..7] && s[4..10][3..] == s[7..10];
    PairOfGroups(mg, s[4..10]);
    BuildUnfold(mg, s, false, false, p);
    BuildShort(mg, [mg(s[4..7]), mg(s[7..10])]);
  }

  /** The first level of the blurred hump: a stable start, but nothing stable after it. */
  lemma {:induction false} SplitBlurred(mg: Merger, s: seq<Node>)
    requires |s| == 16 && EveryThird(s, 0)
    ensures Split(Blurred(mg, s)[0].left, false, false) == Parts(Blurred(mg, s)[0].left, [], [])
    ensures Split(Blurred(mg, s)[1].left, false, false) == Parts(Blurred(mg, s)[1].left, [], [])
  {
    hide IsMid, Cut;
    var x, y := Blurred(mg, s)[0].left, Blurred(mg, s)[1].left;
    EveryThirdMids(x, 0, FirstMid(x, 0)); EveryThirdMids(x, 0, 3);
    assert FirstMid(x, 0) == 3;
    var t := x[4..];
    EveryThirdMids(t, 1, LastMid(t, 6));
    OnlyCutsAreMids(y);
    SplitNoMid(y, false);
  }

  lemma {:induction false} MergeBlurred(mg: Merger, s: seq<Node>, a: seq<Level>, b: seq<Level>)
    requires |s| == 16 && EveryThird(s, 0)
    requires Full(Head(a), [], Head(b)) == Blurred(mg, s)[0].left
    requires Full(Head(Tail(a)), [], Head(Tail(b))) == Blurred(mg, s)[1].left
    requires (|a| == 1 && |b| == 2) || (|a| == 2 && |b| == 1)
    ensures MergeLevels(mg, a, b, [], false, false) == Blurred(mg, s)
  {
    hide Split, MergeLevels, Groups, Cut;
    var x, y := Blurred(mg, s)[0].left, Blurred(mg, s)[1].left;
    SplitBlurred(mg, s);
    NothingOpen(mg, []);
    MergeUnfold(mg, a, b, [], false, false, Parts(x, [], []));
    MergeUnfold(mg, Tail(a), Tail(b), [], false, false, Parts(y, [], []));
    assert Tail(Tail(a)) == [] && Tail(Tail(b)) == [];
    MergeNil(mg, [], false, false);
  }

  lemma {:induction false} MovedParts(s: seq<Node>, t: seq<Node>)
    requires Moved(s, t)
    ensures EveryThird(t, 0)
    ensures t[4..7] == s[7..10] && t[7..10] == s[10..13]
    ensures t[..4] + t[10..13] + t[13..] == s[..7] + s[13..]
  {
    hide Cut;
    assert forall i :: 4 <= i < 10 ==> t[i] == s[i + 3];
    assert forall i :: 10 <= i < 13 ==> t[i] == s[i - 6];
  }

  /** Under every merge hash the two lists end up in the same hump. */
  lemma {:induction false} OpenJoinsCollide(mg: Merger, s: seq<Node>, t: seq<Node>)
    requires Moved(s, t)
    ensures Eval(mg, Join(Range(s[..3]), Range(s[3..])), false, false)
         == Eval(mg, Join(Range(t[..13]), Range(t[13..])), false, false)
  {
    hide BuildHump, MergeLevels, Cut;
    MovedParts(s, t);
    BuildShort(mg, s[..3]);
    BuildThirteen(mg, s[3..]);
    assert s[3..][4..7] == s[7..10] && s[3..][7..10] == s[10..13];
    MergeBlurred(mg, s, BuildHump(mg, s[..3], false, false), BuildHump(mg, s[3..], false, false));
    BuildThirteen(mg, t[..13]);
    BuildShort(mg, t[13..]);
    assert t[..13][4..7] == t[4..7] && t[..13][7..10] == t[7..10];
    MergeBlurred(mg, s, BuildHump(mg, t[..13], false, false), BuildHump(mg, t[13..], false, false));
  }

  // ---------------------------------------------------------------- a hash that tells them apart

  /** A chunk that asks for a cut or not, of a given size. */
  function Chunk(cut: bool, size: nat): Node {
    Node(DataHash(0, 0, 0, ToLe(HOST, if cut then 0 else 1)), size)
  }

  lemma {:induction false} ChunkCuts(cut: bool, size: nat)
    ensures Cut(Chunk(cut, size)) <==> cut
  {
    hide ToLe;
    CutOfHash(Chunk(cut, size));
    ToLeTwice(HOST, if cut then 0 else 1);
  }

  /** Sixteen chunks with a cut every third one; the one at `k` has size 2, the others 1. */
  function File(k: nat): (s: seq<Node>)
    ensures |s| == 16
  {
    seq(16, i requires 0 <= i < 16 => Chunk(i % 3 == 0, if i == k then 2 else 1))
  }

  lemma {:induction false} FileCuts(k: nat)
    ensures EveryThird(File(k), 0)
  {
    hide Chunk, Cut;
    forall i | 0 <= i < 16 ensures Cut(File(k)[i]) <==> i % 3 == 0 {
      ChunkCuts(i % 3 == 0, if i == k then 2 else 1);
    }
  }

  /** Keeps the first child's size, never asks for a cut, and marks a second child of size 2. */
  function Marking(g: seq<Node>): Node {
    Node(DataHash(if |g| == 5 && g[1].size == 2 then 1 else 0, 0, 0, ToLe(HOST, 1)), if g == [] then 0 else g[0].size)
  }

  const MARK: Merger := g => Marking(g)

  lemma {:induction false} MarkNeverCuts(g: seq<Node>)
    ensures !Cut(MARK(g))
  {
    hide ToLe;
    CutOfHash(MARK(g));
    ToLeTwice(HOST, 1);
  }

  lemma {:induction false} SixteenGroups(k: nat)
    requires k == 4 || k == 10
    ensures var s := File(k);
            Groups(MARK, s) == [MARK(s[..4]), MARK(s[4..7]), MARK(s[7..10]), MARK(s[10..13]), MARK(s[13..])]
  {
    hide NextMergeCut, Groups, Cut, MARK, File;
    var s := File(k);
    FileCuts(k);
    NextMergeCutFirst(s, 4); GroupsUnfold(MARK, s, 4);
    var a := s[4..];
    NextMergeCutFirst(a, 3); GroupsUnfold(MARK, a, 3);
    var b := a[3..];
    NextMergeCutFirst(b, 3); GroupsUnfold(MARK, b, 3);
    var c := b[3..];
    NextMergeCutFirst(c, 3); GroupsUnfold(MARK, c, 3);
    NextMergeCutFirst(c[3..], 3); LastGroup(MARK, c[3..]);
    assert a[..3] == s[4..7] && b[..3] == s[7..10] && c[..3] == s[10..13] && c[3..] == s[13..];
  }

  lemma {:induction false} MarkedHash(k: nat)
    requires k == 4 || k == 10
    ensures AggregatedHash(MARK, File(k)).w0 == if k == 4 then 1 else 0
  {
    hide NextMergeCut, Groups, Cut, ToLe;
    SixteenGroups(k);
    var s := File(k);
    var g := Groups(MARK, s);
    MarkNeverCuts(s[7..10]); MarkNeverCuts(s[10..13]); MarkNeverCuts(s[13..]);
    NextMergeCutFirst(g, 5);
    LastGroup(MARK, g);
    assert g[1].size == s[4].size;
    assert Collapse(MARK, s) == Collapse(MARK, g) == [MARK(g)];
  }

  /** Some merge hash tells some such lists apart. */
  lemma {:induction false} SomeHashTells()
    ensures Moved(File(4), File(10)) && AggregatedHash(MARK, File(4)) != AggregatedHash(MARK, File(10))
  {
    hide AggregatedHash, Cut, ToLe;
    FileCuts(4);
    MarkedHash(4); MarkedHash(10);
    var s, t := File(4), File(10);
    var u := s[..4] + s[7..13] + s[4..7] + s[13..];
    forall i | 0 <= i < 16 ensures t[i] == u[i] {
      assert u[i] == s[if i < 4 || i >= 13 then i else if i < 10 then i + 3 else i - 6];
    }
    assert t == u;
  }

  // ---------------------------------------------------------------- the exact condition

  predicate SameShape(o: Order, o': Order) {
    match o
    case Range(_) => o'.Range?
    case Join(l, r) => o'.Join? && SameShape(l, o'.left) && SameShape(r, o'.right)
  }

  ghost predicate Exact(mg: Merger, o: Order) {
    FinalHash(Eval(mg, o, true, true)) == Known(AggregatedHash(mg, Chunks(o)))
  }

  function Blank(o: Order): Order {
    match o
    case Range(_) => Range([])
    case Join(l, r) => Join(Blank(l), Blank(r))
  }

  lemma {:induction false} BlankIsEmpty(o: Order)
    ensures SameShape(o, Blank(o)) && Chunks(Blank(o)) == []
  {
    match o
    case Range(_) =>
    case Join(l, r) => BlankIsEmpty(l); BlankIsEmpty(r);
  }

  /** Around any open join the two lists can be placed so that nothing tells them apart. */
  lemma {:induction false} FillOpenJoin(mg: Merger, o: Order, f: bool, e: bool, s: seq<Node>, t: seq<Node>)
      returns (o1: Order, o2: Order)
    requires !Anchored(o, f, e) && Moved(s, t)
    ensures SameShape(o, o1) && SameShape(o, o2)
    ensures Chunks(o1) == s && Chunks(o2) == t
    ensures Eval(mg, o1, f, e) == Eval(mg, o2, f, e)
  {
    hide MergeInto, BuildHump, Moved;
    var l, r := o.left, o.right;
    BlankIsEmpty(l); BlankIsEmpty(r);
    if !Anchored(l, f, false) {
      var l1, l2 := FillOpenJoin(mg, l, f, false, s, t);
      o1, o2 := Join(l1, Blank(r)), Join(l2, Blank(r));
    } else if !Anchored(r, false, e) {
      var r1, r2 := FillOpenJoin(mg, r, false, e, s, t);
      o1, o2 := Join(Blank(l), r1), Join(Blank(l), r2);
    } else {
      MovedLengths(s, t);
      o1 := Join(Range(s[..3]), Range(s[3..]));
      o2 := Join(Range(t[..13]), Range(t[13..]));
      OpenJoinsCollide(mg, s, t);
    }
  }

  lemma {:induction false} MovedLengths(s: seq<Node>, t: seq<Node>)
    requires Moved(s, t)
    ensures |s| == |t| == 16
  {
  }

  /** Under a merge hash that tells some such lists apart, a merge order is right for all contents
  exactly when it is anchored. */
  lemma {:induction false} AnchoredIffExact(mg: Merger, o: Order, s: seq<Node>, t: seq<Node>)
    requires Moved(s, t) && AggregatedHash(mg, s) != AggregatedHash(mg, t)
    ensures Anchored(o, true, true) <==> forall o' | SameShape(o, o') :: Exact(mg, o')
  {
    hide Moved, AggregatedHash, Eval;
    if Anchored(o, true, true) {
      forall o' | SameShape(o, o') ensures Exact(mg, o') {
        SameShapeAnchored(o, o', true, true);
        AnchoredOrderIsExact(mg, o');
      }
    } else {
      var o1, o2 := FillOpenJoin(mg, o, true, true, s, t);
      assert !Exact(mg, o1) || !Exact(mg, o2);
    }
  }

  lemma {:induction false} SameShapeAnchored(o: Order, o': Order, f: bool, e: bool)
    requires SameShape(o, o')
    ensures Anchored(o, f, e) <==> Anchored(o', f, e)
  {
    match o
    case Range(_) =>
    case Join(l, r) => SameShapeAnchored(l, o'.left, f, false); SameShapeAnchored(r, o'.right, false, e);
  }
}
