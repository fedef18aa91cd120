/** The hash-driven grouping that turns a list of chunk hashes into one file-level hash.

One pass cuts the node list into groups of three to nine nodes (the last group may be
shorter) and replaces each group by its merged node; passes repeat until one node is left.
The merged hash of a group is an arbitrary function here, so nothing below depends on it. */
module Aggregation {
  import opened HashText
  import opened Lists

  datatype Node = Node(hash: DataHash, size: nat)
  type Merger = seq<Node> -> Node

  const ZERO_HASH := DataHash(0, 0, 0, 0)

  /** The byte order of the machine; nothing below depends on it. */
  const HOST: Host

  /** Whether `cuts` is right about `hash`: the last word, in little-endian order, is a multiple of four. */
  ghost predicate Agrees(cuts: iset<DataHash>, hash: DataHash) {
    hash in cuts <==> ToLe(HOST, hash.w3) % 4 == 0
  }

  type CutSet = cuts: iset<DataHash> | forall hash :: Agrees(cuts, hash)
    ghost witness iset hash: DataHash | ToLe(HOST, hash.w3) % 4 == 0

  /** The hashes that ask for a cut; proofs see the arithmetic only through `CutOfHash`. */
  ghost const CUTS: CutSet

  /** A node whose hash asks for a cut after it (mean branching factor four). */
  ghost predicate Cut(n: Node) {
    n.hash in CUTS
  }

  lemma {:induction false} CutOfHash(n: Node)
    ensures Cut(n) <==> ToLe(HOST, n.hash.w3) % 4 == 0
  {
    assert Agrees(CUTS, n.hash);
  }

  method IsNaturalCut(n: Node) returns (cut: bool)
    ensures cut <==> Cut(n)
  {
    CutOfHash(n);
    cut := ToLe(HOST, n.hash.w3) % 4 == 0;
  }

  /** `k` is the length of the first group of `s`. */
  ghost predicate IsFirstGroup(s: seq<Node>, k: nat) {
    if |s| <= 2 then k == |s|
    else
      && 3 <= k <= Min(9, |s|)
      && (forall i :: 2 <= i < k - 1 ==> !Cut(s[i]))
      && (Cut(s[k - 1]) || k == Min(9, |s|))
  }

  ghost function ScanForCut(s: seq<Node>, i: nat, end: nat): (k: nat)
    requires i <= end <= |s|
    ensures i <= k <= end && (i < end ==> i < k)
    decreases end - i
  {
    if i == end then end
    else if Cut(s[i]) then i + 1
    else ScanForCut(s, i + 1, end)
  }

  ghost function NextMergeCut(s: seq<Node>): (k: nat)
    ensures k <= |s| && (s != [] ==> 0 < k) && (|s| >= 3 ==> 3 <= k <= 9)
  {
    if |s| <= 2 then |s| else ScanForCut(s, 2, Min(9, |s|))
  }

  lemma {:induction false} ScanForCutFirst(s: seq<Node>, i: nat, end: nat)
    requires i < end <= |s|
    ensures var k := ScanForCut(s, i, end);
            (forall j :: i <= j < k - 1 ==> !Cut(s[j])) && (Cut(s[k - 1]) || k == end)
    decreases end - i
  {
    if i + 1 < end && !Cut(s[i]) {
      ScanForCutFirst(s, i + 1, end);
    }
  }

  lemma {:induction false} NextMergeCutFirst(s: seq<Node>, k: nat)
    ensures IsFirstGroup(s, k) <==> k == NextMergeCut(s)
  {
    if |s| > 2 {
      ScanForCutFirst(s, 2, Min(9, |s|));
    }
  }

  method FindMergeCut(s: seq<Node>) returns (k: nat)
    ensures k == NextMergeCut(s) && IsFirstGroup(s, k)
  {
    hide Cut, NextMergeCut;
    if |s| <= 2 {
      NextMergeCutFirst(s, |s|);
      return |s|;
    }
    var end := Min(9, |s|);
    for i := 2 to end
      invariant forall j :: 2 <= j < i ==> !Cut(s[j])
    {
      var cut := IsNaturalCut(s[i]);
      if cut {
        NextMergeCutFirst(s, i + 1);
        return i + 1;
      }
    }
    NextMergeCutFirst(s, end);
    return end;
  }

  /** One pass: every group replaced by its merged node. */
  ghost function Groups(mg: Merger, s: seq<Node>): (r: seq<Node>)
    ensures |r| <= |s|
    ensures |s| >= 2 ==> |r| < |s|
    ensures s != [] ==> r != []
  {
    if s == [] then []
    else
      var k := NextMergeCut(s);
      [mg(s[..k])] + Groups(mg, s[k..])
  }

  /** All passes. */
  ghost function Collapse(mg: Merger, s: seq<Node>): (r: seq<Node>)
    ensures |r| <= 1 && (r == [] <==> s == [])
    decreases |s|
  {
    if |s| <= 1 then s else Collapse(mg, Groups(mg, s))
  }

  ghost function AggregatedHash(mg: Merger, chunks: seq<Node>): (h: DataHash)
    ensures chunks == [] ==> h == DataHash(0, 0, 0, 0)
    ensures |chunks| == 1 ==> h == chunks[0].hash
  {
    if chunks == [] then ZERO_HASH else Collapse(mg, chunks)[0].hash
  }

  /** A pass over a prefix that ends on a group edge is a prefix of the pass. */
  lemma {:induction false} GroupsSnoc(mg: Merger, s: seq<Node>, i: nat, j: nat)
    requires i < |s| && Boundary(s, i) && j == i + NextMergeCut(s[i..])
    ensures Boundary(s, j)
    ensures Groups(mg, s[..j]) == Groups(mg, s[..i]) + [mg(s[i..j])]
  {
    hide *;
    BoundaryNext(s, i);
    BoundaryTruncate(s, i, j);
    var t, g := s[..j], s[i..j];
    GroupsSplit(mg, t, i);
    assert t[..i] == s[..i] && t[i..] == g == s[i..][..j - i];
    NextCutTruncate(s[i..], j - i);
    GroupsUnfold(mg, g, j - i);
    assert g[..j - i] == g && g[j - i..] == [];
  }

  /** The in-place form: groups are written back over the front of the working array. */
  method AggregatedNodeHash(mg: Merger, chunks: seq<Node>) returns (h: DataHash)
    ensures h == AggregatedHash(mg, chunks)
  {
    hide NextMergeCut;
    hide Groups;
    if chunks == [] {
      return ZERO_HASH;
    }
    var hv := new Node[|chunks|](i requires 0 <= i < |chunks| => chunks[i]);
    var len := |chunks|;
    assert hv[..len] == chunks;
    while len > 1
      invariant 1 <= len <= hv.Length
      invariant Collapse(mg, hv[..len]) == Collapse(mg, chunks)
      decreases len
    {
      ghost var s := hv[..len];
      var write, read := 0, 0;
      while read != len
        invariant 0 <= write <= read <= len <= hv.Length
        invariant read > 0 ==> write > 0
        invariant Boundary(s, read)
        invariant hv[..write] == Groups(mg, s[..read])
        invariant hv[read..len] == s[read..]
        decreases len - read
      {
        assert hv[read..len] == s[read..];
        var k := FindMergeCut(hv[read..len]);
        var next := read + k;
        GroupsSnoc(mg, s, read, next);
        assert hv[read..next] == hv[read..len][..next - read] == s[read..][..next - read] == s[read..next];
        assert hv[next..len] == hv[read..len][next - read..] == s[read..][next - read..] == s[next..];
        hv[write] := mg(hv[read..next]);
        write := write + 1;
        read := next;
      }
      assert s[..read] == s;
      len := write;
    }
    assert hv[..len] == [hv[0]];
    h := hv[0].hash;
  }

  // ---------------------------------------------------------------- group edges

  /** `i` is an edge between groups when grouping starts at the front of `s`. */
  ghost predicate Boundary(s: seq<Node>, i: nat)
    requires i <= |s|
    decreases |s|
  {
    i == 0 || (NextMergeCut(s) <= i && Boundary(s[NextMergeCut(s)..], i - NextMergeCut(s)))
  }

  /** A group is not affected by what lies beyond it. */
  lemma {:induction false} NextCutTruncate(s: seq<Node>, i: nat)
    requires NextMergeCut(s) <= i <= |s|
    ensures NextMergeCut(s[..i]) == NextMergeCut(s)
  {
    if s != [] {
      NextMergeCutFirst(s, NextMergeCut(s));
      NextMergeCutFirst(s[..i], NextMergeCut(s));
    }
  }

  lemma {:induction false} BoundaryNext(s: seq<Node>, i: nat)
    requires i < |s| && Boundary(s, i)
    ensures Boundary(s, i + NextMergeCut(s[i..]))
    decreases |s|
  {
    hide NextMergeCut;
    if i > 0 {
      var k := NextMergeCut(s);
      assert s[k..][i - k..] == s[i..];
      BoundaryNext(s[k..], i - k);
    } else {
      assert s[0..] == s;
    }
  }

  lemma {:induction false} BoundaryTruncate(s: seq<Node>, i: nat, j: nat)
    requires i <= j <= |s| && Boundary(s, i) && Boundary(s, j)
    ensures Boundary(s[..j], i)
    decreases |s|
  {
    if i > 0 {
      var k := NextMergeCut(s);
      NextCutTruncate(s, j);
      assert s[..j][k..] == s[k..][..j - k];
      BoundaryTruncate(s[k..], i - k, j - k);
    }
  }

  lemma {:induction false} GroupsUnfold(mg: Merger, s: seq<Node>, k: nat)
    requires s != [] && k == NextMergeCut(s)
    ensures Groups(mg, s) == [mg(s[..k])] + Groups(mg, s[k..])
  {
  }

  lemma {:induction false} BoundaryUnfold(s: seq<Node>, i: nat, k: nat)
    requires 0 < i <= |s| && k == NextMergeCut(s)
    ensures Boundary(s, i) <==> k <= i && Boundary(s[k..], i - k)
  {
  }

  lemma {:induction false} GroupsSplit(mg: Merger, s: seq<Node>, i: nat)
    requires i <= |s| && Boundary(s, i)
    ensures Groups(mg, s) == Groups(mg, s[..i]) + Groups(mg, s[i..])
    decreases |s|
  {
    hide *;
    if i == 0 {
      assert s[0..] == s;
    } else {
      var k := NextMergeCut(s);
      BoundaryUnfold(s, i, k);
      var u, v := s[..i], s[k..];
      NextCutTruncate(s, i);
      GroupsSplit(mg, v, i - k);
      assert u[k..] == v[..i - k] && u[..k] == s[..k] && v[i - k..] == s[i..];
      GroupsUnfold(mg, s, k);
      GroupsUnfold(mg, u, k);
    }
  }

  /** Between two edges of the whole, the later one is an edge counted from the earlier one. */
  lemma {:induction false} BoundaryDrop(s: seq<Node>, i: nat, j: nat)
    requires i <= j <= |s| && Boundary(s, i) && Boundary(s, j)
    ensures Boundary(s[i..], j - i)
    decreases |s|
  {
    hide *;
    if i == 0 {
      assert s[0..] == s;
    } else {
      var k := NextMergeCut(s);
      BoundaryUnfold(s, i, k); BoundaryUnfold(s, j, k);
      BoundaryDrop(s[k..], i - k, j - k);
      assert s[k..][i - k..] == s[i..];
    }
  }

  // ---------------------------------------------------------------- stable edges

  predicate ValidGap(gap: int) {
    2 < gap < 8
  }

  /** Two consecutive cuts whose distance leaves neither out of reach of the other's group. */
  ghost predicate GapPair(s: seq<Node>, a: int, b: int) {
    && 0 <= a < b < |s|
    && 3 <= b - a <= 7
    && Cut(s[a]) && Cut(s[b])
    && forall j :: a < j < b ==> !Cut(s[j])
  }

  /** Whatever surrounds a gap pair, a group ends at its second cut. */
  lemma {:induction false} GapPairIsEdge(s: seq<Node>, a: int, b: int)
    requires GapPair(s, a, b)
    ensures Boundary(s, b + 1)
    decreases |s|
  {
    var k := NextMergeCut(s);
    if k <= a {
      assert GapPair(s[k..], a - k, b - k);
      GapPairIsEdge(s[k..], a - k, b - k);
    } else if k == a + 1 {
      var t := s[k..];
      assert t[b - k] == s[b];
      NextMergeCutFirst(t, b - k + 1);
      assert IsFirstGroup(t, b - k + 1) by {
        assert forall i :: 0 <= i < b - k ==> t[i] == s[k + i];
      }
      assert Boundary(t[b - k + 1..], 0);
    } else {
      NextMergeCutFirst(s, k);
      assert a <= 1;
      NextMergeCutFirst(s, b + 1);
      assert Boundary(s[k..], 0);
    }
  }

  ghost predicate EndsGapPair(p: seq<Node>, a: int) {
    GapPair(p, a, |p| - 1)
  }

  /** `p` ends at the second cut of a gap pair, so it ends on an edge in every context. */
  ghost predicate StableEnd(p: seq<Node>) {
    exists a :: EndsGapPair(p, a)
  }

  lemma {:induction false} StableEndIsEdge(x: seq<Node>, p: seq<Node>, y: seq<Node>)
    requires StableEnd(p)
    ensures |p| >= 4
    ensures StableEnd(x + p)
    ensures Boundary(x + p + y, |x + p|)
  {
    var a :| EndsGapPair(p, a);
    assert EndsGapPair(x + p, |x| + a);
    assert GapPair(x + p + y, |x| + a, |x + p| - 1);
    GapPairIsEdge(x + p + y, |x| + a, |x + p| - 1);
  }

  /** Grouping distributes over an append whose left part ends stably (or is empty). */
  lemma {:induction false} GroupsAppend(mg: Merger, p: seq<Node>, y: seq<Node>)
    requires p == [] || StableEnd(p)
    ensures Groups(mg, p + y) == Groups(mg, p) + Groups(mg, y)
  {
    if p == [] {
      assert p + y == y;
    } else {
      StableEndIsEdge([], p, y);
      assert [] + p + y == p + y && [] + p == p;
      GroupsSplit(mg, p + y, |p|);
      assert (p + y)[..|p|] == p && (p + y)[|p|..] == y;
    }
  }
}
