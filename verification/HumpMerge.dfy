/** Merging two humps gives a hump that stands for the concatenation. */
module HumpMerge {
  import opened Aggregation
  import opened Mids
  import opened Humps

  lemma {:induction false} MergeUnfold(mg: Merger, a: seq<Level>, b: seq<Level>, carry: seq<Node>, f: bool, e: bool,
      p: Parts)
    requires (a != [] || b != []) && p == Split(Full(Head(a), carry, Head(b)), f, e)
    ensures MergeLevels(mg, a, b, carry, f, e)
         == [Level(p.left, p.right)] +
            MergeLevels(mg, Tail(a), Tail(b), Groups(mg, p.middle), f && p.left == [], e && p.right == [])
    ensures |Tail(a)| + |Tail(b)| < |a| + |b|
  {
  }

  lemma {:induction false} MergeNil(mg: Merger, carry: seq<Node>, f: bool, e: bool)
    ensures MergeLevels(mg, [], [], [], f, e) == []
    ensures carry != [] ==> MergeLevels(mg, [], [], carry, f, e) == BuildHump(mg, carry, f, e)
  {
  }

  lemma {:induction false} NothingOpen(mg: Merger, t: seq<Node>)
    ensures StartOpen(mg, [], t) <==> t == []
    ensures EndOpen(mg, [], t) <==> t == []
    ensures BothOpen(mg, [], t) <==> t == []
    ensures Groups(mg, []) == []
  {
  }

  lemma {:induction false} SplitNoMid(s: seq<Node>, f: bool)
    requires NoMid(s)
    ensures Split(s, f, false) == Parts(s, [], [])
  {
    if |s| > 1 {
      assert s[0..] == s;
      assert FirstMid(s, 0) == |s|;
      var t := s[|s|..];
      OnlyCutsAreMids(t);
      assert LastMid(s, |s|) == -1 && LastMid(t, |t|) == -1;
    }
  }

  lemma {:induction false} SplitWhole(s: seq<Node>)
    ensures Split(s, true, true) == if |s| <= 1 then Parts(s, [], []) else Parts([], s, [])
  {
  }

  /** The joint of the right operand is a mid of the whole level, and nothing after it is. */
  lemma {:induction false} JointAtEnd(x: seq<Node>, l: seq<Node>, r: seq<Node>)
    requires StableEnd(l) && Joint(l, r)
    ensures IsMid(x + l + r, |x + l| - 1)
    ensures forall i :: |x + l| <= i ==> !IsMid(x + l + r, i)
  {
    hide *;
    JointMid(l, r);
    MidInContext(x, l + r, [], |l| - 1);
    var s := x + l + r;
    assert x + (l + r) + [] == s && x + (l + r) == s;
    forall i | |x + l| <= i ensures !IsMid(s, i) {
      if IsMid(s, i) {
        MidBounds(s, i);
        StableEndCut(l);
        MidDropLeft(x, l + r, i - |x|, |l| - 1);
      }
    }
  }

  lemma {:induction false} JointMid(l: seq<Node>, r: seq<Node>)
    requires Joint(l, r)
    ensures IsMid(l + r, |l| - 1)
    ensures forall i :: i != |l| - 1 ==> !IsMid(l + r, i)
  {
  }

  /** The joint of the left operand is a mid of the whole level, and nothing before it is. */
  lemma {:induction false} JointAtStart(l: seq<Node>, r: seq<Node>, y: seq<Node>)
    requires StableEnd(l) && Joint(l, r)
    ensures IsMid(l + r + y, |l| - 1)
    ensures forall i :: i < |l| - 1 ==> !IsMid(l + r + y, i)
  {
    hide *;
    JointMid(l, r);
    MidInContext([], l + r, y, |l| - 1);
    var s := l + r + y;
    assert [] + (l + r) + y == s && l + (r + y) == s;
    forall i | i < |l| - 1 ensures !IsMid(s, i) {
      if IsMid(s, i) {
        assert [] + l + r == l + r;
        StableEndCut(l);
        MidDropRight(l, r + y, i, |l| - 1);
        MidInContext([], l, r, i);
      }
    }
  }

  lemma {:induction false} NoMidNone(s: seq<Node>, i: int)
    requires NoMid(s)
    ensures !IsMid(s, i)
  {
  }

  lemma {:induction false} GroupsAppendNil(mg: Merger, x: seq<Node>, q: seq<Node>)
    requires q != [] ==> x == [] || StableEnd(x)
    ensures Groups(mg, x + q) == Groups(mg, x) + Groups(mg, q)
  {
    hide *;
    NothingOpen(mg, []);
    if q == [] {
      assert x + q == x;
    } else {
      GroupsAppend(mg, x, q);
    }
  }

  lemma {:induction false} GroupsAppend3(mg: Merger, x: seq<Node>, y: seq<Node>, z: seq<Node>)
    requires x == [] || StableEnd(x)
    requires z != [] ==> y == [] || StableEnd(y)
    ensures Groups(mg, x + y + z) == Groups(mg, x) + Groups(mg, y) + Groups(mg, z)
  {
    hide *;
    assert x + y + z == x + (y + z);
    GroupsAppend(mg, x, y + z);
    GroupsAppendNil(mg, y, z);
  }

  /** Grouping from a stable edge up to a later one does not see past the later one. */
  lemma {:induction false} GroupsBetween(mg: Merger, l: seq<Node>, m: seq<Node>, q: seq<Node>)
    requires StableEnd(l) && StableEnd(l + m)
    ensures Groups(mg, m + q) == Groups(mg, m) + Groups(mg, q)
  {
    hide *;
    var u := l + m + q;
    StableEndIsEdge([], l, m + q);
    assert [] + l + (m + q) == u && |[] + l| == |l|;
    StableEndIsEdge([], l + m, q);
    assert [] + (l + m) + q == u && |[] + (l + m)| == |l + m|;
    BoundaryDrop(u, |l|, |l + m|);
    assert u[|l|..] == m + q;
    GroupsSplit(mg, m + q, |m|);
    assert (m + q)[..|m|] == m && (m + q)[|m|..] == q;
  }

  lemma {:induction false} StableSuffix(x: seq<Node>, p: seq<Node>)
    requires StableEnd(p)
    ensures StableEnd(x + p) && p != []
  {
    StableEndIsEdge(x, p, []);
  }

  lemma {:induction false} FullIs(a: Level, carry: seq<Node>, b: Level)
    ensures Full(a, carry, b) == (a.left + a.right) + carry + b.left + b.right
  {
  }

  // ---------------------------------------------------------------- start + open

  /** Nothing is promoted: the whole level becomes the new tail. */
  lemma {:induction false} StartKeep(mg: Merger, p: seq<Node>, full: seq<Node>, rest: seq<Level>)
    requires NoMid(full) && (p != [] ==> StableEnd(p) && |full| >= 2)
    requires StartOpen(mg, rest, Groups(mg, p) + [] + [])
    ensures StartOpen(mg, [Level(full, [])] + rest, p + full)
  {
    hide *;
    assert Groups(mg, p) + [] + [] == Groups(mg, p);
    assert full + [] == full;
    StartOpenFold(mg, Level(full, []), rest, p);
  }

  /** `x` is promoted behind `p`, followed by the right operand's own middle `g`. */
  lemma {:induction false} StartPromote(mg: Merger, p: seq<Node>, x: seq<Node>, g: seq<Node>, r: seq<Node>,
      rest: seq<Level>)
    requires p == [] || StableEnd(p)
    requires StableEnd(x) && (g == [] || StableEnd(g)) && NoMid(r) && |r| >= 3
    requires StartOpen(mg, rest, Groups(mg, p) + Groups(mg, x) + Groups(mg, g))
    ensures StartOpen(mg, [Level([], r)] + rest, p + x + g + r)
  {
    hide *;
    GroupsAppend3(mg, p, x, g);
    if g == [] {
      StableSuffix(p, x);
      assert p + x + g == p + x;
    } else {
      StableSuffix(p + x, g);
    }
    assert [] + r == r;
    StartOpenFold(mg, Level([], r), rest, p + x + g);
  }

  lemma {:induction false} MergeStartOpen(mg: Merger, a: seq<Level>, b: seq<Level>, carry: seq<Node>,
                                          ta: seq<Node>, tb: seq<Node>, f: bool)
    requires StartOpen(mg, a, ta) && BothOpen(mg, b, tb)
    requires f || (carry == [] && tb == [])
    ensures StartOpen(mg, MergeLevels(mg, a, b, carry, f, false), ta + carry + tb)
    decreases |a| + |b|
  {
    hide *;
    if a == [] && b == [] {
      NothingOpen(mg, ta); NothingOpen(mg, tb);
      MergeNil(mg, carry, f, false);
      assert ta + carry + tb == carry;
      if carry != [] {
        BuildStartOpen(mg, carry);
      }
      return;
    }
    var p := StartOpenUnfold(mg, a, ta);
    var g := BothOpenUnfold(mg, b, tb);
    var s, l, r := Head(a).left + Head(a).right, Head(b).left, Head(b).right;
    var x := s + carry + l;
    var full := x + r;
    FullIs(Head(a), carry, Head(b));
    var parts := Split(full, f, false);
    MergeUnfold(mg, a, b, carry, f, false, parts);
    StartParts(s, carry, l, g, r, f, tb, parts);
    NothingOpen(mg, []);
    MergeStartOpen(mg, Tail(a), Tail(b), Groups(mg, parts.middle), Groups(mg, p), Groups(mg, g), f && parts.left == []);
    var rest := MergeLevels(mg, Tail(a), Tail(b), Groups(mg, parts.middle), f && parts.left == [], false);
    if parts.middle == [] {
      StartKeep(mg, p, full, rest);
    } else {
      StartPromote(mg, p, parts.middle, g, parts.right, rest);
    }
    StartConcat(p, s, carry, l, g, r, parts);
  }

  /** What one level keeps and promotes, given where the right operand's middle was. */
  lemma {:induction false} StartParts(s: seq<Node>, carry: seq<Node>, l: seq<Node>, g: seq<Node>, r: seq<Node>, f: bool,
                   tb: seq<Node>, parts: Parts)
    requires parts == Split(s + carry + l + r, f, false)
    requires NoMid(s) && tb == l + g + r && (f || (carry == [] && tb == []))
    requires g == [] ==> r == []
    requires g != [] ==> StableEnd(l) && Joint(l, r)
    ensures parts.middle == [] ==> g == [] && parts == Parts(s + carry + l + r, [], []) && NoMid(s + carry + l + r)
    ensures parts.middle != [] ==>
              f && parts.left == [] && StableEnd(parts.middle) && NoMid(parts.right) && |parts.right| >= 3
    ensures parts.middle != [] && g != [] ==> parts.middle == s + carry + l && parts.right == r
    ensures parts.left + parts.middle + parts.right == s + carry + l + r
  {
    hide *;
    var x := s + carry + l;
    var full := x + r;
    if !f {
      assert full == s;
      SplitNoMid(full, f);
    } else {
      SplitFromStart(full, parts);
      if g != [] {
        JointAtEnd(s + carry, l, r);
        if parts.middle == [] {
          NoMidNone(full, |x| - 1);
        }
        assert |parts.middle| == |x|;
        assert parts.middle == (parts.left + parts.middle + parts.right)[..|x|] == x;
        assert parts.right == (parts.left + parts.middle + parts.right)[|x|..] == r;
      }
    }
  }

  lemma {:induction false} StartConcat(p: seq<Node>, s: seq<Node>, carry: seq<Node>, l: seq<Node>, g: seq<Node>,
      r: seq<Node>, parts: Parts)
    requires parts.left + parts.middle + parts.right == s + carry + l + r
    ensures g == [] && parts.middle == [] ==> p + (s + carry + l + r) == (p + s) + carry + (l + g + r)
    ensures g == [] && parts.left == [] ==> p + parts.middle + g + parts.right == (p + s) + carry + (l + g + r)
    ensures p + (s + carry + l) + g + r == (p + s) + carry + (l + g + r)
  {
    if g == [] && parts.left == [] {
      assert p + parts.middle + g + parts.right == p + (parts.left + parts.middle + parts.right);
    }
  }

  // ---------------------------------------------------------------- open + end

  /** The head kept is `l`; `x` is promoted between the two hidden middles `g` and `q`. */
  lemma {:induction false} EndPromote(mg: Merger, l: seq<Node>, g: seq<Node>, x: seq<Node>, q: seq<Node>,
      rest: seq<Level>)
    requires StableEnd(l) && (g == [] || StableEnd(g))
    requires q != [] && g != [] ==> StableEnd(x)
    requires q != [] && g == [] ==> StableEnd(l + x)
    requires EndOpen(mg, rest, Groups(mg, g) + Groups(mg, x) + Groups(mg, q))
    ensures EndOpen(mg, [Level(l, [])] + rest, l + (g + x + q))
  {
    hide *;
    if g == [] && q != [] {
      GroupsBetween(mg, l, x, q);
      NothingOpen(mg, []);
      assert [] + Groups(mg, x) + Groups(mg, q) == Groups(mg, x + q);
      assert g + x + q == x + q;
    } else {
      GroupsAppend3(mg, g, x, q);
    }
    EndOpenFold(mg, l, rest, g + x + q);
  }

  /** Nothing is promoted: the whole level becomes the new head. */
  lemma {:induction false} EndKeep(mg: Merger, full: seq<Node>, q: seq<Node>, rest: seq<Level>)
    requires q != [] ==> StableEnd(full)
    requires EndOpen(mg, rest, [] + [] + Groups(mg, q))
    ensures EndOpen(mg, [Level(full, [])] + rest, full + q)
  {
    hide *;
    assert [] + [] + Groups(mg, q) == Groups(mg, q);
    EndOpenFold(mg, full, rest, q);
  }

  lemma {:induction false} EndParts(l: seq<Node>, g: seq<Node>, r: seq<Node>, y: seq<Node>, parts: Parts)
    requires parts == Split(l + r + y, false, true)
    requires g == [] ==> r == []
    requires g != [] ==> StableEnd(l) && Joint(l, r)
    ensures parts.right == [] && parts.left + parts.middle == l + r + y
    ensures parts.middle == [] ==> g == []
    ensures parts.middle != [] ==> StableEnd(parts.left)
    ensures g != [] ==> parts.left == l && parts.middle == r + y
  {
    hide *;
    var full := l + r + y;
    SplitToEnd(full, parts);
    assert parts.left + parts.middle + [] == parts.left + parts.middle;
    if g != [] {
      JointAtStart(l, r, y);
      if parts.middle == [] {
        NoMidNone(full, |l| - 1);
      }
      assert |parts.left| == |l|;
      assert full == l + (r + y);
      assert parts.left == full[..|l|] == l && parts.middle == full[|l|..] == r + y;
    }
  }

  lemma {:induction false} EndConcat(l: seq<Node>, g: seq<Node>, r: seq<Node>, carry: seq<Node>, m: seq<Node>,
      q: seq<Node>, parts: Parts)
    requires parts.left + parts.middle == l + r + (carry + m)
    ensures g == [] ==> l + r + (carry + m) + q == (l + g + r) + carry + (m + q)
    ensures g == [] ==> parts.left + (g + parts.middle + q) == (l + g + r) + carry + (m + q)
    ensures l + (g + (r + (carry + m)) + q) == (l + g + r) + carry + (m + q)
  {
    if g == [] {
      assert parts.left + (g + parts.middle + q) == parts.left + parts.middle + q;
    }
  }

  lemma {:induction false} MergeOpenEnd(mg: Merger, a: seq<Level>, b: seq<Level>, carry: seq<Node>,
                                        ta: seq<Node>, tb: seq<Node>)
    requires BothOpen(mg, a, ta) && EndOpen(mg, b, tb)
    ensures EndOpen(mg, MergeLevels(mg, a, b, carry, false, true), ta + carry + tb)
    decreases |a| + |b|
  {
    hide *;
    if a == [] && b == [] {
      NothingOpen(mg, ta); NothingOpen(mg, tb);
      MergeNil(mg, carry, false, true);
      assert ta + carry + tb == carry;
      if carry != [] {
        BuildEndOpen(mg, carry);
      }
      return;
    }
    var g := BothOpenUnfold(mg, a, ta);
    var q := EndOpenUnfold(mg, b, tb);
    var l, r, m := Head(a).left, Head(a).right, Head(b).left;
    var full := l + r + (carry + m);
    FullIs(Head(a), carry, Head(b));
    assert l + r + carry + m + [] == full;
    var parts := Split(full, false, true);
    MergeUnfold(mg, a, b, carry, false, true, parts);
    EndParts(l, g, r, carry + m, parts);
    NothingOpen(mg, []);
    MergeOpenEnd(mg, Tail(a), Tail(b), Groups(mg, parts.middle), Groups(mg, g), Groups(mg, q));
    var rest := MergeLevels(mg, Tail(a), Tail(b), Groups(mg, parts.middle), false, true);
    if q != [] {
      StableSuffix(r + carry, m); StableSuffix(l + r + carry, m);
      assert r + carry + m == r + (carry + m) && l + r + carry + m == full;
    }
    if parts.middle == [] {
      EndKeep(mg, full, q, rest);
    } else {
      EndPromote(mg, parts.left, g, parts.middle, q, rest);
    }
    EndConcat(l, g, r, carry, m, q, parts);
  }

  // ---------------------------------------------------------------- start + end

  lemma {:induction false} MergeEmpty(mg: Merger, a: seq<Level>, b: seq<Level>, f: bool, e: bool)
    requires StartOpen(mg, a, []) && EndOpen(mg, b, [])
    ensures AllEmpty(MergeLevels(mg, a, b, [], f, e))
    decreases |a| + |b|
  {
    hide *;
    if a == [] && b == [] {
      MergeNil(mg, [], f, e);
      AllEmptyCons([]);
    } else {
      var p := StartOpenUnfold(mg, a, []);
      var q := EndOpenUnfold(mg, b, []);
      NothingOpen(mg, []);
      FullIs(Head(a), [], Head(b));
      var parts := Split([], f, e);
      MergeUnfold(mg, a, b, [], f, e, parts);
      MergeEmpty(mg, Tail(a), Tail(b), f, e);
      AllEmptyCons(MergeLevels(mg, Tail(a), Tail(b), [], f, e));
    }
  }

  lemma {:induction false} AllEmptyCons(levels: seq<Level>)
    ensures AllEmpty([]) && (AllEmpty(levels) ==> AllEmpty([Level([], [])] + levels))
  {
  }

  lemma {:induction false} ClosedFold(mg: Merger, t: seq<Node>, rest: seq<Level>)
    ensures |t| <= 1 && AllEmpty(rest) ==> Closed(mg, [Level(t, [])] + rest, t)
    ensures |t| > 1 && Closed(mg, rest, Groups(mg, t)) ==> Closed(mg, [EMPTY] + rest, t)
  {
    assert ([Level(t, [])] + rest)[1..] == rest && ([EMPTY] + rest)[1..] == rest;
  }

  lemma {:induction false} MergeClosed(mg: Merger, a: seq<Level>, b: seq<Level>, carry: seq<Node>,
                                       ta: seq<Node>, tb: seq<Node>)
    requires StartOpen(mg, a, ta) && EndOpen(mg, b, tb)
    ensures Closed(mg, MergeLevels(mg, a, b, carry, true, true), ta + carry + tb)
    decreases |a| + |b|
  {
    hide *;
    if a == [] && b == [] {
      NothingOpen(mg, ta); NothingOpen(mg, tb);
      MergeNil(mg, carry, true, true);
      assert ta + carry + tb == carry;
      if carry == [] {
        ClosedNil(mg);
      } else {
        BuildClosed(mg, carry);
      }
      return;
    }
    var p := StartOpenUnfold(mg, a, ta);
    var q := EndOpenUnfold(mg, b, tb);
    var s, m := Head(a).left + Head(a).right, Head(b).left;
    var full := s + carry + m;
    FullIs(Head(a), carry, Head(b));
    assert full + [] == full;
    var parts := Split(full, true, true);
    SplitWhole(full);
    MergeUnfold(mg, a, b, carry, true, true, parts);
    NothingOpen(mg, []);
    if q != [] {
      StableEndCut(m);
      StableSuffix(s + carry, m);
    }
    if |full| <= 1 {
      assert p == [] && q == [];
      MergeEmpty(mg, Tail(a), Tail(b), parts.left == [], true);
      ClosedFold(mg, full, MergeLevels(mg, Tail(a), Tail(b), [], parts.left == [], true));
    } else {
      MergeClosed(mg, Tail(a), Tail(b), Groups(mg, full), Groups(mg, p), Groups(mg, q));
      ClosedStep(mg, p, full, q, MergeLevels(mg, Tail(a), Tail(b), Groups(mg, full), true, true));
    }
    ClosedConcat(p, s, carry, m, q);
  }

  lemma {:induction false} ClosedConcat(p: seq<Node>, s: seq<Node>, carry: seq<Node>, m: seq<Node>, q: seq<Node>)
    ensures p + (s + carry + m) + q == (p + s) + carry + (m + q)
    ensures p == [] && q == [] ==> s + carry + m == (p + s) + carry + (m + q)
  {
  }

  lemma {:induction false} ClosedStep(mg: Merger, p: seq<Node>, full: seq<Node>, q: seq<Node>, rest: seq<Level>)
    requires (p == [] || StableEnd(p)) && (q != [] ==> StableEnd(full)) && |full| > 1
    requires Closed(mg, rest, Groups(mg, p) + Groups(mg, full) + Groups(mg, q))
    ensures Closed(mg, [Level([], [])] + rest, p + full + q)
  {
    hide *;
    GroupsAppend3(mg, p, full, q);
    ClosedFold(mg, p + full + q, rest);
    EmptyIs();
  }

  lemma {:induction false} ClosedNil(mg: Merger)
    ensures Closed(mg, [], [])
  {
  }

  lemma {:induction false} EmptyIs()
    ensures EMPTY == Level([], [])
  {
  }

  /** The law of the module: a merge with the left operand anchored at the start or the
      right operand anchored at the end stands for the concatenation. */
  lemma {:induction false} MergeStands(mg: Merger, a: seq<Level>, aStart: bool, ta: seq<Node>, b: seq<Level>,
      bEnd: bool, tb: seq<Node>)
    requires aStart || bEnd
    requires Stands(mg, a, aStart, false, ta) && Stands(mg, b, false, bEnd, tb)
    ensures Stands(mg, MergeLevels(mg, a, b, [], aStart, bEnd), aStart, bEnd, ta + tb)
  {
    assert ta + [] + tb == ta + tb;
    if aStart && bEnd { MergeClosed(mg, a, b, [], ta, tb); }
    else if aStart { MergeStartOpen(mg, a, b, [], ta, tb, true); }
    else { MergeOpenEnd(mg, a, b, [], ta, tb); }
  }
}
