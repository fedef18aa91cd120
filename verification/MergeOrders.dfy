/** Whole merges of a file's ranges, in any order.

A merge order is a binary tree whose leaves are adjacent chunk ranges. The final hash is
the file hash for all contents exactly when no merge joins two ranges that are both open:
every join has the file's first range on its left or the file's last range on its right. */
module MergeOrders {
  import opened HashText
  import opened Lists
  import opened Aggregation
  import opened Mids
  import opened Humps
  import opened HumpMerge
  import opened Wrappers

  datatype Hump = Hump(levels: seq<Level>, atStart: bool, atEnd: bool)

  ghost function FromChunks(mg: Merger, atStart: bool, chunks: seq<Node>, atEnd: bool): (h: Hump) {
    Hump(BuildHump(mg, chunks, atStart, atEnd), atStart, atEnd)
  }

  ghost predicate Topped(levels: seq<Level>) {
    |levels| > 1 ==> levels[|levels| - 1] != EMPTY
  }

  lemma {:induction false} TrimTop(levels: seq<Level>)
    ensures Topped(Trim(levels))
  {
    if |levels| > 1 && levels[|levels| - 1] == EMPTY {
      TrimTop(levels[..|levels| - 1]);
    }
  }

  lemma {:induction false} MergeTopped(mg: Merger, a: seq<Level>, b: seq<Level>, f: bool, e: bool)
    ensures Topped(Trim(MergeLevels(mg, a, b, [], f, e)))
    ensures a != [] ==> Trim(MergeLevels(mg, a, b, [], f, e)) != []
  {
    hide *;
    TrimTop(MergeLevels(mg, a, b, [], f, e));
    if a != [] {
      MergeUnfold(mg, a, b, [], f, e, Split(Full(Head(a), [], Head(b)), f, e));
    }
  }

  /** `merge_into`: refused when something would follow the end or precede the start. */
  ghost function MergeInto(mg: Merger, a: Hump, b: Hump): (h: Option<Hump>)
    ensures h.Some? <==> !a.atEnd && !b.atStart
    ensures h.Some? ==> h.value.atStart == a.atStart && h.value.atEnd == b.atEnd && Topped(h.value.levels)
    ensures h.Some? && a.levels != [] ==> h.value.levels != []
  {
    if a.atEnd || b.atStart then None
    else
      MergeTopped(mg, a.levels, b.levels, a.atStart, b.atEnd);
      Some(Hump(Trim(MergeLevels(mg, a.levels, b.levels, [], a.atStart, b.atEnd)), a.atStart, b.atEnd))
  }

  /** The answer to asking for the final hash: an end is unknown, the hash, or a top level without a node. */
  datatype Final = Unfinished | Known(hash: DataHash) | Panics

  /** No hash as long as one of the two ends is open. */
  ghost function FinalHash(h: Hump): (r: Final)
    requires h.levels != []
    ensures r.Unfinished? <==> !h.atStart || !h.atEnd
  {
    if !h.atStart || !h.atEnd then Unfinished
    else if AllEmpty(h.levels) then Known(ZERO_HASH)
    else
      var top := h.levels[|h.levels| - 1];
      if top.left == [] then Panics else Known(top.left[0].hash)
  }

  ghost predicate HumpStands(mg: Merger, h: Hump, t: seq<Node>) {
    h.levels != [] && Stands(mg, h.levels, h.atStart, h.atEnd, t)
  }

  // ---------------------------------------------------------------- trimming

  lemma {:induction false} HeadTail(levels: seq<Level>)
    requires levels != []
    ensures Head(levels) == levels[0] && Tail(levels) == levels[1..]
    ensures |levels| > 1 ==> [levels[0]] + levels[1..][..|levels| - 2] == levels[..|levels| - 1]
  {
  }

  lemma {:induction false} DropStart(mg: Merger, levels: seq<Level>, t: seq<Node>)
    requires StartOpen(mg, levels, t) && levels != [] && levels[|levels| - 1] == Level([], [])
    ensures StartOpen(mg, levels[..|levels| - 1], t)
  {
    hide *;
    HeadTail(levels);
    var p := StartOpenUnfold(mg, levels, t);
    if |levels| == 1 {
      NothingOpen(mg, t);
    } else {
      DropStart(mg, levels[1..], Groups(mg, p));
      StartOpenFold(mg, levels[0], levels[1..][..|levels| - 2], p);
    }
  }

  lemma {:induction false} DropEnd(mg: Merger, levels: seq<Level>, t: seq<Node>)
    requires EndOpen(mg, levels, t) && levels != [] && levels[|levels| - 1] == Level([], [])
    ensures EndOpen(mg, levels[..|levels| - 1], t)
  {
    hide *;
    HeadTail(levels);
    var q := EndOpenUnfold(mg, levels, t);
    if |levels| == 1 {
      if q != [] {
        StableSuffix([], []);
      }
      NothingOpen(mg, t);
    } else {
      DropEnd(mg, levels[1..], Groups(mg, q));
      EndOpenFold(mg, levels[0].left, levels[1..][..|levels| - 2], q);
      assert levels[0] == Level(levels[0].left, []);
    }
  }

  lemma {:induction false} DropClosed(mg: Merger, levels: seq<Level>, t: seq<Node>)
    requires Closed(mg, levels, t) && levels != [] && levels[|levels| - 1] == EMPTY
    ensures Closed(mg, levels[..|levels| - 1], t)
  {
    if |levels| > 1 {
      assert levels[..|levels| - 1][1..] == levels[1..][..|levels| - 2];
      if |t| > 1 {
        DropClosed(mg, levels[1..], Groups(mg, t));
      }
    }
  }

  lemma {:induction false} TrimStands(mg: Merger, levels: seq<Level>, f: bool, e: bool, t: seq<Node>)
    requires Stands(mg, levels, f, e, t) && (f || e)
    ensures Stands(mg, Trim(levels), f, e, t)
  {
    if |levels| > 1 && levels[|levels| - 1] == EMPTY {
      if f && e { DropClosed(mg, levels, t); }
      else if f { DropStart(mg, levels, t); }
      else { DropEnd(mg, levels, t); }
      TrimStands(mg, levels[..|levels| - 1], f, e, t);
    }
  }

  /** `merge_into` keeps meanings, whichever of the two outer ends is anchored. */
  lemma {:induction false} MergeIntoStands(mg: Merger, a: Hump, ta: seq<Node>, b: Hump, tb: seq<Node>)
    requires HumpStands(mg, a, ta) && HumpStands(mg, b, tb)
    requires !a.atEnd && !b.atStart && (a.atStart || b.atEnd)
    ensures HumpStands(mg, MergeInto(mg, a, b).value, ta + tb)
  {
    MergeStands(mg, a.levels, a.atStart, ta, b.levels, b.atEnd, tb);
    TrimStands(mg, MergeLevels(mg, a.levels, b.levels, [], a.atStart, b.atEnd), a.atStart, b.atEnd, ta + tb);
  }

  // ---------------------------------------------------------------- the final hash

  /** The top of a closed hump is the collapsed list. */
  lemma {:induction false} ClosedTop(mg: Merger, levels: seq<Level>, t: seq<Node>)
    requires Closed(mg, levels, t) && levels != [] && Topped(levels)
    ensures levels[|levels| - 1].left == Collapse(mg, t)
    ensures AllEmpty(levels) <==> t == []
    decreases |levels|
  {
    if |t| <= 1 {
      assert levels[|levels| - 1] in [levels[0]] + levels[1..];
    } else {
      ClosedTop(mg, levels[1..], Groups(mg, t));
      assert levels[1..][|levels| - 2] == levels[|levels| - 1];
    }
  }

  lemma {:induction false} SplitKeepsAll(s: seq<Node>, f: bool, e: bool, p: Parts)
    requires p == Split(s, f, e)
    ensures p.left + p.middle + p.right == s
    ensures s != [] && p.middle == [] ==> Level(p.left, p.right) != EMPTY
  {
    hide IsMid;
  }

  lemma {:induction false} BuildTopped(mg: Merger, s: seq<Node>, f: bool, e: bool)
    ensures Topped(BuildHump(mg, s, f, e))
    ensures s != [] ==> BuildHump(mg, s, f, e)[|BuildHump(mg, s, f, e)| - 1] != EMPTY
    decreases |s|
  {
    hide Split, BuildHump, Groups;
    var p := Split(s, f, e);
    BuildUnfold(mg, s, f, e, p);
    SplitKeepsAll(s, f, e, p);
    if p.middle != [] {
      GroupsEmpty(mg, p.middle);
      BuildTopped(mg, Groups(mg, p.middle), f && p.left == [], e && p.right == []);
    }
  }

  lemma {:induction false} FinalHashOfClosed(mg: Merger, h: Hump, t: seq<Node>)
    requires h.atStart && h.atEnd && HumpStands(mg, h, t) && Topped(h.levels)
    ensures FinalHash(h) == Known(AggregatedHash(mg, t))
  {
    ClosedTop(mg, h.levels, t);
  }

  // ---------------------------------------------------------------- merge orders

  datatype Order = Range(chunks: seq<Node>) | Join(left: Order, right: Order)

  ghost function Chunks(o: Order): seq<Node> {
    match o
    case Range(chunks) => chunks
    case Join(l, r) => Chunks(l) + Chunks(r)
  }

  /** Carries out the merges; `f` and `e` say whether `o` begins or ends the file. */
  ghost function Eval(mg: Merger, o: Order, f: bool, e: bool): (h: Hump)
    ensures h.atStart == f && h.atEnd == e && h.levels != [] && Topped(h.levels)
  {
    match o
    case Range(chunks) =>
      BuildTopped(mg, chunks, f, e);
      FromChunks(mg, f, chunks, e)
    case Join(l, r) =>
      MergeInto(mg, Eval(mg, l, f, false), Eval(mg, r, false, e)).value
  }

  /** No join of two ranges that are both open. */
  predicate Anchored(o: Order, f: bool, e: bool) {
    match o
    case Range(_) => true
    case Join(l, r) => (f || e) && Anchored(l, f, false) && Anchored(r, false, e)
  }

  lemma {:induction false} AnchoredStands(mg: Merger, o: Order, f: bool, e: bool)
    requires Anchored(o, f, e)
    ensures HumpStands(mg, Eval(mg, o, f, e), Chunks(o))
  {
    match o
    case Range(chunks) => BuildStands(mg, chunks, f, e);
    case Join(l, r) =>
      AnchoredStands(mg, l, f, false);
      AnchoredStands(mg, r, false, e);
      MergeIntoStands(mg, Eval(mg, l, f, false), Chunks(l), Eval(mg, r, false, e), Chunks(r));
  }

  /** Every anchored merge order yields the hash of the whole chunk list. */
  lemma {:induction false} AnchoredOrderIsExact(mg: Merger, o: Order)
    requires Anchored(o, true, true)
    ensures FinalHash(Eval(mg, o, true, true)) == Known(AggregatedHash(mg, Chunks(o)))
  {
    AnchoredStands(mg, o, true, true);
    FinalHashOfClosed(mg, Eval(mg, o, true, true), Chunks(o));
  }

  // ---------------------------------------------------------------- merging a list of ranges

  ghost function Fold(mg: Merger, acc: Hump, rest: seq<Hump>): Option<Hump>
    decreases |rest|
  {
    if rest == [] then Some(acc)
    else
      match MergeInto(mg, acc, rest[0])
      case None => None
      case Some(h) => Fold(mg, h, rest[1..])
  }

  /** `merge`: left to right; no ranges at all is the empty file. */
  ghost function MergeAll(mg: Merger, ranges: seq<Hump>): Option<Hump> {
    if ranges == [] then Some(FromChunks(mg, true, [], true)) else Fold(mg, ranges[0], ranges[1..])
  }

  /** Adjacent ranges covering a file: only the first starts it, only the last ends it. */
  ghost function Ranges(mg: Merger, parts: seq<seq<Node>>): (r: seq<Hump>)
    ensures |r| == |parts|
    ensures forall i :: 0 <= i < |parts| ==> r[i] == FromChunks(mg, i == 0, parts[i], i == |parts| - 1)
  {
    seq(|parts|, i requires 0 <= i < |parts| => FromChunks(mg, i == 0, parts[i], i == |parts| - 1))
  }

  lemma {:induction false} FoldStands(mg: Merger, parts: seq<seq<Node>>, k: nat, acc: Hump)
    requires 0 < k <= |parts|
    requires acc.atStart && acc.atEnd == (k == |parts|) && Topped(acc.levels)
    requires HumpStands(mg, acc, Concat(parts[..k]))
    ensures var r := Fold(mg, acc, Ranges(mg, parts)[k..]);
            && r.Some? && r.value.atStart && r.value.atEnd && Topped(r.value.levels)
            && HumpStands(mg, r.value, Concat(parts))
    decreases |parts| - k
  {
    hide HumpStands, Topped, BuildHump;
    var ranges := Ranges(mg, parts);
    if k == |parts| {
      assert parts[..k] == parts;
    } else {
      var b := ranges[k];
      PieceStands(mg, false, parts[k], k == |parts| - 1);
      MergeIntoStands(mg, acc, Concat(parts[..k]), b, parts[k]);
      assert parts[..k + 1][..k] == parts[..k];
      FoldStands(mg, parts, k + 1, MergeInto(mg, acc, b).value);
      assert ranges[k..][1..] == ranges[k + 1..];
    }
  }

  lemma {:induction false} PieceStands(mg: Merger, f: bool, chunks: seq<Node>, e: bool)
    ensures HumpStands(mg, FromChunks(mg, f, chunks, e), chunks)
    ensures Topped(FromChunks(mg, f, chunks, e).levels)
  {
    BuildStands(mg, chunks, f, e);
    BuildTopped(mg, chunks, f, e);
  }

  /** Merging the ranges of any split of a file, left to right, gives the hash of the file. */
  lemma {:induction false} MergeAllIsExact(mg: Merger, parts: seq<seq<Node>>)
    ensures var r := MergeAll(mg, Ranges(mg, parts));
            r.Some? && r.value.levels != [] && FinalHash(r.value) == Known(AggregatedHash(mg, Concat(parts)))
  {
    if parts == [] {
      PieceStands(mg, true, [], true);
      FinalHashOfClosed(mg, FromChunks(mg, true, [], true), []);
    } else {
      PieceStands(mg, true, parts[0], |parts| == 1);
      assert parts[..1] == [parts[0]] && Concat(parts[..1][..0]) == [] && Concat(parts[..1]) == parts[0];
      FoldStands(mg, parts, 1, Ranges(mg, parts)[0]);
      FinalHashOfClosed(mg, MergeAll(mg, Ranges(mg, parts)).value, Concat(parts));
    }
  }
}
