/** The builder computes the greedy windows and the summaries of the gaps between them. */
module WindowsAreGreedy {
  import opened Aggregation
  import opened MergeOrders
  import opened ChunkWindows
  import opened Wrappers

  /** The summaries of the gaps before each window of `spans`. */
  ghost function GapSummaries(c: Setting, cs: seq<Node>, spans: seq<Span>): (r: seq<Option<Hump>>)
    requires Ordered(spans, |cs|)
    ensures |r| == |spans|
  {
    if spans == [] then []
    else
      var front, last := spans[..|spans| - 1], spans[|spans| - 1];
      OrderedWeaken(front, last.first, |cs|);
      OrderedAt(front, last.first, |front|);
      assert front[..|front|] == front;
      GapSummaries(c, cs, front) + [Summary(c.mg, front == [], cs[LastPast(front)..last.first], false)]
  }

  /** The windows and gap summaries written so far are those of `spans`. */
  ghost predicate Recorded(c: Setting, cs: seq<Node>, b: Builder, spans: seq<Span>) {
    && Ordered(spans, |cs|)
    && b.windows == ByteRanges(cs, spans)
    && b.hashRanges == GapSummaries(c, cs, spans)
  }

  /** Before chunk `i`, between windows. */
  ghost predicate Outside(c: Setting, cs: seq<Node>, i: nat, b: Builder, spans: seq<Span>)
    requires i <= |cs|
  {
    && Recorded(c, cs, b, spans) && LastPast(spans) <= i
    && !b.inZone && b.cursor == Off(cs, i)
    && b.gap == cs[LastPast(spans)..i]
    && b.gapIsFirst == (spans == [])
    && (forall j :: 0 <= j < b.dirtyIdx && j < |c.dirty| ==> c.dirty[j].end <= b.cursor)
    && (b.dirtyIdx < |c.dirty| ==> b.cursor <= c.dirty[b.dirtyIdx].start)
  }

  /** Before chunk `i`, in the window opened at `a`. */
  ghost predicate Inside(c: Setting, cs: seq<Node>, a: nat, i: nat, b: Builder, spans: seq<Span>)
    requires i <= |cs|
  {
    && a < i && Dirty(c, cs, a)
    && Recorded(c, cs, b, spans + [Span(a, i)])
    && b.inZone && b.cursor == Off(cs, i) && b.gap == []
    && b.gapIsFirst == (spans == [])
    && b.dirtyIdx < |c.dirty| && c.dirty[b.dirtyIdx].start < b.cursor
    && (b.dirtyIdx + 1 < |c.dirty| ==> b.cursor <= c.dirty[b.dirtyIdx + 1].start)
    && b.tailPrev == (if Dirty(c, cs, i - 1) then None else Some(cs[i - 1].size))
    && !Closes(c, cs, a, i)
  }

  // ---------------------------------------------------------------- dirtiness, seen from the cursor

  lemma {:induction false} DirtyFromOutside(c: Setting, cs: seq<Node>, i: nat, b: Builder, spans: seq<Span>)
    requires Sorted(c.dirty) && i < |cs| && Outside(c, cs, i, b, spans)
    ensures Dirty(c, cs, i) <==> OverlapAt(c.dirty, b.dirtyIdx, Off(cs, i), Off(cs, i + 1))
  {
    hide Recorded, Off;
    if Dirty(c, cs, i) {
      var j :| 0 <= j < |c.dirty| && Overlap(c.dirty[j], Off(cs, i), Off(cs, i + 1));
      assert j >= b.dirtyIdx;
    }
  }

  lemma {:induction false} DirtyFromInside(c: Setting, cs: seq<Node>, a: nat, i: nat, b: Builder, spans: seq<Span>)
    requires Sorted(c.dirty) && i < |cs| && Inside(c, cs, a, i, b, spans)
    ensures Dirty(c, cs, i) <==> (OverlapAt(c.dirty, b.dirtyIdx, Off(cs, i), Off(cs, i + 1)) ||
                                  OverlapAt(c.dirty, b.dirtyIdx + 1, Off(cs, i), Off(cs, i + 1)))
  {
    hide Recorded, Off, Closes;
    if Dirty(c, cs, i) {
      var j :| 0 <= j < |c.dirty| && Overlap(c.dirty[j], Off(cs, i), Off(cs, i + 1));
      assert j >= b.dirtyIdx;
    }
  }

  // ---------------------------------------------------------------- recording

  lemma {:induction false} RecordOpen(c: Setting, cs: seq<Node>, b: Builder, b': Builder, spans: seq<Span>, i: nat)
    requires i < |cs| && Recorded(c, cs, b, spans) && LastPast(spans) <= i
    requires b'.windows == b.windows + [FileRange(Off(cs, i), Off(cs, i + 1))]
    requires b'.hashRanges == b.hashRanges + [Summary(c.mg, spans == [], cs[LastPast(spans)..i], false)]
    ensures Recorded(c, cs, b', spans + [Span(i, i + 1)])
  {
    hide Summary, Off;
    var t := spans + [Span(i, i + 1)];
    assert t[..|spans|] == spans;
    OrderedTight(spans, |cs|, i);
  }

  lemma {:induction false} OrderedTight(spans: seq<Span>, n: nat, i: nat)
    requires Ordered(spans, n) && LastPast(spans) <= i
    ensures Ordered(spans, i)
  {
  }

  lemma {:induction false} RecordExtend(c: Setting, cs: seq<Node>, b: Builder, b': Builder, spans: seq<Span>,
      a: nat, i: nat)
    requires a < i < |cs| && Recorded(c, cs, b, spans + [Span(a, i)])
    requires b.windows != [] && b'.windows == Extend(b, Off(cs, i + 1)).windows && b'.hashRanges == b.hashRanges
    ensures Recorded(c, cs, b', spans + [Span(a, i + 1)])
  {
    hide Summary, Off;
    var s, t := spans + [Span(a, i)], spans + [Span(a, i + 1)];
    assert s[..|spans|] == spans && t[..|spans|] == spans;
  }

  // ---------------------------------------------------------------- steps

  lemma {:induction false} StepOutside(c: Setting, cs: seq<Node>, i: nat, b: Builder, spans: seq<Span>)
    requires Sorted(c.dirty) && i < |cs| && Outside(c, cs, i, b, spans)
    ensures var b' := Process(c, b, cs[i], Off(cs, i + 1));
            if Dirty(c, cs, i) then Inside(c, cs, i, i + 1, b', spans) else Outside(c, cs, i + 1, b', spans)
  {
    hide Summary, Recorded, Off;
    OffStep(cs, i);
    DirtyFromOutside(c, cs, i, b, spans);
    var b' := Process(c, b, cs[i], Off(cs, i + 1));
    if Dirty(c, cs, i) {
      RecordOpen(c, cs, b, b', spans, i);
      var k := b'.dirtyIdx;
      assert k == b.dirtyIdx || c.dirty[k].start < Off(cs, i + 1);
    } else {
      assert cs[LastPast(spans)..i] + [cs[i]] == cs[LastPast(spans)..i + 1];
      SameRecord(c, cs, b, b', spans);
    }
  }

  lemma {:induction false} SameRecord(c: Setting, cs: seq<Node>, b: Builder, b': Builder, spans: seq<Span>)
    requires Recorded(c, cs, b, spans) && b'.windows == b.windows && b'.hashRanges == b.hashRanges
    ensures Recorded(c, cs, b', spans)
  {
  }

  lemma {:induction false} RecordedSane(c: Setting, cs: seq<Node>, b: Builder, spans: seq<Span>)
    requires Recorded(c, cs, b, spans)
    ensures |b.windows| == |spans| && Ordered(spans, |cs|)
  {
  }

  lemma {:induction false} DirtyKeepsOpen(c: Setting, cs: seq<Node>, a: nat, i: nat)
    requires i < |cs| && Dirty(c, cs, i)
    ensures !Closes(c, cs, a, i + 1)
  {
    hide Dirty;
  }

  lemma {:induction false} StepInsideDirty(c: Setting, cs: seq<Node>, a: nat, i: nat, b: Builder, spans: seq<Span>)
    requires Sorted(c.dirty) && i < |cs| && Inside(c, cs, a, i, b, spans) && Sane(b) && Dirty(c, cs, i)
    ensures Inside(c, cs, a, i + 1, Process(c, b, cs[i], Off(cs, i + 1)), spans) && !Closes(c, cs, a, i + 1)
  {
    hide Summary, Recorded, Off, Dirty, Closes, MergeAhead;
    DirtyKeepsOpen(c, cs, a, i);
    OffStep(cs, i);
    DirtyFromInside(c, cs, a, i, b, spans);
    RecordedSane(c, cs, b, spans + [Span(a, i)]);
    var b' := Process(c, b, cs[i], Off(cs, i + 1));
    RecordExtend(c, cs, b, b', spans, a, i);
    assert c.dirty[b'.dirtyIdx].start < Off(cs, i + 1);
  }

  lemma {:induction false} StepInsideClean(c: Setting, cs: seq<Node>, a: nat, i: nat, b: Builder, spans: seq<Span>)
    requires Sorted(c.dirty) && i < |cs| && Inside(c, cs, a, i, b, spans) && Sane(b) && !Dirty(c, cs, i)
    ensures var b' := Process(c, b, cs[i], Off(cs, i + 1));
            if Closes(c, cs, a, i + 1) then Outside(c, cs, i + 1, b', spans + [Span(a, i + 1)])
            else Inside(c, cs, a, i + 1, b', spans)
  {
    hide Summary, Recorded, Off;
    OffStep(cs, i);
    DirtyFromInside(c, cs, a, i, b, spans);
    RecordedSane(c, cs, b, spans + [Span(a, i)]);
    var b' := Process(c, b, cs[i], Off(cs, i + 1));
    RecordExtend(c, cs, b, b', spans, a, i);
    assert Closes(c, cs, a, i + 1) <==>
             b.tailPrev.Some? && c.stable(b.tailPrev.value) && c.stable(cs[i].size);
  }

  // ---------------------------------------------------------------- runs

  /** The finished builder reports exactly the windows `spans` and the gaps around them. */
  ghost predicate Reports(c: Setting, cs: seq<Node>, b: Builder, spans: seq<Span>) {
    && Ordered(spans, |cs|)
    && Finish(c, b).0 == ByteRanges(cs, spans)
    && Finish(c, b).1 == GapSummaries(c, cs, spans) + [Summary(c.mg, spans == [], cs[EndOf(cs, spans)..], true)]
  }

  ghost function EndOf(cs: seq<Node>, spans: seq<Span>): (e: nat)
    requires Ordered(spans, |cs|)
    ensures e <= |cs|
  {
    LastPast(spans)
  }

  lemma {:induction false} EndOutside(c: Setting, cs: seq<Node>, b: Builder, spans: seq<Span>)
    requires Outside(c, cs, |cs|, b, spans)
    ensures Reports(c, cs, b, spans)
  {
    hide Summary, Off, GapSummaries, ByteRanges, Ordered;
    assert b.gap == cs[EndOf(cs, spans)..];
  }

  lemma {:induction false} EndInside(c: Setting, cs: seq<Node>, a: nat, b: Builder, spans: seq<Span>)
    requires Inside(c, cs, a, |cs|, b, spans)
    ensures Reports(c, cs, b, spans + [Span(a, |cs|)])
  {
    hide Summary, Off, GapSummaries, ByteRanges, Ordered;
    SummaryNone(c.mg, b.gapIsFirst, [], true);
    SummaryNone(c.mg, false, [], true);
    assert cs[EndOf(cs, spans + [Span(a, |cs|)])..] == [];
  }

  lemma {:induction false} RunNext(c: Setting, cs: seq<Node>, i: nat, b: Builder)
    requires Sane(b) && i <= |cs|
    ensures i == |cs| ==> Run(c, b, cs, i) == b
    ensures i < |cs| ==>
              var b' := Process(c, b, cs[i], Off(cs, i + 1));
              Sane(b') && Run(c, b, cs, i) == Run(c, b', cs, i + 1)
  {
    hide Process;
  }

  lemma {:induction false} GreedyNext(c: Setting, cs: seq<Node>, i: nat)
    requires i <= |cs|
    ensures i == |cs| ==> Greedy(c, cs, i) == []
    ensures i < |cs| ==>
              Greedy(c, cs, i) == if Dirty(c, cs, i) then FromWindow(c, cs, i, i + 1) else Greedy(c, cs, i + 1)
  {
    hide Dirty, Closes, NextClose;
  }

  lemma {:induction false} FromWindowNext(c: Setting, cs: seq<Node>, a: nat, i: nat)
    requires i <= |cs| && !Closes(c, cs, a, i)
    ensures i == |cs| ==> FromWindow(c, cs, a, i) == [Span(a, i)]
    ensures i < |cs| ==>
              FromWindow(c, cs, a, i) ==
              if Closes(c, cs, a, i + 1) then [Span(a, i + 1)] + Greedy(c, cs, i + 1) else FromWindow(c, cs, a, i + 1)
  {
    hide Dirty, Closes, NextDirty;
    if i == |cs| {
      GreedyNext(c, cs, i);
    }
  }

  lemma {:induction false} RunOutside(c: Setting, cs: seq<Node>, i: nat, b: Builder, spans: seq<Span>)
    requires Sorted(c.dirty) && i <= |cs| && Outside(c, cs, i, b, spans)
    ensures Reports(c, cs, Run(c, b, cs, i), spans + Greedy(c, cs, i))
    decreases |cs| - i, 1
  {
    hide *;
    OutsideIsSane(c, cs, i, b, spans);
    RunNext(c, cs, i, b);
    GreedyNext(c, cs, i);
    if i == |cs| {
      assert spans + Greedy(c, cs, i) == spans;
      EndOutside(c, cs, b, spans);
    } else {
      StepOutside(c, cs, i, b, spans);
      var b' := Process(c, b, cs[i], Off(cs, i + 1));
      if Dirty(c, cs, i) {
        RunInside(c, cs, i, i + 1, b', spans);
      } else {
        RunOutside(c, cs, i + 1, b', spans);
      }
    }
  }

  lemma {:induction false} OutsideIsSane(c: Setting, cs: seq<Node>, i: nat, b: Builder, spans: seq<Span>)
    requires i <= |cs| && Outside(c, cs, i, b, spans)
    ensures Sane(b)
  {
  }

  lemma {:induction false} InsideIsSane(c: Setting, cs: seq<Node>, a: nat, i: nat, b: Builder, spans: seq<Span>)
    requires i <= |cs| && Inside(c, cs, a, i, b, spans)
    ensures Sane(b) && !Closes(c, cs, a, i) && a < i
  {
    RecordedSane(c, cs, b, spans + [Span(a, i)]);
  }

  /** The window opened at `a`, not yet closed at `i`, and the windows after it. */
  ghost function FromWindow(c: Setting, cs: seq<Node>, a: nat, i: nat): seq<Span>
    requires i <= |cs|
  {
    var z := NextClose(c, cs, a, i);
    [Span(a, z)] + Greedy(c, cs, z)
  }

  lemma {:induction false} RunInside(c: Setting, cs: seq<Node>, a: nat, i: nat, b: Builder, spans: seq<Span>)
    requires Sorted(c.dirty) && i <= |cs| && Sane(b) && Inside(c, cs, a, i, b, spans)
    ensures Reports(c, cs, Run(c, b, cs, i), spans + FromWindow(c, cs, a, i))
    decreases |cs| - i, 0
  {
    hide *;
    InsideIsSane(c, cs, a, i, b, spans);
    RunNext(c, cs, i, b);
    FromWindowNext(c, cs, a, i);
    if i == |cs| {
      EndInside(c, cs, a, b, spans);
    } else {
      if Dirty(c, cs, i) { StepInsideDirty(c, cs, a, i, b, spans); } else { StepInsideClean(c, cs, a, i, b, spans); }
      var b' := Process(c, b, cs[i], Off(cs, i + 1));
      if Closes(c, cs, a, i + 1) {
        RunOutside(c, cs, i + 1, b', spans + [Span(a, i + 1)]);
        assert spans + FromWindow(c, cs, a, i) == spans + [Span(a, i + 1)] + Greedy(c, cs, i + 1);
      } else {
        RunInside(c, cs, a, i + 1, b', spans);
      }
    }
  }

  /** For every file and every legal set of dirty ranges, the builder reports the greedy windows. */
  lemma {:induction false} BuilderIsGreedy(c: Setting, cs: seq<Node>)
    requires Sorted(c.dirty)
    ensures Reports(c, cs, Built(c, cs), Greedy(c, cs, 0))
  {
    RunOutside(c, cs, 0, FRESH, []);
    assert [] + Greedy(c, cs, 0) == Greedy(c, cs, 0);
  }

  // ---------------------------------------------------------------- what the report means

  lemma {:induction false} OffMonotone(cs: seq<Node>, i: nat, j: nat)
    requires i <= j <= |cs|
    ensures Off(cs, i) <= Off(cs, j)
  {
    if i < j {
      OffMonotone(cs, i, j - 1);
    }
  }

  lemma {:induction false} ByteRangesAt(cs: seq<Node>, spans: seq<Span>, k: nat)
    requires Ordered(spans, |cs|) && k < |spans|
    ensures spans[k].first < spans[k].past <= |cs|
    ensures ByteRanges(cs, spans)[k] == FileRange(Off(cs, spans[k].first), Off(cs, spans[k].past))
  {
    hide Off;
    OrderedAt(spans, |cs|, k);
    var front, last := spans[..|spans| - 1], spans[|spans| - 1];
    if k < |front| {
      OrderedWeaken(front, last.first, |cs|);
      ByteRangesAt(cs, front, k);
    }
  }

  lemma {:induction false} GapSummariesAt(c: Setting, cs: seq<Node>, spans: seq<Span>, k: nat)
    requires Ordered(spans, |cs|) && k < |spans|
    ensures GapSummaries(c, cs, spans)[k] == Summary(c.mg, k == 0, GapChunks(cs, spans, k), false)
  {
    hide Summary;
    var front, last := spans[..|spans| - 1], spans[|spans| - 1];
    if k < |front| {
      OrderedWeaken(front, last.first, |cs|);
      GapSummariesAt(c, cs, front, k);
      assert front[..k] == spans[..k];
    }
  }

  /** Window `k` covers whole chunks, and windows come in order without overlapping. */
  lemma {:induction false} WindowsAligned(c: Setting, cs: seq<Node>, k: nat)
    requires Sorted(c.dirty)
    ensures var spans, w := Greedy(c, cs, 0), Finish(c, Built(c, cs)).0;
            && |w| == |spans| && Ordered(spans, |cs|)
            && (k < |w| ==>
                  && spans[k].first < spans[k].past <= |cs|
                  && w[k] == FileRange(Off(cs, spans[k].first), Off(cs, spans[k].past)))
            && (k + 1 < |w| ==> w[k].end <= w[k + 1].start)
  {
    hide *;
    BuilderIsGreedy(c, cs);
    var spans := Greedy(c, cs, 0);
    ReportsParts(c, cs, Built(c, cs), spans);
    if k < |spans| {
      OrderedAt(spans, |cs|, k);
      ByteRangesAt(cs, spans, k);
      if k + 1 < |spans| {
        ByteRangesAt(cs, spans, k + 1);
        OrderedAt(spans, |cs|, k + 1);
        LastOfPrefix(spans, k);
        OffMonotone(cs, spans[k].past, spans[k + 1].first);
      }
    }
  }

  lemma {:induction false} LastOfPrefix(spans: seq<Span>, k: nat)
    requires k < |spans|
    ensures LastPast(spans[..k + 1]) == spans[k].past
  {
  }

  /** One more summary than windows; each is the summary of exactly the chunks between its
      neighbours, absent for none, marked as the file's start or end only at the two extremes. */
  lemma {:induction false} SummariesMatchGaps(c: Setting, cs: seq<Node>, k: nat)
    requires Sorted(c.dirty)
    ensures var spans, (w, h) := Greedy(c, cs, 0), Finish(c, Built(c, cs));
            && |h| == |w| + 1 && |w| == |spans| && Ordered(spans, |cs|)
            && (k <= |spans| ==>
                  && h[k] == Summary(c.mg, k == 0, GapChunks(cs, spans, k), k == |spans|)
                  && (h[k].None? <==> GapChunks(cs, spans, k) == [])
                  && (h[k].Some? ==> h[k].value.atStart == (k == 0) && h[k].value.atEnd == (k == |w|)))
  {
    hide *;
    BuilderIsGreedy(c, cs);
    var spans := Greedy(c, cs, 0);
    ReportsParts(c, cs, Built(c, cs), spans);
    if k <= |spans| {
      if k < |spans| {
        GapSummariesAt(c, cs, spans, k);
      }
      SummaryNone(c.mg, k == 0, GapChunks(cs, spans, k), k == |spans|);
      SummaryFlags(c.mg, k == 0, GapChunks(cs, spans, k), k == |spans|);
    }
  }

  lemma {:induction false} SummaryFlags(mg: Merger, f: bool, gap: seq<Node>, e: bool)
    ensures var s := Summary(mg, f, gap, e); s.Some? ==> s.value.atStart == f && s.value.atEnd == e
  {
  }

  lemma {:induction false} ReportsParts(c: Setting, cs: seq<Node>, b: Builder, spans: seq<Span>)
    requires Reports(c, cs, b, spans)
    ensures Ordered(spans, |cs|) && Finish(c, b).0 == ByteRanges(cs, spans)
    ensures Finish(c, b).1 == GapSummaries(c, cs, spans)
                            + [Summary(c.mg, |spans| == 0, GapChunks(cs, spans, |spans|), true)]
  {
    hide Summary, Finish, ByteRanges, GapSummaries, Ordered;
    assert spans[..|spans|] == spans;
    assert GapChunks(cs, spans, |spans|) == cs[EndOf(cs, spans)..];
  }

  /** Gap and window chunks, interleaved, give back the file's chunk list. */
  lemma {:induction false} ChunksConserved(c: Setting, cs: seq<Node>)
    requires Sorted(c.dirty)
    ensures Ordered(Greedy(c, cs, 0), |cs|)
    ensures Interleaved(cs, Greedy(c, cs, 0), |Greedy(c, cs, 0)|) == cs
  {
    hide Greedy, Built;
    BuilderIsGreedy(c, cs);
    InterleavedIsPrefix(cs, Greedy(c, cs, 0), |Greedy(c, cs, 0)|);
    assert cs[..|cs|] == cs;
  }

  // ---------------------------------------------------------------- no dirty byte is left out

  lemma {:induction false} GreedyUnfold(c: Setting, cs: seq<Node>, i: nat)
    requires i <= |cs|
    ensures var a := NextDirty(c, cs, i);
            Greedy(c, cs, i) == if a == |cs| then []
                                else [Span(a, NextClose(c, cs, a, a + 1))] + Greedy(c, cs, NextClose(c, cs, a, a + 1))
  {
  }

  lemma {:induction false} GreedyCovers(c: Setting, cs: seq<Node>, from: nat, i: nat) returns (k: nat)
    requires from <= i < |cs| && Dirty(c, cs, i)
    ensures k < |Greedy(c, cs, from)| && Greedy(c, cs, from)[k].first <= i < Greedy(c, cs, from)[k].past
    decreases |cs| - from
  {
    hide *;
    GreedyUnfold(c, cs, from);
    var a := NextDirty(c, cs, from);
    var z := NextClose(c, cs, a, a + 1);
    if i < z {
      k := 0;
    } else {
      k := GreedyCovers(c, cs, z, i);
      k := k + 1;
    }
  }

  /** The chunk that holds byte `p`. */
  lemma {:induction false} ChunkOf(cs: seq<Node>, n: nat, p: nat) returns (i: nat)
    requires n <= |cs| && p < Off(cs, n)
    ensures i < n && Off(cs, i) <= p < Off(cs, i + 1)
  {
    if Off(cs, n - 1) <= p {
      i := n - 1;
    } else {
      i := ChunkOf(cs, n - 1, p);
    }
  }

  /** Every byte of the file that lies in a dirty range lies in a window. */
  lemma {:induction false} DirtyBytesCovered(c: Setting, cs: seq<Node>, p: nat, j: nat) returns (k: nat)
    requires Sorted(c.dirty) && j < |c.dirty| && c.dirty[j].start <= p < c.dirty[j].end && p < Off(cs, |cs|)
    ensures var w := Finish(c, Built(c, cs)).0;
            k < |w| && w[k].start <= p < w[k].end
  {
    hide Built, Greedy, Off, Finish, Ordered;
    var i := ChunkOf(cs, |cs|, p);
    assert Dirty(c, cs, i) by {
      assert Overlap(c.dirty[j], Off(cs, i), Off(cs, i + 1));
    }
    k := GreedyCovers(c, cs, 0, i);
    WindowsAligned(c, cs, k);
    var s := Greedy(c, cs, 0)[k];
    OrderedAt(Greedy(c, cs, 0), |cs|, k);
    OffMonotone(cs, s.first, i);
    OffMonotone(cs, i + 1, s.past);
  }

  // ---------------------------------------------------------------- the fast path

  /** Chunk by chunk through one shard entry. */
  ghost function ProcessAll(c: Setting, b: Builder, entry: seq<Node>): (r: Builder)
    requires Sane(b)
    ensures Sane(r)
    decreases |entry|
  {
    if entry == [] then b else ProcessAll(c, Process(c, b, entry[0], b.cursor + entry[0].size), entry[1..])
  }

  function TotalSize(entry: seq<Node>): nat {
    if entry == [] then 0 else entry[0].size + TotalSize(entry[1..])
  }

  predicate Positive(entry: seq<Node>) {
    forall i :: 0 <= i < |entry| ==> entry[i].size > 0
  }

  lemma {:induction false} ProcessInDirtyRange(c: Setting, b: Builder, chunk: Node)
    requires Sorted(c.dirty) && Sane(b) && chunk.size > 0 && EntryFullyDirty(c, b, b.cursor + chunk.size)
    ensures Process(c, b, chunk, b.cursor + chunk.size) == Skip(c, b, b.cursor + chunk.size)
    ensures Skip(c, b, b.cursor + chunk.size).dirtyIdx == b.dirtyIdx
  {
    hide Summary;
  }

  lemma {:induction false} SkipTwice(c: Setting, b: Builder, mid: nat, end: nat)
    requires Sorted(c.dirty) && Sane(b) && b.cursor < mid < end && EntryFullyDirty(c, b, end)
    ensures Skip(c, Skip(c, b, mid), end) == Skip(c, b, end)
    ensures EntryFullyDirty(c, Skip(c, b, mid), end)
  {
    hide Summary;
    var n := |Skip(c, b, mid).windows| - 1;
    assert Skip(c, Skip(c, b, mid), end).windows == Skip(c, b, end).windows;
  }

  /** A fully dirty entry may be skipped whole: any split of it into chunks of positive size,
      processed one by one, leaves the same builder. */
  lemma {:induction false} SkipRefinesProcess(c: Setting, b: Builder, entry: seq<Node>)
    requires Sorted(c.dirty) && Sane(b) && entry != [] && Positive(entry)
    requires EntryFullyDirty(c, b, b.cursor + TotalSize(entry))
    ensures Skip(c, b, b.cursor + TotalSize(entry)) == ProcessAll(c, b, entry)
    decreases |entry|
  {
    hide Process, Skip, Sorted;
    var mid, end := b.cursor + entry[0].size, b.cursor + TotalSize(entry);
    ProcessInDirtyRange(c, b, entry[0]);
    var b' := Process(c, b, entry[0], mid);
    SkipCursor(c, b, mid);
    if |entry| == 1 {
      assert entry[1..] == [];
    } else {
      TotalPositive(entry[1..]);
      SkipTwice(c, b, mid, end);
      SkipRefinesProcess(c, b', entry[1..]);
    }
  }

  lemma {:induction false} SkipCursor(c: Setting, b: Builder, end: nat)
    requires Sane(b)
    ensures Skip(c, b, end).cursor == end
  {
  }

  lemma {:induction false} TotalPositive(entry: seq<Node>)
    requires entry != [] && Positive(entry)
    ensures TotalSize(entry) > 0
  {
  }
}
