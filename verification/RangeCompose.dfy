/** Hashing an edited file from gap summaries and re-uploaded windows alone.

The server answers with windows and gap summaries; the client re-chunks each window and
merges summaries and windows in file order. The result is the hash of the edited chunk list
although no chunk hash of any gap was ever transferred. */
module RangeCompose {
  import opened Lists
  import opened Aggregation
  import opened MergeOrders
  import opened ChunkWindows
  import opened WindowsAreGreedy
  import opened Wrappers

  /** The merge sequence through window `k - 1`: absent gaps are skipped. */
  ghost function Leading(mg: Merger, gaps: seq<Option<Hump>>, uploaded: seq<seq<Node>>, k: nat): seq<Hump>
    requires |gaps| == |uploaded| + 1 && k <= |uploaded|
  {
    if k == 0 then []
    else
      var i := k - 1;
      Leading(mg, gaps, uploaded, i)
      + (if gaps[i].Some? then [gaps[i].value] else [])
      + [FromChunks(mg, i == 0 && gaps[0].None?, uploaded[i], k == |uploaded| && gaps[k].None?)]
  }

  ghost function MergeSequence(mg: Merger, gaps: seq<Option<Hump>>, uploaded: seq<seq<Node>>): seq<Hump>
    requires |gaps| == |uploaded| + 1
  {
    var n := |uploaded|;
    Leading(mg, gaps, uploaded, n) + if gaps[n].Some? then [gaps[n].value] else []
  }

  /** The chunk lists behind the merge sequence. */
  ghost function Pieces(gapChunks: seq<seq<Node>>, uploaded: seq<seq<Node>>, k: nat): seq<seq<Node>>
    requires |gapChunks| == |uploaded| + 1 && k <= |uploaded|
  {
    if k == 0 then []
    else Pieces(gapChunks, uploaded, k - 1)
         + (if gapChunks[k - 1] != [] then [gapChunks[k - 1]] else [])
         + [uploaded[k - 1]]
  }

  ghost function AllPieces(gapChunks: seq<seq<Node>>, uploaded: seq<seq<Node>>): seq<seq<Node>>
    requires |gapChunks| == |uploaded| + 1
  {
    var n := |uploaded|;
    Pieces(gapChunks, uploaded, n) + if gapChunks[n] != [] then [gapChunks[n]] else []
  }

  /** The edited file: every window replaced by its re-uploaded chunks. */
  ghost function Edited(gapChunks: seq<seq<Node>>, uploaded: seq<seq<Node>>, k: nat): seq<Node>
    requires |gapChunks| == |uploaded| + 1 && k <= |uploaded|
  {
    if k == 0 then gapChunks[0]
    else Edited(gapChunks, uploaded, k - 1) + uploaded[k - 1] + gapChunks[k]
  }

  ghost predicate SummariesOf(mg: Merger, gaps: seq<Option<Hump>>, gapChunks: seq<seq<Node>>) {
    && |gaps| == |gapChunks|
    && forall k :: 0 <= k < |gaps| ==>
         gaps[k] == (if gapChunks[k] == [] then None else Some(FromChunks(mg, k == 0, gapChunks[k], k == |gaps| - 1)))
  }

  lemma {:induction false} PiecesAreEdited(gapChunks: seq<seq<Node>>, uploaded: seq<seq<Node>>, k: nat)
    requires |gapChunks| == |uploaded| + 1 && k <= |uploaded|
    ensures Concat(Pieces(gapChunks, uploaded, k)) + gapChunks[k] == Edited(gapChunks, uploaded, k)
  {
    if k > 0 {
      PiecesAreEdited(gapChunks, uploaded, k - 1);
      var p, g, u := Pieces(gapChunks, uploaded, k - 1), gapChunks[k - 1], uploaded[k - 1];
      if g != [] {
        ConcatSnoc(p, g); ConcatSnoc(p + [g], u);
      } else {
        assert p + [] == p && Concat(p) + g == Concat(p);
        ConcatSnoc(p, u);
      }
    }
  }

  /** Piece `j` of the sequence is the summary of chunk list `j`, marked as start only if first. */
  lemma {:induction false} LeadingAt(mg: Merger, gaps: seq<Option<Hump>>, gapChunks: seq<seq<Node>>,
                                     uploaded: seq<seq<Node>>, k: nat, j: nat)
    requires |gaps| == |uploaded| + 1 && SummariesOf(mg, gaps, gapChunks) && k <= |uploaded|
    requires j < |Pieces(gapChunks, uploaded, k)|
    ensures |Leading(mg, gaps, uploaded, k)| == |Pieces(gapChunks, uploaded, k)|
    ensures Leading(mg, gaps, uploaded, k)[j] ==
              FromChunks(mg, j == 0, Pieces(gapChunks, uploaded, k)[j],
                         k == |uploaded| && gaps[k].None? && j == |Pieces(gapChunks, uploaded, k)| - 1)
  {
    hide FromChunks;
    LeadingLength(mg, gaps, gapChunks, uploaded, k);
    LeadingLength(mg, gaps, gapChunks, uploaded, k - 1);
    if j < |Pieces(gapChunks, uploaded, k - 1)| {
      LeadingAt(mg, gaps, gapChunks, uploaded, k - 1, j);
    }
  }

  lemma {:induction false} LeadingLength(mg: Merger, gaps: seq<Option<Hump>>, gapChunks: seq<seq<Node>>,
      uploaded: seq<seq<Node>>, k: nat)
    requires |gaps| == |uploaded| + 1 && SummariesOf(mg, gaps, gapChunks) && k <= |uploaded|
    ensures |Leading(mg, gaps, uploaded, k)| == |Pieces(gapChunks, uploaded, k)| >= k
    ensures k > 0 ==> (|Pieces(gapChunks, uploaded, k)| == 1 <==> k == 1 && gaps[0].None?)
  {
    hide FromChunks;
    if k > 0 {
      LeadingLength(mg, gaps, gapChunks, uploaded, k - 1);
    }
  }

  lemma {:induction false} SequenceIsRanges(mg: Merger, gaps: seq<Option<Hump>>, gapChunks: seq<seq<Node>>,
      uploaded: seq<seq<Node>>)
    requires uploaded != [] && |gaps| == |uploaded| + 1 && SummariesOf(mg, gaps, gapChunks)
    ensures |gapChunks| == |uploaded| + 1
            && MergeSequence(mg, gaps, uploaded) == Ranges(mg, AllPieces(gapChunks, uploaded))
  {
    hide FromChunks, Leading, Pieces;
    var n := |uploaded|;
    var s, p := MergeSequence(mg, gaps, uploaded), AllPieces(gapChunks, uploaded);
    LeadingLength(mg, gaps, gapChunks, uploaded, n);
    forall j | 0 <= j < |p| ensures s[j] == FromChunks(mg, j == 0, p[j], j == |p| - 1) {
      if j < |Pieces(gapChunks, uploaded, n)| {
        LeadingAt(mg, gaps, gapChunks, uploaded, n, j);
      }
    }
  }

  /** The hash composed from summaries and windows is the hash of the edited chunk list. */
  lemma {:induction false} ComposeIsExact(mg: Merger, gaps: seq<Option<Hump>>, gapChunks: seq<seq<Node>>,
      uploaded: seq<seq<Node>>)
    requires uploaded != [] && |gaps| == |gapChunks| == |uploaded| + 1 && SummariesOf(mg, gaps, gapChunks)
    ensures var r := MergeAll(mg, MergeSequence(mg, gaps, uploaded));
            && r.Some? && r.value.levels != []
            && FinalHash(r.value) == Known(AggregatedHash(mg, Edited(gapChunks, uploaded, |uploaded|)))
  {
    hide *;
    SequenceIsRanges(mg, gaps, gapChunks, uploaded);
    MergeAllIsExact(mg, AllPieces(gapChunks, uploaded));
    AllPiecesConcat(gapChunks, uploaded);
  }

  lemma {:induction false} AllPiecesConcat(gapChunks: seq<seq<Node>>, uploaded: seq<seq<Node>>)
    requires |gapChunks| == |uploaded| + 1
    ensures Concat(AllPieces(gapChunks, uploaded)) == Edited(gapChunks, uploaded, |uploaded|)
  {
    hide Pieces, Edited;
    var n := |uploaded|;
    PiecesAreEdited(gapChunks, uploaded, n);
    var p := Pieces(gapChunks, uploaded, n);
    if gapChunks[n] != [] {
      ConcatSnoc(p, gapChunks[n]);
    } else {
      assert p + [] == p;
    }
  }

  // ---------------------------------------------------------------- end to end

  ghost function AllGaps(c: Setting, cs: seq<Node>): (g: seq<seq<Node>>)
    requires Sorted(c.dirty)
    ensures |g| == |Greedy(c, cs, 0)| + 1
    ensures Ordered(Greedy(c, cs, 0), |cs|)
    ensures forall k :: 0 <= k < |g| ==> g[k] == GapChunks(cs, Greedy(c, cs, 0), k)
  {
    ChunksConserved(c, cs);
    var spans := Greedy(c, cs, 0);
    seq(|spans| + 1, k requires 0 <= k <= |spans| => GapChunks(cs, spans, k))
  }

  /** From the server's answer alone, whatever the windows are re-chunked into, the client
      computes the hash of the file with its windows replaced. */
  lemma {:induction false} EditedFileHash(c: Setting, cs: seq<Node>, uploaded: seq<seq<Node>>)
    requires Sorted(c.dirty) && Greedy(c, cs, 0) != [] && |uploaded| == |Greedy(c, cs, 0)|
    ensures var gaps := Finish(c, Built(c, cs)).1;
            && |gaps| == |uploaded| + 1
            && var r := MergeAll(c.mg, MergeSequence(c.mg, gaps, uploaded));
               && r.Some? && r.value.levels != []
               && FinalHash(r.value) == Known(AggregatedHash(c.mg, Edited(AllGaps(c, cs), uploaded, |uploaded|)))
  {
    hide Finish, Built, Greedy, MergeSequence, Edited, AggregatedHash, FinalHash, MergeAll, Ordered;
    var gaps := Finish(c, Built(c, cs)).1;
    SummariesMatchGaps(c, cs, 0);
    forall k | 0 <= k < |gaps|
      ensures gaps[k] == (if AllGaps(c, cs)[k] == [] then None
                          else Some(FromChunks(c.mg, k == 0, AllGaps(c, cs)[k], k == |gaps| - 1)))
    {
      SummariesMatchGaps(c, cs, k);
    }
    ComposeIsExact(c.mg, gaps, AllGaps(c, cs), uploaded);
  }

  /** Re-uploading every window unchanged restores the original hash. */
  lemma {:induction false} UnchangedWindowsKeepHash(c: Setting, cs: seq<Node>, uploaded: seq<seq<Node>>)
    requires Sorted(c.dirty) && Ordered(Greedy(c, cs, 0), |cs|) && |uploaded| == |Greedy(c, cs, 0)|
    requires forall k :: 0 <= k < |uploaded| ==> uploaded[k] == WindowChunks(cs, Greedy(c, cs, 0), k)
    ensures Edited(AllGaps(c, cs), uploaded, |uploaded|) == cs
  {
    hide Greedy, Ordered;
    ChunksConserved(c, cs);
    EditedIsInterleaved(c, cs, uploaded, |uploaded|);
  }

  lemma {:induction false} EditedIsInterleaved(c: Setting, cs: seq<Node>, uploaded: seq<seq<Node>>, k: nat)
    requires Sorted(c.dirty) && Ordered(Greedy(c, cs, 0), |cs|) && k <= |uploaded| == |Greedy(c, cs, 0)|
    requires forall k :: 0 <= k < |uploaded| ==> uploaded[k] == WindowChunks(cs, Greedy(c, cs, 0), k)
    ensures Edited(AllGaps(c, cs), uploaded, k) == Interleaved(cs, Greedy(c, cs, 0), k)
  {
    hide Greedy, Ordered, WindowChunks, GapChunks;
    if k > 0 {
      EditedIsInterleaved(c, cs, uploaded, k - 1);
    }
  }
}
