/** From edits to the hash of the edited file: the windows the server returns for the query hold every
edit, so the streamed windows and the untouched gaps are the edited file, and the composed hash is the
hash of its chunks. */
module EditedUpload {
  import opened Aggregation
  import opened MergeOrders
  import opened ChunkWindows
  import opened WindowsAreGreedy
  import opened RangeCompose
  import opened CacheFile
  import opened RangeEdits
  import opened EditWindows
  import opened EditQuery

  // ---------------------------------------------------------------- no window splits a dirty range

  /** A window that ends before the end of the file ends after clean chunks. */
  lemma {:induction false} SpanCloses(c: Setting, cs: seq<Node>, from: nat, k: nat)
    requires from <= |cs| && k < |Greedy(c, cs, from)|
    ensures var s := Greedy(c, cs, from)[k];
            s.first < s.past <= |cs| && (s.past < |cs| ==> !Dirty(c, cs, s.past - 1))
    decreases |cs| - from
  {
    hide Dirty, Greedy, NextDirty, NextClose;
    GreedyUnfold(c, cs, from);
    var a := NextDirty(c, cs, from);
    if k > 0 {
      SpanCloses(c, cs, NextClose(c, cs, a, a + 1), k - 1);
    }
  }

  /** Chunks that overlap one dirty range are in one window. */
  lemma {:induction false} SameSpan(c: Setting, cs: seq<Node>, k: nat, i: nat, j: nat)
    requires k < |Greedy(c, cs, 0)| && i <= j < |cs|
    requires Greedy(c, cs, 0)[k].first <= i < Greedy(c, cs, 0)[k].past
    requires forall n :: i <= n <= j ==> Dirty(c, cs, n)
    ensures j < Greedy(c, cs, 0)[k].past
  {
    hide Dirty, Greedy;
    SpanCloses(c, cs, 0, k);
  }

  /** Every dirty range of the file lies in one window. */
  lemma {:induction false} RangeInWindow(c: Setting, cs: seq<Node>, j: nat) returns (k: nat)
    requires Sorted(c.dirty) && j < |c.dirty| && c.dirty[j].end <= Off(cs, |cs|)
    ensures var w := Finish(c, Built(c, cs)).0;
            k < |w| && w[k].start <= c.dirty[j].start && c.dirty[j].end <= w[k].end
  {
    hide Built, Greedy, Off, Finish, Ordered;
    var r := c.dirty[j];
    var first := ChunkOf(cs, |cs|, r.start);
    var last := ChunkOf(cs, |cs|, r.end - 1);
    if last < first {
      OffMonotone(cs, last + 1, first);
    }
    forall n | first <= n <= last ensures Dirty(c, cs, n) {
      OffMonotone(cs, n, last);
      OffMonotone(cs, first + 1, n + 1);
      assert Overlap(c.dirty[j], Off(cs, n), Off(cs, n + 1));
    }
    k := GreedyCovers(c, cs, 0, first);
    SameSpan(c, cs, k, first, last);
    WindowsAligned(c, cs, k);
    var s := Greedy(c, cs, 0)[k];
    OffMonotone(cs, s.first, first);
    OffMonotone(cs, last + 1, s.past);
  }

  /** The windows of a file without empty chunks are in order, not empty and inside the file. */
  lemma {:induction false} WindowsApart(c: Setting, cs: seq<Node>)
    requires Sorted(c.dirty) && Positive(cs)
    ensures Apart(Finish(c, Built(c, cs)).0, Off(cs, |cs|))
  {
    hide Built, Greedy, Off, Finish, Ordered;
    var w := Finish(c, Built(c, cs)).0;
    forall k | 0 <= k < |w| ensures w[k].start < w[k].end <= Off(cs, |cs|) {
      WindowsAligned(c, cs, k);
      var s := Greedy(c, cs, 0)[k];
      OffGrows(cs, s.first, s.past);
      OffMonotone(cs, s.past, |cs|);
    }
    forall k, l | 0 <= k < l < |w| ensures w[k].end <= w[l].start {
      WindowsFollow(c, cs, k, l);
    }
  }

  lemma {:induction false} WindowsFollow(c: Setting, cs: seq<Node>, k: nat, l: nat)
    requires Sorted(c.dirty) && k < l < |Finish(c, Built(c, cs)).0|
    ensures Finish(c, Built(c, cs)).0[k].end <= Finish(c, Built(c, cs)).0[l].start
    decreases l - k
  {
    hide Built, Greedy, Off, Finish, Ordered;
    WindowsAligned(c, cs, k);
    if k + 1 < l {
      WindowsAligned(c, cs, k + 1);
      var s := Greedy(c, cs, 0)[k + 1];
      OffMonotone(cs, s.first, s.past);
      WindowsFollow(c, cs, k + 1, l);
    }
  }

  lemma {:induction false} OffGrows(cs: seq<Node>, i: nat, j: nat)
    requires i < j <= |cs| && Positive(cs)
    ensures Off(cs, i) < Off(cs, j)
  {
    hide Off;
    OffStep(cs, j - 1);
    OffMonotone(cs, i, j - 1);
  }

  // ---------------------------------------------------------------- the server's windows hold every edit

  /** The setting the server's builder runs with for these edits. */
  ghost function Asked(mg: Merger, stable: nat -> bool, b: seq<nat>, es: seq<Edit>, size: nat): Setting
    requires Edges(b, size) && Fits(es, 0, size)
  {
    Setting(mg, stable, Clamp(Query(b, es, size), size))
  }

  ghost function WindowsFor(c: Setting, cs: seq<Node>): seq<FileRange> {
    Finish(c, Built(c, cs)).0
  }

  lemma {:induction false} InsideWider(e: Edit, q: FileRange, w: FileRange, size: nat)
    requires LiesIn(e, q, size) && w.start <= q.start && q.end <= w.end <= size
    ensures LiesIn(e, w, size)
  {
  }

  /** For validated edits, any segments and any non-empty chunks of the file, the windows that come back
  are in order and every edit lies in one of them: each is streamed exactly once. */
  lemma {:induction false} WindowsHoldEdits(mg: Merger, stable: nat -> bool, cs: seq<Node>, b: seq<nat>, es: seq<Edit>,
      size: nat)
    requires Positive(cs) && Off(cs, |cs|) == size && Edges(b, size) && Fits(es, 0, size) && es != []
    ensures var c := Asked(mg, stable, b, es, size);
            && Sorted(c.dirty) && Apart(WindowsFor(c, cs), size) && AllOwned(es, WindowsFor(c, cs), size)
            && WindowsFor(c, cs) != []
            && Given(es, WindowsFor(c, cs), size, |WindowsFor(c, cs)|) == |es|
  {
    hide Query, Built, Finish, Edges, Fits, Off, Apart, LiesIn, Given, Sorted, Clamp;
    var c := Asked(mg, stable, b, es, size);
    var j := QueryHoldsEdits(b, es, size, 0);
    ClampKeeps(Query(b, es, size), size);
    WindowsApart(c, cs);
    var ws := WindowsFor(c, cs);
    forall i | 0 <= i < |es| ensures Owned(es[i], ws, size, 0) {
      EditInWindow(mg, stable, cs, b, es, size, i);
    }
    assert Owned(es[0], ws, size, 0);
    EveryEditGiven(es, ws, size, 0);
  }

  lemma {:induction false} EditInWindow(mg: Merger, stable: nat -> bool, cs: seq<Node>, b: seq<nat>, es: seq<Edit>,
      size: nat, i: nat)
    requires Positive(cs) && Off(cs, |cs|) == size && Edges(b, size) && Fits(es, 0, size) && i < |es|
    ensures Owned(es[i], WindowsFor(Asked(mg, stable, b, es, size), cs), size, 0)
  {
    hide Query, Built, Finish, Edges, Fits, Off, LiesIn, Sorted, Clamp;
    var c := Asked(mg, stable, b, es, size);
    var j := QueryHoldsEdits(b, es, size, i);
    ClampKeeps(Query(b, es, size), size);
    var k := RangeInWindow(c, cs, j);
    WindowsApart(c, cs);
    InsideWider(es[i], c.dirty[j], WindowsFor(c, cs)[k], size);
  }

  // ---------------------------------------------------------------- from bytes to chunks

  /** The bytes of a chunk list, given those of each chunk. */
  ghost function ContentOf(content: Node -> Bytes, cs: seq<Node>): Bytes {
    if cs == [] then [] else ContentOf(content, cs[..|cs| - 1]) + content(cs[|cs| - 1])
  }

  /** Chunks are as long as they say. */
  ghost predicate TrueSizes(content: Node -> Bytes, cs: seq<Node>) {
    forall i :: 0 <= i < |cs| ==> |content(cs[i])| == cs[i].size
  }

  lemma {:induction false} ContentAppend(content: Node -> Bytes, a: seq<Node>, b: seq<Node>)
    ensures ContentOf(content, a + b) == ContentOf(content, a) + ContentOf(content, b)
  {
    if b == [] {
      assert a + b == a;
    } else {
      assert (a + b)[..|a + b| - 1] == a + b[..|b| - 1];
      ContentAppend(content, a, b[..|b| - 1]);
    }
  }

  lemma {:induction false} ContentLength(content: Node -> Bytes, cs: seq<Node>, i: nat)
    requires TrueSizes(content, cs) && i <= |cs|
    ensures |ContentOf(content, cs[..i])| == Off(cs, i)
  {
    if i > 0 {
      ContentLength(content, cs, i - 1);
      assert cs[..i][..i - 1] == cs[..i - 1];
    }
  }

  /** The bytes of consecutive chunks are a slice of the file. */
  lemma {:induction false} ContentSlice(content: Node -> Bytes, cs: seq<Node>, i: nat, j: nat)
    requires TrueSizes(content, cs) && i <= j <= |cs|
    ensures Off(cs, i) <= Off(cs, j) <= |ContentOf(content, cs)|
    ensures ContentOf(content, cs[i..j]) == ContentOf(content, cs)[Off(cs, i)..Off(cs, j)]
  {
    hide ContentOf, Off;
    ContentLength(content, cs, i); ContentLength(content, cs, j);
    var a, b, d := cs[..i], cs[i..j], cs[j..];
    assert cs[..j] == a + b && cs == a + b + d;
    ContentAppend(content, a, b); ContentAppend(content, a + b, d);
  }

  lemma {:induction false} GapContent(content: Node -> Bytes, c: Setting, cs: seq<Node>, k: nat)
    requires Sorted(c.dirty) && Positive(cs) && TrueSizes(content, cs) && k <= |WindowsFor(c, cs)|
    requires Apart(WindowsFor(c, cs), Off(cs, |cs|)) && |ContentOf(content, cs)| == Off(cs, |cs|)
    ensures |AllGaps(c, cs)| == |WindowsFor(c, cs)| + 1
    ensures var o, ws := ContentOf(content, cs), WindowsFor(c, cs);
            && (if k == 0 then 0 else ws[k - 1].end) <= GapEnd(ws, |o|, k) <= |o|
            && ContentOf(content, AllGaps(c, cs)[k]) == o[if k == 0 then 0 else ws[k - 1].end..GapEnd(ws, |o|, k)]
  {
    hide ContentOf, Off, Greedy, Ordered, Built, Finish;
    var spans, ws := Greedy(c, cs, 0), WindowsFor(c, cs);
    WindowsAligned(c, cs, k);
    var from, to := GapFrom(cs, spans, k), GapTo(cs, spans, k);
    if k > 0 {
      WindowsAligned(c, cs, k - 1);
      GapEdges(cs, spans, k);
    } else {
      NoneBefore(cs, spans);
    }
    assert Off(cs, to) == GapEnd(ws, Off(cs, |cs|), k);
    ContentSlice(content, cs, from, to);
  }

  lemma {:induction false} NoneBefore(cs: seq<Node>, spans: seq<Span>)
    requires Ordered(spans, |cs|)
    ensures GapFrom(cs, spans, 0) == 0 && Off(cs, 0) == 0
  {
    assert spans[..0] == [];
  }

  /** Chunk lists of the streamed windows, put between the gap chunks, have the composed bytes. */
  lemma {:induction false} EditedContent(content: Node -> Bytes, c: Setting, cs: seq<Node>, bs: seq<Bytes>,
      uploaded: seq<seq<Node>>, k: nat)
    requires Sorted(c.dirty) && Positive(cs) && TrueSizes(content, cs)
    requires Apart(WindowsFor(c, cs), Off(cs, |cs|)) && |ContentOf(content, cs)| == Off(cs, |cs|)
    requires |uploaded| == |bs| == |WindowsFor(c, cs)| && k <= |bs| && |AllGaps(c, cs)| == |uploaded| + 1
    requires forall i :: 0 <= i < |bs| ==> ContentOf(content, uploaded[i]) == bs[i]
    ensures ContentOf(content, Edited(AllGaps(c, cs), uploaded, k))
         == Composed(ContentOf(content, cs), WindowsFor(c, cs), bs, k)
  {
    hide ContentOf, Off, AllGaps, Apart, WindowsFor;
    GapContent(content, c, cs, k);
    var gaps := AllGaps(c, cs);
    if k == 0 {
      assert ContentOf(content, cs)[0..GapEnd(WindowsFor(c, cs), |ContentOf(content, cs)|, 0)]
          == ContentOf(content, cs)[..GapEnd(WindowsFor(c, cs), |ContentOf(content, cs)|, 0)];
    } else {
      EditedContent(content, c, cs, bs, uploaded, k - 1);
      var before := Edited(gaps, uploaded, k - 1);
      ContentAppend(content, before, uploaded[k - 1]);
      ContentAppend(content, before + uploaded[k - 1], gaps[k]);
    }
  }

  // ---------------------------------------------------------------- end to end

  /** Uploading validated edits: the client streams the edited file's window bytes, and whatever chunks
  each window is cut into, the composed hash is the aggregated hash of a chunk list whose bytes are the
  edited file. */
  lemma {:induction false} UploadIsTheEditedFile(mg: Merger, stable: nat -> bool, content: Node -> Bytes, cs: seq<Node>,
      b: seq<nat>, es: seq<Edit>, bs: seq<Bytes>, uploaded: seq<seq<Node>>)
    requires var o := ContentOf(content, cs);
             && Positive(cs) && TrueSizes(content, cs) && Off(cs, |cs|) == |o|
             && Edges(b, |o|) && Fits(es, 0, |o|) && es != []
    requires var o := ContentOf(content, cs);
             var ws := WindowsFor(Asked(mg, stable, b, es, |o|), cs);
             && InFile(es, |o|) && WindowsInFile(ws, |o|) && AreStreamed(o, es, ws, bs)
             && |uploaded| == |ws| && forall i :: 0 <= i < |ws| ==> ContentOf(content, uploaded[i]) == bs[i]
    ensures var o := ContentOf(content, cs);
            var c := Asked(mg, stable, b, es, |o|);
            var gaps := Finish(c, Built(c, cs)).1;
            && Sorted(c.dirty) && |gaps| == |uploaded| + 1 && |AllGaps(c, cs)| == |uploaded| + 1
            && var r := MergeAll(mg, MergeSequence(mg, gaps, uploaded));
               var edited := Edited(AllGaps(c, cs), uploaded, |uploaded|);
               && r.Some? && r.value.levels != [] && FinalHash(r.value) == Known(AggregatedHash(mg, edited))
               && ContentOf(content, edited) == Spliced(o, es, 0, |o|)
  {
    hide *;
    var o := ContentOf(content, cs);
    var c := AskedIs(mg, stable, b, es, |o|);
    WindowsHoldEdits(mg, stable, cs, b, es, |o|);
    GapCount(c, cs);
    EditedFileHash(c, cs, uploaded);
    var ws := WindowsFor(c, cs);
    StreamedWindowsAreTheFile(o, es, ws, bs);
    Lengths(o, es, ws, bs);
    EditedContent(content, c, cs, bs, uploaded, |uploaded|);
  }

  lemma {:induction false} AskedIs(mg: Merger, stable: nat -> bool, b: seq<nat>, es: seq<Edit>, size: nat)
      returns (c: Setting)
    requires Edges(b, size) && Fits(es, 0, size)
    ensures c == Asked(mg, stable, b, es, size) && c.mg == mg
  {
    c := Asked(mg, stable, b, es, size);
  }

  lemma {:induction false} GapCount(c: Setting, cs: seq<Node>)
    requires Sorted(c.dirty)
    ensures |AllGaps(c, cs)| == |WindowsFor(c, cs)| + 1 == |Greedy(c, cs, 0)| + 1
  {
    hide Built, Greedy, Finish, Ordered;
    WindowsAligned(c, cs, 0);
  }

  lemma {:induction false} Lengths(o: Bytes, es: seq<Edit>, ws: seq<FileRange>, bs: seq<Bytes>)
    requires InFile(es, |o|) && WindowsInFile(ws, |o|) && AreStreamed(o, es, ws, bs)
    ensures |bs| == |ws|
  {
  }
}
