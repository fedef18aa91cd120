/** The window builder as the mutable object it is, the segment walk, and the response. */
module WindowBuilder {
  import opened HashText
  import opened Lists
  import opened Aggregation
  import opened Humps
  import opened MergeOrders
  import opened SubtreeStore
  import opened ChunkWindows
  import opened WindowsAreGreedy
  import opened Wrappers

  /** What an optional subtree object stands for. */
  ghost function ValueOf(t: MerkleHashSubtree?): Option<Hump>
    reads t
  {
    if t == null then None else Some(t.Value())
  }

  ghost function ValuesOf(ts: seq<MerkleHashSubtree?>): (r: seq<Option<Hump>>)
    reads ts
    ensures |r| == |ts|
    ensures forall i :: 0 <= i < |ts| ==> r[i] == ValueOf(ts[i])
  {
    seq(|ts|, i requires 0 <= i < |ts| reads ts => ValueOf(ts[i]))
  }

  /** The stored arrays of every subtree represent what it stands for. */
  ghost predicate AllValid(ts: seq<MerkleHashSubtree?>)
    reads ts
  {
    forall i :: 0 <= i < |ts| && ts[i] != null ==> ts[i].Valid()
  }

  /** A gap's subtree, or null for a gap without chunks. */
  method Summarize(mg: Merger, atStart: bool, gap: seq<Node>, atEnd: bool) returns (t: MerkleHashSubtree?)
    ensures ValueOf(t) == Summary(mg, atStart, gap, atEnd)
    ensures t != null ==> fresh(t) && t.Valid()
  {
    hide BuildHump;
    var s := new MerkleHashSubtree.FromChunks(mg, atStart, gap, atEnd);
    FlatEmpty(s.hump);
    t := if s.nodes == [] then null else s;
  }

  class ChunkWindowBuilder {
    const setting: Setting
    var dirtyIdx: nat
    var inZone: bool
    var gapIsFirst: bool
    var cursor: nat
    var gap: seq<Node>
    var windows: seq<FileRange>
    var hashRanges: seq<MerkleHashSubtree?>
    var tailPrev: Option<nat>

    ghost function State(): Builder
      reads this, hashRanges
    {
      Builder(dirtyIdx, inZone, gapIsFirst, cursor, gap, windows, ValuesOf(hashRanges), tailPrev)
    }

    /** The recorded summaries are well stored. */
    ghost predicate Valid()
      reads this, hashRanges
    {
      AllValid(hashRanges)
    }

    constructor (setting: Setting)
      ensures Valid() && State() == FRESH && this.setting == setting && hashRanges == []
    {
      this.setting := setting;
      dirtyIdx, inZone, gapIsFirst, cursor := 0, false, true, 0;
      gap, windows, hashRanges, tailPrev := [], [], [], None;
    }

    method MergeAhead(end: nat)
      modifies this`dirtyIdx
      ensures dirtyIdx == ChunkWindows.MergeAhead(setting.dirty, old(dirtyIdx), end)
    {
      while dirtyIdx + 1 < |setting.dirty| && end > setting.dirty[dirtyIdx + 1].start
        invariant ChunkWindows.MergeAhead(setting.dirty, dirtyIdx, end)
               == ChunkWindows.MergeAhead(setting.dirty, old(dirtyIdx), end)
        decreases |setting.dirty| - dirtyIdx
      {
        dirtyIdx := dirtyIdx + 1;
      }
    }

    method OpenWindow(end: nat)
      requires Valid()
      modifies this
      ensures Valid() && State() == Open(setting, old(State()), end)
      ensures forall t :: t in hashRanges ==> t in old(hashRanges) || t == null || fresh(t)
    {
      hide Summary, Laid;
      var t := Summarize(setting.mg, gapIsFirst, gap, false);
      hashRanges := hashRanges + [t];
      gap := [];
      windows := windows + [FileRange(cursor, end)];
      MergeAhead(end);
    }

    method ExtendOpenWindow(end: nat)
      requires windows != []
      modifies this`windows
      ensures windows == Extend(old(State()), end).windows
    {
      var n := |windows| - 1;
      windows := windows[n := windows[n].(end := end)];
    }

    /** Opens a window at the cursor. */
    method EnterZone(end: nat)
      requires Valid()
      modifies this
      ensures Valid() && State() == Open(setting, old(State()), end).(inZone := true, tailPrev := None)
    {
      hide Open, Summary, Laid, ValuesOf;
      OpenWindow(end);
      inZone := true;
      tailPrev := None;
    }

    /** Grows the open window over a chunk that overlaps dirty range `idx`. */
    method GrowDirty(end: nat, idx: nat)
      requires Valid() && windows != []
      modifies this
      ensures Valid() && hashRanges == old(hashRanges)
      ensures State() == Extend(old(State()), end).(
                           dirtyIdx := ChunkWindows.MergeAhead(setting.dirty, idx, end), tailPrev := None)
    {
      hide Laid, ChunkWindows.MergeAhead, ValuesOf;
      dirtyIdx := idx;
      ExtendOpenWindow(end);
      MergeAhead(end);
      tailPrev := None;
    }

    /** Closes the window after two stable clean chunks in a row, otherwise keeps it open. */
    method GrowClean(chunk: Node, end: nat)
      requires Valid() && windows != []
      modifies this
      ensures Valid() && hashRanges == old(hashRanges)
      ensures State() ==
              var b, w := old(State()), Extend(old(State()), end);
              if b.tailPrev.Some? && setting.stable(b.tailPrev.value) && setting.stable(chunk.size) then
                w.(dirtyIdx := b.dirtyIdx + 1, gapIsFirst := false, inZone := false, tailPrev := None)
              else w.(tailPrev := Some(chunk.size))
    {
      hide Laid, ValuesOf;
      ExtendOpenWindow(end);
      var stable := tailPrev.Some? && setting.stable(tailPrev.value) && setting.stable(chunk.size);
      tailPrev := Some(chunk.size);
      if stable {
        dirtyIdx := dirtyIdx + 1;
        gapIsFirst := false;
        inZone := false;
        tailPrev := None;
      }
    }

    method ProcessChunk(chunk: Node, end: nat)
      requires Valid() && Sane(State())
      modifies this
      ensures Valid() && State() == Process(setting, old(State()), chunk, end)
    {
      hide Open, Summary, ChunkWindows.MergeAhead, Overlap, ValuesOf, Laid, Extend;
      var start := cursor;
      var overlaps := OverlapAt(setting.dirty, dirtyIdx, start, end);
      if !inZone {
        if overlaps {
          EnterZone(end);
        } else {
          gap := gap + [chunk];
        }
      } else if overlaps || OverlapAt(setting.dirty, dirtyIdx + 1, start, end) {
        GrowDirty(end, if overlaps then dirtyIdx else dirtyIdx + 1);
      } else {
        GrowClean(chunk, end);
      }
      cursor := end;
    }

    predicate EntryFullyDirty(end: nat)
      reads this
    {
      dirtyIdx < |setting.dirty| && setting.dirty[dirtyIdx].start <= cursor && end <= setting.dirty[dirtyIdx].end
    }

    /** The fast path for an entry inside one dirty range. */
    method SkipDirtyEntry(end: nat)
      requires Valid() && Sane(State())
      modifies this
      ensures Valid() && State() == Skip(setting, old(State()), end)
    {
      hide Open, Summary, ChunkWindows.MergeAhead, Laid;
      if !inZone {
        EnterZone(end);
      } else {
        GrowDirty(end, dirtyIdx);
      }
      cursor := end;
    }

    method Finish() returns (ws: seq<FileRange>, summaries: seq<MerkleHashSubtree?>)
      requires Valid()
      ensures AllValid(summaries)
      ensures (ws, ValuesOf(summaries)) == ChunkWindows.Finish(setting, State())
    {
      hide Summary, Laid;
      var trailing := Summarize(setting.mg, gapIsFirst, gap, true);
      ws, summaries := windows, hashRanges + [trailing];
      assert ValuesOf(summaries) == ValuesOf(hashRanges) + [ValueOf(trailing)];
    }
  }

  // ---------------------------------------------------------------- stable segments

  ghost predicate Touched(windows: seq<FileRange>, start: nat, end: nat) {
    exists k :: 0 <= k < |windows| && Overlap(windows[k], start, end)
  }

  /** The range hashes of the segments from `i` on that no window overlaps, in order. */
  ghost function StableHashes(segments: seq<nat>, hashes: seq<DataHash>, windows: seq<FileRange>, i: nat,
      start: nat): seq<DataHash>
    requires |segments| == |hashes| && i <= |segments|
    decreases |segments| - i
  {
    if i == |segments| then []
    else
      (if Touched(windows, start, start + segments[i]) then [] else [hashes[i]])
      + StableHashes(segments, hashes, windows, i + 1, start + segments[i])
  }

  lemma {:induction false} StableNext(segments: seq<nat>, hashes: seq<DataHash>, windows: seq<FileRange>, i: nat,
      start: nat, gv: seq<DataHash>)
    requires |segments| == |hashes| && i < |segments|
    ensures var rest := StableHashes(segments, hashes, windows, i + 1, start + segments[i]);
            gv + StableHashes(segments, hashes, windows, i, start)
            == if Touched(windows, start, start + segments[i]) then gv + rest else gv + [hashes[i]] + rest
  {
    hide Touched;
    var rest := StableHashes(segments, hashes, windows, i + 1, start + segments[i]);
    assert gv + ([hashes[i]] + rest) == gv + [hashes[i]] + rest;
    assert [] + rest == rest;
  }

  lemma {:induction false} StableDone(segments: seq<nat>, hashes: seq<DataHash>, windows: seq<FileRange>,
      start: nat, gv: seq<DataHash>)
    requires |segments| == |hashes|
    ensures gv + StableHashes(segments, hashes, windows, |segments|, start) == gv
  {
  }

  ghost predicate InOrder(windows: seq<FileRange>) {
    forall k, l :: 0 <= k < l < |windows| ==> windows[k].end <= windows[l].start && windows[k].start <= windows[k].end
  }

  lemma {:induction false} TouchedAt(windows: seq<FileRange>, wi: nat, start: nat, end: nat)
    requires InOrder(windows) && wi <= |windows|
    requires forall k :: 0 <= k < wi ==> windows[k].end <= start
    requires wi < |windows| ==> start < windows[wi].end
    ensures Touched(windows, start, end) <==> wi < |windows| && windows[wi].start < end
  {
    if wi < |windows| && windows[wi].start < end {
      assert Overlap(windows[wi], start, end);
    }
    if Touched(windows, start, end) {
      var k :| 0 <= k < |windows| && Overlap(windows[k], start, end);
      assert k >= wi;
    }
  }

  /** The two-pointer walk over segments and windows. */
  method GapVerification(segments: seq<nat>, hashes: seq<DataHash>, windows: seq<FileRange>) returns (gv: seq<DataHash>)
    requires |segments| == |hashes| && InOrder(windows)
    ensures gv == StableHashes(segments, hashes, windows, 0, 0)
  {
    hide Touched, InOrder, StableHashes;
    gv := [];
    var acc, wi := 0, 0;
    for idx := 0 to |segments|
      invariant wi <= |windows|
      invariant forall k :: 0 <= k < wi ==> windows[k].end <= acc
      invariant gv + StableHashes(segments, hashes, windows, idx, acc) == StableHashes(segments, hashes, windows, 0, 0)
    {
      var start, end := acc, acc + segments[idx];
      acc := end;
      while wi < |windows| && windows[wi].end <= start
        invariant wi <= |windows|
        invariant forall k :: 0 <= k < wi ==> windows[k].end <= start
      {
        wi := wi + 1;
      }
      var overlaps := wi < |windows| && windows[wi].start < end;
      TouchedAt(windows, wi, start, end);
      StableNext(segments, hashes, windows, idx, start, gv);
      if !overlaps {
        gv := gv + [hashes[idx]];
      }
    }
    StableDone(segments, hashes, windows, acc, gv);
  }

  /** Windows in order, none past the cursor. */
  ghost predicate Trailing(b: Builder) {
    && InOrder(b.windows)
    && forall k :: 0 <= k < |b.windows| ==> b.windows[k].start <= b.windows[k].end <= b.cursor
  }

  lemma {:induction false} OpenTrailing(c: Setting, b: Builder, end: nat)
    requires Trailing(b) && b.cursor <= end
    ensures Trailing(Open(c, b, end).(cursor := end))
  {
    hide Summary, ChunkWindows.MergeAhead;
  }

  lemma {:induction false} ExtendTrailing(b: Builder, end: nat)
    requires Trailing(b) && b.cursor <= end && b.windows != []
    ensures Trailing(Extend(b, end).(cursor := end))
  {
  }

  lemma {:induction false} SameTrailing(b: Builder, b': Builder)
    requires Trailing(b) && b'.windows == b.windows && b.cursor <= b'.cursor
    ensures Trailing(b')
  {
  }

  lemma {:induction false} ProcessTrailing(c: Setting, b: Builder, chunk: Node, end: nat)
    requires Trailing(b) && Sane(b) && b.cursor <= end
    ensures Trailing(Process(c, b, chunk, end))
  {
    hide Trailing, Open, ChunkWindows.MergeAhead, Overlap, Extend;
    var b' := Process(c, b, chunk, end);
    if b.inZone {
      ExtendTrailing(b, end);
      SameTrailing(Extend(b, end).(cursor := end), b');
    } else if OverlapAt(c.dirty, b.dirtyIdx, b.cursor, end) {
      OpenTrailing(c, b, end);
      SameTrailing(Open(c, b, end).(cursor := end), b');
    } else {
      SameTrailing(b, b');
    }
  }

  lemma {:induction false} RunTrailing(c: Setting, b: Builder, cs: seq<Node>, i: nat)
    requires Trailing(b) && Sane(b) && i <= |cs| && b.cursor == Off(cs, i)
    ensures Trailing(Run(c, b, cs, i))
    decreases |cs| - i
  {
    hide Trailing, Process;
    if i < |cs| {
      var b' := Process(c, b, cs[i], Off(cs, i + 1));
      ProcessTrailing(c, b, cs[i], Off(cs, i + 1));
      ProcessCursor(c, b, cs[i], Off(cs, i + 1));
      RunTrailing(c, b', cs, i + 1);
    }
  }

  lemma {:induction false} ProcessCursor(c: Setting, b: Builder, chunk: Node, end: nat)
    requires Sane(b)
    ensures Process(c, b, chunk, end).cursor == end
  {
    hide Open, ChunkWindows.MergeAhead, Overlap;
  }

  /** Whatever the dirty ranges, sorted or not, the builder's windows are in order, so the walk may be
  used on them. */
  lemma {:induction false} WindowsInOrder(c: Setting, cs: seq<Node>)
    ensures InOrder(Finish(c, Built(c, cs)).0)
  {
    RunTrailing(c, FRESH, cs, 0);
  }

  // ---------------------------------------------------------------- the response

  datatype Failure = NoValidRanges | NoOverlap | VerificationMismatch

  method BuildFileChunkHashesResponse(mg: Merger, stable: nat -> bool, segments: seq<nat>, verification: seq<DataHash>,
                                      dirtyRanges: seq<FileRange>, chunks: seq<Node>)
    returns (failure: Option<Failure>, totalChunks: nat, fileSize: nat, windows: seq<FileRange>,
             hashRanges: seq<MerkleHashSubtree?>, gapVerification: seq<DataHash>)
    ensures var c := Setting(mg, stable, Clamp(dirtyRanges, Sum(segments)));
            && (Sorted(c.dirty) ==> (Finish(c, Built(c, chunks)).0 == [] <==> Greedy(c, chunks, 0) == []))
            && failure == (if c.dirty == [] then Some(NoValidRanges)
                           else if Finish(c, Built(c, chunks)).0 == [] then Some(NoOverlap)
                           else if verification != [] && |verification| != |segments| then Some(VerificationMismatch)
                           else None)
            && (failure.None? ==>
                  && totalChunks == |chunks| && fileSize == Sum(segments)
                  && AllValid(hashRanges)
                  && (windows, ValuesOf(hashRanges)) == ChunkWindows.Finish(c, Built(c, chunks))
                  && gapVerification == if verification == [] then []
                                        else StableHashes(segments, verification, windows, 0, 0))
    // in terms of the request itself
    ensures failure == Some(NoValidRanges) <==> forall p: nat :: p < Sum(segments) ==> !HasByte(dirtyRanges, p)
    ensures failure.None? && Ascending(dirtyRanges) ==>
              forall p: nat :: p < fileSize && p < Off(chunks, |chunks|) && HasByte(dirtyRanges, p)
                ==> HasByte(windows, p)
  {
    hide Greedy, StableHashes, ByteRanges, Clamp, Sum, Built, InOrder, Ordered, Laid, HasByte, Ascending;
    totalChunks, windows, hashRanges, gapVerification := |chunks|, [], [], [];
    fileSize := FileSize(segments);
    var dirty := ClampRanges(dirtyRanges, fileSize);
    NoWindows(Setting(mg, stable, dirty), chunks);
    ClampNone(dirtyRanges, fileSize);
    if dirty == [] {
      return Some(NoValidRanges), 0, 0, [], [], [];
    }
    ghost var c := Setting(mg, stable, dirty);
    windows, hashRanges := RunBuilder(mg, stable, dirty, chunks);
    WindowsInOrder(c, chunks);
    if windows == [] {
      return Some(NoOverlap), 0, 0, [], [], [];
    }
    if verification != [] {
      if |verification| != |segments| {
        return Some(VerificationMismatch), 0, 0, [], [], [];
      }
      gapVerification := GapVerification(segments, verification, windows);
    }
    failure := None;
    RequestedCovered(mg, stable, dirtyRanges, fileSize, chunks);
  }

  /** For requested ranges in order, every requested byte of the file lies in a window. */
  lemma {:induction false} RequestedCovered(mg: Merger, stable: nat -> bool, requested: seq<FileRange>, size: nat,
      cs: seq<Node>)
    ensures var c := Setting(mg, stable, Clamp(requested, size));
            Ascending(requested) ==>
              forall p: nat :: p < size && p < Off(cs, |cs|) && HasByte(requested, p)
                ==> HasByte(Finish(c, Built(c, cs)).0, p)
  {
    hide Clamp, Built, Off, Finish, Ascending;
    var c := Setting(mg, stable, Clamp(requested, size));
    if Ascending(requested) {
      ClampSorted(requested, size);
      forall p: nat | p < size && p < Off(cs, |cs|) && HasByte(requested, p)
        ensures HasByte(Finish(c, Built(c, cs)).0, p)
      {
        ClampBytes(requested, size, p);
        var j :| 0 <= j < |c.dirty| && c.dirty[j].start <= p < c.dirty[j].end;
        var k := DirtyBytesCovered(c, cs, p, j);
      }
    }
  }

  /** For sorted ranges, no window comes out exactly when no chunk is dirty. */
  lemma {:induction false} NoWindows(c: Setting, cs: seq<Node>)
    ensures Sorted(c.dirty) ==> (Finish(c, Built(c, cs)).0 == [] <==> Greedy(c, cs, 0) == [])
  {
    hide *;
    if Sorted(c.dirty) {
      WindowsAligned(c, cs, 0);
    }
  }

  method FileSize(segments: seq<nat>) returns (size: nat)
    ensures size == Sum(segments)
  {
    size := 0;
    for i := 0 to |segments|
      invariant size == Sum(segments[..i])
    {
      assert segments[..i + 1][..i] == segments[..i];
      size := size + segments[i];
    }
    assert segments[..|segments|] == segments;
  }

  method ClampRanges(dirty: seq<FileRange>, size: nat) returns (r: seq<FileRange>)
    ensures r == Clamp(dirty, size)
  {
    r := [];
    for i := 0 to |dirty|
      invariant r == Clamp(dirty[..i], size)
    {
      assert dirty[..i + 1][..i] == dirty[..i];
      var e := if dirty[i].end < size then dirty[i].end else size;
      if dirty[i].start < e {
        r := r + [FileRange(dirty[i].start, e)];
      }
    }
    assert dirty[..|dirty|] == dirty;
  }

  method RunBuilder(mg: Merger, stable: nat -> bool, dirty: seq<FileRange>, chunks: seq<Node>)
    returns (windows: seq<FileRange>, hashRanges: seq<MerkleHashSubtree?>)
    ensures AllValid(hashRanges)
    ensures var c := Setting(mg, stable, dirty);
            (windows, ValuesOf(hashRanges)) == ChunkWindows.Finish(c, Built(c, chunks))
  {
    hide Process, Laid;
    var builder := new ChunkWindowBuilder(Setting(mg, stable, dirty));
    var cumulative := 0;
    for i := 0 to |chunks|
      invariant cumulative == Off(chunks, i)
      invariant fresh(builder) && builder.setting == Setting(mg, stable, dirty)
      invariant builder.Valid() && Sane(builder.State())
      invariant Run(builder.setting, builder.State(), chunks, i) == Built(builder.setting, chunks)
    {
      cumulative := cumulative + chunks[i].size;
      builder.ProcessChunk(chunks[i], cumulative);
    }
    windows, hashRanges := builder.Finish();
  }
}
