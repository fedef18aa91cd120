/** Chunk-aligned dirty windows of a file, with hash summaries of the gaps between them.

A builder is fed the file's chunks in order. It opens a window at a chunk that overlaps a
dirty range and closes it after two consecutive clean chunks of stable size. */
module ChunkWindows {
  import opened Aggregation
  import opened Humps
  import opened MergeOrders
  import opened Wrappers

  datatype FileRange = FileRange(start: nat, end: nat)

  /** Fixed inputs: the merged hash, the stability test on chunk sizes, and the dirty ranges. */
  datatype Setting = Setting(mg: Merger, stable: nat -> bool, dirty: seq<FileRange>)

  datatype Builder = Builder(
    dirtyIdx: nat,
    inZone: bool,
    gapIsFirst: bool,
    cursor: nat,
    gap: seq<Node>,
    windows: seq<FileRange>,
    hashRanges: seq<Option<Hump>>,
    tailPrev: Option<nat>)

  const FRESH := Builder(0, false, true, 0, [], [], [], None)

  /** The builder's contract on dirty ranges: sorted, disjoint, none empty. */
  predicate Sorted(dirty: seq<FileRange>) {
    && (forall i :: 0 <= i < |dirty| ==> dirty[i].start < dirty[i].end)
    && (forall i, j :: 0 <= i < j < |dirty| ==> dirty[i].end <= dirty[j].start)
  }

  /** The byte lies in one of the ranges. */
  predicate HasByte(rs: seq<FileRange>, p: nat) {
    exists i :: 0 <= i < |rs| && rs[i].start <= p < rs[i].end
  }

  /** In order and not overlapping, apart from ranges without bytes. */
  predicate Ascending(rs: seq<FileRange>) {
    forall i, j :: 0 <= i < j < |rs| && rs[i].start < rs[i].end && rs[j].start < rs[j].end ==> rs[i].end <= rs[j].start
  }

  /** Ranges cut at the end of the file; what is empty or beyond it is dropped. */
  function Clamp(dirty: seq<FileRange>, size: nat): (r: seq<FileRange>)
    ensures forall i :: 0 <= i < |r| ==> r[i].start < r[i].end <= size
  {
    if dirty == [] then []
    else
      var d := dirty[|dirty| - 1];
      var e := if d.end < size then d.end else size;
      Clamp(dirty[..|dirty| - 1], size) + if d.start < e then [FileRange(d.start, e)] else []
  }

  lemma {:induction false} HasByteAppend(a: seq<FileRange>, b: seq<FileRange>, p: nat)
    ensures HasByte(a + b, p) <==> HasByte(a, p) || HasByte(b, p)
  {
    if HasByte(a, p) {
      var i :| 0 <= i < |a| && a[i].start <= p < a[i].end;
      assert (a + b)[i] == a[i];
    }
    if HasByte(b, p) {
      var i :| 0 <= i < |b| && b[i].start <= p < b[i].end;
      assert (a + b)[|a| + i] == b[i];
    }
  }

  lemma {:induction false} HasByteOne(r: FileRange, p: nat)
    ensures HasByte([r], p) <==> r.start <= p < r.end
    ensures !HasByte([], p)
  {
    assert [r][0] == r;
  }

  /** A byte is in a cut range exactly when it is in the file and in a given range. */
  lemma {:induction false} ClampBytes(dirty: seq<FileRange>, size: nat, p: nat)
    ensures HasByte(Clamp(dirty, size), p) <==> p < size && HasByte(dirty, p)
  {
    hide HasByte;
    if dirty == [] {
      HasByteOne(FileRange(0, 0), p);
    } else {
      var n, d := |dirty| - 1, dirty[|dirty| - 1];
      var cut := FileRange(d.start, if d.end < size then d.end else size);
      ClampBytes(dirty[..n], size, p);
      HasByteOne(d, p); HasByteOne(cut, p);
      HasByteAppend(dirty[..n], [d], p);
      HasByteAppend(Clamp(dirty[..n], size), if d.start < cut.end then [cut] else [], p);
      assert dirty == dirty[..n] + [d];
    }
  }

  lemma {:induction false} ClampNone(dirty: seq<FileRange>, size: nat)
    ensures Clamp(dirty, size) == [] <==> forall p: nat :: p < size ==> !HasByte(dirty, p)
  {
    hide Clamp;
    var r := Clamp(dirty, size);
    if r == [] {
      forall p: nat | p < size ensures !HasByte(dirty, p) { ClampBytes(dirty, size, p); }
    } else {
      ClampBytes(dirty, size, r[0].start);
      assert HasByte(r, r[0].start);
    }
  }

  lemma {:induction false} ClampWithin(dirty: seq<FileRange>, size: nat, i: nat)
    requires i < |Clamp(dirty, size)|
    ensures exists j :: 0 <= j < |dirty| && dirty[j].start == Clamp(dirty, size)[i].start < dirty[j].end
                        && Clamp(dirty, size)[i].end <= dirty[j].end
  {
    var n := |dirty| - 1;
    if i < |Clamp(dirty[..n], size)| {
      ClampWithin(dirty[..n], size, i);
    } else {
      assert dirty[n].start == Clamp(dirty, size)[i].start;
    }
  }

  lemma {:induction false} ClampSorted(dirty: seq<FileRange>, size: nat)
    requires Ascending(dirty)
    ensures Sorted(Clamp(dirty, size))
  {
    if dirty != [] {
      var n := |dirty| - 1;
      var front := Clamp(dirty[..n], size);
      ClampSorted(dirty[..n], size);
      forall i | 0 <= i < |front| && dirty[n].start < dirty[n].end ensures front[i].end <= dirty[n].start {
        ClampWithin(dirty[..n], size, i);
      }
    }
  }

  /** Nothing is cut from ranges with bytes inside the file. */
  lemma {:induction false} ClampKeeps(dirty: seq<FileRange>, size: nat)
    requires forall i :: 0 <= i < |dirty| ==> dirty[i].start < dirty[i].end <= size
    ensures Clamp(dirty, size) == dirty
  {
    if dirty != [] {
      ClampKeeps(dirty[..|dirty| - 1], size);
    }
  }

  predicate Overlap(r: FileRange, start: nat, end: nat) {
    end > r.start && start < r.end
  }

  predicate OverlapAt(dirty: seq<FileRange>, idx: nat, start: nat, end: nat) {
    idx < |dirty| && Overlap(dirty[idx], start, end)
  }

  /** The summary of a gap; nothing for an empty one. */
  ghost function Summary(mg: Merger, atStart: bool, gap: seq<Node>, atEnd: bool): Option<Hump> {
    var h := FromChunks(mg, atStart, gap, atEnd);
    if AllEmpty(h.levels) then None else Some(h)
  }

  /** A summary is absent exactly for a gap without chunks. */
  lemma {:induction false} SummaryNone(mg: Merger, atStart: bool, gap: seq<Node>, atEnd: bool)
    ensures Summary(mg, atStart, gap, atEnd).None? <==> gap == []
  {
    BuildTopped(mg, gap, atStart, atEnd);
  }

  // ---------------------------------------------------------------- one step, on values

  /** Moves past every range that `end` already reaches into. */
  function MergeAhead(dirty: seq<FileRange>, idx: nat, end: nat): (r: nat)
    ensures idx <= r && (idx < |dirty| ==> r < |dirty|)
    ensures forall j :: idx < j <= r && j < |dirty| ==> dirty[j].start < end
    ensures r + 1 < |dirty| ==> end <= dirty[r + 1].start
    decreases |dirty| - idx
  {
    if idx + 1 < |dirty| && end > dirty[idx + 1].start then MergeAhead(dirty, idx + 1, end) else idx
  }

  predicate Sane(b: Builder) {
    b.inZone ==> b.windows != []
  }

  ghost function Open(c: Setting, b: Builder, end: nat): Builder {
    b.(hashRanges := b.hashRanges + [Summary(c.mg, b.gapIsFirst, b.gap, false)],
       gap := [],
       windows := b.windows + [FileRange(b.cursor, end)],
       dirtyIdx := MergeAhead(c.dirty, b.dirtyIdx, end))
  }

  function Extend(b: Builder, end: nat): Builder
    requires b.windows != []
  {
    var n := |b.windows| - 1;
    b.(windows := b.windows[n := b.windows[n].(end := end)])
  }

  ghost function Process(c: Setting, b: Builder, chunk: Node, end: nat): (r: Builder)
    requires Sane(b)
    ensures Sane(r)
  {
    var dirtyHere := OverlapAt(c.dirty, b.dirtyIdx, b.cursor, end);
    var b' :=
      if !b.inZone then
        if dirtyHere then Open(c, b, end).(inZone := true, tailPrev := None)
        else b.(gap := b.gap + [chunk])
      else if dirtyHere || OverlapAt(c.dirty, b.dirtyIdx + 1, b.cursor, end) then
        var idx := if dirtyHere then b.dirtyIdx else b.dirtyIdx + 1;
        Extend(b, end).(dirtyIdx := MergeAhead(c.dirty, idx, end), tailPrev := None)
      else
        var w := Extend(b, end);
        if b.tailPrev.Some? && c.stable(b.tailPrev.value) && c.stable(chunk.size) then
          w.(dirtyIdx := b.dirtyIdx + 1, gapIsFirst := false, inZone := false, tailPrev := None)
        else w.(tailPrev := Some(chunk.size));
    b'.(cursor := end)
  }

  predicate EntryFullyDirty(c: Setting, b: Builder, end: nat) {
    b.dirtyIdx < |c.dirty| && c.dirty[b.dirtyIdx].start <= b.cursor && end <= c.dirty[b.dirtyIdx].end
  }

  ghost function Skip(c: Setting, b: Builder, end: nat): (r: Builder)
    requires Sane(b)
    ensures Sane(r)
  {
    var b' :=
      if !b.inZone then Open(c, b, end).(inZone := true)
      else Extend(b, end).(dirtyIdx := MergeAhead(c.dirty, b.dirtyIdx, end));
    b'.(tailPrev := None, cursor := end)
  }

  ghost function Finish(c: Setting, b: Builder): (r: (seq<FileRange>, seq<Option<Hump>>)) {
    (b.windows, b.hashRanges + [Summary(c.mg, b.gapIsFirst, b.gap, true)])
  }

  // ---------------------------------------------------------------- a whole file

  /** The byte offset of chunk `i`. */
  function Off(cs: seq<Node>, i: nat): nat
    requires i <= |cs|
  {
    if i == 0 then 0 else Off(cs, i - 1) + cs[i - 1].size
  }

  lemma {:induction false} OffStep(cs: seq<Node>, i: nat)
    requires i < |cs|
    ensures Off(cs, i + 1) == Off(cs, i) + cs[i].size
  {
  }

  ghost function Run(c: Setting, b: Builder, cs: seq<Node>, i: nat): (r: Builder)
    requires Sane(b) && i <= |cs|
    ensures Sane(r)
    decreases |cs| - i
  {
    if i == |cs| then b else Run(c, Process(c, b, cs[i], Off(cs, i + 1)), cs, i + 1)
  }

  /** The builder after a whole file. */
  ghost function Built(c: Setting, cs: seq<Node>): Builder {
    Run(c, FRESH, cs, 0)
  }

  // ---------------------------------------------------------------- the greedy definition

  /** Chunk `i` overlaps some dirty range. */
  ghost predicate Dirty(c: Setting, cs: seq<Node>, i: nat)
    requires i < |cs|
  {
    exists j :: 0 <= j < |c.dirty| && Overlap(c.dirty[j], Off(cs, i), Off(cs, i + 1))
  }

  ghost predicate StableClean(c: Setting, cs: seq<Node>, i: nat)
    requires i < |cs|
  {
    !Dirty(c, cs, i) && c.stable(cs[i].size)
  }

  /** A window opened at `a` may close before chunk `e`: the two chunks before it are clean and stable. */
  ghost predicate Closes(c: Setting, cs: seq<Node>, a: nat, e: nat) {
    a + 3 <= e <= |cs| && StableClean(c, cs, e - 2) && StableClean(c, cs, e - 1)
  }

  /** The first dirty chunk from `i` on, or the end of the file. */
  ghost function NextDirty(c: Setting, cs: seq<Node>, i: nat): (d: nat)
    requires i <= |cs|
    ensures i <= d <= |cs|
    ensures d < |cs| ==> Dirty(c, cs, d)
    ensures forall j :: i <= j < d ==> !Dirty(c, cs, j)
    decreases |cs| - i
  {
    if i == |cs| || Dirty(c, cs, i) then i else NextDirty(c, cs, i + 1)
  }

  /** The first place from `e` on where a window opened at `a` closes, or the end of the file. */
  ghost function NextClose(c: Setting, cs: seq<Node>, a: nat, e: nat): (z: nat)
    requires e <= |cs|
    ensures e <= z <= |cs|
    ensures z < |cs| ==> Closes(c, cs, a, z)
    ensures forall j :: e <= j < z ==> !Closes(c, cs, a, j)
    decreases |cs| - e
  {
    if e == |cs| || Closes(c, cs, a, e) then e else NextClose(c, cs, a, e + 1)
  }

  /** A window as a span of chunk indices. */
  datatype Span = Span(first: nat, past: nat)

  /** The windows from chunk `i` on: open at the next dirty chunk, close at the first chance. */
  ghost function Greedy(c: Setting, cs: seq<Node>, i: nat): (spans: seq<Span>)
    requires i <= |cs|
    decreases |cs| - i
  {
    var a := NextDirty(c, cs, i);
    if a == |cs| then []
    else
      var z := NextClose(c, cs, a, a + 1);
      [Span(a, z)] + Greedy(c, cs, z)
  }

  ghost function LastPast(spans: seq<Span>): nat {
    if spans == [] then 0 else spans[|spans| - 1].past
  }

  /** Non-empty, in order, not overlapping, and all below `n`. */
  ghost predicate Ordered(spans: seq<Span>, n: nat) {
    spans == [] ||
    var front, last := spans[..|spans| - 1], spans[|spans| - 1];
    last.first < last.past <= n && Ordered(front, last.first)
  }

  lemma {:induction false} OrderedAt(spans: seq<Span>, n: nat, k: nat)
    requires Ordered(spans, n) && k <= |spans|
    ensures k < |spans| ==> spans[k].first < spans[k].past <= n
    ensures LastPast(spans[..k]) <= if k < |spans| then spans[k].first else n
    ensures Ordered(spans[..k], if k < |spans| then spans[k].first else n)
  {
    if k < |spans| {
      var front := spans[..|spans| - 1];
      if k < |front| {
        OrderedAt(front, spans[|front|].first, k);
        assert front[..k] == spans[..k];
      }
    } else {
      assert spans[..k] == spans;
    }
  }

  // ---------------------------------------------------------------- spans and gaps

  /** The windows of `spans` in bytes. */
  ghost function ByteRanges(cs: seq<Node>, spans: seq<Span>): (r: seq<FileRange>)
    requires Ordered(spans, |cs|)
    ensures |r| == |spans|
  {
    if spans == [] then []
    else
      var front, last := spans[..|spans| - 1], spans[|spans| - 1];
      OrderedWeaken(front, last.first, |cs|);
      ByteRanges(cs, front) + [FileRange(Off(cs, last.first), Off(cs, last.past))]
  }

  lemma {:induction false} OrderedWeaken(spans: seq<Span>, m: nat, n: nat)
    requires Ordered(spans, m) && m <= n
    ensures Ordered(spans, n)
  {
  }

  /** Where the gap before window `k` starts and ends. */
  ghost function GapFrom(cs: seq<Node>, spans: seq<Span>, k: nat): (i: nat)
    requires Ordered(spans, |cs|) && k <= |spans|
    ensures i <= GapTo(cs, spans, k)
  {
    OrderedAt(spans, |cs|, k);
    LastPast(spans[..k])
  }

  ghost function GapTo(cs: seq<Node>, spans: seq<Span>, k: nat): (i: nat)
    requires Ordered(spans, |cs|) && k <= |spans|
    ensures i <= |cs|
  {
    OrderedAt(spans, |cs|, k);
    if k == |spans| then |cs| else spans[k].first
  }

  /** The chunks between window `k - 1` and window `k`. */
  ghost function GapChunks(cs: seq<Node>, spans: seq<Span>, k: nat): seq<Node>
    requires Ordered(spans, |cs|) && k <= |spans|
  {
    cs[GapFrom(cs, spans, k)..GapTo(cs, spans, k)]
  }

  ghost function WindowChunks(cs: seq<Node>, spans: seq<Span>, k: nat): seq<Node>
    requires Ordered(spans, |cs|) && k < |spans|
  {
    OrderedAt(spans, |cs|, k);
    cs[spans[k].first..spans[k].past]
  }

  /** Gap 0, window 0, gap 1, …, up to and including gap `k`. */
  ghost function Interleaved(cs: seq<Node>, spans: seq<Span>, k: nat): seq<Node>
    requires Ordered(spans, |cs|) && k <= |spans|
  {
    if k == 0 then GapChunks(cs, spans, 0)
    else Interleaved(cs, spans, k - 1) + WindowChunks(cs, spans, k - 1) + GapChunks(cs, spans, k)
  }

  lemma {:induction false} GapEdges(cs: seq<Node>, spans: seq<Span>, k: nat)
    requires Ordered(spans, |cs|) && 0 < k <= |spans|
    ensures GapTo(cs, spans, k - 1) == spans[k - 1].first < spans[k - 1].past == GapFrom(cs, spans, k)
    ensures WindowChunks(cs, spans, k - 1) == cs[GapTo(cs, spans, k - 1)..GapFrom(cs, spans, k)]
  {
    hide Ordered;
    OrderedAt(spans, |cs|, k - 1);
    assert spans[..k][k - 1] == spans[k - 1];
  }

  lemma {:induction false} SliceJoin(cs: seq<Node>, i: nat, j: nat, n: nat)
    requires i <= j <= n <= |cs|
    ensures cs[..i] + cs[i..j] + cs[j..n] == cs[..n]
  {
  }

  lemma {:induction false} InterleavedUnfold(cs: seq<Node>, spans: seq<Span>, k: nat)
    requires Ordered(spans, |cs|) && k <= |spans|
    ensures GapChunks(cs, spans, k) == cs[GapFrom(cs, spans, k)..GapTo(cs, spans, k)]
    ensures k == 0 ==> Interleaved(cs, spans, k) == GapChunks(cs, spans, 0) && GapFrom(cs, spans, 0) == 0
    ensures k > 0 ==> Interleaved(cs, spans, k) ==
                        Interleaved(cs, spans, k - 1) + WindowChunks(cs, spans, k - 1) + GapChunks(cs, spans, k)
  {
    assert spans[..0] == [];
  }

  /** Gaps and windows tile the chunk list. */
  lemma {:induction false} InterleavedIsPrefix(cs: seq<Node>, spans: seq<Span>, k: nat)
    requires Ordered(spans, |cs|) && k <= |spans|
    ensures Interleaved(cs, spans, k) == cs[..GapTo(cs, spans, k)]
  {
    hide *;
    InterleavedUnfold(cs, spans, k);
    if k > 0 {
      InterleavedIsPrefix(cs, spans, k - 1);
      GapEdges(cs, spans, k);
      SliceJoin(cs, GapTo(cs, spans, k - 1), GapFrom(cs, spans, k), GapTo(cs, spans, k));
    }
  }
}
