/** Windows that hold all edits of a file take each edit exactly once, and the streamed windows between
the untouched gaps are the edited file. */
module EditWindows {
  import opened ChunkWindows
  import opened CacheFile
  import opened RangeEdits

  /** Windows in order, not empty, inside the file. */
  predicate Apart(ws: seq<FileRange>, size: nat) {
    && (forall k :: 0 <= k < |ws| ==> ws[k].start < ws[k].end <= size)
    && (forall k, l :: 0 <= k < l < |ws| ==> ws[k].end <= ws[l].start)
  }

  /** The edit lies in the window; an insertion at its end only at the end of the file. */
  predicate LiesIn(e: Edit, w: FileRange, size: nat) {
    w.start <= e.start && e.end <= w.end && (e.start == e.end ==> e.start < w.end || w.end == size)
  }

  /** The edit lies in some window from `k` on. */
  predicate Owned(e: Edit, ws: seq<FileRange>, size: nat, k: nat) {
    exists l :: k <= l < |ws| && LiesIn(e, ws[l], size)
  }

  predicate AllOwned(es: seq<Edit>, ws: seq<FileRange>, size: nat) {
    forall i :: 0 <= i < |es| ==> Owned(es[i], ws, size, 0)
  }

  // ---------------------------------------------------------------- who takes what

  lemma {:induction false} HeldIsTaken(e: Edit, w: FileRange, size: nat)
    requires e.start <= e.end
    ensures LiesIn(e, w, size) ==> Takes(e, w.end, size)
  {
  }

  /** A window takes no edit of a later window. */
  lemma {:induction false} TakenIsInside(e: Edit, ws: seq<FileRange>, size: nat, k: nat)
    requires Apart(ws, size) && k < |ws| && e.start <= e.end && Owned(e, ws, size, k) && Takes(e, ws[k].end, size)
    ensures LiesIn(e, ws[k], size)
  {
    assert forall l :: k < l < |ws| ==> ws[k].end <= ws[l].start < ws[l].end <= size;
    var l :| k <= l < |ws| && LiesIn(e, ws[l], size);
  }

  /** Behind an edit the window does not take, no edit belongs to it. */
  lemma {:induction false} LeftIsLater(e: Edit, first: Edit, ws: seq<FileRange>, size: nat, k: nat)
    requires Apart(ws, size) && k < |ws| && e.start <= e.end && first.start <= first.end
    requires Owned(e, ws, size, k) && Owned(first, ws, size, k) && !Takes(first, ws[k].end, size)
    requires e == first || first.end <= e.start
    ensures Owned(e, ws, size, k + 1)
  {
    HeldIsTaken(first, ws[k], size);
    assert forall l :: k < l < |ws| ==> ws[k].end <= ws[l].start < ws[l].end <= size;
    var m :| k <= m < |ws| && LiesIn(first, ws[m], size);
    var l :| k <= l < |ws| && LiesIn(e, ws[l], size);
  }

  /** After `k` windows, the edits given are those before the next window, and the rest belong later. */
  lemma {:induction false} GivenSplits(es: seq<Edit>, ws: seq<FileRange>, size: nat, k: nat)
    requires Fits(es, 0, size) && Apart(ws, size) && AllOwned(es, ws, size) && k <= |ws|
    ensures forall i :: Given(es, ws, size, k) <= i < |es| ==> Owned(es[i], ws, size, k)
    ensures k > 0 ==> Given(es, ws, size, k - 1) <= Given(es, ws, size, k)
    ensures k > 0 ==> forall i :: Given(es, ws, size, k - 1) <= i < Given(es, ws, size, k) ==>
              LiesIn(es[i], ws[k - 1], size)
  {
    hide Owned, LiesIn, Apart, Takes;
    if k > 0 {
      GivenSplits(es, ws, size, k - 1);
      var a, b := Given(es, ws, size, k - 1), Given(es, ws, size, k);
      forall i | a <= i < b ensures LiesIn(es[i], ws[k - 1], size) {
        TakenIsInside(es[i], ws, size, k - 1);
      }
      forall i | b <= i < |es| ensures Owned(es[i], ws, size, k) {
        LeftIsLater(es[i], es[b], ws, size, k - 1);
      }
    }
  }

  /** Every edit goes to exactly one window, the one it lies in: the windows' shares are consecutive and
  none is left over. */
  lemma {:induction false} EveryEditGiven(es: seq<Edit>, ws: seq<FileRange>, size: nat, k: nat)
    requires Fits(es, 0, size) && Apart(ws, size) && AllOwned(es, ws, size)
    ensures Given(es, ws, size, |ws|) == |es|
    ensures k < |ws| ==>
              && Given(es, ws, size, k) <= Given(es, ws, size, k + 1)
              && Fits(EditsOf(es, ws, size, k), ws[k].start, ws[k].end)
  {
    hide Given, Owned;
    GivenSplits(es, ws, size, |ws|);
    NoneOwns(es, ws, size);
    if k < |ws| {
      GivenSplits(es, ws, size, k + 1);
      var a, b := Given(es, ws, size, k), Given(es, ws, size, k + 1);
      var part := es[a..b];
      assert forall i :: 0 <= i < |part| ==> part[i] == es[a + i] && LiesIn(es[a + i], ws[k], size);
    }
  }

  lemma {:induction false} NoneOwns(es: seq<Edit>, ws: seq<FileRange>, size: nat)
    requires forall i :: Given(es, ws, size, |ws|) <= i < |es| ==> Owned(es[i], ws, size, |ws|)
    ensures Given(es, ws, size, |ws|) == |es|
  {
    hide Given;
    var g := Given(es, ws, size, |ws|);
    assert g < |es| ==> !Owned(es[g], ws, size, |ws|);
  }

  // ---------------------------------------------------------------- the bytes

  /** Where the gap before window `k` ends. */
  function GapEnd(ws: seq<FileRange>, size: nat, k: nat): nat
    requires k <= |ws|
  {
    if k == |ws| then size else ws[k].start
  }

  /** Gap 0, window 0, gap 1, up to and including gap `k`, with the given bytes for the windows. */
  function Composed(o: Bytes, ws: seq<FileRange>, bs: seq<Bytes>, k: nat): Bytes
    requires Apart(ws, |o|) && k <= |ws| == |bs|
  {
    if k == 0 then o[..GapEnd(ws, |o|, 0)]
    else Composed(o, ws, bs, k - 1) + bs[k - 1] + o[ws[k - 1].end..GapEnd(ws, |o|, k)]
  }

  predicate AreStreamed(o: Bytes, es: seq<Edit>, ws: seq<FileRange>, bs: seq<Bytes>)
    requires InFile(es, |o|) && WindowsInFile(ws, |o|)
  {
    |bs| == |ws| && forall k :: 0 <= k < |ws| ==> bs[k] == BytesOf(o, es, ws, k)
  }

  lemma {:induction false} ComposedTo(o: Bytes, es: seq<Edit>, ws: seq<FileRange>, bs: seq<Bytes>, k: nat)
    requires Fits(es, 0, |o|) && Apart(ws, |o|) && AllOwned(es, ws, |o|) && k <= |ws|
    requires InFile(es, |o|) && WindowsInFile(ws, |o|) && AreStreamed(o, es, ws, bs)
    ensures Fits(es[..Given(es, ws, |o|, k)], 0, GapEnd(ws, |o|, k)) && GapEnd(ws, |o|, k) <= |o|
    ensures Composed(o, ws, bs, k) == Spliced(o, es[..Given(es, ws, |o|, k)], 0, GapEnd(ws, |o|, k))
  {
    hide Given, Fits, Spliced, AllOwned, WindowBytes, BytesOf, InFile, WindowsInFile;
    if k == 0 {
      GivenNone(es, ws, |o|);
      NoEdits(0, GapEnd(ws, |o|, 0));
      SplicedLast(o, [], 0, GapEnd(ws, |o|, 0));
      assert es[..0] == [] && o[0..GapEnd(ws, |o|, 0)] == o[..GapEnd(ws, |o|, 0)];
    } else {
      ComposedTo(o, es, ws, bs, k - 1);
      EveryEditGiven(es, ws, |o|, k - 1);
      GivenNext(o, es, ws, k - 1);
      var a, b := Given(es, ws, |o|, k - 1), Given(es, ws, |o|, k);
      var w := ws[k - 1];
      WindowIsSpliced(o, es[a..b], w);
      SplicedJoin(o, es[..a], es[a..b], 0, w.start, w.end);
      assert es[..a] + es[a..b] == es[..b];
      assert w.end <= GapEnd(ws, |o|, k);
      SplicedExtend(o, es[..b], 0, w.end, GapEnd(ws, |o|, k));
    }
  }

  lemma {:induction false} NoEdits(from: nat, to: nat)
    requires from <= to
    ensures Fits([], from, to)
  {
  }

  /** The streamed windows between the gaps are the edited file. */
  lemma {:induction false} StreamedWindowsAreTheFile(o: Bytes, es: seq<Edit>, ws: seq<FileRange>, bs: seq<Bytes>)
    requires Fits(es, 0, |o|) && Apart(ws, |o|) && AllOwned(es, ws, |o|)
    requires InFile(es, |o|) && WindowsInFile(ws, |o|) && AreStreamed(o, es, ws, bs)
    ensures Composed(o, ws, bs, |ws|) == Spliced(o, es, 0, |o|)
  {
    hide Given, Spliced, AllOwned, BytesOf, Composed;
    EveryEditGiven(es, ws, |o|, |ws|);
    ComposedTo(o, es, ws, bs, |ws|);
    assert es[..|es|] == es;
  }

  // ---------------------------------------------------------------- windows that miss an edit

  lemma {:induction false} Totals(a: seq<Edit>, b: seq<Edit>)
    ensures Added(a + b) == Added(a) + Added(b) && Removed(a + b) == Removed(a) + Removed(b)
    decreases |b|
  {
    if b == [] {
      assert a + b == a;
    } else {
      assert (a + b)[..|a + b| - 1] == a + b[..|b| - 1];
      Totals(a, b[..|b| - 1]);
    }
  }

  /** Where streaming starts to count: at the window, or at a first edit before it. */
  function From(es: seq<Edit>, start: nat): nat {
    if es != [] && es[0].start < start then es[0].start else start
  }

  lemma {:induction false} StreamedLength(o: Bytes, es: seq<Edit>, from: nat)
    requires Fits(es, 0, |o|) && es != []
    ensures InFile(es, |o|)
    ensures var (done, cursor) := Streamed(o, es, from);
            cursor == es[|es| - 1].end && |done| + Removed(es) == Added(es) + cursor - From(es, from)
    decreases |es|
  {
    var n, e := |es| - 1, es[|es| - 1];
    var init := es[..n];
    if n == 0 {
      assert init == [];
    } else {
      StreamedLength(o, init, from);
    }
  }

  lemma {:induction false} WindowLength(o: Bytes, es: seq<Edit>, w: FileRange)
    requires Fits(es, 0, |o|) && w.start <= w.end <= |o| && forall i :: 0 <= i < |es| ==> es[i].end <= w.end
    ensures InFile(es, |o|)
    ensures |WindowBytes(o, es, w)| + Removed(es) == Added(es) + w.end - From(es, w.start)
  {
    hide Streamed;
    if es == [] {
      StreamedNone(o, es, w.start);
      assert es[..0] == es;
    } else {
      StreamedLength(o, es, w.start);
    }
  }

  lemma {:induction false} ShareTaken(o: Bytes, es: seq<Edit>, ws: seq<FileRange>, k: nat)
    requires Fits(es, 0, |o|) && Apart(ws, |o|) && k < |ws|
    ensures var part := EditsOf(es, ws, |o|, k);
            Fits(part, 0, |o|) && forall i :: 0 <= i < |part| ==> part[i].end <= ws[k].end
  {
    var a, b := Given(es, ws, |o|, k), Given(es, ws, |o|, k + 1);
    var part := es[a..b];
    assert forall i :: 0 <= i < |part| ==> part[i] == es[a + i] && Takes(es[a + i], ws[k].end, |o|);
  }

  /** No edit of window `k` starts before it. */
  predicate StartsInside(es: seq<Edit>, ws: seq<FileRange>, size: nat, k: nat)
    requires k < |ws|
  {
    From(EditsOf(es, ws, size, k), ws[k].start) == ws[k].start
  }

  /** What window `k` streams is too long by what lies between its first edit and its start. */
  lemma {:induction false} NextLength(o: Bytes, es: seq<Edit>, ws: seq<FileRange>, k: nat)
    requires Fits(es, 0, |o|) && Apart(ws, |o|) && k < |ws| && InFile(es, |o|) && WindowsInFile(ws, |o|)
    ensures var done, more := es[..Given(es, ws, |o|, k)], es[..Given(es, ws, |o|, k + 1)];
            var right := ws[k].end - ws[k].start + Added(more) - Added(done) - (Removed(more) - Removed(done));
            var streamed := |BytesOf(o, es, ws, k)|;
            streamed >= right && (streamed == right ==> StartsInside(es, ws, |o|, k))
  {
    hide Fits, WindowBytes, InFile, WindowsInFile, Added, Removed, Given;
    GivenNext(o, es, ws, k);
    var a, b := Given(es, ws, |o|, k), Given(es, ws, |o|, k + 1);
    ShareTaken(o, es, ws, k);
    WindowLength(o, es[a..b], ws[k]);
    Totals(es[..a], es[a..b]);
    assert es[..a] + es[a..b] == es[..b];
  }

  /** The composed bytes are too long by what each window streams from before its start. */
  lemma {:induction false} ComposedLength(o: Bytes, es: seq<Edit>, ws: seq<FileRange>, bs: seq<Bytes>, k: nat)
    requires Fits(es, 0, |o|) && Apart(ws, |o|) && k <= |ws|
    requires InFile(es, |o|) && WindowsInFile(ws, |o|) && AreStreamed(o, es, ws, bs)
    ensures var done := es[..Given(es, ws, |o|, k)];
            var right := GapEnd(ws, |o|, k) + Added(done) - Removed(done);
            && |Composed(o, ws, bs, k)| >= right
            && (|Composed(o, ws, bs, k)| == right ==> forall j :: 0 <= j < k ==> StartsInside(es, ws, |o|, j))
  {
    hide Fits, WindowBytes, InFile, WindowsInFile, Added, Removed, Given, StartsInside, BytesOf;
    if k == 0 {
      GivenNone(es, ws, |o|);
      NoTotals();
      assert es[..0] == [];
    } else {
      ComposedLength(o, es, ws, bs, k - 1);
      NextLength(o, es, ws, k - 1);
      assert bs[k - 1] == BytesOf(o, es, ws, k - 1);
    }
  }

  lemma {:induction false} NoTotals()
    ensures Added([]) == 0 && Removed([]) == 0
  {
  }

  /** The window that takes edit `i`. */
  lemma {:induction false} TakerOf(es: seq<Edit>, ws: seq<FileRange>, size: nat, i: nat, k: nat) returns (j: nat)
    requires k <= |ws| && i < Given(es, ws, size, k)
    ensures j < k && Given(es, ws, size, j) <= i < Given(es, ws, size, j + 1) && Takes(es[i], ws[j].end, size)
  {
    if Given(es, ws, size, k - 1) <= i {
      j := k - 1;
    } else {
      j := TakerOf(es, ws, size, i, k - 1);
    }
  }

  lemma {:induction false} InsideOwns(es: seq<Edit>, ws: seq<FileRange>, size: nat, i: nat)
    requires Fits(es, 0, size) && Apart(ws, size) && i < |es| && Given(es, ws, size, |ws|) == |es|
    requires forall j :: 0 <= j < |ws| ==> StartsInside(es, ws, size, j)
    ensures Owned(es[i], ws, size, 0)
  {
    hide Given;
    var j := TakerOf(es, ws, size, i, |ws|);
    var a, b := Given(es, ws, size, j), Given(es, ws, size, j + 1);
    assert StartsInside(es, ws, size, j);
    assert es[a..b][0] == es[a];
    assert es[a].start <= es[i].start;
    assert LiesIn(es[i], ws[j], size);
  }

  /** The check for left-over edits is not enough by itself. When it passes, the gaps and the streamed
  windows are the edited file if and only if every edit lies in some window. */
  lemma {:induction false} FileIffOwned(o: Bytes, es: seq<Edit>, ws: seq<FileRange>, bs: seq<Bytes>)
    requires Fits(es, 0, |o|) && Apart(ws, |o|) && Given(es, ws, |o|, |ws|) == |es|
    requires InFile(es, |o|) && WindowsInFile(ws, |o|) && AreStreamed(o, es, ws, bs)
    ensures Composed(o, ws, bs, |ws|) == Spliced(o, es, 0, |o|) <==> AllOwned(es, ws, |o|)
  {
    hide Given, Spliced, Owned, BytesOf, Composed, StartsInside;
    if AllOwned(es, ws, |o|) {
      StreamedWindowsAreTheFile(o, es, ws, bs);
    }
    if Composed(o, ws, bs, |ws|) == Spliced(o, es, 0, |o|) {
      SplicedLength(o, es, 0, |o|);
      ComposedLength(o, es, ws, bs, |ws|);
      assert es[..|es|] == es;
      forall i | 0 <= i < |es| ensures Owned(es[i], ws, |o|, 0) {
        InsideOwns(es, ws, |o|, i);
      }
    }
  }

  /** An edit before the only window is not left over, and yet misplaced. */
  lemma {:induction false} MissedEditPasses(o: Bytes, e: Edit, w: FileRange)
    requires e.start < e.end <= w.start < w.end <= |o|
    ensures var es, ws := [e], [w];
            Fits(es, 0, |o|) && Apart(ws, |o|) && Given(es, ws, |o|, |ws|) == |es| && !AllOwned(es, ws, |o|)
  {
    var es, ws := [e], [w];
    assert Takes(es[0], ws[0].end, |o|);
    assert TakenTo(es, 0, w.end, |o|) == 1;
    assert Given(es, ws, |o|, 0) == 0;
    assert !LiesIn(es[0], ws[0], |o|);
    assert !Owned(es[0], ws, |o|, 0);
  }
}
