/** Edits of a file, and how an upload streams them window by window. */
module RangeEdits {
  import opened ChunkWindows
  import opened Wrappers
  import opened CacheFile

  /** Replaces the original bytes `[start, end)`: an insertion when the range is empty, a deletion when
  there are no new bytes. */
  datatype Edit = Edit(start: nat, end: nat, bytes: Bytes)

  /** Edits inside `[from, to]`, in order and not overlapping. */
  predicate Fits(es: seq<Edit>, from: nat, to: nat) {
    && from <= to
    && (forall i :: 0 <= i < |es| ==> from <= es[i].start <= es[i].end <= to)
    && (forall i, j :: 0 <= i < j < |es| ==> es[i].end <= es[j].start)
  }

  method ValidateDirtyRanges(es: seq<Edit>, size: nat) returns (ok: bool)
    ensures ok <==> Fits(es, 0, size)
  {
    var prev := 0;
    for i := 0 to |es|
      invariant prev == if i == 0 then 0 else es[i - 1].end
      invariant forall j :: 0 <= j < i ==> es[j].start <= es[j].end <= size && es[j].end <= prev
      invariant forall j, k :: 0 <= j < k < i ==> es[j].end <= es[k].start
    {
      if es[i].start > es[i].end || es[i].end > size {
        return false;
      }
      if i > 0 && es[i].start < prev {
        return false;
      }
      prev := es[i].end;
    }
    ok := true;
  }

  // ---------------------------------------------------------------- the edited file

  /** The bytes `[from, to)` of a file after the edits. */
  function Spliced(o: Bytes, es: seq<Edit>, from: nat, to: nat): Bytes
    requires Fits(es, from, to) && to <= |o|
    decreases |es|
  {
    if es == [] then o[from..to]
    else
      var n := |es| - 1;
      Spliced(o, es[..n], from, es[n].start) + es[n].bytes + o[es[n].end..to]
  }

  function Added(es: seq<Edit>): nat {
    if es == [] then 0 else Added(es[..|es| - 1]) + |es[|es| - 1].bytes|
  }

  function Removed(es: seq<Edit>): int {
    if es == [] then 0 else Removed(es[..|es| - 1]) + es[|es| - 1].end - es[|es| - 1].start
  }

  /** The announced sizes are the true ones: what was there, plus what is added, less what is removed. */
  lemma {:induction false} SplicedLength(o: Bytes, es: seq<Edit>, from: nat, to: nat)
    requires Fits(es, from, to) && to <= |o|
    ensures |Spliced(o, es, from, to)| == to - from + Added(es) - Removed(es)
    decreases |es|
  {
    if es != [] {
      SplicedLength(o, es[..|es| - 1], from, es[|es| - 1].start);
    }
  }

  lemma {:induction false} SplicedExtend(o: Bytes, es: seq<Edit>, from: nat, mid: nat, to: nat)
    requires Fits(es, from, mid) && mid <= to <= |o|
    ensures Fits(es, from, to) && Spliced(o, es, from, to) == Spliced(o, es, from, mid) + o[mid..to]
  {
    if es == [] {
      assert o[from..mid] + o[mid..to] == o[from..to];
    } else {
      var n := |es| - 1;
      assert o[es[n].end..mid] + o[mid..to] == o[es[n].end..to];
    }
  }

  lemma {:induction false} SplicedLast(o: Bytes, es: seq<Edit>, from: nat, to: nat)
    requires Fits(es, from, to) && to <= |o|
    ensures es == [] ==> Spliced(o, es, from, to) == o[from..to]
    ensures es != [] ==>
              var init, e := es[..|es| - 1], es[|es| - 1];
              && from <= e.start <= e.end <= to && Fits(init, from, e.start)
              && Spliced(o, es, from, to) == Spliced(o, init, from, e.start) + e.bytes + o[e.end..to]
  {
  }

  lemma {:induction false} Assoc4(a: Bytes, b: Bytes, c: Bytes, d: Bytes)
    ensures a + b + c + d == a + (b + c + d)
  {
  }

  /** Editing works piece by piece. */
  lemma {:induction false} SplicedJoin(o: Bytes, a: seq<Edit>, b: seq<Edit>, from: nat, mid: nat, to: nat)
    requires Fits(a, from, mid) && Fits(b, mid, to) && to <= |o|
    ensures Fits(a + b, from, to)
    ensures Spliced(o, a + b, from, to) == Spliced(o, a, from, mid) + Spliced(o, b, mid, to)
    decreases |b|
  {
    hide *;
    JoinFits(a, b, from, mid, to);
    SplicedLast(o, b, mid, to);
    FitsBounds(b, mid, to);
    if b == [] {
      assert a + b == a;
      SplicedExtend(o, a, from, mid, to);
    } else {
      var n, e := |b| - 1, b[|b| - 1];
      SplicedJoin(o, a, b[..n], from, mid, e.start);
      var all := a + b;
      assert all[..|all| - 1] == a + b[..n] && all[|all| - 1] == e;
      SplicedLast(o, all, from, to);
      Assoc4(Spliced(o, a, from, mid), Spliced(o, b[..n], mid, e.start), e.bytes, o[e.end..to]);
    }
  }

  lemma {:induction false} FitsBounds(es: seq<Edit>, from: nat, to: nat)
    requires Fits(es, from, to)
    ensures from <= to
  {
  }

  lemma {:induction false} JoinFits(a: seq<Edit>, b: seq<Edit>, from: nat, mid: nat, to: nat)
    requires Fits(a, from, mid) && Fits(b, mid, to)
    ensures Fits(a + b, from, to)
  {
    var all := a + b;
    forall i | 0 <= i < |all| ensures from <= all[i].start <= all[i].end <= to {
      if i >= |a| {
        assert all[i] == b[i - |a|];
      }
    }
    forall i, j | 0 <= i < j < |all| ensures all[i].end <= all[j].start {
      if j >= |a| {
        assert all[j] == b[j - |a|];
        if i >= |a| {
          assert all[i] == b[i - |a|];
        }
      }
    }
  }

  // ---------------------------------------------------------------- streaming one window

  /** Edits whose ranges lie in the file. */
  predicate InFile(es: seq<Edit>, size: nat) {
    forall i :: 0 <= i < |es| ==> es[i].start <= es[i].end <= size
  }

  /** What is streamed before the rest of a window, and the place reached in the original. */
  function Streamed(o: Bytes, es: seq<Edit>, from: nat): (r: (Bytes, nat))
    requires InFile(es, |o|)
    decreases |es|
  {
    if es == [] then ([], from)
    else
      var (done, cursor) := Streamed(o, es[..|es| - 1], from);
      var e := es[|es| - 1];
      (done + (if cursor < e.start then o[cursor..e.start] else []) + e.bytes, e.end)
  }

  function WindowBytes(o: Bytes, es: seq<Edit>, w: FileRange): Bytes
    requires InFile(es, |o|) && w.end <= |o|
  {
    var (done, cursor) := Streamed(o, es, w.start);
    done + if cursor < w.end then o[cursor..w.end] else []
  }

  lemma {:induction false} StreamedNext(o: Bytes, es: seq<Edit>, i: nat, from: nat)
    requires InFile(es, |o|) && i < |es|
    ensures InFile(es[..i], |o|) && InFile(es[..i + 1], |o|) && es[i].start <= es[i].end <= |o|
    ensures var (done, cursor) := Streamed(o, es[..i], from);
            Streamed(o, es[..i + 1], from)
            == (done + (if cursor < es[i].start then o[cursor..es[i].start] else []) + es[i].bytes, es[i].end)
  {
    assert es[..i + 1][..i] == es[..i];
  }

  /** The loop over the edits of one window. */
  method StreamWindow(o: Bytes, es: seq<Edit>, w: FileRange) returns (bytes: Bytes)
    requires InFile(es, |o|) && w.end <= |o|
    ensures bytes == WindowBytes(o, es, w)
  {
    hide Streamed, InFile;
    StreamedNone(o, es, w.start);
    bytes := [];
    var cursor := w.start;
    for i := 0 to |es|
      invariant InFile(es[..i], |o|)
      invariant (bytes, cursor) == Streamed(o, es[..i], w.start)
    {
      StreamedNext(o, es, i, w.start);
      if cursor < es[i].start {
        bytes := bytes + o[cursor..es[i].start];
      } else {
        assert bytes + [] == bytes;
      }
      bytes := bytes + es[i].bytes;
      cursor := es[i].end;
    }
    assert es[..|es|] == es;
    if cursor < w.end {
      bytes := bytes + o[cursor..w.end];
    } else {
      assert bytes + [] == bytes;
    }
  }

  lemma {:induction false} StreamedNone(o: Bytes, es: seq<Edit>, from: nat)
    ensures InFile(es[..0], |o|) && Streamed(o, es[..0], from) == ([], from)
  {
  }

  lemma {:induction false} StreamedIsSpliced(o: Bytes, es: seq<Edit>, from: nat, to: nat)
    requires Fits(es, from, to) && to <= |o|
    ensures InFile(es, |o|)
    ensures var (done, cursor) := Streamed(o, es, from);
            Fits(es, from, cursor) && cursor <= to && done == Spliced(o, es, from, cursor)
    decreases |es|
  {
    hide Spliced, Streamed;
    if es == [] {
      StreamedNone(o, es, from);
      SplicedLast(o, es, from, from);
      assert es[..0] == es && o[from..from] == [];
    } else {
      var n, e := |es| - 1, es[|es| - 1];
      StreamedIsSpliced(o, es[..n], from, e.start);
      var (done, cursor) := Streamed(o, es[..n], from);
      SplicedExtend(o, es[..n], from, cursor, e.start);
      StreamedNext(o, es, n, from);
      SplicedLast(o, es, from, e.end);
      assert es[..n + 1] == es;
      assert o[e.end..e.end] == [] && (cursor == e.start ==> o[cursor..e.start] == []);
    }
  }

  /** A window whose edits lie inside it streams its edited bytes. */
  lemma {:induction false} WindowIsSpliced(o: Bytes, es: seq<Edit>, w: FileRange)
    requires Fits(es, w.start, w.end) && w.end <= |o|
    ensures InFile(es, |o|) && WindowBytes(o, es, w) == Spliced(o, es, w.start, w.end)
  {
    hide Spliced, Streamed;
    StreamedIsSpliced(o, es, w.start, w.end);
    var (done, cursor) := Streamed(o, es, w.start);
    SplicedExtend(o, es, w.start, cursor, w.end);
    assert cursor == w.end ==> o[cursor..w.end] == [];
  }

  // ---------------------------------------------------------------- giving edits to windows

  /** A window takes an edit that ends in it; an insertion at its end only at the end of the file. */
  predicate Takes(e: Edit, end: nat, size: nat) {
    if e.start == e.end then e.start < end || (e.start == end && end == size) else e.end <= end
  }

  /** How far the edits from `i` on are taken by a window that ends at `end`. */
  function TakenTo(es: seq<Edit>, i: nat, end: nat, size: nat): (n: nat)
    requires i <= |es|
    ensures i <= n <= |es|
    ensures forall j :: i <= j < n ==> Takes(es[j], end, size)
    ensures n < |es| ==> !Takes(es[n], end, size)
    decreases |es| - i
  {
    if i < |es| && Takes(es[i], end, size) then TakenTo(es, i + 1, end, size) else i
  }

  /** The first edit not given to the first `k` windows. */
  function Given(es: seq<Edit>, ws: seq<FileRange>, size: nat, k: nat): (i: nat)
    requires k <= |ws|
    ensures i <= |es|
  {
    if k == 0 then 0 else TakenTo(es, Given(es, ws, size, k - 1), ws[k - 1].end, size)
  }

  /** The edits of window `k`. */
  function EditsOf(es: seq<Edit>, ws: seq<FileRange>, size: nat, k: nat): seq<Edit>
    requires k < |ws|
  {
    es[Given(es, ws, size, k)..Given(es, ws, size, k + 1)]
  }

  predicate WindowsInFile(ws: seq<FileRange>, size: nat) {
    forall k :: 0 <= k < |ws| ==> ws[k].end <= size
  }

  lemma {:induction false} SliceInFile(es: seq<Edit>, i: nat, j: nat, size: nat)
    requires InFile(es, size) && i <= j <= |es|
    ensures InFile(es[i..j], size)
  {
  }

  /** The bytes of window `k`. */
  function BytesOf(o: Bytes, es: seq<Edit>, ws: seq<FileRange>, k: nat): Bytes
    requires InFile(es, |o|) && WindowsInFile(ws, |o|) && k < |ws|
  {
    SliceInFile(es, Given(es, ws, |o|, k), Given(es, ws, |o|, k + 1), |o|);
    WindowBytes(o, EditsOf(es, ws, |o|, k), ws[k])
  }

  lemma {:induction false} GivenNext(o: Bytes, es: seq<Edit>, ws: seq<FileRange>, k: nat)
    requires InFile(es, |o|) && WindowsInFile(ws, |o|) && k < |ws|
    ensures var i, j := Given(es, ws, |o|, k), Given(es, ws, |o|, k + 1);
            && i <= j == TakenTo(es, i, ws[k].end, |o|) && ws[k].end <= |o|
            && InFile(es[i..j], |o|) && BytesOf(o, es, ws, k) == WindowBytes(o, es[i..j], ws[k])
  {
    hide WindowBytes, TakenTo;
  }

  /** The loop over the windows: the bytes of each, or nothing when an edit is left over. */
  method StreamWindows(o: Bytes, es: seq<Edit>, ws: seq<FileRange>) returns (r: Option<seq<Bytes>>)
    requires InFile(es, |o|) && WindowsInFile(ws, |o|)
    ensures r.Some? <==> Given(es, ws, |o|, |ws|) == |es|
    ensures r.Some? ==> |r.value| == |ws| && forall k :: 0 <= k < |ws| ==> r.value[k] == BytesOf(o, es, ws, k)
  {
    hide WindowBytes, BytesOf, Given, InFile, WindowsInFile;
    var inputIdx := 0;
    var uploaded := [];
    GivenNone(es, ws, |o|);
    for k := 0 to |ws|
      invariant inputIdx == Given(es, ws, |o|, k) && |uploaded| == k
      invariant forall j :: 0 <= j < k ==> uploaded[j] == BytesOf(o, es, ws, j)
    {
      GivenNext(o, es, ws, k);
      var end := inputIdx;
      while end < |es| && Takes(es[end], ws[k].end, |o|)
        invariant inputIdx <= end <= |es|
        invariant TakenTo(es, end, ws[k].end, |o|) == TakenTo(es, inputIdx, ws[k].end, |o|)
        decreases |es| - end
      {
        end := end + 1;
      }
      var bytes := StreamWindow(o, es[inputIdx..end], ws[k]);
      uploaded := uploaded + [bytes];
      inputIdx := end;
    }
    r := if inputIdx != |es| then None else Some(uploaded);
  }

  lemma {:induction false} GivenNone(es: seq<Edit>, ws: seq<FileRange>, size: nat)
    ensures Given(es, ws, size, 0) == 0
  {
  }
}
