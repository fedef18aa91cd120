/** The ranges an upload asks the server about: its edits widened to whole segments and merged. */
module EditQuery {
  import opened Lists
  import opened ChunkWindows
  import opened RangeEdits
  import opened EditWindows

  // ---------------------------------------------------------------- segment edges

  predicate NoneEmpty(segments: seq<nat>) {
    forall i :: 0 <= i < |segments| ==> segments[i] > 0
  }

  /** Strictly increasing edges from 0 to the size of the file. */
  predicate Edges(b: seq<nat>, size: nat) {
    && |b| >= 2 && b[0] == 0 && b[|b| - 1] == size
    && forall i, j :: 0 <= i < j < |b| ==> b[i] < b[j]
  }

  /** The first byte of every segment, then the size of the file. */
  method SegmentStarts(segments: seq<nat>) returns (b: seq<nat>)
    requires NoneEmpty(segments) && segments != []
    ensures |b| == |segments| + 1 && Edges(b, Sum(segments))
    ensures forall i :: 0 <= i < |b| ==> b[i] == Sum(segments[..i])
  {
    b := [0];
    var acc := 0;
    for k := 0 to |segments|
      invariant |b| == k + 1 && acc == b[k] && b[0] == 0
      invariant forall i :: 0 <= i <= k ==> b[i] == Sum(segments[..i])
      invariant forall i, j :: 0 <= i < j <= k ==> b[i] < b[j]
    {
      assert segments[..k + 1][..k] == segments[..k];
      acc := acc + segments[k];
      b := b + [acc];
    }
    assert segments[..|segments|] == segments;
  }

  /** How many leading edges satisfy `<= byte`, or `< byte`. */
  function CountUpTo(b: seq<nat>, byte: nat, strict: bool): (n: nat)
    ensures n <= |b|
    ensures forall i :: 0 <= i < n ==> if strict then b[i] < byte else b[i] <= byte
    ensures n < |b| ==> if strict then b[n] >= byte else b[n] > byte
    decreases |b|
  {
    if b != [] && (if strict then b[0] < byte else b[0] <= byte) then 1 + CountUpTo(b[1..], byte, strict) else 0
  }

  /** The largest edge at or before a byte. */
  function SnapStart(b: seq<nat>, byte: nat, size: nat): (r: nat)
    requires Edges(b, size)
    ensures r <= byte && r in b && forall i :: 0 <= i < |b| && b[i] <= byte ==> b[i] <= r
  {
    b[CountUpTo(b, byte, false) - 1]
  }

  /** The smallest edge at or after a byte. */
  function SnapEnd(b: seq<nat>, byte: nat, size: nat): (r: nat)
    requires Edges(b, size) && byte <= size
    ensures byte <= r <= size && r in b && forall i :: 0 <= i < |b| && b[i] >= byte ==> r <= b[i]
  {
    b[CountUpTo(b, byte, true)]
  }

  /** The segments around an edit: an insertion takes the segment it falls into, at the end the last one. */
  function Snap(b: seq<nat>, e: Edit, size: nat): (r: FileRange)
    requires Edges(b, size) && e.start <= e.end <= size
    ensures r.start < r.end <= size && r.start <= e.start && e.end <= r.end
    ensures e.start == e.end ==> e.start < r.end || r.end == size
    ensures r.start in b && r.end in b
  {
    if e.start == e.end then
      if e.start == size then FileRange(b[|b| - 2], b[|b| - 1])
      else FileRange(SnapStart(b, e.start, size), SnapEnd(b, e.start + 1, size))
    else FileRange(SnapStart(b, e.start, size), SnapEnd(b, e.end, size))
  }

  /** No narrower pair of edges holds the edit. */
  lemma {:induction false} SnapNarrowest(b: seq<nat>, e: Edit, size: nat, x: nat, y: nat)
    requires Edges(b, size) && e.start <= e.end <= size
    requires x in b && y in b && x < y && LiesIn(e, FileRange(x, y), size)
    ensures x <= Snap(b, e, size).start && Snap(b, e, size).end <= y
  {
    hide CountUpTo;
    var n := |b|;
    assert forall i :: 0 <= i < n && b[i] < size ==> b[i] <= b[n - 2];
    assert forall i :: 0 <= i < n ==> b[i] <= size;
  }

  lemma {:induction false} SnapMonotone(b: seq<nat>, e: Edit, f: Edit, size: nat)
    requires Edges(b, size) && e.start <= e.end <= f.start <= f.end <= size
    ensures Snap(b, e, size).start <= Snap(b, f, size).start
  {
    hide CountUpTo;
    var n := |b|;
    assert forall i :: 0 <= i < n && b[i] < size ==> b[i] <= b[n - 2];
    if f.start == f.end == size && e.start < size {
      assert SnapStart(b, e.start, size) < size;
    }
  }

  function Snapped(b: seq<nat>, es: seq<Edit>, size: nat): (r: seq<FileRange>)
    requires Edges(b, size) && Fits(es, 0, size)
    ensures |r| == |es| && forall i :: 0 <= i < |es| ==> r[i] == Snap(b, es[i], size)
  {
    seq(|es|, i requires 0 <= i < |es| => Snap(b, es[i], size))
  }

  // ---------------------------------------------------------------- merging

  predicate ByStart(rs: seq<FileRange>) {
    forall i, j :: 0 <= i < j < |rs| ==> rs[i].start <= rs[j].start
  }

  function PlaceRange(r: FileRange, rs: seq<FileRange>): seq<FileRange>
    decreases |rs|
  {
    if rs == [] || r.start <= rs[0].start then [r] + rs else [rs[0]] + PlaceRange(r, rs[1..])
  }

  function SortRanges(rs: seq<FileRange>): seq<FileRange>
    decreases |rs|
  {
    if rs == [] then [] else PlaceRange(rs[0], SortRanges(rs[1..]))
  }

  /** Snapped ranges are in order already, so sorting them changes nothing. */
  lemma {:induction false} SortSorted(rs: seq<FileRange>)
    requires ByStart(rs)
    ensures SortRanges(rs) == rs
    decreases |rs|
  {
    if rs != [] {
      SortSorted(rs[1..]);
      assert [rs[0]] + rs[1..] == rs;
    }
  }

  /** Merges each range into the last one kept if it touches it. */
  function Coalesced(kept: seq<FileRange>, rs: seq<FileRange>): seq<FileRange>
    decreases |rs|
  {
    if rs == [] then kept
    else
      var n := |kept| - 1;
      if kept != [] && rs[0].start <= kept[n].end then
        Coalesced(kept[n := kept[n].(end := Max(kept[n].end, rs[0].end))], rs[1..])
      else Coalesced(kept + [rs[0]], rs[1..])
  }

  method Coalesce(rs: seq<FileRange>) returns (kept: seq<FileRange>)
    ensures kept == Coalesced([], rs)
  {
    kept := [];
    for i := 0 to |rs|
      invariant Coalesced(kept, rs[i..]) == Coalesced([], rs)
    {
      assert rs[i..][1..] == rs[i + 1..];
      var n := |kept| - 1;
      if kept != [] && rs[i].start <= kept[n].end {
        kept := kept[n := kept[n].(end := Max(kept[n].end, rs[i].end))];
      } else {
        kept := kept + [rs[i]];
      }
    }
  }

  /** Not empty and inside the file. */
  predicate AllProper(rs: seq<FileRange>, size: nat) {
    forall i :: 0 <= i < |rs| ==> rs[i].start < rs[i].end <= size
  }

  predicate Covers(qs: seq<FileRange>, r: FileRange) {
    exists k :: 0 <= k < |qs| && qs[k].start <= r.start && r.end <= qs[k].end
  }

  /** Merged ranges are sorted, disjoint and inside the file, and cover every range they came from. */
  lemma {:induction false} CoalescedCovers(kept: seq<FileRange>, rs: seq<FileRange>, size: nat, r: FileRange)
    requires Sorted(kept) && AllProper(kept, size) && AllProper(rs, size) && ByStart(rs)
    requires kept != [] && rs != [] ==> kept[|kept| - 1].start <= rs[0].start
    ensures Sorted(Coalesced(kept, rs)) && AllProper(Coalesced(kept, rs), size)
    ensures Covers(kept, r) || r in rs ==> Covers(Coalesced(kept, rs), r)
    ensures kept != [] || rs != [] ==> Coalesced(kept, rs) != []
    decreases |rs|
  {
    hide Covers;
    if rs != [] {
      var n := |kept| - 1;
      if kept != [] && rs[0].start <= kept[n].end {
        var next := kept[n := kept[n].(end := Max(kept[n].end, rs[0].end))];
        CoverGrows(kept, n, next[n], r);
        CoverLast(next, rs[0]);
        CoalescedCovers(next, rs[1..], size, r);
      } else {
        CoverSnoc(kept, rs[0], r);
        CoverLast(kept + [rs[0]], rs[0]);
        CoalescedCovers(kept + [rs[0]], rs[1..], size, r);
      }
    }
  }

  /** Merging neither adds nor loses a byte. */
  lemma {:induction false} CoalescedBytes(kept: seq<FileRange>, rs: seq<FileRange>, p: nat)
    requires ByStart(rs) && (kept != [] && rs != [] ==> kept[|kept| - 1].start <= rs[0].start)
    ensures HasByte(Coalesced(kept, rs), p) <==> HasByte(kept, p) || HasByte(rs, p)
    decreases |rs|
  {
    hide HasByte;
    if rs == [] {
      HasByteOne(FileRange(0, 0), p);
    } else {
      var n, first, rest := |kept| - 1, rs[0], rs[1..];
      HasByteAppend([first], rest, p);
      HasByteOne(first, p);
      assert rs == [first] + rest;
      if kept != [] && first.start <= kept[n].end {
        var last := kept[n].(end := Max(kept[n].end, first.end));
        HasByteAppend(kept[..n], [kept[n]], p); HasByteAppend(kept[..n], [last], p);
        HasByteOne(kept[n], p); HasByteOne(last, p);
        assert kept == kept[..n] + [kept[n]] && kept[n := last] == kept[..n] + [last];
        CoalescedBytes(kept[n := last], rest, p);
      } else {
        HasByteAppend(kept, [first], p);
        CoalescedBytes(kept + [first], rest, p);
      }
    }
  }

  /** What was merged keeps apart: no two ranges left touch. */
  lemma {:induction false} CoalescedApart(kept: seq<FileRange>, rs: seq<FileRange>, i: nat)
    requires i + 1 < |Coalesced(kept, rs)| && forall j :: 0 <= j < |kept| - 1 ==> kept[j].end < kept[j + 1].start
    ensures Coalesced(kept, rs)[i].end < Coalesced(kept, rs)[i + 1].start
    decreases |rs|
  {
    if rs != [] {
      var n := |kept| - 1;
      if kept != [] && rs[0].start <= kept[n].end {
        CoalescedApart(kept[n := kept[n].(end := Max(kept[n].end, rs[0].end))], rs[1..], i);
      } else {
        CoalescedApart(kept + [rs[0]], rs[1..], i);
      }
    }
  }

  lemma {:induction false} CoverGrows(qs: seq<FileRange>, n: nat, q: FileRange, r: FileRange)
    requires n < |qs| && q.start == qs[n].start && qs[n].end <= q.end
    ensures Covers(qs, r) ==> Covers(qs[n := q], r)
  {
    if Covers(qs, r) {
      var k :| 0 <= k < |qs| && qs[k].start <= r.start && r.end <= qs[k].end;
      assert qs[n := q][k].start <= r.start && r.end <= qs[n := q][k].end;
    }
  }

  lemma {:induction false} CoverSnoc(qs: seq<FileRange>, q: FileRange, r: FileRange)
    ensures Covers(qs, r) ==> Covers(qs + [q], r)
  {
    if Covers(qs, r) {
      var k :| 0 <= k < |qs| && qs[k].start <= r.start && r.end <= qs[k].end;
      assert (qs + [q])[k] == qs[k];
    }
  }

  lemma {:induction false} CoverLast(qs: seq<FileRange>, r: FileRange)
    requires qs != [] && qs[|qs| - 1].start <= r.start && r.end <= qs[|qs| - 1].end
    ensures Covers(qs, r)
  {
  }

  // ---------------------------------------------------------------- the query

  function Query(b: seq<nat>, es: seq<Edit>, size: nat): seq<FileRange>
    requires Edges(b, size) && Fits(es, 0, size)
  {
    Coalesced([], SortRanges(Snapped(b, es, size)))
  }

  /** The query is what the server's builder asks for, and some range of it holds each edit. */
  lemma {:induction false} QueryHoldsEdits(b: seq<nat>, es: seq<Edit>, size: nat, i: nat) returns (k: nat)
    requires Edges(b, size) && Fits(es, 0, size) && i < |es|
    ensures var q := Query(b, es, size);
            && Sorted(q) && AllProper(q, size) && q != []
            && k < |q| && LiesIn(es[i], q[k], size)
  {
    hide CountUpTo, Coalesced, SortRanges, Edges, Snap;
    var rs := Snapped(b, es, size);
    forall x, y | 0 <= x < y < |rs| ensures rs[x].start <= rs[y].start {
      SnapMonotone(b, es[x], es[y], size);
    }
    SortSorted(rs);
    CoalescedCovers([], rs, size, rs[i]);
    var q := Query(b, es, size);
    assert Covers(q, rs[i]);
    k :| 0 <= k < |q| && q[k].start <= rs[i].start && rs[i].end <= q[k].end;
  }

  /** The query asks for exactly the bytes of the segments around edits. */
  lemma {:induction false} QueryBytes(b: seq<nat>, es: seq<Edit>, size: nat, p: nat)
    requires Edges(b, size) && Fits(es, 0, size)
    ensures HasByte(Query(b, es, size), p) <==>
              exists i :: 0 <= i < |es| && Snap(b, es[i], size).start <= p < Snap(b, es[i], size).end
  {
    hide CountUpTo, Coalesced, SortRanges, Edges, Snap;
    var rs := Snapped(b, es, size);
    forall x, y | 0 <= x < y < |rs| ensures rs[x].start <= rs[y].start {
      SnapMonotone(b, es[x], es[y], size);
    }
    SortSorted(rs);
    CoalescedBytes([], rs, p);
    HasByteOne(FileRange(0, 0), p);
    if HasByte(rs, p) {
      var i :| 0 <= i < |rs| && rs[i].start <= p < rs[i].end;
      assert Snap(b, es[i], size).start <= p < Snap(b, es[i], size).end;
    }
    if i :| 0 <= i < |es| && Snap(b, es[i], size).start <= p < Snap(b, es[i], size).end {
      assert rs[i].start <= p < rs[i].end;
    }
  }
}
