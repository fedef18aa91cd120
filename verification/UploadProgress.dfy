/** Upload body streams that share one progress reporter: retries send the same bytes again, the
reporter's high-water mark keeps them from being counted twice. */
module UploadProgress {
  import opened CacheFile
  import opened Lists
  import opened Wrappers

  // ---------------------------------------------------------------- the objects

  /** The high-water mark, and every delta handed to the callbacks. */
  class StreamProgressReporter {
    const totalIfKnown: nat
    var bytesReported: nat
    var calls: seq<(nat, nat, nat)>

    constructor (total: nat)
      ensures totalIfKnown == total && bytesReported == 0 && calls == []
    {
      totalIfKnown, bytesReported, calls := total, 0, [];
    }

    /** Reports only what exceeds the mark, as (delta, completed, total). */
    method ReportProgress(newCompleted: nat)
      modifies this
      ensures bytesReported == Max(old(bytesReported), newCompleted)
      ensures calls == old(calls) + NewCalls(totalIfKnown, old(bytesReported), newCompleted)
    {
      var oldCompleted := bytesReported;
      bytesReported := Max(bytesReported, newCompleted);
      if oldCompleted >= newCompleted {
        return;
      }
      var delta := newCompleted - oldCompleted;
      calls := calls + [(delta, newCompleted, Max(totalIfKnown, newCompleted))];
    }
  }

  class UploadProgressStream {
    const data: Bytes
    const blockSize: nat
    const reporter: StreamProgressReporter
    var bytesSent: nat

    ghost predicate Valid()
      reads this
    {
      bytesSent <= |data| && blockSize > 0
    }

    constructor (data: Bytes, blockSize: nat, reporter: StreamProgressReporter)
      requires blockSize > 0
      ensures Valid() && this.data == data && this.blockSize == blockSize && this.reporter == reporter && bytesSent == 0
    {
      this.data, this.blockSize, this.reporter, this.bytesSent := data, blockSize, reporter, 0;
    }

    /** Hands out the next block, after reporting the ones before it. */
    method PollNext() returns (chunk: Option<Bytes>)
      requires Valid()
      modifies this`bytesSent, reporter
      ensures Valid()
      ensures bytesSent == NextSent(|data|, blockSize, old(bytesSent))
      ensures chunk == if old(bytesSent) == |data| then None else Some(data[old(bytesSent)..bytesSent])
      ensures reporter.bytesReported == Max(old(reporter.bytesReported), Moved(|data|, old(bytesSent)))
      ensures reporter.calls == old(reporter.calls)
                                + NewCalls(reporter.totalIfKnown, old(reporter.bytesReported),
                                           Moved(|data|, old(bytesSent)))
      ensures chunk.Some? ==> chunk.value != [] && |chunk.value| <= blockSize
    {
      if bytesSent == |data| {
        return None;
      }
      if bytesSent != 0 {
        reporter.ReportProgress(bytesSent);
      }
      var start := bytesSent;
      var end := Min(bytesSent + blockSize, |data|);
      bytesSent := end;
      chunk := Some(data[start..end]);
    }

    /** Reports the last block as well. */
    method Drop()
      requires Valid()
      modifies reporter
      ensures reporter.bytesReported == Max(old(reporter.bytesReported), bytesSent)
      ensures reporter.calls == old(reporter.calls)
                                + NewCalls(reporter.totalIfKnown, old(reporter.bytesReported), bytesSent)
    {
      reporter.ReportProgress(bytesSent);
    }
  }

  /** How far a stream has handed out bytes after one more poll. */
  function NextSent(size: nat, block: nat, sent: nat): nat
    requires sent <= size
  {
    Min(sent + block, size)
  }

  /** What a poll reports: the blocks before the one it hands out; a drained stream reports nothing. */
  function Moved(size: nat, sent: nat): nat {
    if sent == size then 0 else sent
  }

  /** The callback calls a report leads to: (delta, completed, total), if it exceeds the mark. */
  function NewCalls(total: nat, mark: nat, n: nat): seq<(nat, nat, nat)> {
    if n <= mark then [] else [(n - mark, n, Max(total, n))]
  }

  /** How far a stream is after `n` polls. */
  function SentAfter(size: nat, block: nat, n: nat): (r: nat)
    ensures r <= size
  {
    if n == 0 then 0 else NextSent(size, block, SentAfter(size, block, n - 1))
  }

  /** With a positive block size, polling drains the stream. */
  lemma {:induction false} PollingDrains(size: nat, block: nat, n: nat)
    requires block > 0
    ensures SentAfter(size, block, n) >= Min(n, size)
    ensures n >= size ==> SentAfter(size, block, n) == size
  {
    if n > 0 {
      PollingDrains(size, block, n - 1);
    }
  }

  // ---------------------------------------------------------------- runs of many streams

  /** One stream: what it handed out so far, and whether it was dropped. */
  datatype Stream = Stream(sent: nat, chunks: seq<Bytes>, dropped: bool)

  /** All streams over the same data, the shared mark, the deltas computed but not yet handed to a
  callback, and those handed over. */
  datatype Upload = Upload(data: Bytes, block: nat, mark: nat, pending: seq<nat>, delivered: seq<nat>,
      streams: seq<Stream>)

  datatype Step = Open | Poll(i: nat) | Close(i: nat) | Deliver(j: nat)

  /** Raising the mark is one atomic step; the callback comes later. */
  function Raise(u: Upload, n: nat): Upload {
    if n <= u.mark then u else u.(mark := n, pending := u.pending + [n - u.mark])
  }

  predicate Enabled(u: Upload, s: Step) {
    match s
    case Open => true
    case Poll(i) => i < |u.streams| && !u.streams[i].dropped && u.streams[i].sent <= |u.data|
    case Close(i) => i < |u.streams| && !u.streams[i].dropped
    case Deliver(j) => j < |u.pending|
  }

  function Apply(u: Upload, s: Step): Upload
    requires Enabled(u, s)
  {
    match s
    case Open => u.(streams := u.streams + [Stream(0, [], false)])
    case Poll(i) =>
      var st := u.streams[i];
      if st.sent == |u.data| then u
      else
        var end := NextSent(|u.data|, u.block, st.sent);
        var r := if st.sent != 0 then Raise(u, st.sent) else u;
        r.(streams := u.streams[i := Stream(end, st.chunks + [u.data[st.sent..end]], false)])
    case Close(i) =>
      Raise(u, u.streams[i].sent).(streams := u.streams[i := u.streams[i].(dropped := true)])
    case Deliver(j) =>
      u.(pending := u.pending[..j] + u.pending[j + 1..], delivered := u.delivered + [u.pending[j]])
  }

  /** The deltas among callback arguments. */
  function DeltasOf(calls: seq<(nat, nat, nat)>): (r: seq<nat>)
    ensures |r| == |calls|
  {
    seq(|calls|, i requires 0 <= i < |calls| => calls[i].0)
  }

  /** Raising the mark and handing over the callback at once. */
  function RaiseNow(u: Upload, n: nat): Upload {
    var r := Raise(u, n);
    if r.pending == [] then r else Apply(r, Deliver(0))
  }

  lemma {:induction false} RaiseIsReport(u: Upload, n: nat, total: nat)
    requires u.pending == []
    ensures RaiseNow(u, n)
            == u.(mark := Max(u.mark, n), delivered := u.delivered + DeltasOf(NewCalls(total, u.mark, n)))
  {
    if n > u.mark {
      var d := n - u.mark;
      assert u.pending + [d] == [d] && [d][..0] + [d][1..] == [];
      assert DeltasOf(NewCalls(total, u.mark, n)) == [d];
    } else {
      assert u.delivered + [] == u.delivered;
    }
  }

  /** What `UploadProgressStream.PollNext` promises is a poll step followed by its callback. */
  lemma {:induction false} PollIsStep(u: Upload, i: nat, total: nat)
    requires Enabled(u, Poll(i)) && u.pending == []
    ensures var v, st, size := Apply(u, Poll(i)), u.streams[i], |u.data|;
            var r := if v.pending == [] then v else Apply(v, Deliver(0));
            && r.mark == Max(u.mark, Moved(size, st.sent))
            && r.delivered == u.delivered + DeltasOf(NewCalls(total, u.mark, Moved(size, st.sent)))
            && r.pending == []
            && r.streams[i].sent == NextSent(size, u.block, st.sent)
            && r.streams[i].chunks == st.chunks + (if st.sent == size then [] else [u.data[st.sent..r.streams[i].sent]])
            && forall j :: 0 <= j < |u.streams| && j != i ==> r.streams[j] == u.streams[j]
  {
    var st := u.streams[i];
    if st.sent == |u.data| {
      RaiseIsReport(u, 0, total);
      assert st.chunks + [] == st.chunks;
    } else {
      RaiseIsReport(u, st.sent, total);
    }
  }

  /** What `UploadProgressStream.Drop` promises is a close step followed by its callback. */
  lemma {:induction false} DropIsStep(u: Upload, i: nat, total: nat)
    requires Enabled(u, Close(i)) && u.pending == []
    ensures var v, st := Apply(u, Close(i)), u.streams[i];
            var r := if v.pending == [] then v else Apply(v, Deliver(0));
            && r.mark == Max(u.mark, st.sent)
            && r.delivered == u.delivered + DeltasOf(NewCalls(total, u.mark, st.sent))
            && r.pending == []
            && r.streams == u.streams[i := st.(dropped := true)]
  {
    RaiseIsReport(u, u.streams[i].sent, total);
  }

  function Start(data: Bytes, block: nat): Upload {
    Upload(data, block, 0, [], [], [])
  }

  ghost predicate Reachable(u: Upload, steps: seq<Step>)
    decreases |steps|
  {
    if steps == [] then u == Start(u.data, u.block)
    else
      var n := |steps| - 1;
      exists before: Upload ::
        Reachable(before, steps[..n]) && Enabled(before, steps[n]) && u == Apply(before, steps[n])
  }

  /** The furthest byte any stream handed out. */
  function Furthest(streams: seq<Stream>): (r: nat)
    ensures forall i :: 0 <= i < |streams| ==> streams[i].sent <= r
    ensures r > 0 ==> exists i :: 0 <= i < |streams| && streams[i].sent == r
  {
    if streams == [] then 0 else Max(Furthest(streams[..|streams| - 1]), streams[|streams| - 1].sent)
  }

  predicate AllPositive(ds: seq<nat>) {
    forall i :: 0 <= i < |ds| ==> ds[i] > 0
  }

  ghost predicate StreamOk(u: Upload, st: Stream) {
    && st.sent <= |u.data|
    && Concat(st.chunks) == u.data[..st.sent]
    && (st.dropped ==> st.sent <= u.mark)
  }

  ghost predicate Inv(u: Upload) {
    && Sum(u.pending) + Sum(u.delivered) == u.mark
    && AllPositive(u.pending) && AllPositive(u.delivered)
    && u.mark <= Furthest(u.streams)
    && forall i :: 0 <= i < |u.streams| ==> StreamOk(u, u.streams[i])
  }

  lemma {:induction false} SumWithout(ds: seq<nat>, j: nat)
    requires j < |ds|
    ensures Sum(ds[..j] + ds[j + 1..]) == Sum(ds) - ds[j]
    decreases |ds|
  {
    var n := |ds| - 1;
    if j == n {
      assert ds[..j] + ds[j + 1..] == ds[..n];
    } else {
      SumWithout(ds[..n], j);
      assert ds[..j] + ds[j + 1..] == (ds[..n][..j] + ds[..n][j + 1..]) + [ds[n]];
      SumSnoc(ds[..n][..j] + ds[..n][j + 1..], ds[n]);
    }
  }

  lemma {:induction false} RaiseKeeps(u: Upload, n: nat)
    requires Inv(u) && n <= Furthest(u.streams)
    ensures Inv(Raise(u, n)) && Raise(u, n).mark == Max(u.mark, n)
    ensures Raise(u, n).streams == u.streams && Raise(u, n).data == u.data && Raise(u, n).block == u.block
  {
    hide Furthest;
    if n > u.mark {
      SumSnoc(u.pending, n - u.mark);
    }
    assert forall st :: StreamOk(u, st) ==> StreamOk(Raise(u, n), st);
  }

  /** Replacing a stream by one that handed out at least as much keeps the invariant. */
  lemma {:induction false} StreamKeeps(u: Upload, i: nat, st: Stream)
    requires Inv(u) && i < |u.streams| && StreamOk(u, st) && u.streams[i].sent <= st.sent
    ensures Inv(u.(streams := u.streams[i := st]))
  {
    var v := u.(streams := u.streams[i := st]);
    assert u.mark <= Furthest(v.streams) by {
      if u.mark > 0 {
        var k :| 0 <= k < |u.streams| && u.streams[k].sent == Furthest(u.streams);
        assert v.streams[k].sent >= u.streams[k].sent;
      }
    }
    assert forall s :: StreamOk(u, s) ==> StreamOk(v, s);
  }

  lemma {:induction false} PollKeeps(u: Upload, i: nat)
    requires Inv(u) && Enabled(u, Poll(i))
    ensures Inv(Apply(u, Poll(i)))
  {
    hide Furthest, Sum, Concat;
    var st := u.streams[i];
    if st.sent != |u.data| {
      var end := NextSent(|u.data|, u.block, st.sent);
      var chunk := u.data[st.sent..end];
      RaiseKeeps(u, st.sent);
      var r := if st.sent != 0 then Raise(u, st.sent) else u;
      ConcatSnoc(st.chunks, chunk);
      assert StreamOk(u, st);
      assert u.data[..st.sent] + chunk == u.data[..end];
      StreamKeeps(r, i, Stream(end, st.chunks + [chunk], false));
    }
  }

  lemma {:induction false} OpenKeeps(u: Upload)
    requires Inv(u)
    ensures Inv(Apply(u, Open))
  {
    var v := Apply(u, Open);
    assert v.streams[..|u.streams|] == u.streams;
    assert StreamOk(v, Stream(0, [], false));
    assert forall st :: StreamOk(u, st) ==> StreamOk(v, st);
  }

  lemma {:induction false} DeliverKeeps(u: Upload, j: nat)
    requires Inv(u) && Enabled(u, Deliver(j))
    ensures Inv(Apply(u, Deliver(j)))
  {
    hide Furthest, Concat, Sum;
    var v := Apply(u, Deliver(j));
    SumWithout(u.pending, j);
    SumSnoc(u.delivered, u.pending[j]);
    assert forall st :: StreamOk(u, st) ==> StreamOk(v, st);
  }

  lemma {:induction false} CloseKeeps(u: Upload, i: nat)
    requires Inv(u) && Enabled(u, Close(i))
    ensures Inv(Apply(u, Close(i)))
  {
    hide Furthest, Concat, Sum;
    var st := u.streams[i];
    assert StreamOk(u, st);
    RaiseKeeps(u, st.sent);
    StreamKeeps(Raise(u, st.sent), i, st.(dropped := true));
  }

  lemma {:induction false} StepKeeps(u: Upload, s: Step)
    requires Inv(u) && Enabled(u, s)
    ensures Inv(Apply(u, s))
  {
    hide Inv, Apply;
    match s
    case Open => OpenKeeps(u);
    case Poll(i) => PollKeeps(u, i);
    case Close(i) => CloseKeeps(u, i);
    case Deliver(j) => DeliverKeeps(u, j);
  }

  lemma {:induction false} ReachableInv(u: Upload, steps: seq<Step>)
    requires Reachable(u, steps)
    ensures Inv(u)
    decreases |steps|
  {
    hide Inv, Apply;
    if steps == [] {
      StartInv(u.data, u.block);
    } else {
      var n := |steps| - 1;
      var before: Upload :| Reachable(before, steps[..n]) && Enabled(before, steps[n]) && u == Apply(before, steps[n]);
      ReachableInv(before, steps[..n]);
      StepKeeps(before, steps[n]);
    }
  }

  lemma {:induction false} StartInv(data: Bytes, block: nat)
    ensures Inv(Start(data, block))
  {
  }

  /** Every stream dropped and every callback run. */
  predicate Finished(u: Upload) {
    u.pending == [] && forall i :: 0 <= i < |u.streams| ==> u.streams[i].dropped
  }

  /** However the streams interleave, every reported delta is positive and, once all are dropped, the
  deltas sum to the furthest byte handed out: the whole data exactly when some stream handed it all out. */
  lemma {:induction false} ReportedIsFurthest(u: Upload, steps: seq<Step>)
    requires Reachable(u, steps)
    ensures AllPositive(u.delivered) && Sum(u.delivered) <= Furthest(u.streams) <= |u.data|
    ensures Finished(u) ==> Sum(u.delivered) == Furthest(u.streams)
    ensures Finished(u) && u.data != [] ==>
              (Sum(u.delivered) == |u.data| <==> exists i :: 0 <= i < |u.streams| && u.streams[i].sent == |u.data|)
  {
    ReachableInv(u, steps);
    var f := Furthest(u.streams);
    if f > 0 {
      var k :| 0 <= k < |u.streams| && u.streams[k].sent == f;
      assert StreamOk(u, u.streams[k]);
    }
  }

  /** What a stream handed out is the start of the data; a drained stream handed out all of it. */
  lemma {:induction false} DrainedIsData(u: Upload, steps: seq<Step>, i: nat)
    requires Reachable(u, steps) && i < |u.streams|
    ensures u.streams[i].sent <= |u.data| && Concat(u.streams[i].chunks) == u.data[..u.streams[i].sent]
    ensures u.streams[i].sent == |u.data| ==> Concat(u.streams[i].chunks) == u.data
  {
    ReachableInv(u, steps);
    assert StreamOk(u, u.streams[i]);
  }
}
