/** Uploading a shard through the V2 or V1 interface, with fallback, and the progress it reports. */
module ShardUpload {
  import opened Lists
  import opened CacheFile
  import opened UploadProgress
  import Ndjson = ShardNdjson
  import opened Wrappers

  /** What the caller's progress callback is told. */
  datatype Progress = Transfer(bytes: nat) | DecrementTransfer(bytes: nat) | Response(event: Ndjson.Event)

  function Change(p: Progress): int {
    match p
    case Transfer(n) => n as int
    case DecrementTransfer(n) => 0 - n
    case Response(_) => 0
  }

  /** Bytes reported minus bytes taken back. */
  function Net(log: seq<Progress>): int {
    if log == [] then 0 else Net(log[..|log| - 1]) + Change(log[|log| - 1])
  }

  /** What reaches the upload while its retry loop runs: a delta from the body reporter, or an event
  from the response reader. */
  datatype Signal = Moved(delta: nat) | Event(event: Ndjson.Event)

  function Deltas(signals: seq<Signal>): seq<nat> {
    if signals == [] then []
    else
      var last := signals[|signals| - 1];
      Deltas(signals[..|signals| - 1]) + if last.Moved? then [last.delta] else []
  }

  function Emit(s: Signal): Progress {
    if s.Moved? then Transfer(s.delta) else Response(s.event)
  }

  function Emitted(signals: seq<Signal>): seq<Progress> {
    if signals == [] then [] else Emitted(signals[..|signals| - 1]) + [Emit(signals[|signals| - 1])]
  }

  lemma {:induction false} SignalNext(signals: seq<Signal>, i: nat)
    requires i < |signals|
    ensures Emitted(signals[..i + 1]) == Emitted(signals[..i]) + [Emit(signals[i])]
    ensures Sum(Deltas(signals[..i + 1]))
            == Sum(Deltas(signals[..i])) + if signals[i].Moved? then signals[i].delta else 0
  {
    hide Sum;
    var next := signals[..i + 1];
    assert next[..i] == signals[..i];
    if signals[i].Moved? {
      SumSnoc(Deltas(signals[..i]), signals[i].delta);
    } else {
      assert Deltas(signals[..i]) + [] == Deltas(signals[..i]);
    }
  }

  /** The deltas of a run of body streams over the data, all of them dropped when the retry loop returns. */
  ghost predicate BodyRun(data: Bytes, signals: seq<Signal>) {
    exists u: Upload, steps: seq<Step> ::
      Reachable(u, steps) && Finished(u) && u.data == data && u.delivered == Deltas(signals)
  }

  /** The outcome of a request: success, or an error that may carry a status. */
  datatype Outcome = Succeeded | Failed(status: Option<nat>)

  /** What one V2 upload adds to the log: a failure takes back what it had reported. */
  function V2Log(signals: seq<Signal>, outcome: Outcome): seq<Progress> {
    var sum := Sum(Deltas(signals));
    Emitted(signals) + if outcome.Failed? && sum > 0 then [DecrementTransfer(sum)] else []
  }

  lemma {:induction false} NetSnoc(log: seq<Progress>, p: Progress)
    ensures Net(log + [p]) == Net(log) + Change(p)
  {
    assert (log + [p])[..|log|] == log;
  }

  lemma {:induction false} NetAppend(a: seq<Progress>, b: seq<Progress>)
    ensures Net(a + b) == Net(a) + Net(b)
  {
    if b == [] {
      assert a + b == a;
    } else {
      var n := |b| - 1;
      NetAppend(a, b[..n]);
      NetSnoc(a + b[..n], b[n]);
      assert a + b == a + b[..n] + [b[n]];
    }
  }

  /** Before any failure is undone, the log is what was moved so far. */
  lemma {:induction false} EmittedNet(signals: seq<Signal>)
    ensures Net(Emitted(signals)) == Sum(Deltas(signals)) && |Emitted(signals)| == |signals|
  {
    if signals != [] {
      var n := |signals| - 1;
      EmittedNet(signals[..n]);
      NetSnoc(Emitted(signals[..n]), Emit(signals[n]));
      SignalNext(signals, n);
      assert signals[..n + 1] == signals;
    }
  }

  lemma {:induction false} EmittedPrefix(signals: seq<Signal>, i: nat)
    requires i <= |signals|
    ensures |Emitted(signals)| == |signals| && Emitted(signals)[..i] == Emitted(signals[..i])
    ensures Sum(Deltas(signals[..i])) <= Sum(Deltas(signals))
    decreases |signals| - i
  {
    hide Net, Emitted, Deltas, Sum;
    EmittedNet(signals);
    if i == |signals| {
      assert signals[..i] == signals;
    } else {
      EmittedPrefix(signals, i + 1);
      SignalNext(signals, i);
      EmittedNet(signals[..i]);
      assert Emitted(signals)[..i] == Emitted(signals)[..i + 1][..i];
    }
  }

  /** Net progress of a V2 upload: never negative, never above the size, nothing left after a failure,
  and after a success the furthest byte that was sent. */
  lemma {:induction false} V2Net(data: Bytes, signals: seq<Signal>, outcome: Outcome, i: nat)
    requires BodyRun(data, signals) && i <= |V2Log(signals, outcome)|
    ensures 0 <= Net(V2Log(signals, outcome)[..i]) <= |data|
    ensures outcome.Failed? ==> Net(V2Log(signals, outcome)) == 0
    ensures outcome.Succeeded? ==> Net(V2Log(signals, outcome)) == Sum(Deltas(signals))
  {
    hide Net, Emitted, Deltas, Sum;
    BodyWithin(data, signals);
    var log, sum := Emitted(signals), Sum(Deltas(signals));
    EmittedNet(signals);
    NetSnoc(log, DecrementTransfer(sum));
    assert log + [] == log;
    var all := V2Log(signals, outcome);
    if i <= |signals| {
      EmittedPrefix(signals, i);
      EmittedNet(signals[..i]);
      assert all[..i] == log[..i];
    } else {
      assert all[..i] == all;
    }
  }

  lemma {:induction false} BodyWithin(data: Bytes, signals: seq<Signal>)
    requires BodyRun(data, signals)
    ensures Sum(Deltas(signals)) <= |data|
  {
    var u: Upload, steps: seq<Step> :|
      Reachable(u, steps) && Finished(u) && u.data == data && u.delivered == Deltas(signals);
    ReportedIsFurthest(u, steps);
  }

  lemma {:induction false} SignalStart(signals: seq<Signal>)
    ensures Emitted(signals[..0]) == [] && Sum(Deltas(signals[..0])) == 0
  {
  }

  // ---------------------------------------------------------------- the client

  /** What V1 reports after a success. */
  function V1Log(size: nat): seq<Progress> {
    [Transfer(size), Response(Ndjson.Result)]
  }

  lemma {:induction false} V1Net(size: nat, i: nat)
    requires i <= 2
    ensures 0 <= Net(V1Log(size)[..i]) && Net(V1Log(size)) == size
  {
    var t, r := [Transfer(size)], Response(Ndjson.Result);
    assert V1Log(size)[..2] == V1Log(size) == t + [r] && V1Log(size)[..1] == t && V1Log(size)[..0] == [];
    NetSnoc([], Transfer(size)); NetSnoc(t, r);
    assert [] + t == t;
  }

  /** A reported log that never runs negative and ends at `net`. */
  ghost predicate Balanced(log: seq<Progress>, net: int) {
    && (forall i :: 0 <= i <= |log| ==> Net(log[..i]) >= 0)
    && Net(log) == net
  }

  lemma {:induction false} BalancedAppend(a: seq<Progress>, m: int, b: seq<Progress>, n: int)
    requires Balanced(a, m) && Balanced(b, n)
    ensures Balanced(a + b, m + n)
  {
    hide Net;
    NetAppend(a, b);
    forall i | 0 <= i <= |a + b| ensures Net((a + b)[..i]) >= 0 {
      if i <= |a| {
        assert (a + b)[..i] == a[..i];
      } else {
        assert (a + b)[..i] == a + b[..i - |a|];
        NetAppend(a, b[..i - |a|]);
        assert a[..|a|] == a;
      }
    }
  }

  lemma {:induction false} V2Balanced(data: Bytes, signals: seq<Signal>, outcome: Outcome)
    requires BodyRun(data, signals)
    ensures Balanced(V2Log(signals, outcome), if outcome.Failed? then 0 else Sum(Deltas(signals)))
    ensures Sum(Deltas(signals)) <= |data|
  {
    hide V2Log, Net, BodyRun;
    BodyWithin(data, signals);
    V2Net(data, signals, outcome, 0);
    var log := V2Log(signals, outcome);
    forall i | 0 <= i <= |log| ensures Net(log[..i]) >= 0 { V2Net(data, signals, outcome, i); }
  }

  lemma {:induction false} V1Balanced(size: nat)
    ensures Balanced(V1Log(size), size)
  {
    V1Net(size, 0); V1Net(size, 1); V1Net(size, 2);
  }

  lemma {:induction false} EmptyBalanced()
    ensures Balanced([], 0)
  {
  }

  class RemoteClient {
    /** 0 until a version is known to work. */
    var detectedShardApiVersion: nat
    var log: seq<Progress>

    constructor ()
      ensures detectedShardApiVersion == 0 && log == []
    {
      detectedShardApiVersion, log := 0, [];
    }

    /** V1 has no progress stream: a success reports the whole transfer and a result. */
    method UploadShardV1(size: nat, outcome: Outcome, hasCallback: bool) returns (ok: bool)
      modifies this`log
      ensures ok == outcome.Succeeded?
      ensures log == old(log) + if ok && hasCallback then V1Log(size) else []
    {
      if outcome.Failed? {
        return false;
      }
      if hasCallback {
        log := log + [Transfer(size)];
        log := log + [Response(Ndjson.Result)];
      }
      ok := true;
    }

    /** V2 reports as it goes and, on failure, takes back what it reported. */
    method UploadShardV2(signals: seq<Signal>, outcome: Outcome, hasCallback: bool) returns (ok: bool)
      modifies this`log
      ensures ok == outcome.Succeeded?
      ensures log == old(log) + if hasCallback then V2Log(signals, outcome) else []
    {
      hide Sum, Deltas, Emitted;
      var transferred := 0;
      SignalStart(signals);
      for i := 0 to |signals|
        invariant hasCallback ==> log == old(log) + Emitted(signals[..i]) && transferred == Sum(Deltas(signals[..i]))
        invariant !hasCallback ==> log == old(log) && transferred == 0
      {
        SignalNext(signals, i);
        match signals[i]
        case Moved(delta) =>
          if hasCallback {
            transferred := transferred + delta;
            log := log + [Transfer(delta)];
          }
        case Event(event) =>
          if hasCallback {
            log := log + [Response(event)];
          }
      }
      assert signals[..|signals|] == signals;
      if outcome.Failed? {
        var already := transferred;
        if already > 0 && hasCallback {
          log := log + [DecrementTransfer(already)];
        }
        return false;
      }
      ok := true;
    }

    /** Prefers V2, falls back to V1 when the server does not have V2, and remembers what worked. */
    method UploadShard(forced: Option<nat>, data: Bytes, signals: seq<Signal>, v2: Outcome, permit: bool, v1: Outcome,
                       hasCallback: bool) returns (ok: bool, tried: seq<nat>, ghost net: int,
                           ghost added: seq<Progress>)
      requires BodyRun(data, signals)
      modifies this
      ensures log == old(log) + added && Balanced(added, net)
      ensures !hasCallback ==> added == []
      ensures !ok ==> net == 0
      ensures ok && hasCallback && tried != [2] ==> net == |data|
      ensures ok && hasCallback && tried == [2] ==> net == Sum(Deltas(signals)) <= |data|
      // the version tried first: the forced one, else the one known to work, else 2; no other than 1 and 2
      ensures var known := old(detectedShardApiVersion);
              var version := if forced.Some? then forced.value else if known != 0 then known else 2;
              if version in {1, 2} then tried != [] && tried[0] == version else tried == []
      ensures tried in {[], [1], [2], [2, 1]}
      ensures tried == [2, 1] <==>
                && forced.None? && old(detectedShardApiVersion) in {0, 2}
                && v2 in {Failed(Some(404)), Failed(Some(501))} && permit
      ensures ok <==> (tried == [2] && v2.Succeeded?) || (tried in {[1], [2, 1]} && v1.Succeeded?)
      ensures detectedShardApiVersion == if ok && forced.None? && tried[0] == 2 then tried[|tried| - 1]
                                         else old(detectedShardApiVersion)
    {
      hide Balanced, Net, V1Log, V2Log, BodyRun, Deltas, Sum;
      EmptyBalanced();
      var version := if forced.Some? then forced.value
                     else if detectedShardApiVersion != 0 then detectedShardApiVersion else 2;
      if version == 2 {
        V2Balanced(data, signals, v2);
        var sent := UploadShardV2(signals, v2, hasCallback);
        ghost var first := if hasCallback then V2Log(signals, v2) else [];
        if sent {
          if forced.None? {
            detectedShardApiVersion := 2;
          }
          return true, [2], if hasCallback then Sum(Deltas(signals)) else 0, first;
        }
        if forced.None? && (v2.status == Some(404) || v2.status == Some(501)) {
          if !permit {
            return false, [2], 0, first;
          }
          V1Balanced(|data|);
          ok := UploadShardV1(|data|, v1, hasCallback);
          ghost var second := if ok && hasCallback then V1Log(|data|) else [];
          ghost var gained := if ok && hasCallback then |data| else 0;
          BalancedAppend(first, 0, second, gained);
          assert old(log) + first + second == old(log) + (first + second);
          if ok {
            detectedShardApiVersion := 1;
          }
          return ok, [2, 1], gained, first + second;
        }
        return false, [2], 0, first;
      }
      if version == 1 {
        V1Balanced(|data|);
        ok := UploadShardV1(|data|, v1, hasCallback);
        return ok, [1], if ok && hasCallback then |data| else 0, if ok && hasCallback then V1Log(|data|) else [];
      }
      assert old(log) + [] == log;
      return false, [], 0, [];
    }
  }
}
