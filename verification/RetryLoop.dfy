/** The retry loop around one request and its connection permit. */
module RetryLoop {
  import opened Wrappers

  // ---------------------------------------------------------------- classifying a reply

  datatype Retriability = FatalStatus | Transient

  /** The policy switches of a retry wrapper. */
  datatype Policy = Policy(maxAttempts: nat, retryOn403: bool, expected416: bool, expected404: bool, noRetryOn429: bool)

  datatype Check = Pass | Retry | Abort

  function OnRequestSuccess(status: nat): (r: Option<Retriability>)
    ensures r.None? <==> 200 <= status < 300
  {
    if 500 <= status < 600 || status == 408 || status == 429 then Some(Transient)
    else if 200 <= status < 300 then None
    else Some(FatalStatus)
  }

  /** Client and server errors. */
  predicate IsErrorStatus(status: nat) {
    400 <= status < 600
  }

  function ProcessOkResponse(p: Policy, status: nat): (r: Check) {
    var retriability := OnRequestSuccess(status);
    if !IsErrorStatus(status) then Pass
    else if retriability.None? then Abort
    else
      match retriability.value
      case FatalStatus =>
        if status == 403 && p.retryOn403 then Retry
        else if status == 416 && p.expected416 then Abort
        else if status == 404 && p.expected404 then Abort
        else Abort
      case Transient =>
        if status == 429 && p.noRetryOn429 then Abort
        else if status == 501 then Abort
        else Retry
  }

  /** Which statuses end the request, are tried again, or reach the response handler: redirects and
  informational statuses do, although they are not successes. */
  lemma {:induction false} StatusTable(p: Policy, status: nat)
    ensures ProcessOkResponse(p, status) == Pass <==> status < 400 || status >= 600
    ensures ProcessOkResponse(p, status) == Retry <==>
              || status == 408
              || (status == 403 && p.retryOn403)
              || (status == 429 && !p.noRetryOn429)
              || (500 <= status < 600 && status != 501)
  {
  }

  /** No reply came; the transport error is transient, fatal or of unknown kind. */
  function ProcessErrorResponse(kind: Option<Retriability>): Check {
    if kind == Some(Transient) then Retry else Abort
  }

  // ---------------------------------------------------------------- one attempt

  datatype Reply = NoReply(kind: Option<Retriability>) | Reply(status: nat, length: Option<nat>)

  /** What the response handler makes of a response. */
  datatype Processed<T> = Done(value: T) | Retryable | Fatal

  /** One attempt: the reply and, if it gets that far, what the handler makes of it. */
  datatype Attempt<T> = Attempt(reply: Reply, processed: Processed<T>)

  function Outcome<T>(p: Policy, a: Attempt<T>): Processed<T> {
    var check := match a.reply
      case NoReply(kind) => ProcessErrorResponse(kind)
      case Reply(status, _) => ProcessOkResponse(p, status);
    match check
    case Pass => a.processed
    case Retry => Retryable
    case Abort => Fatal
  }

  /** What an attempt comes to, by its reply alone unless that passes: a transient transport error, a
  timeout, a throttled or a failing server are tried again, and everything else that is an error is not. */
  lemma {:induction false} OutcomeTable<T>(p: Policy, a: Attempt<T>)
    ensures a.reply.NoReply? ==> Outcome(p, a) == if a.reply.kind == Some(Transient) then Retryable else Fatal
    ensures a.reply.Reply? ==>
              var status := a.reply.status;
              Outcome(p, a) ==
              if status < 400 || status >= 600 then a.processed
              else if status == 408 || (status == 403 && p.retryOn403) || (status == 429 && !p.noRetryOn429)
                      || (status >= 500 && status != 501)
              then Retryable else Fatal
  {
    if a.reply.Reply? {
      StatusTable(p, a.reply.status);
    }
  }

  /** The announced length of a reply, 0 without a reply or an announcement. */
  function ReplyBytes<T>(a: Attempt<T>): (n: nat)
    ensures forall status, length :: a.reply == Reply(status, Some(length)) ==> n == length
    ensures a.reply.NoReply? || a.reply.length.None? ==> n == 0
  {
    if a.reply.Reply? && a.reply.length.Some? then a.reply.length.value else 0
  }

  // ---------------------------------------------------------------- the loop

  /** What the permit is told. */
  datatype PermitEvent = Starting | RetryableFailure | Completion(bytes: nat, ok: bool)

  /** `k` attempts that failed and were tried again. */
  function Rounds(k: nat): (r: seq<PermitEvent>)
    ensures |r| == 2 * k
    ensures forall i :: 0 <= i < k ==> r[2 * i] == Starting && r[2 * i + 1] == RetryableFailure
  {
    if k == 0 then [] else Rounds(k - 1) + [Starting, RetryableFailure]
  }

  /** The statuses, in order, of the first `n` replies that are neither client nor server errors. */
  function Handled<T>(attempts: nat -> Attempt<T>, n: nat): seq<nat> {
    if n == 0 then []
    else
      var reply := attempts(n - 1).reply;
      Handled(attempts, n - 1) + if reply.Reply? && !IsErrorStatus(reply.status) then [reply.status] else []
  }

  /** Runs attempts until one succeeds, fails for good, or the delays run out. */
  method RunAndProcess<T>(p: Policy, attempts: nat -> Attempt<T>, hasPermit: bool, size: Option<nat>)
      returns (r: Option<T>, tries: nat, trace: seq<PermitEvent>, handled: seq<nat>)
    ensures handled == Handled(attempts, tries)
    ensures 1 <= tries <= p.maxAttempts + 1
    ensures forall i :: 0 <= i < tries - 1 ==> Outcome(p, attempts(i)).Retryable?
    ensures Outcome(p, attempts(tries - 1)).Retryable? ==> tries == p.maxAttempts + 1
    ensures r == var o := Outcome(p, attempts(tries - 1)); if o.Done? then Some(o.value) else None
    ensures !hasPermit ==> trace == []
    ensures hasPermit ==>
              var last := Outcome(p, attempts(tries - 1));
              trace == Rounds(tries - 1) + [Starting] + (if last.Retryable? then [RetryableFailure] else [])
                       + [Completion(if last.Done? then
                                       if size.Some? then size.value else ReplyBytes(attempts(tries - 1))
                                     else 0, last.Done?)]
  {
    hide Outcome, Rounds, Handled, ProcessOkResponse;
    RoundsNone(attempts);
    var permit := hasPermit;
    trace, tries, handled := [], 0, [];
    while true
      invariant tries <= p.maxAttempts && permit == hasPermit && handled == Handled(attempts, tries)
      invariant forall i :: 0 <= i < tries ==> Outcome(p, attempts(i)).Retryable?
      invariant trace == if hasPermit then Rounds(tries) else []
      decreases p.maxAttempts - tries
    {
      if permit {
        trace := trace + [Starting];
      }
      var attempt := attempts(tries);
      RoundsNext(attempts, tries);
      tries := tries + 1;
      if attempt.reply.Reply? {
        StatusTable(p, attempt.reply.status);
        if ProcessOkResponse(p, attempt.reply.status) == Pass {
          handled := handled + [attempt.reply.status];
        }
      }
      var outcome := Outcome(p, attempt);
      match outcome
      case Done(value) =>
        if permit {
          permit := false;
          trace := trace + [Completion(if size.Some? then size.value else ReplyBytes(attempt), true)];
        }
        return Some(value), tries, trace, handled;
      case Fatal =>
        if permit {
          permit := false;
          trace := trace + [Completion(0, false)];
        }
        return None, tries, trace, handled;
      case Retryable =>
        if permit {
          trace := trace + [RetryableFailure];
        }
        if tries == p.maxAttempts + 1 {
          break;
        }
    }
    if permit {
      trace := trace + [Completion(0, false)];
    }
    r := None;
  }

  lemma {:induction false} RoundsNone<T>(attempts: nat -> Attempt<T>)
    ensures Rounds(0) == [] && Handled(attempts, 0) == []
  {
  }

  lemma {:induction false} RoundsNext<T>(attempts: nat -> Attempt<T>, k: nat)
    ensures Rounds(k) + [Starting] + [RetryableFailure] == Rounds(k + 1)
    ensures var reply := attempts(k).reply;
            Handled(attempts, k + 1) == if reply.Reply? && !IsErrorStatus(reply.status)
                                        then Handled(attempts, k) + [reply.status] else Handled(attempts, k)
  {
    assert Rounds(k) + [Starting] + [RetryableFailure] == Rounds(k) + [Starting, RetryableFailure];
    assert Handled(attempts, k) + [] == Handled(attempts, k);
  }

  // ---------------------------------------------------------------- what the permit sees

  function CountStarting(t: seq<PermitEvent>): nat {
    if t == [] then 0 else CountStarting(t[..|t| - 1]) + if t[|t| - 1].Starting? then 1 else 0
  }

  function CountFailures(t: seq<PermitEvent>): nat {
    if t == [] then 0 else CountFailures(t[..|t| - 1]) + if t[|t| - 1].RetryableFailure? then 1 else 0
  }

  function CountCompletions(t: seq<PermitEvent>): nat {
    if t == [] then 0 else CountCompletions(t[..|t| - 1]) + if t[|t| - 1].Completion? then 1 else 0
  }

  lemma {:induction false} CountSnoc(t: seq<PermitEvent>, e: PermitEvent)
    ensures CountStarting(t + [e]) == CountStarting(t) + if e.Starting? then 1 else 0
    ensures CountFailures(t + [e]) == CountFailures(t) + if e.RetryableFailure? then 1 else 0
    ensures CountCompletions(t + [e]) == CountCompletions(t) + if e.Completion? then 1 else 0
  {
    assert (t + [e])[..|t|] == t;
  }

  lemma {:induction false} CountRounds(k: nat)
    ensures CountStarting(Rounds(k)) == k && CountFailures(Rounds(k)) == k && CountCompletions(Rounds(k)) == 0
  {
    if k > 0 {
      CountRounds(k - 1);
      CountSnoc(Rounds(k - 1), Starting);
      CountSnoc(Rounds(k - 1) + [Starting], RetryableFailure);
      assert Rounds(k) == Rounds(k - 1) + [Starting] + [RetryableFailure];
    }
  }

  /** A trace of the loop: one start per attempt, one report per retryable failure, and one completion,
  which is last. */
  lemma {:induction false} PermitSees(tries: nat, failed: bool, bytes: nat, ok: bool)
    requires tries > 0
    ensures var t := Rounds(tries - 1) + [Starting] + (if failed then [RetryableFailure] else [])
                     + [Completion(bytes, ok)];
            && CountStarting(t) == tries
            && CountFailures(t) == tries - (if failed then 0 else 1)
            && CountCompletions(t) == 1
            && t[|t| - 1] == Completion(bytes, ok)
  {
    hide CountStarting, CountFailures, CountCompletions;
    var a := Rounds(tries - 1);
    CountRounds(tries - 1);
    CountSnoc(a, Starting);
    var b := a + [Starting];
    CountSnoc(b, RetryableFailure);
    assert b + [] == b;
    var c := b + if failed then [RetryableFailure] else [];
    CountSnoc(c, Completion(bytes, ok));
  }
}
