/** The transfer agent's progress messages: any number of threads report progress, and whoever gets the
channel sends the latest. Every atomic operation and every use of the channel lock is one step. */
module ProgressMessenger {

  /** A call to update the progress: its next step, or that it returned. */
  datatype Call =
    | Register(number: nat)                        // before fetch_max
    | TryLock(number: nat)                         // a new maximum, before try_lock
    | LoadCurrent(number: nat)                     // holds the lock
    | LoadLast(number: nat, current: nat)          // holds the lock
    | Write(number: nat, current: nat, last: nat)  // holds the lock, before writing
    | Store(number: nat, current: nat)             // holds the lock, message written
    | Unlock(number: nat)                          // holds the lock
    | Returned(number: nat)
  {
    predicate HoldsLock() { LoadCurrent? || LoadLast? || Write? || Store? || Unlock? }
  }

  /** What the channel carried: bytesSoFar and bytesSinceLast. */
  datatype Message = Message(soFar: nat, sinceLast: nat)

  /** The two atomics, the messages sent, the calls, and whether someone else holds the channel. */
  datatype State = State(soFar: nat, lastSent: nat, sent: seq<Message>, calls: seq<Call>, outside: bool)

  predicate ChannelFree(s: State) {
    !s.outside && forall i :: 0 <= i < |s.calls| ==> !s.calls[i].HoldsLock()
  }

  datatype Step = Call(number: nat) | Work(i: nat) | Fail(i: nat) | TakeOutside | ReleaseOutside

  predicate Enabled(s: State, step: Step) {
    match step
    case Call(_) => true
    case Work(i) => i < |s.calls| && !s.calls[i].Returned?
    case Fail(i) => i < |s.calls| && s.calls[i].Write?
    case TakeOutside => ChannelFree(s)
    case ReleaseOutside => s.outside
  }

  /** The difference of two unsigned numbers; `Message` cannot hold a negative one. */
  function Minus(a: nat, b: nat): nat {
    if b <= a then a - b else 0
  }

  function Apply(s: State, step: Step): State
    requires Enabled(s, step)
  {
    match step
    case Call(n) => s.(calls := s.calls + [Register(n)])
    case TakeOutside => s.(outside := true)
    case ReleaseOutside => s.(outside := false)
    case Fail(i) => s.(calls := s.calls[i := Unlock(s.calls[i].number)])
    case Work(i) =>
      match s.calls[i]
      case Register(n) =>
        s.(soFar := if s.soFar < n then n else s.soFar,
           calls := s.calls[i := if s.soFar < n then TryLock(n) else Returned(n)])
      case TryLock(n) =>
        s.(calls := s.calls[i := if ChannelFree(s) then LoadCurrent(n) else Returned(n)])
      case LoadCurrent(n) => s.(calls := s.calls[i := LoadLast(n, s.soFar)])
      case LoadLast(n, current) => s.(calls := s.calls[i := Write(n, current, s.lastSent)])
      case Write(n, current, last) =>
        s.(sent := s.sent + [Message(current, Minus(current, last))], calls := s.calls[i := Store(n, current)])
      case Store(n, current) => s.(lastSent := current, calls := s.calls[i := Unlock(n)])
      case Unlock(n) => s.(calls := s.calls[i := Returned(n)])
      case Returned(_) => assert false; s
  }

  const START := State(0, 0, [], [], false)

  ghost predicate Reachable(s: State, steps: seq<Step>)
    decreases |steps|
  {
    if steps == [] then s == START
    else
      var n := |steps| - 1;
      exists before: State ::
        Reachable(before, steps[..n]) && Enabled(before, steps[n]) && s == Apply(before, steps[n])
  }

  // ---------------------------------------------------------------- the invariant

  function SumSince(ms: seq<Message>): nat {
    if ms == [] then 0 else SumSince(ms[..|ms| - 1]) + ms[|ms| - 1].sinceLast
  }

  /** The progress the other side has been told. */
  function Told(ms: seq<Message>): nat {
    if ms == [] then 0 else ms[|ms| - 1].soFar
  }

  predicate NonDecreasing(ms: seq<Message>) {
    forall i, j :: 0 <= i < j < |ms| ==> ms[i].soFar <= ms[j].soFar
  }

  predicate Called(s: State, v: nat) {
    exists i :: 0 <= i < |s.calls| && s.calls[i].number == v
  }

  /** A value the counter may take: zero, or some number reported by a call. */
  predicate Known(s: State, v: nat) {
    v == 0 || Called(s, v)
  }

  /** Between writing a message and storing it, the atomic lags behind what was told. */
  predicate CallOk(s: State, c: Call) {
    match c
    case TryLock(n) => 0 < n <= s.soFar
    case LoadCurrent(n) => 0 < n <= s.soFar && s.lastSent == Told(s.sent)
    case LoadLast(n, current) =>
      0 < n <= current <= s.soFar && s.lastSent == Told(s.sent) && s.lastSent <= current && Known(s, current)
    case Write(n, current, last) =>
      0 < n <= current <= s.soFar && last == s.lastSent == Told(s.sent) && last <= current && Known(s, current)
    case Store(_, current) => current == Told(s.sent)
    case Unlock(_) => s.lastSent == Told(s.sent)
    case _ => true
  }

  predicate OneHolder(s: State) {
    && (forall i, j :: 0 <= i < j < |s.calls| ==> !(s.calls[i].HoldsLock() && s.calls[j].HoldsLock()))
    && (forall i :: 0 <= i < |s.calls| && s.calls[i].HoldsLock() ==> !s.outside)
  }

  predicate MessagesOk(s: State) {
    && NonDecreasing(s.sent)
    && SumSince(s.sent) == Told(s.sent)
    && (forall i :: 0 <= i < |s.sent| ==> s.sent[i].soFar > 0 && Known(s, s.sent[i].soFar))
  }

  predicate Inv(s: State) {
    && OneHolder(s)
    && s.lastSent <= Told(s.sent) <= s.soFar
    && Known(s, s.soFar)
    && MessagesOk(s)
    && (forall i :: 0 <= i < |s.calls| ==> CallOk(s, s.calls[i]))
    && ((forall i :: 0 <= i < |s.calls| ==> !s.calls[i].Store?) ==> s.lastSent == Told(s.sent))
  }

  // ---------------------------------------------------------------- its proof

  /** Calls never lose their number, so a known value stays known. */
  lemma {:induction false} KnownStays(s: State, step: Step, v: nat)
    requires Enabled(s, step) && Known(s, v)
    ensures Known(Apply(s, step), v)
  {
    var t := Apply(s, step);
    if v != 0 {
      var i :| 0 <= i < |s.calls| && s.calls[i].number == v;
      assert i < |t.calls| && t.calls[i].number == v;
    }
  }

  /** A moving call takes the lock only when it is free. */
  lemma {:induction false} MoverHolds(s: State, i: nat)
    requires Enabled(s, Work(i))
    ensures Apply(s, Work(i)).calls == s.calls[i := Apply(s, Work(i)).calls[i]]
    ensures Apply(s, Work(i)).calls[i].HoldsLock() ==> s.calls[i].HoldsLock() || ChannelFree(s)
    ensures Apply(s, Work(i)).outside == s.outside
  {
    hide ChannelFree;
  }

  lemma {:induction false} ReplaceHolder(s: State, i: nat, c: Call, t: State)
    requires OneHolder(s) && i < |s.calls| && (c.HoldsLock() ==> s.calls[i].HoldsLock() || ChannelFree(s))
    requires t.calls == s.calls[i := c] && t.outside == s.outside
    ensures OneHolder(t)
  {
  }

  lemma {:induction false} HolderStays(s: State, step: Step)
    requires Enabled(s, step) && OneHolder(s)
    ensures OneHolder(Apply(s, step))
  {
    match step
    case Work(i) =>
      hide Apply, OneHolder;
      MoverHolds(s, i);
      ReplaceHolder(s, i, Apply(s, step).calls[i], Apply(s, step));
    case Fail(i) =>
      ReplaceHolder(s, i, Unlock(s.calls[i].number), Apply(s, step));
    case Call(_) =>
    case TakeOutside =>
    case ReleaseOutside =>
  }

  lemma {:induction false} SendKeeps(ms: seq<Message>, current: nat)
    requires NonDecreasing(ms) && SumSince(ms) == Told(ms) && Told(ms) <= current
    ensures var m := Message(current, Minus(current, Told(ms)));
            NonDecreasing(ms + [m]) && SumSince(ms + [m]) == Told(ms + [m]) == current
  {
    var m := Message(current, Minus(current, Told(ms)));
    assert (ms + [m])[..|ms|] == ms;
  }

  lemma {:induction false} MessagesStay(s: State, step: Step)
    requires Enabled(s, step) && Inv(s)
    ensures MessagesOk(Apply(s, step))
  {
    hide SumSince, NonDecreasing, Apply, Known;
    var t := Apply(s, step);
    SentBy(s, step);
    if step.Work? && s.calls[step.i].Write? {
      var c := s.calls[step.i];
      SendKeeps(s.sent, c.current);
      KnownStays(s, step, c.current);
    }
    forall i | 0 <= i < |t.sent| ensures t.sent[i].soFar > 0 && Known(t, t.sent[i].soFar) {
      if i < |s.sent| {
        KnownStays(s, step, s.sent[i].soFar);
      }
    }
  }

  /** Only a write adds a message. */
  lemma {:induction false} SentBy(s: State, step: Step)
    requires Enabled(s, step)
    ensures Apply(s, step).sent ==
            if step.Work? && s.calls[step.i].Write? then
              s.sent + [Message(s.calls[step.i].current, Minus(s.calls[step.i].current, s.calls[step.i].last))]
            else s.sent
  {
  }

  lemma {:induction false} CountersStay(s: State, step: Step)
    requires Enabled(s, step) && Inv(s)
    ensures var t := Apply(s, step); t.lastSent <= Told(t.sent) <= t.soFar && Known(t, t.soFar) && s.soFar <= t.soFar
  {
    hide SumSince, NonDecreasing, Known, OneHolder, MessagesOk;
    KnownStays(s, step, s.soFar);
    if step.Work? {
      assert CallOk(s, s.calls[step.i]);
      if s.calls[step.i].Register? {
        RegisterKnown(s, step.i);
      }
    }
  }

  lemma {:induction false} RegisterKnown(s: State, i: nat)
    requires Enabled(s, Work(i)) && s.calls[i].Register?
    ensures Known(Apply(s, Work(i)), s.calls[i].number)
  {
    var t := Apply(s, Work(i));
    assert t.calls[i].number == s.calls[i].number;
  }

  /** A call other than the one that moved is still right. */
  lemma {:induction false} OthersStay(s: State, step: Step, j: nat)
    requires Enabled(s, step) && Inv(s) && j < |s.calls| && !((step.Work? || step.Fail?) && step.i == j)
    ensures Apply(s, step).calls[j] == s.calls[j] && CallOk(Apply(s, step), s.calls[j])
  {
    hide SumSince, NonDecreasing, Known, MessagesOk;
    assert CallOk(s, s.calls[j]);
    if s.calls[j].LoadLast? || s.calls[j].Write? {
      KnownStays(s, step, s.calls[j].current);
    }
  }

  /** The call that moved is right too. */
  lemma {:induction false} MoverStays(s: State, i: nat)
    requires Enabled(s, Work(i)) && Inv(s)
    ensures CallOk(Apply(s, Work(i)), Apply(s, Work(i)).calls[i])
  {
    hide SumSince, NonDecreasing, Known, MessagesOk;
    var c := s.calls[i];
    assert CallOk(s, c);
    KnownStays(s, Work(i), s.soFar);
    if c.LoadLast? {
      KnownStays(s, Work(i), c.current);
    }
    if c.TryLock? && ChannelFree(s) {
      assert forall k :: 0 <= k < |s.calls| ==> !s.calls[k].Store?;
    }
    if c.LoadCurrent? {
      assert s.lastSent <= s.soFar;
    }
  }

  lemma {:induction false} LagEnds(s: State, step: Step)
    requires Enabled(s, step) && Inv(s)
    ensures var t := Apply(s, step);
            (forall i :: 0 <= i < |t.calls| ==> !t.calls[i].Store?) ==> t.lastSent == Told(t.sent)
  {
    hide SumSince, NonDecreasing, Known, MessagesOk;
    var t := Apply(s, step);
    if step.Work? && s.calls[step.i].Write? {
      assert t.calls[step.i].Store?;
    } else if step.Work? && s.calls[step.i].Store? {
      assert CallOk(s, s.calls[step.i]);
    } else if forall i :: 0 <= i < |t.calls| ==> !t.calls[i].Store? {
      forall i | 0 <= i < |s.calls| ensures !s.calls[i].Store? {
        assert !t.calls[i].Store?;
      }
    }
  }

  lemma {:induction false} StepKeeps(s: State, step: Step)
    requires Enabled(s, step) && Inv(s)
    ensures Inv(Apply(s, step))
  {
    HolderStays(s, step); MessagesStay(s, step); CountersStay(s, step); LagEnds(s, step);
    var t := Apply(s, step);
    forall j | 0 <= j < |t.calls| ensures CallOk(t, t.calls[j]) {
      CallStays(s, step, j);
    }
    hide Apply, CallOk, MessagesOk, OneHolder, Known;
  }

  lemma {:induction false} CallStays(s: State, step: Step, j: nat)
    requires Enabled(s, step) && Inv(s) && j < |Apply(s, step).calls|
    ensures CallOk(Apply(s, step), Apply(s, step).calls[j])
  {
    hide SumSince, NonDecreasing, Known, MessagesOk;
    if j < |s.calls| {
      if step.Work? && step.i == j {
        MoverStays(s, j);
      } else if step.Fail? && step.i == j {
        assert CallOk(s, s.calls[j]);
      } else {
        OthersStay(s, step, j);
      }
    }
  }

  lemma {:induction false} ReachableInv(s: State, steps: seq<Step>)
    requires Reachable(s, steps)
    ensures Inv(s)
    decreases |steps|
  {
    hide Apply;
    if steps != [] {
      var n := |steps| - 1;
      var before: State :| Reachable(before, steps[..n]) && Enabled(before, steps[n]) && s == Apply(before, steps[n]);
      ReachableInv(before, steps[..n]);
      StepKeeps(before, steps[n]);
    }
  }

  // ---------------------------------------------------------------- what the other side sees

  /** In every interleaving: what was sent last never exceeds what was reported, the progress values sent
  never decrease and are reported values, and the increments sent add up to the last progress sent. */
  lemma {:induction false} ProgressIsMonotone(s: State, steps: seq<Step>)
    requires Reachable(s, steps)
    ensures s.lastSent <= s.soFar
    ensures NonDecreasing(s.sent)
    ensures forall i :: 0 <= i < |s.sent| ==> Called(s, s.sent[i].soFar)
    ensures s.sent != [] ==> SumSince(s.sent) == s.sent[|s.sent| - 1].soFar
  {
    ReachableInv(s, steps);
  }

  /** The subtraction behind a message never underflows, and a call that sends covers its own number. */
  lemma {:induction false} NeverUnderflows(s: State, steps: seq<Step>, i: nat)
    requires Reachable(s, steps) && i < |s.calls| && s.calls[i].Write?
    ensures s.calls[i].last <= s.calls[i].current && s.calls[i].number <= s.calls[i].current
  {
    ReachableInv(s, steps);
    assert CallOk(s, s.calls[i]);
  }

  /** Applies steps in order, each of them enabled. */
  ghost predicate Runs(s: State, steps: seq<Step>, t: State)
    decreases |steps|
  {
    if steps == [] then t == s
    else Enabled(s, steps[0]) && Runs(Apply(s, steps[0]), steps[1..], t)
  }

  lemma {:induction false} RunsNext(s: State, step: Step, steps: seq<Step>, t: State)
    requires Enabled(s, step) && Runs(Apply(s, step), steps, t)
    ensures Runs(s, [step] + steps, t)
  {
    assert ([step] + steps)[1..] == steps;
  }

  /** The same call, one step further. */
  lemma {:induction false} Moves(s: State, c: Call, t: State, d: Call)
    requires !c.Returned?
    requires var u := s.(calls := s.calls + [c]);
             Apply(u, Work(|s.calls|)) == t.(calls := u.calls[|s.calls| := d])
    ensures Apply(s.(calls := s.calls + [c]), Work(|s.calls|)) == t.(calls := s.calls + [d])
  {
    assert (s.calls + [c])[|s.calls| := d] == s.calls + [d];
  }

  predicate Idle(s: State) {
    !s.outside && forall i :: 0 <= i < |s.calls| ==> s.calls[i].Returned?
  }

  /** With the channel free and no other call under way, an update is sent if and only if it is news: the
  message carries the new progress and what was added since the last one. */
  lemma {:induction false} NewsIsSent(s: State, n: nat) returns (t: State, steps: seq<Step>)
    requires Inv(s) && Idle(s)
    ensures Runs(s, [Step.Call(n)] + steps, t)
    ensures t.calls == s.calls + [Returned(n)] && Idle(t)
    ensures n > s.soFar ==> t.soFar == t.lastSent == n && t.sent == s.sent + [Message(n, n - s.lastSent)]
    ensures n <= s.soFar ==> t.soFar == s.soFar && t.lastSent == s.lastSent && t.sent == s.sent
  {
    hide Runs, Inv;
    LastWithin(s);
    var i := |s.calls|;
    var w := Work(i);
    var a := s.(calls := s.calls + [Register(n)]);
    assert Apply(s, Step.Call(n)) == a;
    if n <= s.soFar {
      t := s.(calls := s.calls + [Returned(n)]);
      Moves(s, Register(n), s, Returned(n));
      steps := Chain([a, t], i);
      RunsNext(s, Step.Call(n), steps, t);
      return;
    }
    var v := s.(soFar := n);
    var m := v.(sent := s.sent + [Message(n, n - s.lastSent)]);
    var z := m.(lastSent := n);
    var b := v.(calls := s.calls + [TryLock(n)]);
    var c := v.(calls := s.calls + [LoadCurrent(n)]);
    var d := v.(calls := s.calls + [LoadLast(n, n)]);
    var e := v.(calls := s.calls + [Write(n, n, s.lastSent)]);
    var f := m.(calls := s.calls + [Store(n, n)]);
    var g := z.(calls := s.calls + [Unlock(n)]);
    t := z.(calls := s.calls + [Returned(n)]);
    Moves(s, Register(n), v, TryLock(n));
    Moves(v, TryLock(n), v, LoadCurrent(n));
    Moves(v, LoadCurrent(n), v, LoadLast(n, n));
    Moves(v, LoadLast(n, n), v, Write(n, n, s.lastSent));
    Moves(v, Write(n, n, s.lastSent), m, Store(n, n));
    Moves(m, Store(n, n), z, Unlock(n));
    Moves(z, Unlock(n), z, Returned(n));
    steps := Chain([a, b, c, d, e, f, g, t], i);
    RunsNext(s, Step.Call(n), steps, t);
  }

  lemma {:induction false} LastWithin(s: State)
    requires Inv(s)
    ensures s.lastSent <= s.soFar
  {
  }

  /** States that follow one another by the work of one call. */
  lemma {:induction false} Chain(ss: seq<State>, i: nat) returns (steps: seq<Step>)
    requires ss != []
    requires forall k :: 0 <= k < |ss| - 1 ==> Enabled(ss[k], Work(i)) && Apply(ss[k], Work(i)) == ss[k + 1]
    ensures Runs(ss[0], steps, ss[|ss| - 1])
    decreases |ss|
  {
    hide Apply, Enabled;
    steps := [];
    if |ss| > 1 {
      var rest := Chain(ss[1..], i);
      RunsNext(ss[0], Work(i), rest, ss[|ss| - 1]);
      steps := [Work(i)] + rest;
    }
  }
}
