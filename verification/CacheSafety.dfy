/** What every run of concurrent gets and puts on the disk cache keeps. */
module CacheSafety {
  import opened HashText
  import opened CacheFile
  import opened CacheState
  import opened CacheProtocol
  import Load = CacheLoad

  // ---------------------------------------------------------------- counters and the lock

  /** A put about to store its item fits; one that holds the lock is still not covered by a held item. */
  ghost predicate TaskOk(w: World, mem: Mem, t: Task) {
    && (t.PutWrite? || t.PutHold? ==> |File(t.put)| <= w.capacity)
    && (t.PutHold? ==> Match(mem, t.put.key, t.put.start, t.put.end).None?)
  }

  predicate OneWriter(ts: seq<Task>) {
    forall i, j :: 0 <= i < j < |ts| ==> !(ts[i].PutHold? && ts[j].PutHold?)
  }

  ghost predicate Ok(w: World, s: State) {
    && WellCounted(s.mem)
    && OneWriter(s.tasks)
    && forall i :: 0 <= i < |s.tasks| ==> TaskOk(w, s.mem, s.tasks[i])
  }

  lemma {:induction false} CommitKeepsCounts(w: World, mem: Mem, p: Put, mem': Mem, evicted: seq<(Key, Item)>)
    requires WellCounted(mem) && Commits(w, mem, p, mem', evicted)
    ensures WellCounted(mem') && mem'.totalBytes <= w.capacity
    ensures mem.totalBytes + |File(p)| == mem'.totalBytes + BytesOf(evicted)
    ensures mem.numItems + 1 == mem'.numItems + |evicted|
  {
    hide WellCounted, Evicts, FileContent;
    var mid: Mem :|
      && Evicts(mem, mid, evicted)
      && mid.totalBytes + |File(p)| <= w.capacity
      && mem' == Insert(mid, p.key, ItemOf(w, p));
    EvictionConserves(mem, mid, evicted);
    InsertKeepsCounts(mid, p.key, ItemOf(w, p));
  }

  /** What one step of one call does to the index. */
  lemma {:induction false} StepOnIndex(w: World, mem: Mem, disk: Disk, t: Task, mem': Mem, disk': Disk, t': Task)
    requires WellCounted(mem) && TaskOk(w, mem, t)
    requires TaskNext(w, mem, disk, t, mem', disk', t') || TaskFails(w, mem, disk, t, mem', disk', t')
    ensures WellCounted(mem') && TaskOk(w, mem', t')
    ensures mem' != mem ==> t.GetDrop? || t.PutBlocked? || t.PutHold?
    ensures t'.PutHold? ==> t.PutWrite?
    ensures mem'.totalBytes <= mem.totalBytes || mem'.totalBytes <= w.capacity
    ensures t.PutHold? ==> mem'.totalBytes <= w.capacity
    ensures TaskFails(w, mem, disk, t, mem', disk', t') ==> mem' == mem && !t'.PutHold?
  {
    hide WellCounted, Match, Forget, Commits, FileContent, ReadHeader, GetRange, Judge;
    if t.PutHold? && TaskNext(w, mem, disk, t, mem', disk', t') {
      CommitKeepsCounts(w, mem, t.put, mem', t'.left);
    }
  }

  lemma {:induction false} OkStep(w: World, s: State, s': State)
    requires Ok(w, s) && Next(w, s, s')
    ensures Ok(w, s')
    ensures s'.mem.totalBytes <= s.mem.totalBytes || s'.mem.totalBytes <= w.capacity
  {
    hide WellCounted, Match, TaskNext, TaskFails, FileContent;
    var step: Step :| Does(w, s, step, s');
    if step.Work? {
      var i := step.i;
      StepOnIndex(w, s.mem, s.disk, s.tasks[i], s'.mem, s'.disk, s'.tasks[i]);
      forall j | 0 <= j < |s'.tasks| ensures TaskOk(w, s'.mem, s'.tasks[j]) {
        if j != i {
          assert s'.tasks[j] == s.tasks[j];
        }
      }
    }
  }

  lemma {:induction false} OkRun(w: World, ss: seq<State>, i: nat)
    requires Run(w, ss) && WellCounted(ss[0].mem) && i < |ss|
    ensures Ok(w, ss[i])
  {
    hide WellCounted, Next;
    if i > 0 {
      OkRun(w, ss, i - 1);
      OkStep(w, ss[i - 1], ss[i]);
    }
  }

  /** In every run, the item count and the byte count stay true and no key keeps an empty list. */
  lemma {:induction false} CountersStayTrue(w: World, ss: seq<State>, i: nat)
    requires Run(w, ss) && WellCounted(ss[0].mem) && i < |ss|
    ensures WellCounted(ss[i].mem)
  {
    hide WellCounted, Next;
    OkRun(w, ss, i);
  }

  /** A put adds its item in this step. */
  ghost predicate Inserts(w: World, s: State, i: nat, s': State) {
    i < |s.tasks| && s.tasks[i].PutHold? && Works(w, s, i, s')
  }

  lemma {:induction false} CapacityKept(w: World, ss: seq<State>, i: nat, j: nat)
    requires Run(w, ss) && WellCounted(ss[0].mem) && i <= j < |ss|
    requires ss[i].mem.totalBytes <= w.capacity
    ensures ss[j].mem.totalBytes <= w.capacity
    decreases j - i
  {
    hide WellCounted, Next;
    if i < j {
      OkRun(w, ss, i);
      OkStep(w, ss[i], ss[i + 1]);
      CapacityKept(w, ss, i + 1, j);
    }
  }

  /** However much was loaded, from the first insertion on the cache stays within its capacity. */
  lemma {:induction false} WithinCapacity(w: World, ss: seq<State>, i: nat, put: nat, j: nat)
    requires Run(w, ss) && WellCounted(ss[0].mem) && i < j < |ss|
    requires Inserts(w, ss[i], put, ss[i + 1])
    ensures ss[j].mem.totalBytes <= w.capacity
  {
    hide WellCounted, Next, TaskNext, TaskFails;
    OkRun(w, ss, i);
    var s, s' := ss[i], ss[i + 1];
    StepOnIndex(w, s.mem, s.disk, s.tasks[put], s'.mem, s'.disk, s'.tasks[put]);
    CapacityKept(w, ss, i + 1, j);
  }

  /** Some put adds its item in step `k`. */
  ghost predicate InsertsAt(w: World, ss: seq<State>, k: nat) {
    k + 1 < |ss| && SomeInsert(w, ss[k], ss[k + 1])
  }

  ghost predicate SomeInsert(w: World, s: State, s': State) {
    exists put: nat :: Inserts(w, s, put, s')
  }

  lemma {:induction false} NeverAbove(w: World, ss: seq<State>, i: nat, bound: nat)
    requires Run(w, ss) && WellCounted(ss[0].mem) && i < |ss|
    requires ss[0].mem.totalBytes <= bound && w.capacity <= bound
    ensures ss[i].mem.totalBytes <= bound
  {
    hide WellCounted, Next;
    if i > 0 {
      NeverAbove(w, ss, i - 1, bound);
      OkRun(w, ss, i - 1);
      OkStep(w, ss[i - 1], ss[i]);
    }
  }

  /** From the directory to any later state: if the directory names decode to distinct keys, every run
  from the loaded index keeps true counters, stays below three times the capacity, and stays within the
  capacity from its first insertion on. */
  lemma {:induction false} LoadedRun(l: Load.Limits, es: seq<Load.PrefixEntry>, w: World, ss: seq<State>, i: nat)
    requires Load.Initialized(l, Load.Listing(es)).LoadedMem? && Load.DistinctKeys(Load.VisitPrefixes(es))
    requires Run(w, ss) && ss[0].mem == Load.Initialized(l, Load.Listing(es)).mem && w.capacity == l.capacity
    requires i < |ss|
    ensures WellCounted(ss[i].mem) && ss[i].mem.totalBytes < 3 * l.capacity
    ensures forall k: nat :: k < i && InsertsAt(w, ss, k) ==> ss[i].mem.totalBytes <= l.capacity
  {
    hide WellCounted, Next, Inserts, Load.DistinctKeys, Load.Fresh, Load.LoadedKeys, Load.Initialized;
    LoadedFacts(l, es);
    CountersStayTrue(w, ss, i);
    NeverAbove(w, ss, i, 3 * l.capacity - 1);
    forall k: nat | k < i && InsertsAt(w, ss, k) ensures ss[i].mem.totalBytes <= l.capacity {
      var put: nat :| Inserts(w, ss[k], put, ss[k + 1]);
      WithinCapacity(w, ss, k, put, i);
    }
  }

  lemma {:induction false} LoadedFacts(l: Load.Limits, es: seq<Load.PrefixEntry>)
    requires Load.Initialized(l, Load.Listing(es)).LoadedMem? && Load.DistinctKeys(Load.VisitPrefixes(es))
    ensures var m := Load.Initialized(l, Load.Listing(es)).mem;
            WellCounted(m) && m.totalBytes < 3 * l.capacity && l.capacity > 0
  {
    hide WellCounted, Load.DistinctKeys, Load.Fresh, Load.LoadedKeys;
    Load.DistinctKeysFresh(l, Load.VisitPrefixes(es), 0, {});
    Load.LoadedCountersTrue(l, es);
    Load.InitializedBound(l, Load.Listing(es));
  }

  // ---------------------------------------------------------------- no range is held twice

  predicate Distinct(items: seq<Item>) {
    forall i, j :: 0 <= i < j < |items| ==> items[i].start != items[j].start || items[i].end != items[j].end
  }

  /** No key holds two items for the same chunk range. */
  ghost predicate DistinctRanges(mem: Mem) {
    forall k :: k in mem.inner ==> Distinct(mem.inner[k])
  }

  /** Every held item of `after` is held in `before`. */
  ghost predicate Within(after: Mem, before: Mem) {
    forall k, x :: k in after.inner && x in after.inner[k] ==> k in before.inner && x in before.inner[k]
  }

  lemma {:induction false} SwapRemoveDistinct(items: seq<Item>, i: nat)
    requires i < |items|
    ensures Distinct(items) ==> Distinct(SwapRemove(items, i))
    ensures forall x :: x in SwapRemove(items, i) ==> x in items
  {
  }

  lemma {:induction false} RemoveKeepsDistinct(mem: Mem, k: Key, i: nat)
    requires WellCounted(mem) && Holds(mem, k, i)
    ensures DistinctRanges(mem) ==> DistinctRanges(RemoveAt(mem, k, i))
    ensures Within(RemoveAt(mem, k, i), mem)
  {
    hide WellCounted, Distinct, SwapRemove;
    SwapRemoveDistinct(mem.inner[k], i);
  }

  lemma {:induction false} ForgetKeepsDistinct(mem: Mem, k: Key, item: Item)
    requires WellCounted(mem) && DistinctRanges(mem)
    ensures DistinctRanges(Forget(mem, k, item))
  {
    hide WellCounted, Distinct, SwapRemove, RemoveAt;
    if k in mem.inner {
      var i := IndexOf(mem.inner[k], item, 0);
      if i < |mem.inner[k]| {
        RemoveKeepsDistinct(mem, k, i);
      }
    }
  }

  lemma {:induction false} EvictKeepsDistinct(before: Mem, after: Mem, evicted: seq<(Key, Item)>)
    requires Evicts(before, after, evicted)
    ensures DistinctRanges(before) ==> DistinctRanges(after)
    ensures Within(after, before)
    decreases |evicted|
  {
    hide WellCounted, Distinct, SwapRemove, RemoveAt;
    if evicted != [] {
      var n := |evicted| - 1;
      var k, item := evicted[n].0, evicted[n].1;
      var mid: Mem :| Drops(mid, after, k, item) && Evicts(before, mid, evicted[..n]);
      var i: nat :| Holds(mid, k, i) && mid.inner[k][i] == item && after == RemoveAt(mid, k, i);
      RemoveKeepsDistinct(mid, k, i);
      EvictKeepsDistinct(before, mid, evicted[..n]);
    }
  }

  /** No held item of the key contains the range. */
  ghost predicate Uncovered(mem: Mem, k: Key, start: nat, end: nat) {
    forall x :: k in mem.inner && x in mem.inner[k] ==> !Covers(x, start, end)
  }

  lemma {:induction false} InsertKeepsDistinct(mem: Mem, k: Key, item: Item)
    requires DistinctRanges(mem) && Uncovered(mem, k, item.start, item.end)
    ensures DistinctRanges(Insert(mem, k, item))
  {
    var items := if k in mem.inner then mem.inner[k] else [];
    var now := items + [item];
    forall i, j | 0 <= i < j < |now| ensures now[i].start != now[j].start || now[i].end != now[j].end {
      if j == |items| {
        assert items[i] in items && now[i] == items[i];
      }
    }
    assert Distinct(now);
  }

  lemma {:induction false} CommitKeepsDistinct(w: World, mem: Mem, p: Put, mem': Mem, evicted: seq<(Key, Item)>)
    requires Commits(w, mem, p, mem', evicted) && DistinctRanges(mem)
    requires Match(mem, p.key, p.start, p.end).None?
    ensures DistinctRanges(mem') && Uncovered(mem, p.key, p.start, p.end)
  {
    hide DistinctRanges, Evicts, FileContent, Match;
    var mid: Mem :| Evicts(mem, mid, evicted) && mem' == Insert(mid, p.key, ItemOf(w, p));
    EvictKeepsDistinct(mem, mid, evicted);
    assert Uncovered(mem, p.key, p.start, p.end);
    InsertKeepsDistinct(mid, p.key, ItemOf(w, p));
  }

  lemma {:induction false} DistinctStep(w: World, s: State, s': State)
    requires Ok(w, s) && DistinctRanges(s.mem) && Next(w, s, s')
    ensures DistinctRanges(s'.mem)
  {
    hide WellCounted, Match, Forget, Commits, FileContent, Serve, Check, DistinctRanges;
    var step: Step :| Does(w, s, step, s');
    if step.Work? {
      var t := s.tasks[step.i];
      assert TaskOk(w, s.mem, t);
      if t.GetDrop? {
        ForgetKeepsDistinct(s.mem, t.key, t.item);
      } else if t.PutBlocked? {
        ForgetKeepsDistinct(s.mem, t.put.key, t.item);
      } else if t.PutHold? {
        CommitKeepsDistinct(w, s.mem, t.put, s'.mem, s'.tasks[step.i].left);
      }
    }
  }

  /** In every run from an index without repeated ranges, no key ever holds a range twice. */
  lemma {:induction false} RangesStayDistinct(w: World, ss: seq<State>, i: nat)
    requires Run(w, ss) && WellCounted(ss[0].mem) && DistinctRanges(ss[0].mem) && i < |ss|
    ensures DistinctRanges(ss[i].mem)
  {
    hide WellCounted, DistinctRanges, Next;
    if i > 0 {
      RangesStayDistinct(w, ss, i - 1);
      OkRun(w, ss, i - 1);
      DistinctStep(w, ss[i - 1], ss[i]);
    }
  }

  /** No put inserts a range that an item held for the key contains, and what it inserts is held then. */
  lemma {:induction false} NoContainedInsert(w: World, ss: seq<State>, i: nat, put: nat)
    requires Run(w, ss) && WellCounted(ss[0].mem) && i + 1 < |ss| && Inserts(w, ss[i], put, ss[i + 1])
    ensures var p := ss[i].tasks[put].put;
            && Uncovered(ss[i].mem, p.key, p.start, p.end)
            && p.key in ss[i + 1].mem.inner
            && ItemOf(w, p) in ss[i + 1].mem.inner[p.key]
  {
    hide WellCounted, Match, Forget, Evicts, FileContent, Serve, Check, ItemOf;
    OkRun(w, ss, i);
    var p := ss[i].tasks[put].put;
    assert TaskOk(w, ss[i].mem, ss[i].tasks[put]);
  }
}
