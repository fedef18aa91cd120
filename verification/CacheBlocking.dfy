/** Why a put may never return: it can ask for the write lock while it holds a read guard. */
module CacheBlocking {
  import opened HashText
  import opened CacheFile
  import opened CacheState
  import opened CacheProtocol
  import opened CacheTruth
  import opened Lists
  import opened Wrappers

  /** The lock is never held for reading and writing at once. */
  lemma {:induction false} LockExclusive(w: World, ss: seq<State>, i: nat)
    requires Run(w, ss) && i < |ss|
    ensures NoWriter(ss[i].tasks) || NoReader(ss[i].tasks)
  {
    hide Next;
    if i > 0 {
      LockExclusive(w, ss, i - 1);
      LockStep(w, ss[i - 1], ss[i]);
    }
  }

  lemma {:induction false} LockStep(w: World, s: State, s': State)
    requires Next(w, s, s') && (NoWriter(s.tasks) || NoReader(s.tasks))
    ensures NoWriter(s'.tasks) || NoReader(s'.tasks)
  {
    hide Match, Judge, GetRange, ReadHeader, Forget, Commits, WellCounted, FileContent;
    var step: Step :| Does(w, s, step, s');
    if step.Work? {
      var t, t' := s.tasks[step.i], s'.tasks[step.i];
      assert t'.PutHold? ==> t.PutWrite? && NoReader(s.tasks);
      assert t'.PutCheck? ==> t.PutLook? && NoWriter(s.tasks);
      assert t'.PutBlocked? ==> t.PutCheck?;
    }
  }

  /** A put that has to drop an item while it holds its read guard waits for itself: it never
  moves again, and from then on nothing changes the index. */
  lemma {:induction false} BlockedForever(w: World, ss: seq<State>, i: nat, put: nat, j: nat)
    requires Run(w, ss) && i <= j < |ss| && put < |ss[i].tasks| && ss[i].tasks[put].PutBlocked?
    ensures put < |ss[j].tasks| && ss[j].tasks[put] == ss[i].tasks[put]
    ensures ss[j].mem == ss[i].mem
    decreases j - i
  {
    hide Next;
    if i < j {
      LockExclusive(w, ss, i);
      BlockedStep(w, ss[i], put, ss[i + 1]);
      BlockedForever(w, ss, i + 1, put, j);
    }
  }

  lemma {:induction false} BlockedStep(w: World, s: State, put: nat, s': State)
    requires Next(w, s, s') && put < |s.tasks| && s.tasks[put].PutBlocked? && NoWriter(s.tasks)
    ensures put < |s'.tasks| && s'.tasks[put] == s.tasks[put] && s'.mem == s.mem
  {
    hide Match, Judge, GetRange, ReadHeader, Forget, Commits, WellCounted;
    var step: Step :| Does(w, s, step, s');
    if step.Work? {
      var t := s.tasks[step.i];
      assert !NoReader(s.tasks) && !t.PutHold?;
    }
  }

  /** A call that returned keeps its result. */
  lemma {:induction false} DoneForever(w: World, ss: seq<State>, i: nat, call: nat, j: nat)
    requires Run(w, ss) && i <= j < |ss| && call < |ss[i].tasks| && ss[i].tasks[call].Done()
    ensures call < |ss[j].tasks| && ss[j].tasks[call] == ss[i].tasks[call]
    decreases j - i
  {
    if i < j {
      var s, s' := ss[i], ss[i + 1];
      assert Next(w, s, s');
      var step: Step :| Does(w, s, step, s');
      DoneForever(w, ss, i + 1, call, j);
    }
  }

  /** The put needs more offsets than the header of a usable file has, and gets to the missing ones:
  no step that both sides have tells them apart, or the message about the difference quotes them. */
  predicate RunsOff(file: Option<Bytes>, from: nat, offsets: seq<nat>, logged: bool)
    requires file.Some? && ReadHeader(file.value).Some? && offsets != [] && Increasing(offsets)
  {
    var h := ReadHeader(file.value).value;
    from + |offsets| > |h| && (AllStepsAgree(offsets, h, from) || logged)
  }

  /** What the argument checks and the lookup settle about a put for the rest of the call. */
  predicate Settled(t: Task) {
    && (t.IsPut() && !t.PutDone? ==> Acceptable(t.put))
    && (t.PutCheck? ==> Covers(t.item, t.put.start, t.put.end))
  }

  lemma {:induction false} StepSettled(w: World, s: State, s': State)
    requires Next(w, s, s') && forall i :: 0 <= i < |s.tasks| ==> Settled(s.tasks[i])
    ensures forall i :: 0 <= i < |s'.tasks| ==> Settled(s'.tasks[i])
  {
    hide FirstCover, Judge, GetRange, ReadHeader, Forget, Commits, WellCounted, FileContent, Acceptable, Covers;
    var step: Step :| Does(w, s, step, s');
    forall i | 0 <= i < |s'.tasks| ensures Settled(s'.tasks[i]) {
      if i < |s.tasks| {
        assert Settled(s.tasks[i]);
      }
    }
  }

  /** In every run, a put that compares itself with an item passed its checks, and the item covers it. */
  lemma {:induction false} ChecksSettled(w: World, ss: seq<State>, i: nat, put: nat)
    requires Run(w, ss) && i < |ss| && put < |ss[i].tasks|
    ensures Settled(ss[i].tasks[put])
  {
    hide Next, Settled;
    SettledRun(w, ss, i);
  }

  lemma {:induction false} SettledRun(w: World, ss: seq<State>, i: nat)
    requires Run(w, ss) && i < |ss|
    ensures forall k :: 0 <= k < |ss[i].tasks| ==> Settled(ss[i].tasks[k])
  {
    hide Next, Settled;
    if i > 0 {
      SettledRun(w, ss, i - 1);
      StepSettled(w, ss[i - 1], ss[i]);
    }
  }

  /** A put that compares itself with a stored item blocks for ever if and only if the item's file is
  unusable, panics if and only if it runs off the header of a usable file, and otherwise returns. */
  lemma {:induction false} PutReturnsIff(w: World, ss: seq<State>, i: nat, put: nat, j: nat)
    requires Run(w, ss) && i < j < |ss| && put < |ss[i].tasks| && ss[i].tasks[put].PutCheck?
    requires Works(w, ss[i], put, ss[i + 1])
    requires TaskNext(w, ss[i].mem, ss[i].disk, ss[i].tasks[put], ss[i + 1].mem, ss[i + 1].disk, ss[i + 1].tasks[put])
    ensures put < |ss[j].tasks| && Settled(ss[i].tasks[put])
    ensures var t, t' := ss[i].tasks[put], ss[j].tasks[put];
            var file := FileAt(ss[i].disk, t.put.key, t.item);
            var bad := Bad(file, t.item.len, t.item.checksum, w.crc);
            && (t'.PutBlocked? <==> bad)
            && (t'.PutDone? && t'.outcome.Panicked?
                <==> !bad && RunsOff(file, t.put.start - t.item.start, t.put.offsets, w.logged))
            && (t'.PutDone? && !t'.outcome.Panicked?
                <==> !bad && !RunsOff(file, t.put.start - t.item.start, t.put.offsets, w.logged))
  {
    hide Next, WellFormed, ReadHeader, GetRange, AllStepsAgree, FileAt;
    ChecksSettled(w, ss, i, put);
    var t' := ss[i + 1].tasks[put];
    if t'.PutBlocked? {
      BlockedForever(w, ss, i + 1, put, j);
    } else {
      DoneForever(w, ss, i + 1, put, j);
    }
  }

  // ---------------------------------------------------------------- waiting readers

  /** The lock is first come, first served: once a put waits for it, no lookup gets it. */
  ghost predicate Fair(ss: seq<State>) {
    forall i, put, call :: 0 <= i < |ss| - 1 && Waits(ss[i], put) && Looks(ss[i], call) ==>
      StaysAt(ss[i], ss[i + 1], call)
  }

  predicate Waits(s: State, put: int) {
    0 <= put < |s.tasks| && s.tasks[put].PutBlocked?
  }

  predicate Looks(s: State, call: int) {
    0 <= call < |s.tasks| && (s.tasks[call].GetLook? || s.tasks[call].PutLook?)
  }

  predicate StaysAt(s: State, s': State, call: int) {
    0 <= call < |s.tasks| && call < |s'.tasks| && s'.tasks[call] == s.tasks[call]
  }

  /** Under a fair lock, once a put blocks, no call that is at its lookup then or begins later ever
  gets past it: the cache answers nobody any more. */
  lemma {:induction false} BlockedStopsLookups(w: World, ss: seq<State>, i: nat, put: nat, j: nat, call: nat, k: nat)
    requires Run(w, ss) && Fair(ss) && i <= j <= k < |ss| && Waits(ss[i], put) && Looks(ss[j], call)
    ensures call < |ss[k].tasks| && ss[k].tasks[call] == ss[j].tasks[call]
    decreases k - j
  {
    hide Next;
    if j < k {
      BlockedForever(w, ss, i, put, j);
      assert Waits(ss[j], put);
      assert StaysAt(ss[j], ss[j + 1], call);
      BlockedStopsLookups(w, ss, i, put, j + 1, call, k);
    }
  }

  // ---------------------------------------------------------------- how it comes to that

  /** One step that leaves the files to the cache, and without a failing operation. */
  ghost predicate QuietBy(w: World, s: State, step: Step, s': State) {
    && !step.Delete? && !step.Replace? && Does(w, s, step, s')
    && (step.Work? ==>
          && LockFree(s.tasks, s.tasks[step.i])
          && TaskNext(w, s.mem, s.disk, s.tasks[step.i], s'.mem, s'.disk, s'.tasks[step.i]))
  }

  ghost predicate Quiet(w: World, s: State, s': State) {
    exists step: Step :: QuietBy(w, s, step, s')
  }

  const EMPTY_STATE := State(EMPTY_MEM, map[], [], {})

  /** Only puts of `p` and `q` are made. */
  predicate Only(s: State, p: Put, q: Put) {
    forall i :: 0 <= i < |s.tasks| ==> s.tasks[i].IsPut() && (s.tasks[i].put == p || s.tasks[i].put == q)
  }

  ghost predicate Path(w: World, ss: seq<State>, p: Put, q: Put) {
    && ss != []
    && (forall i :: 0 <= i < |ss| - 1 ==> Quiet(w, ss[i], ss[i + 1]))
    && (forall i :: 0 <= i < |ss| ==> Only(ss[i], p, q))
  }

  lemma {:induction false} PathSnoc(w: World, ss: seq<State>, p: Put, q: Put, step: Step, s: State)
    requires Path(w, ss, p, q) && QuietBy(w, ss[|ss| - 1], step, s) && Only(s, p, q)
    ensures Path(w, ss + [s], p, q)
  {
    hide QuietBy, Only;
    var n := |ss| - 1;
    forall i | 0 <= i < |ss + [s]| - 1 ensures Quiet(w, (ss + [s])[i], (ss + [s])[i + 1]) {
      if i < n {
        assert Quiet(w, ss[i], ss[i + 1]);
      }
    }
  }

  /** Calls that hold no guard and wait for none. */
  predicate Idle(ts: seq<Task>) {
    forall i :: 0 <= i < |ts| ==> ts[i].PutUnlink?
  }

  lemma {:induction false} MoveLast(ts: seq<Task>, t: Task, t': Task)
    ensures (ts + [t])[|ts| := t'] == ts + [t']
  {
  }

  /** From a state of idle calls, a fitting put that nothing covers runs until its item is in. */
  lemma {:induction false} StoreOne(w: World, ss: seq<State>, p: Put, q: Put, x: Put, mem': Mem,
      evicted: seq<(Key, Item)>)
      returns (ss': seq<State>)
    requires Path(w, ss, p, q) && (x == p || x == q) && Acceptable(x) && |File(x)| <= w.capacity
    requires var s := ss[|ss| - 1];
             Idle(s.tasks) && Match(s.mem, x.key, x.start, x.end).None? && Commits(w, s.mem, x, mem', evicted)
    ensures ss' != [] && Path(w, ss', p, q) && ss'[0] == ss[0]
    ensures var s := ss[|ss| - 1];
            var path := (x.key, ItemOf(w, x));
            ss'[|ss'| - 1] == State(mem', s.disk[path := File(x)], s.tasks + [PutUnlink(x, evicted)], s.marks + {path})
  {
    hide Path, Match, Commits, File, ItemOf, Acceptable;
    PathParts(w, ss, p, q);
    var s := ss[|ss| - 1];
    var ts, i := s.tasks, |s.tasks|;
    var disk' := s.disk[(x.key, ItemOf(w, x)) := File(x)];
    var a := State(s.mem, s.disk, ts + [PutLook(x)], s.marks);
    var b := State(s.mem, s.disk, ts + [PutWrite(x)], s.marks);
    var c := State(s.mem, disk', ts + [PutHold(x)], s.marks);
    var d := State(mem', disk', ts + [PutUnlink(x, evicted)], s.marks + {(x.key, ItemOf(w, x))});
    MoveLast(ts, PutLook(x), PutWrite(x));
    MoveLast(ts, PutWrite(x), PutHold(x));
    MoveLast(ts, PutHold(x), PutUnlink(x, evicted));
    assert QuietBy(w, s, CallPut(x), a);
    PathSnoc(w, ss, p, q, CallPut(x), a);
    assert QuietBy(w, a, Work(i), b);
    PathSnoc(w, ss + [a], p, q, Work(i), b);
    assert QuietBy(w, b, Work(i), c);
    PathSnoc(w, ss + [a] + [b], p, q, Work(i), c);
    assert QuietBy(w, c, Work(i), d);
    PathSnoc(w, ss + [a] + [b] + [c], p, q, Work(i), d);
    ss' := ss + [a] + [b] + [c] + [d];
  }

  lemma {:induction false} PathParts(w: World, ss: seq<State>, p: Put, q: Put)
    requires Path(w, ss, p, q)
    ensures ss != [] && Only(ss[|ss| - 1], p, q)
  {
  }

  /** The index that holds just one put's item. */
  function Single(w: World, p: Put): Mem {
    Mem(map[p.key := [ItemOf(w, p)]], 1, |File(p)|)
  }

  /** Neither put's item covers the other's range. */
  predicate Apart(p: Put, q: Put) {
    p.key == q.key ==> !(p.start <= q.start && q.end <= p.end) && !(q.start <= p.start && p.end <= q.end)
  }

  lemma {:induction false} SingleMatch(w: World, p: Put, q: Put)
    ensures Match(Single(w, p), p.key, p.start, p.end) == Some(ItemOf(w, p))
    ensures Apart(p, q) ==> Match(Single(w, p), q.key, q.start, q.end).None?
    ensures Match(EMPTY_MEM, p.key, p.start, p.end).None?
  {
    hide File;
    var items := [ItemOf(w, p)];
    assert items[0] == ItemOf(w, p);
  }

  lemma {:induction false} SingleCounted(w: World, p: Put)
    ensures WellCounted(EMPTY_MEM) && WellCounted(Single(w, p))
    ensures Insert(EMPTY_MEM, p.key, ItemOf(w, p)) == Single(w, p)
  {
    hide File;
    assert WellCounted(EMPTY_MEM);
    InsertKeepsCounts(EMPTY_MEM, p.key, ItemOf(w, p));
    assert [] + [ItemOf(w, p)] == [ItemOf(w, p)];
  }

  lemma {:induction false} FirstCommit(w: World, p: Put)
    requires |File(p)| <= w.capacity
    ensures Commits(w, EMPTY_MEM, p, Single(w, p), [])
  {
    hide File, WellCounted;
    SingleCounted(w, p);
    assert Evicts(EMPTY_MEM, EMPTY_MEM, []);
  }

  /** When two items do not fit together, storing the second evicts the first. */
  lemma {:induction false} SwapCommit(w: World, p: Put, q: Put)
    requires |File(p)| <= w.capacity && |File(q)| <= w.capacity < |File(p)| + |File(q)|
    ensures Commits(w, Single(w, p), q, Single(w, q), [(p.key, ItemOf(w, p))])
  {
    hide File, WellCounted;
    var mem, item := Single(w, p), ItemOf(w, p);
    SingleCounted(w, p); SingleCounted(w, q);
    assert SwapRemove([item], 0) == [];
    assert map[p.key := [item]] - {p.key} == map[];
    assert Holds(mem, p.key, 0) && EMPTY_MEM == RemoveAt(mem, p.key, 0);
    assert Drops(mem, EMPTY_MEM, p.key, item);
    var e := [(p.key, item)];
    assert e[..0] == [] && Evicts(mem, mem, []);
    assert Evicts(mem, EMPTY_MEM, e);
  }

  /** A put whose item is held and whose file is gone blocks. */
  lemma {:induction false} BlockOne(w: World, ss: seq<State>, p: Put, q: Put) returns (ss': seq<State>)
    requires Path(w, ss, p, q) && Acceptable(p)
    requires var s := ss[|ss| - 1];
             Idle(s.tasks) && s.mem == Single(w, p) && (p.key, ItemOf(w, p)) !in s.disk
    ensures ss' != [] && Path(w, ss', p, q) && ss'[0] == ss[0]
    ensures var s := ss[|ss| - 1]; ss'[|ss'| - 1] == s.(tasks := s.tasks + [PutBlocked(p, ItemOf(w, p))])
  {
    hide Path, Match, File, WellFormed;
    PathParts(w, ss, p, q);
    SingleMatch(w, p, q);
    var s := ss[|ss| - 1];
    var ts, i, item := s.tasks, |s.tasks|, ItemOf(w, p);
    AcceptableSteps(p);
    MoveLast(ts, PutLook(p), PutCheck(p, item));
    MoveLast(ts, PutCheck(p, item), PutBlocked(p, item));
    var a, b := s.(tasks := ts + [PutLook(p)]), s.(tasks := ts + [PutCheck(p, item)]);
    var c := s.(tasks := ts + [PutBlocked(p, item)]);
    assert QuietBy(w, s, CallPut(p), a);
    PathSnoc(w, ss, p, q, CallPut(p), a);
    assert QuietBy(w, a, Work(i), b);
    PathSnoc(w, ss + [a], p, q, Work(i), b);
    assert Check(w, s.disk, p, item) == PutBlocked(p, item);
    assert QuietBy(w, b, Work(i), c);
    PathSnoc(w, ss + [a] + [b], p, q, Work(i), c);
    ss' := ss + [a] + [b] + [c];
  }

  lemma {:induction false} AcceptableSteps(p: Put)
    requires Acceptable(p)
    ensures p.offsets != [] && Increasing(p.offsets)
  {
  }

  /** A late deletion: a put deletes the file of an item it evicted, although the item is held again. */
  lemma {:induction false} UnlinkOne(w: World, ss: seq<State>, p: Put, q: Put, i: nat) returns (ss': seq<State>)
    requires Path(w, ss, p, q) && i < |ss[|ss| - 1].tasks|
    requires var t := ss[|ss| - 1].tasks[i]; t.PutUnlink? && t.left != []
    ensures ss' != [] && Path(w, ss', p, q) && ss'[0] == ss[0]
    ensures var s := ss[|ss| - 1];
            var t := s.tasks[i];
            ss'[|ss'| - 1] == s.(disk := s.disk - {t.left[0]}, tasks := s.tasks[i := PutUnlink(t.put, t.left[1..])])
  {
    hide Path;
    PathParts(w, ss, p, q);
    var s := ss[|ss| - 1];
    var t := s.tasks[i];
    var s' := s.(disk := s.disk - {t.left[0]}, tasks := s.tasks[i := PutUnlink(t.put, t.left[1..])]);
    assert QuietBy(w, s, Work(i), s');
    PathSnoc(w, ss, p, q, Work(i), s');
    ss' := ss + [s'];
  }

  /** The cache blocks itself: from an empty cache, with honest puts only, no outside deletion and no
  failing operation. Two items that fit one by one but not together are stored in turn, p, q, p. The
  second put's late deletion of the first item's file comes after the third put has stored it again,
  and the fourth put finds the item held and its file gone. */
  lemma {:induction false} CacheBlocksItself(w: World, p: Put, q: Put) returns (ss: seq<State>)
    requires HonestPut(w, p) && HonestPut(w, q) && Apart(p, q)
    requires |File(p)| <= w.capacity && |File(q)| <= w.capacity < |File(p)| + |File(q)|
    ensures ss != [] && Path(w, ss, p, q) && HonestRun(w, ss) && ss[0] == EMPTY_STATE
    ensures |ss[|ss| - 1].tasks| == 4 && ss[|ss| - 1].tasks[3] == PutBlocked(p, ItemOf(w, p))
  {
    hide HonestPut, File, Match, Commits, Path, HonestRun, Single, ItemOf, Acceptable;
    HonestIsAcceptable(w, p); HonestIsAcceptable(w, q);
    SingleMatch(w, p, q); SingleMatch(w, q, p);
    FirstCommit(w, p); SwapCommit(w, p, q); SwapCommit(w, q, p);
    StartPath(w, p, q);
    var x, y := (p.key, ItemOf(w, p)), (q.key, ItemOf(w, q));
    ss := [EMPTY_STATE];
    ss := StoreOne(w, ss, p, q, p, Single(w, p), []);
    ss := StoreOne(w, ss, p, q, q, Single(w, q), [x]);
    ss := StoreOne(w, ss, p, q, p, Single(w, p), [y]);
    var ts := [PutUnlink(p, []), PutUnlink(q, [x]), PutUnlink(p, [y])];
    assert ss[|ss| - 1].tasks == ts;
    ss := UnlinkOne(w, ss, p, q, 1);
    ss := BlockOne(w, ss, p, q);
    PathIsHonest(w, ss, p, q);
  }

  /** Such puts exist: two chunks of one byte each, and room for one file of thirteen bytes. */
  lemma {:induction false} OneByteChunksBlock(key: Key, crc: Bytes -> nat, logged: bool)
      returns (w: World, ss: seq<State>)
    ensures ss != [] && HonestRun(w, ss) && ss[0] == EMPTY_STATE && w.crc == crc && w.logged == logged
    ensures |ss[|ss| - 1].tasks| == 4 && ss[|ss| - 1].tasks[3].PutBlocked?
  {
    hide HonestRun, Path, ReadHeader, Header, Offsets;
    w := World(_ => [[0], [1]], crc, 13, logged);
    var p, q := Put(key, 0, 1, [0, 1], [0]), Put(key, 1, 2, [0, 1], [1]);
    assert Chunks(w, key, 0, 1) == [[0]] && Chunks(w, key, 1, 2) == [[1]];
    OneChunk(0); OneChunk(1);
    ss := CacheBlocksItself(w, p, q);
  }

  lemma {:induction false} OneChunk(b: byte)
    ensures Running([[b]]) == [0, 1] && Concat([[b]]) == [b] && Storable([[b]])
  {
    assert [[b]][..0] == [] && Concat([[b]]) == [] + [b];
    assert Running([[b]]) == [0] + [1];
  }

  lemma {:induction false} StartPath(w: World, p: Put, q: Put)
    ensures Path(w, [EMPTY_STATE], p, q)
  {
  }

  lemma {:induction false} PathIsHonest(w: World, ss: seq<State>, p: Put, q: Put)
    requires Path(w, ss, p, q) && HonestPut(w, p) && HonestPut(w, q)
    requires ss[0] == EMPTY_STATE
    ensures HonestRun(w, ss)
  {
    hide HonestPut, QuietBy;
    forall i | 0 <= i < |ss| - 1 ensures Next(w, ss[i], ss[i + 1]) && Spares(w, ss[i], ss[i + 1]) {
      assert Quiet(w, ss[i], ss[i + 1]);
      QuietIsNext(w, ss[i], ss[i + 1]);
    }
    forall i | 0 <= i < |ss| ensures Honest(w, ss[i]) {
      assert Only(ss[i], p, q);
    }
  }

  lemma {:induction false} QuietIsNext(w: World, s: State, s': State)
    requires Quiet(w, s, s')
    ensures Next(w, s, s') && Spares(w, s, s')
  {
    hide Does, TaskNext;
    var step: Step :| QuietBy(w, s, step, s');
  }
}
