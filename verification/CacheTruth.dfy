/** When every put supplies the true chunks of its key, every hit returns exactly those chunks. */
module CacheTruth {
  import opened HashText
  import opened Lists
  import opened CacheFile
  import opened CacheState
  import opened CacheProtocol
  import opened Wrappers

  ghost function Chunks(w: World, key: Key, start: nat, end: nat): seq<Bytes>
    requires start <= end <= |w.xorb(key)|
  {
    w.xorb(key)[start..end]
  }

  /** A put that supplies the true, non-empty chunks of its range. */
  ghost predicate HonestPut(w: World, p: Put) {
    && p.start < p.end <= |w.xorb(p.key)|
    && var chunks := Chunks(w, p.key, p.start, p.end);
       Storable(chunks) && p.offsets == Running(chunks) && p.data == Concat(chunks)
  }

  ghost predicate Honest(w: World, s: State) {
    forall i :: 0 <= i < |s.tasks| && s.tasks[i].IsPut() ==> HonestPut(w, s.tasks[i].put)
  }

  /** A file that holds exactly the chunks its item names. */
  ghost predicate TrueFile(w: World, key: Key, item: Item, content: Bytes) {
    && item.start < item.end <= |w.xorb(key)|
    && Storable(Chunks(w, key, item.start, item.end))
    && content == FileOf(Chunks(w, key, item.start, item.end))
    && item.len == |content| && item.checksum == w.crc(content)
  }

  ghost predicate TrueDisk(w: World, disk: Disk) {
    forall path :: path in disk ==> TrueFile(w, path.0, path.1, disk[path])
  }

  /** The answer to a get of true chunks. */
  ghost predicate TrueHit(w: World, key: Key, start: nat, end: nat, r: CacheRange) {
    && start < end <= |w.xorb(key)|
    && r.offsets == Running(Chunks(w, key, start, end))
    && r.data == Concat(Chunks(w, key, start, end))
  }

  ghost predicate TaskTrue(w: World, t: Task) {
    match t
    case GetLook(_, s, e) => s < e
    case GetOpen(_, s, e, item) => s < e && Covers(item, s, e)
    case GetRead(k, s, e, item, content) => s < e && Covers(item, s, e) && TrueFile(w, k, item, content)
    case GetDrop(_, s, e, _) => s < e
    case GetUnlink(_, s, e, _) => s < e
    case GetDone(k, s, e, got) =>
      && (got.GetRefused? <==> s >= e)
      && (got.Hit? ==> TrueHit(w, k, s, e, got.range))
    case PutCheck(p, item) => Covers(item, p.start, p.end)
    case PutDone(_, outcome) => outcome.PutOk? || outcome.PutFailed?
    case _ => true
  }

  ghost predicate True(w: World, s: State) {
    && TrueDisk(w, s.disk)
    && forall i :: 0 <= i < |s.tasks| ==> TaskTrue(w, s.tasks[i])
  }

  lemma {:induction false} HonestIsAcceptable(w: World, p: Put)
    requires HonestPut(w, p)
    ensures Acceptable(p) && TrueFile(w, p.key, ItemOf(w, p), File(p))
  {
    RunningOffsets(Chunks(w, p.key, p.start, p.end));
  }

  lemma {:induction false} ChunksWithin(w: World, key: Key, item: Item, start: nat, end: nat)
    requires item.start <= item.end <= |w.xorb(key)| && Covers(item, start, end) && start <= end
    ensures Chunks(w, key, item.start, item.end)[start - item.start..end - item.start] == Chunks(w, key, start, end)
  {
    var x := w.xorb(key);
    assert x[item.start..item.end][start - item.start..end - item.start] == x[start..end];
  }

  /** Serving a range from a true file that covers it gives the true chunks. */
  lemma {:induction false} ServeIsTrue(w: World, key: Key, start: nat, end: nat, item: Item, content: Bytes)
    requires start < end && Covers(item, start, end) && TrueFile(w, key, item, content)
    ensures var t := Serve(key, start, end, item, content);
            t.GetDone? && t.key == key && t.start == start && t.end == end && t.got.Hit?
            && TrueHit(w, key, start, end, t.got.range)
  {
    hide Running, Concat, ReadHeader, GetRange, Header, Chunks;
    var chunks := Chunks(w, key, item.start, item.end);
    RunningOffsets(chunks);
    ReadHeaderBack(Running(chunks), Concat(chunks));
    GetRangeOfChunksIn(w, key, item, start, end);
  }

  lemma {:induction false} GetRangeOfChunksIn(w: World, key: Key, item: Item, start: nat, end: nat)
    requires item.start < item.end <= |w.xorb(key)| && Covers(item, start, end) && start <= end
    requires Offsets(Running(Chunks(w, key, item.start, item.end)))
    ensures var chunks := Chunks(w, key, item.start, item.end);
            GetRange(Running(chunks), FileOf(chunks), start - item.start, end - item.start)
            == Some(CacheRange(Running(Chunks(w, key, start, end)), Concat(Chunks(w, key, start, end))))
  {
    hide Running, Concat, GetRange, Header, Offsets;
    GetRangeOfChunks(Chunks(w, key, item.start, item.end), start - item.start, end - item.start);
    ChunksWithin(w, key, item, start, end);
  }

  /** An honest put that finds a covering item with its file in place is accepted. */
  lemma {:induction false} HonestReput(w: World, disk: Disk, p: Put, item: Item)
    requires HonestPut(w, p) && Covers(item, p.start, p.end) && TrueDisk(w, disk) && (p.key, item) in disk
    ensures Check(w, disk, p, item) == PutDone(p, PutOk)
  {
    hide Running, Concat, Judge, FileOf, Storable, Chunks, Slices;
    HonestIsAcceptable(w, p);
    var stored := Chunks(w, p.key, item.start, item.end);
    assert TrueFile(w, p.key, item, disk[(p.key, item)]);
    ChunksAre(w, p.key, item.start, item.end); ChunksAre(w, p.key, p.start, p.end);
    var given := Chunks(w, p.key, p.start, p.end);
    ChunksWithin(w, p.key, item, p.start, p.end);
    SlicesOfRunning(given);
    JudgeIntact(stored, w.crc, p.start - item.start, p.offsets, p.data, w.logged);
  }

  lemma {:induction false} ChunksAre(w: World, key: Key, start: nat, end: nat)
    requires start <= end <= |w.xorb(key)|
    ensures |Chunks(w, key, start, end)| == end - start
  {
  }

  lemma {:induction false} SlicesOfRunning(chunks: seq<Bytes>)
    requires Offsets(Running(chunks))
    ensures Slices(Running(chunks), Concat(chunks)) == chunks
  {
    hide Concat, Slices;
    var s := Slices(Running(chunks), Concat(chunks));
    SlicesAreChunks(Running(chunks), Concat(chunks));
    var d := Concat(chunks);
    assert d[..|d|] == d;
    forall i | 0 <= i < |s| ensures |s[i]| == |chunks[i]| {
      StepIsLength(s, i); StepIsLength(chunks, i);
    }
    SameChunks(s, chunks);
  }

  /** Without its file, the item cannot be checked and the put blocks. */
  lemma {:induction false} HonestCheck(w: World, disk: Disk, p: Put, item: Item)
    requires HonestPut(w, p) && Covers(item, p.start, p.end) && TrueDisk(w, disk)
    ensures Check(w, disk, p, item) == if (p.key, item) in disk then PutDone(p, PutOk) else PutBlocked(p, item)
  {
    HonestIsAcceptable(w, p);
    if (p.key, item) in disk {
      HonestReput(w, disk, p, item);
    }
  }

  lemma {:induction false} TrueWork(w: World, mem: Mem, disk: Disk, t: Task, mem': Mem, disk': Disk, t': Task)
    requires TrueDisk(w, disk) && TaskTrue(w, t) && (t.IsPut() ==> HonestPut(w, t.put))
    requires TaskNext(w, mem, disk, t, mem', disk', t') || TaskFails(w, mem, disk, t, mem', disk', t')
    ensures TrueDisk(w, disk') && TaskTrue(w, t')
  {
    hide WellCounted, Match, Forget, Commits, File, FileOf, Serve, Check, ItemOf, TrueHit, TrueFile, HonestPut;
    if t.GetRead? {
      TrueFileChecksum(w, t.key, t.item, t.content);
      ServeIsTrue(w, t.key, t.start, t.end, t.item, t.content);
    } else if t.PutCheck? {
      HonestCheck(w, disk, t.put, t.item);
    } else if t.PutWrite? {
      HonestIsAcceptable(w, t.put);
    }
  }

  lemma {:induction false} TrueFileChecksum(w: World, key: Key, item: Item, content: Bytes)
    requires TrueFile(w, key, item, content)
    ensures w.crc(content) == item.checksum
  {
  }

  /** A step that replaces no file from outside. */
  ghost predicate Spares(w: World, s: State, s': State) {
    exists step: Step :: !step.Replace? && Does(w, s, step, s')
  }

  lemma {:induction false} TrueStep(w: World, s: State, s': State)
    requires True(w, s) && Honest(w, s) && Honest(w, s') && Spares(w, s, s')
    ensures True(w, s')
  {
    hide TaskNext, TaskFails, TaskTrue, TrueDisk, HonestPut, BeginPut, BeginGet;
    var step: Step :| !step.Replace? && Does(w, s, step, s');
    match step
    case CallGet(k, b, e) =>
      BeginIsTrue(w, k, b, e);
    case CallPut(p) =>
      assert s'.tasks[|s.tasks|] == BeginPut(p);
      BeginPutIsTrue(w, p);
    case Delete(path) =>
      DeleteKeepsTrue(w, s.disk, path);
    case Work(i) =>
      TrueWork(w, s.mem, s.disk, s.tasks[i], s'.mem, s'.disk, s'.tasks[i]);
  }

  lemma {:induction false} BeginIsTrue(w: World, k: Key, b: nat, e: nat)
    ensures TaskTrue(w, BeginGet(k, b, e))
  {
  }

  lemma {:induction false} BeginPutIsTrue(w: World, p: Put)
    ensures BeginPut(p).IsPut() && BeginPut(p).put == p
    ensures HonestPut(w, p) ==> TaskTrue(w, BeginPut(p))
  {
    if HonestPut(w, p) {
      HonestIsAcceptable(w, p);
    }
  }

  lemma {:induction false} DeleteKeepsTrue(w: World, disk: Disk, path: (Key, Item))
    requires TrueDisk(w, disk)
    ensures TrueDisk(w, disk - {path})
  {
    hide TrueFile;
  }

  ghost predicate HonestRun(w: World, ss: seq<State>) {
    && Run(w, ss) && TrueDisk(w, ss[0].disk)
    && (forall i :: 0 <= i < |ss| ==> Honest(w, ss[i]))
    && forall i :: 0 <= i < |ss| - 1 ==> Spares(w, ss[i], ss[i + 1])
  }

  lemma {:induction false} TrueRun(w: World, ss: seq<State>, i: nat)
    requires HonestRun(w, ss) && i < |ss|
    ensures True(w, ss[i])
  {
    hide Next, Spares, Honest, TaskTrue, TrueDisk;
    if i > 0 {
      TrueRun(w, ss, i - 1);
      TrueStep(w, ss[i - 1], ss[i]);
    }
  }

  /** In every interleaving of honest puts, gets, evictions and outside deletions, a get that finds
  something returns the requested chunks and their running lengths, and nothing else. */
  lemma {:induction false} HitsAreTrue(w: World, ss: seq<State>, i: nat, get: nat)
    requires HonestRun(w, ss) && i < |ss| && get < |ss[i].tasks|
    requires ss[i].tasks[get].GetDone? && ss[i].tasks[get].got.Hit?
    ensures var t := ss[i].tasks[get]; TrueHit(w, t.key, t.start, t.end, t.got.range)
  {
    hide HonestRun, TrueDisk, TrueHit;
    TrueRun(w, ss, i);
    assert TaskTrue(w, ss[i].tasks[get]);
  }

  /** An honest put is never refused and never panics. */
  lemma {:induction false} HonestPutsAccepted(w: World, ss: seq<State>, i: nat, put: nat)
    requires HonestRun(w, ss) && i < |ss| && put < |ss[i].tasks| && ss[i].tasks[put].PutDone?
    ensures ss[i].tasks[put].outcome.PutOk? || ss[i].tasks[put].outcome.PutFailed?
  {
    hide HonestRun, TrueDisk, TrueHit;
    TrueRun(w, ss, i);
    assert TaskTrue(w, ss[i].tasks[put]);
  }

  // ---------------------------------------------------------------- puts onto a stored item

  /** A put, honest or not, whose range lies in an item with an intact file is accepted exactly when
  its chunks are the stored ones, refused otherwise, and changes nothing. */
  lemma {:induction false} ReputJudged(w: World, mem: Mem, disk: Disk, p: Put, item: Item, stored: seq<Bytes>,
                                       mem': Mem, disk': Disk, t': Task)
    requires Acceptable(p) && Covers(item, p.start, p.end)
    requires item.end == item.start + |stored| && Storable(stored)
    requires FileAt(disk, p.key, item) == Some(FileOf(stored))
    requires item.len == |FileOf(stored)| && item.checksum == w.crc(FileOf(stored))
    requires TaskNext(w, mem, disk, PutCheck(p, item), mem', disk', t')
    ensures mem' == mem && disk' == disk
    ensures t' == PutDone(p, if Slices(p.offsets, p.data) == stored[p.start - item.start..p.end - item.start]
                             then PutOk else PutRefused)
  {
    hide Judge, FileOf, Storable, Slices, FileAt, WellFormed;
    JudgeIntact(stored, w.crc, p.start - item.start, p.offsets, p.data, w.logged);
  }
}
