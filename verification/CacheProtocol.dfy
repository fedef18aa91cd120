/** Concurrent gets and puts on the disk cache, as interleaved steps over the index, the files on
disk and the calls in flight. Files may also be deleted or replaced from outside at any time; a call that
has opened a file still reads the old one. A file operation
is one step; so is each section under the index lock, except that a put holding the write lock
first places its file and then changes the index. */
module CacheProtocol {
  import opened HashText
  import opened CacheFile
  import opened CacheState
  import opened Wrappers

  /** The chunks each key really has, the checksum, the configured capacity, and whether debug messages
  are evaluated. */
  datatype World = World(xorb: Key -> seq<Bytes>, crc: Bytes -> nat, capacity: nat, logged: bool)

  /** The arguments of a put. */
  datatype Put = Put(key: Key, start: nat, end: nat, offsets: seq<nat>, data: Bytes)

  datatype GetOutcome = Miss | Hit(range: CacheRange) | GetRefused | GetFailed
  datatype PutOutcome = PutOk | PutRefused | PutFailed | Panicked

  /** A call in flight: what it does next, or what it returned. */
  datatype Task =
    | GetLook(key: Key, start: nat, end: nat)
    | GetOpen(key: Key, start: nat, end: nat, item: Item)
    | GetRead(key: Key, start: nat, end: nat, item: Item, content: Bytes)
    | GetDrop(key: Key, start: nat, end: nat, item: Item)
    | GetUnlink(key: Key, start: nat, end: nat, item: Item)
    | GetDone(key: Key, start: nat, end: nat, got: GetOutcome)
    | PutLook(put: Put)
    | PutCheck(put: Put, item: Item)   // holds a read guard
    | PutBlocked(put: Put, item: Item) // holds a read guard and asks for the write guard
    | PutWrite(put: Put)
    | PutHold(put: Put)                // holds the write guard, its file is in place
    | PutUnlink(put: Put, left: seq<(Key, Item)>)
    | PutDone(put: Put, outcome: PutOutcome)
  {
    predicate IsPut() { PutLook? || PutCheck? || PutBlocked? || PutWrite? || PutHold? || PutUnlink? || PutDone? }
    predicate Done() { GetDone? || PutDone? }
  }

  type Disk = map<(Key, Item), Bytes>

  /** `marks` holds the items whose file needs no checksum test any more. A mark stays with its item: one
  that is dropped only comes back by a put, which marks it. */
  datatype State = State(mem: Mem, disk: Disk, tasks: seq<Task>, marks: set<(Key, Item)>)

  // ---------------------------------------------------------------- single calls

  function File(p: Put): Bytes {
    FileContent(p.offsets, p.data)
  }

  function ItemOf(w: World, p: Put): Item {
    Item(p.start, p.end, |File(p)|, w.crc(File(p)))
  }

  /** The checks a put makes on its arguments. */
  predicate Acceptable(p: Put) {
    p.start < p.end && |p.offsets| == p.end - p.start + 1 && WellFormed(p.offsets, p.data)
  }

  function BeginGet(key: Key, start: nat, end: nat): Task {
    if start >= end then GetDone(key, start, end, GetRefused) else GetLook(key, start, end)
  }

  function BeginPut(p: Put): Task {
    if Acceptable(p) then PutLook(p) else PutDone(p, PutRefused)
  }

  ghost function Lookup(mem: Mem, key: Key, start: nat, end: nat): Task {
    var m := Match(mem, key, start, end);
    if m.None? then GetDone(key, start, end, Miss) else GetOpen(key, start, end, m.value)
  }

  /** Reading the opened file: a bad header drops the item. */
  function Serve(key: Key, start: nat, end: nat, item: Item, content: Bytes): Task {
    var h := ReadHeader(content);
    if h.None? then GetDrop(key, start, end, item)
    else if item.start > start || start > end then GetDone(key, start, end, GetFailed)
    else
      var r := GetRange(h.value, content, start - item.start, end - item.start);
      GetDone(key, start, end, if r.None? then GetFailed else Hit(r.value))
  }

  function FileAt(disk: Disk, key: Key, item: Item): Option<Bytes> {
    if (key, item) in disk then Some(disk[(key, item)]) else None
  }

  function Check(w: World, disk: Disk, p: Put, item: Item): Task {
    if !Acceptable(p) || p.start < item.start then PutDone(p, PutFailed)
    else
      match Judge(FileAt(disk, p.key, item), item.len, item.checksum, w.crc, p.start - item.start, p.offsets, p.data,
                  w.logged)
      case Same => PutDone(p, PutOk)
      case Different => PutDone(p, PutRefused)
      case Unusable => PutBlocked(p, item)
      case ReadError => PutDone(p, PutFailed)
      case OutOfRange => PutDone(p, Panicked)
  }

  ghost function LookForPut(w: World, mem: Mem, p: Put): Task {
    var m := Match(mem, p.key, p.start, p.end);
    if m.Some? then PutCheck(p, m.value)
    else if |File(p)| > w.capacity then PutDone(p, PutOk)
    else PutWrite(p)
  }

  /** Evicting just enough for the new item, then adding it. */
  ghost predicate Commits(w: World, mem: Mem, p: Put, mem': Mem, evicted: seq<(Key, Item)>) {
    exists mid: Mem ::
      && Evicts(mem, mid, evicted)
      && mid.totalBytes + |File(p)| <= w.capacity
      && (evicted != [] ==> mid.totalBytes + evicted[|evicted| - 1].1.len + |File(p)| > w.capacity)
      && mem' == Insert(mid, p.key, ItemOf(w, p))
  }

  // ---------------------------------------------------------------- steps

  /** One step of one call that gets the lock it needs. */
  ghost predicate TaskNext(w: World, mem: Mem, disk: Disk, t: Task, mem': Mem, disk': Disk, t': Task) {
    match t
    case GetLook(k, s, e) => mem' == mem && disk' == disk && t' == Lookup(mem, k, s, e)
    case GetOpen(k, s, e, item) =>
      && mem' == mem && disk' == disk
      && t' == if (k, item) in disk then GetRead(k, s, e, item, disk[(k, item)]) else GetDrop(k, s, e, item)
    case GetRead(k, s, e, item, content) =>
      // whether the checksum is looked at depends on the mark, see `Marks`
      && mem' == mem && disk' == disk
      && (t' == Serve(k, s, e, item, content)
          || (w.crc(content) != item.checksum && t' == GetDrop(k, s, e, item)))
    case GetDrop(k, s, e, item) =>
      // true counters do not underflow
      && disk' == disk && WellCounted(mem) && mem' == Forget(mem, k, item)
      && t' == if k in mem.inner && item !in mem.inner[k] then GetLook(k, s, e) else GetUnlink(k, s, e, item)
    case GetUnlink(k, s, e, item) => mem' == mem && disk' == disk - {(k, item)} && t' == GetLook(k, s, e)
    case GetDone(_, _, _, _) => false
    case PutLook(p) => mem' == mem && disk' == disk && t' == LookForPut(w, mem, p)
    case PutCheck(p, item) => mem' == mem && disk' == disk && t' == Check(w, disk, p, item)
    case PutBlocked(p, item) =>
      && disk' == disk - {(p.key, item)} && WellCounted(mem) && mem' == Forget(mem, p.key, item)
      && t' == PutLook(p)
    case PutWrite(p) =>
      && mem' == mem
      && if Match(mem, p.key, p.start, p.end).Some? then disk' == disk && t' == PutDone(p, PutOk)
         else disk' == disk[(p.key, ItemOf(w, p)) := File(p)] && t' == PutHold(p)
    case PutHold(p) => disk' == disk && t'.PutUnlink? && t'.put == p && Commits(w, mem, p, mem', t'.left)
    case PutUnlink(p, left) =>
      && mem' == mem
      && if left == [] then disk' == disk && t' == PutDone(p, PutOk)
         else disk' == disk - {left[0]} && t' == PutUnlink(p, left[1..])
    case PutDone(_, _) => false
  }

  /** A file operation goes wrong; closing a written file may do so after it is in place. */
  ghost predicate TaskFails(w: World, mem: Mem, disk: Disk, t: Task, mem': Mem, disk': Disk, t': Task) {
    && mem' == mem
    && (disk' == disk || (t.PutWrite? && disk' == disk[(t.put.key, ItemOf(w, t.put)) := File(t.put)]))
    && match t
       case GetOpen(k, s, e, _) => t' == GetDone(k, s, e, GetFailed)
       case GetRead(k, s, e, _, _) => t' == GetDone(k, s, e, GetFailed)
       case GetUnlink(k, s, e, _) => t' == GetDone(k, s, e, GetFailed)
       case PutCheck(p, _) => t' == PutDone(p, PutFailed)
       case PutWrite(p) => t' == PutDone(p, PutFailed)
       case PutUnlink(p, _) => t' == PutDone(p, PutFailed)
       case _ => false
  }

  /** What is read is served only from a marked item, or if its checksum is right, which marks the item;
  a put marks the item it adds. */
  ghost predicate Marks(w: World, marks: set<(Key, Item)>, t: Task, marks': set<(Key, Item)>, t': Task) {
    match t
    case GetRead(k, s, e, item, content) =>
      var right := w.crc(content) == item.checksum;
      && (marks' == marks || (right && marks' == marks + {(k, item)}))
      && (t'.GetDone? && t'.got.Hit? ==> (k, item) in marks')
    case PutHold(p) => marks' == marks + {(p.key, ItemOf(w, p))}
    case _ => marks' == marks
  }

  predicate NoWriter(ts: seq<Task>) {
    forall i :: 0 <= i < |ts| ==> !ts[i].PutHold?
  }

  predicate NoReader(ts: seq<Task>) {
    forall i :: 0 <= i < |ts| ==> !ts[i].PutCheck? && !ts[i].PutBlocked?
  }

  /** The index lock: readers exclude writers, writers exclude everyone. */
  predicate LockFree(ts: seq<Task>, t: Task) {
    && (t.GetLook? || t.PutLook? ==> NoWriter(ts))
    && (t.GetDrop? || t.PutBlocked? || t.PutWrite? ==> NoWriter(ts) && NoReader(ts))
  }

  datatype Step =
    | CallGet(key: Key, start: nat, end: nat)
    | CallPut(put: Put)
    | Delete(path: (Key, Item))
    | Replace(path: (Key, Item), content: Bytes)
    | Work(i: nat)

  ghost predicate Works(w: World, s: State, i: nat, s': State) {
    && i < |s.tasks| == |s'.tasks|
    && s'.tasks == s.tasks[i := s'.tasks[i]]
    && var t, t' := s.tasks[i], s'.tasks[i];
       && Marks(w, s.marks, t, s'.marks, t')
       && (|| TaskFails(w, s.mem, s.disk, t, s'.mem, s'.disk, t')
           || (LockFree(s.tasks, t) && TaskNext(w, s.mem, s.disk, t, s'.mem, s'.disk, t')))
  }

  ghost predicate Does(w: World, s: State, step: Step, s': State) {
    match step
    case CallGet(k, b, e) => s' == s.(tasks := s.tasks + [BeginGet(k, b, e)])
    case CallPut(p) => s' == s.(tasks := s.tasks + [BeginPut(p)])
    case Delete(path) => s' == s.(disk := s.disk - {path})
    case Replace(path, content) => s' == s.(disk := s.disk[path := content])
    case Work(i) => Works(w, s, i, s')
  }

  ghost predicate Next(w: World, s: State, s': State) {
    exists step: Step :: Does(w, s, step, s')
  }

  ghost predicate Run(w: World, ss: seq<State>) {
    && ss != [] && ss[0].tasks == [] && ss[0].marks == {}
    && forall i :: 0 <= i < |ss| - 1 ==> Next(w, ss[i], ss[i + 1])
  }
}
