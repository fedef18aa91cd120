/** The cache object itself, one call at a time: the retry loop of a lookup, and an insertion with its
eviction and file deletions. */
module DiskCache {
  import opened HashText
  import opened CacheFile
  import opened CacheState
  import opened CacheProtocol
  import opened CacheTruth
  import Safety = CacheSafety
  import opened Wrappers

  /** Some held item that covers the range has its file in place. */
  ghost predicate Available(mem: Mem, disk: Disk, key: Key, start: nat, end: nat) {
    exists x :: x in Held(mem, key) && Covers(x, start, end) && (key, x) in disk
  }

  /** The item's file is in place, the item is marked or the file has its checksum, and the header reads. */
  predicate Usable(disk: Disk, marks: set<(Key, Item)>, crc: Bytes -> nat, key: Key, item: Item) {
    && (key, item) in disk
    && ((key, item) in marks || crc(disk[(key, item)]) == item.checksum)
    && ReadHeader(disk[(key, item)]).Some?
  }

  /** Every item dropped from `before` to `after` covers the range and was not usable. */
  ghost predicate DropsUnusable(before: Mem, after: Mem, disk: Disk, marks: set<(Key, Item)>, crc: Bytes -> nat,
      key: Key, start: nat, end: nat) {
    forall k, x :: Dropped(before, after, k, x) ==>
      k == key && Covers(x, start, end) && !Usable(disk, marks, crc, key, x)
  }

  predicate Dropped(before: Mem, after: Mem, key: Key, item: Item) {
    item in Held(before, key) && item !in Held(after, key)
  }

  /** Every mark that is new belongs to a file with the right checksum. */
  ghost predicate MarksRight(disk: Disk, before: set<(Key, Item)>, after: set<(Key, Item)>, crc: Bytes -> nat) {
    before <= after && forall path :: path in after - before ==> path in disk && crc(disk[path]) == path.1.checksum
  }

  lemma {:induction false} DropOne(before: Mem, mem: Mem, disk: Disk, marks: set<(Key, Item)>, crc: Bytes -> nat,
      key: Key, start: nat, end: nat, item: Item)
    requires WellCounted(mem) && DropsUnusable(before, mem, disk, marks, crc, key, start, end)
    requires Covers(item, start, end) && !Usable(disk, marks, crc, key, item)
    ensures DropsUnusable(before, Forget(mem, key, item), disk, marks, crc, key, start, end)
  {
    hide WellCounted, Usable, Forget, Held;
    forall k, x | Dropped(before, Forget(mem, key, item), k, x)
      ensures k == key && Covers(x, start, end) && !Usable(disk, marks, crc, key, x)
    {
      ForgetElsewhere(mem, key, item, k);
      if x in Held(mem, k) {
        assert k == key;
        if x != item {
          ForgetOthers(mem, key, item, x);
        }
      } else {
        assert Dropped(before, mem, k, x);
      }
    }
  }

  lemma {:induction false} ForgetElsewhere(mem: Mem, key: Key, item: Item, k: Key)
    requires WellCounted(mem)
    ensures k != key ==> Held(Forget(mem, key, item), k) == Held(mem, k)
  {
    hide WellCounted, SwapRemove;
  }

  /** Files only disappear. */
  predicate Shrinks(before: Disk, after: Disk) {
    forall path :: path in after ==> path in before && after[path] == before[path]
  }

  /** Only files of unusable items of the key disappear. */
  predicate Clears(before: Disk, after: Disk, marks: set<(Key, Item)>, crc: Bytes -> nat, key: Key) {
    && Shrinks(before, after)
    && forall path :: path in before && path !in after ==>
         path.0 == key && !Usable(before, marks, crc, key, path.1)
  }

  /** Looking at the file and the mark as they are now decides whether the item was usable at the start. */
  lemma {:induction false} UsableNow(before: Disk, disk: Disk, start: set<(Key, Item)>, marks: set<(Key, Item)>,
      crc: Bytes -> nat, key: Key, item: Item)
    requires Clears(before, disk, start, crc, key) && MarksRight(before, start, marks, crc)
    ensures Usable(before, start, crc, key, item) <==> Usable(disk, marks, crc, key, item)
    ensures (key, item) in disk ==> (key, item) in before && before[(key, item)] == disk[(key, item)]
  {
    hide ReadHeader;
  }

  lemma {:induction false} MarkOne(before: Disk, disk: Disk, start: set<(Key, Item)>, marks: set<(Key, Item)>,
      crc: Bytes -> nat, key: Key, item: Item)
    requires Clears(before, disk, start, crc, key) && MarksRight(before, start, marks, crc)
    requires (key, item) in disk && crc(disk[(key, item)]) == item.checksum
    ensures MarksRight(before, start, marks + {(key, item)}, crc)
  {
    hide Usable;
  }

  lemma {:induction false} ClearOne(before: Disk, disk: Disk, start: set<(Key, Item)>, crc: Bytes -> nat, key: Key,
      item: Item)
    requires Clears(before, disk, start, crc, key) && !Usable(before, start, crc, key, item)
    ensures Clears(before, disk - {(key, item)}, start, crc, key)
  {
    hide Usable;
  }

  lemma {:induction false} Untouched(mem: Mem, disk: Disk, marks: set<(Key, Item)>, crc: Bytes -> nat, key: Key,
      start: nat, end: nat)
    ensures DropsUnusable(mem, mem, disk, marks, crc, key, start, end) && Clears(disk, disk, marks, crc, key)
    ensures MarksRight(disk, marks, marks, crc)
  {
  }

  lemma {:induction false} ForgetOthers(mem: Mem, key: Key, item: Item, x: Item)
    requires WellCounted(mem) && x in Held(mem, key) && x != item
    ensures x in Held(Forget(mem, key, item), key)
  {
    hide WellCounted;
    var items := mem.inner[key];
    var i := IndexOf(items, item, 0);
    if i < |items| {
      SwapRemoveOthers(items, i, x);
    }
  }

  lemma {:induction false} SwapRemoveOthers(items: seq<Item>, i: nat, x: Item)
    requires i < |items| && x in items && x != items[i]
    ensures x in SwapRemove(items, i)
  {
    var j :| 0 <= j < |items| && items[j] == x;
    var r := SwapRemove(items, i);
    if j == |items| - 1 {
      assert r[i] == x;
    } else {
      assert r[j] == x;
    }
  }

  /** Forgetting a held item takes it off the count. */
  lemma {:induction false} ForgetHeld(mem: Mem, key: Key, item: Item)
    requires WellCounted(mem) && item in Held(mem, key)
    ensures Forget(mem, key, item).numItems == mem.numItems - 1
  {
    hide WellCounted, SwapRemove;
    var i := IndexOf(mem.inner[key], item, 0);
    assert mem.inner[key][0..] == mem.inner[key];
    RemoveNeverUnderflows(mem, key, i);
  }

  /** A forgotten item is one of those held. */
  lemma {:induction false} ForgetWithin(mem: Mem, key: Key, item: Item, k: Key, x: Item)
    requires WellCounted(mem) && x in Held(Forget(mem, key, item), k)
    ensures x in Held(mem, k)
  {
    hide WellCounted, SwapRemove, RemoveAt;
    if key in mem.inner {
      var i := IndexOf(mem.inner[key], item, 0);
      if i < |mem.inner[key]| {
        Safety.RemoveKeepsDistinct(mem, key, i);
      }
    }
  }

  /** Dropping an item whose file is gone makes nothing more or less available. */
  lemma {:induction false} DropKeepsAvailable(mem: Mem, disk: Disk, key: Key, start: nat, end: nat, item: Item)
    requires WellCounted(mem) && (key, item) !in disk
    ensures Available(Forget(mem, key, item), disk, key, start, end) <==> Available(mem, disk, key, start, end)
  {
    hide WellCounted, Held, Forget;
    var after := Forget(mem, key, item);
    if Available(mem, disk, key, start, end) {
      var x :| x in Held(mem, key) && Covers(x, start, end) && (key, x) in disk;
      ForgetOthers(mem, key, item, x);
    }
    if Available(after, disk, key, start, end) {
      var x :| x in Held(after, key) && Covers(x, start, end) && (key, x) in disk;
      ForgetWithin(mem, key, item, key, x);
    }
  }

  lemma {:induction false} MatchHeld(mem: Mem, disk: Disk, key: Key, start: nat, end: nat)
    ensures var m := Match(mem, key, start, end);
            && (m.Some? ==> m.value in Held(mem, key) && Covers(m.value, start, end))
            && (m.None? ==> !Available(mem, disk, key, start, end))
            && (m.Some? && (key, m.value) in disk ==> Available(mem, disk, key, start, end))
  {
    hide FirstCover;
  }

  /** The item was added after evicting just enough, its file is there, and the files of the evicted items
  are gone: all of them, or up to one that could not be deleted. */
  ghost predicate Stored(w: World, mem: Mem, disk: Disk, p: CacheProtocol.Put, mem': Mem, disk': Disk, all: bool) {
    exists evicted: seq<(Key, Item)>, n: nat ::
      && Commits(w, mem, p, mem', evicted) && n <= |evicted| && (all ==> n == |evicted|)
      && disk' == Without(disk[(p.key, ItemOf(w, p)) := File(p)], evicted[..n])
  }

  class DiskCache {
    const capacity: nat
    const crc: Bytes -> nat
    const logged: bool
    const state: CacheState
    var disk: Disk
    /** The items put or found intact since the index was loaded. */
    var marks: set<(Key, Item)>

    constructor (capacity: nat, crc: Bytes -> nat, logged: bool, state: CacheState, disk: Disk)
      ensures this.capacity == capacity && this.crc == crc && this.logged == logged
      ensures this.state == state && this.disk == disk && marks == {}
    {
      this.capacity, this.crc, this.logged, this.state, this.disk := capacity, crc, logged, state, disk;
      marks := {};
    }

    /** Drops an item from the index and, unless someone else already did, its file. Deleting a file
    that is there may fail. */
    method RemoveItem(key: Key, item: Item, fails: bool) returns (ok: bool)
      requires WellCounted(state.Value())
      modifies this`disk, state
      ensures state.Value() == Forget(old(state.Value()), key, item)
      ensures var unlink := (key !in old(state.inner) || item in old(state.inner)[key]) && (key, item) in old(disk);
              ok == !(unlink && fails) && disk == if unlink && ok then old(disk) - {(key, item)} else old(disk)
    {
      var unlink := state.RemoveItem(key, item);
      if unlink && (key, item) in disk {
        if fails {
          return false;
        }
        disk := disk - {(key, item)};
      }
      ok := true;
    }

    /** Looks for a range, dropping unusable items until one serves it or none is left; `io(n)` says that
    the n-th file operation fails. Whatever the files hold, the answer comes from the first covering item
    left, which is usable, and only unusable items are dropped. With true files and no failure it finds the
    range exactly when some covering item still has its file, and then answers with it. */
    method Get(key: Key, start: nat, end: nat, io: nat -> bool, ghost w: World) returns (r: GetOutcome)
      requires WellCounted(state.Value()) && w.crc == crc
      modifies this`disk, this`marks, state
      ensures WellCounted(state.Value()) && state.totalBytes <= old(state.totalBytes)
      ensures Clears(old(disk), disk, old(marks), crc, key)
      ensures r.GetRefused? <==> start >= end
      ensures r.Miss? ==> Match(state.Value(), key, start, end).None?
      ensures DropsUnusable(old(state.Value()), state.Value(), old(disk), old(marks), crc, key, start, end)
      ensures MarksRight(old(disk), old(marks), marks, crc)
      ensures r.Hit? ==>
                var m := Match(state.Value(), key, start, end);
                && m.Some? && m.value in Held(old(state.Value()), key) && (key, m.value) in marks
                && Usable(old(disk), old(marks), crc, key, m.value)
                && Serve(key, start, end, m.value, old(disk)[(key, m.value)]) == GetDone(key, start, end, r)
      ensures r.GetFailed? ==>
                || (exists n :: io(n))
                || var m := Match(state.Value(), key, start, end);
                   && m.Some? && Usable(old(disk), old(marks), crc, key, m.value)
                   && Serve(key, start, end, m.value, old(disk)[(key, m.value)]) == GetDone(key, start, end, r)
      ensures TrueDisk(w, old(disk)) && start < end ==> disk == old(disk)
      ensures TrueDisk(w, old(disk)) && start < end ==>
                || (r.GetFailed? && exists n :: io(n))
                || if Available(old(state.Value()), old(disk), key, start, end)
                   then r.Hit? && TrueHit(w, key, start, end, r.range) else r.Miss?
    {
      hide WellCounted, Match, Forget, TrueDisk, TrueHit, Available, Serve, FirstCover, Held, Usable, DropsUnusable,
          MarksRight, Clears;
      Untouched(state.Value(), disk, marks, crc, key, start, end);
      if start >= end {
        return GetRefused;
      }
      ghost var mem := state.Value();
      var n := 0;
      while true
        invariant WellCounted(state.Value()) && state.totalBytes <= old(state.totalBytes)
        invariant Clears(old(disk), disk, old(marks), crc, key)
        invariant DropsUnusable(mem, state.Value(), old(disk), old(marks), crc, key, start, end)
        invariant MarksRight(old(disk), old(marks), marks, crc)
        invariant forall k, x :: x in Held(state.Value(), k) ==> x in Held(mem, k)
        invariant TrueDisk(w, old(disk)) ==> disk == old(disk)
        invariant TrueDisk(w, old(disk)) ==>
                    (Available(state.Value(), disk, key, start, end) <==> Available(mem, disk, key, start, end))
        decreases state.numItems
      {
        var found := state.FindMatch(key, start, end);
        MatchHeld(state.Value(), disk, key, start, end);
        if found.None? {
          return Miss;
        }
        var item := found.value;
        ForgetHeld(state.Value(), key, item);
        ServeIsGet(key, start, end, item, disk);
        if io(n) {
          return GetFailed;
        }
        if (key, item) in disk {
          TrueServe(w, disk, key, start, end, item);
          var content := disk[(key, item)];
          if (key, item) !in marks && crc(content) == item.checksum {
            MarkOne(old(disk), disk, old(marks), marks, crc, key, item);
            marks := marks + {(key, item)};
          }
          UsableNow(old(disk), disk, old(marks), marks, crc, key, item);
          UsableMarked(disk, marks, crc, key, start, end, item);
          if (key, item) in marks {
            var served := Serve(key, start, end, item, content);
            if served.GetDone? {
              return served.got;
            }
          }
        } else {
          UsableNow(old(disk), disk, old(marks), marks, crc, key, item);
          NoFile(disk, marks, crc, key, item);
          DropKeepsAvailable(state.Value(), disk, key, start, end, item);
        }
        ForgetsOnly(state.Value(), key, item);
        ClearOne(old(disk), disk, old(marks), crc, key, item);
        DropOne(mem, state.Value(), old(disk), old(marks), crc, key, start, end, item);
        var removed := RemoveItem(key, item, io(n + 1));
        if !removed {
          return GetFailed;
        }
        n := n + 2;
      }
    }

    /** Inserts a range, unless it is refused, too large, or already covered by a stored item; `io(n)` says
    that the n-th file operation fails. A stored item whose file is unusable blocks the call, which then
    never returns. Once a fitting range is written, it is available. */
    method Put(p: CacheProtocol.Put, io: nat -> bool, ghost w: World) returns (r: Option<PutOutcome>)
      requires WellCounted(state.Value()) && w.crc == crc && w.capacity == capacity && w.logged == logged
      modifies this`disk, this`marks, state
      ensures WellCounted(state.Value())
      ensures !Acceptable(p) ==> r == Some(PutRefused)
      ensures var m := Match(old(state.Value()), p.key, p.start, p.end);
              !Acceptable(p) || m.Some? || |File(p)| > capacity || io(1)
              ==> state.Value() == old(state.Value()) && disk == old(disk) && marks == old(marks)
      ensures var m := Match(old(state.Value()), p.key, p.start, p.end);
              Acceptable(p) && m.Some? ==>
                var t := Check(w, old(disk), p, m.value);
                if io(0) && (p.key, m.value) in old(disk) then r == Some(PutFailed)
                else r == if t.PutDone? then Some(t.outcome) else None
      ensures var m := Match(old(state.Value()), p.key, p.start, p.end);
              Acceptable(p) && m.None? ==> r == Some(PutOk) || (r == Some(PutFailed) && exists n :: io(n))
      ensures var m := Match(old(state.Value()), p.key, p.start, p.end);
              Acceptable(p) && m.None? && |File(p)| <= capacity && !io(1) ==>
                && state.totalBytes <= capacity && marks == old(marks) + {(p.key, ItemOf(w, p))}
                && Available(state.Value(), disk, p.key, p.start, p.end)
                && Stored(w, old(state.Value()), old(disk), p, state.Value(), disk, r == Some(PutOk))
                && (TrueDisk(w, old(disk)) && HonestPut(w, p) ==> TrueDisk(w, disk))
    {
      hide WellCounted, Match, Commits, TrueDisk, HonestPut, Available, Held, Acceptable, FirstCover, Check, File,
          ItemOf;
      if !Acceptable(p) {
        return Some(PutRefused);
      }
      var found := state.FindMatch(p.key, p.start, p.end);
      MatchHeld(state.Value(), disk, p.key, p.start, p.end);
      if found.Some? {
        if io(0) && (p.key, found.value) in disk {
          return Some(PutFailed);
        }
        r := Compare(p, found.value, w);
        return;
      }
      if |File(p)| > capacity {
        return Some(PutOk);
      }
      if io(1) {
        return Some(PutFailed);
      }
      ghost var mem := state.Value();
      var evicted := Commit(p, w);
      Safety.CommitKeepsCounts(w, mem, p, state.Value(), evicted);
      NewFileStays(w, mem, p, state.Value(), evicted);
      CommitHolds(w, mem, p, state.Value(), evicted);
      var removed := RemoveFiles(evicted, io);
      PutAvailable(w, old(disk), p, state.Value(), evicted[..removed]);
      assert Stored(w, mem, old(disk), p, state.Value(), disk, removed == |evicted|);
      r := Some(if removed == |evicted| then PutOk else PutFailed);
    }

    /** Compares a put with a stored item; None when it blocks. */
    method Compare(p: CacheProtocol.Put, item: Item, ghost w: World) returns (r: Option<PutOutcome>)
      requires Acceptable(p) && Covers(item, p.start, p.end) && w.crc == crc && w.logged == logged
      ensures var t := Check(w, disk, p, item); r == if t.PutDone? then Some(t.outcome) else None
    {
      hide Judge;
      var v := ValidateMatch(FileAt(disk, p.key, item), item.len, item.checksum, crc, p.start - item.start,
          p.offsets, p.data, logged);
      match v
      case Same => return Some(PutOk);
      case Different => return Some(PutRefused);
      case Unusable => return None;
      case ReadError => return Some(PutFailed);
      case OutOfRange => return Some(Panicked);
    }

    /** Under the write lock: looks once more, and if the range is still not covered places the file,
    evicts to make room for it, and adds the item. */
    method Commit(p: CacheProtocol.Put, ghost w: World) returns (evicted: seq<(Key, Item)>)
      requires WellCounted(state.Value()) && w.crc == crc && w.capacity == capacity && |File(p)| <= capacity
      modifies this`disk, this`marks, state
      ensures Match(old(state.Value()), p.key, p.start, p.end).Some? ==>
                state.Value() == old(state.Value()) && disk == old(disk) && marks == old(marks) && evicted == []
      ensures Match(old(state.Value()), p.key, p.start, p.end).None? ==>
                && Commits(w, old(state.Value()), p, state.Value(), evicted)
                && disk == old(disk)[(p.key, ItemOf(w, p)) := File(p)]
                && marks == old(marks) + {(p.key, ItemOf(w, p))}
    {
      hide WellCounted, Commits, Evicts, Match, FileContent, FirstCover;
      var again := state.FindMatch(p.key, p.start, p.end);
      if again.Some? {
        return [];
      }
      var content := FileContent(p.offsets, p.data);
      var item := Item(p.start, p.end, |content|, crc(content));
      ghost var mem := state.Value();
      disk := disk[(p.key, item) := content];
      evicted := state.EvictToCapacity(capacity - |content|);
      ghost var mid := state.Value();
      state.numItems := state.numItems + 1;
      state.totalBytes := state.totalBytes + item.len;
      var items := if p.key in state.inner then state.inner[p.key] else [];
      state.inner := state.inner[p.key := items + [item]];
      marks := marks + {(p.key, item)};
      CommitIs(w, mem, p, mid, evicted);
    }

    /** Deletes files one by one, until one cannot be deleted. */
    method RemoveFiles(gone: seq<(Key, Item)>, io: nat -> bool) returns (removed: nat)
      modifies this`disk
      ensures removed <= |gone| && disk == Without(old(disk), gone[..removed])
      ensures removed < |gone| ==> gone[removed] in disk && exists n :: io(n)
    {
      removed := 0;
      while removed < |gone|
        invariant removed <= |gone| && disk == Without(old(disk), gone[..removed])
      {
        if io(2 + removed) && gone[removed] in disk {
          return;
        }
        disk := disk - {gone[removed]};
        removed := removed + 1;
      }
    }
  }

  lemma {:induction false} CommitIs(w: World, mem: Mem, p: CacheProtocol.Put, mid: Mem, evicted: seq<(Key, Item)>)
    requires Evicts(mem, mid, evicted) && mid.totalBytes + |File(p)| <= w.capacity
    requires evicted != [] ==> mid.totalBytes + evicted[|evicted| - 1].1.len + |File(p)| > w.capacity
    ensures Commits(w, mem, p, Insert(mid, p.key, ItemOf(w, p)), evicted)
  {
    hide Evicts, FileContent;
  }

  /** The inserted item covers its own range and its file is there; true files stay true. */
  lemma {:induction false} PutAvailable(w: World, disk: Disk, p: CacheProtocol.Put, mem': Mem,
      evicted: seq<(Key, Item)>)
    requires ItemOf(w, p) in Held(mem', p.key) && (p.key, ItemOf(w, p)) !in evicted
    ensures var disk' := Without(disk[(p.key, ItemOf(w, p)) := File(p)], evicted);
            && Available(mem', disk', p.key, p.start, p.end)
            && (TrueDisk(w, disk) && HonestPut(w, p) ==> TrueDisk(w, disk'))
  {
    hide Held, File, TrueFile, HonestPut;
    var disk' := Without(disk[(p.key, ItemOf(w, p)) := File(p)], evicted);
    assert (p.key, ItemOf(w, p)) in disk';
    if TrueDisk(w, disk) && HonestPut(w, p) {
      HonestIsAcceptable(w, p);
    }
  }

  /** The disk after an insertion: the new file, without those of the evicted items. */
  function Without(disk: Disk, gone: seq<(Key, Item)>): (r: Disk)
    ensures forall path :: path in r <==> path in disk && path !in gone
    ensures forall path :: path in r ==> r[path] == disk[path]
  {
    map path | path in disk && path !in gone :: disk[path]
  }

  /** What is evicted was held. */
  lemma {:induction false} EvictedHeld(before: Mem, after: Mem, evicted: seq<(Key, Item)>, i: nat)
    requires Evicts(before, after, evicted) && i < |evicted|
    ensures evicted[i].1 in Held(before, evicted[i].0)
    decreases |evicted|
  {
    hide WellCounted, SwapRemove, RemoveAt;
    var n := |evicted| - 1;
    var mid: Mem :| Drops(mid, after, evicted[n].0, evicted[n].1) && Evicts(before, mid, evicted[..n]);
    if i < n {
      EvictedHeld(before, mid, evicted[..n], i);
    } else {
      var j: nat :| Holds(mid, evicted[n].0, j) && mid.inner[evicted[n].0][j] == evicted[n].1;
      assert evicted[n].1 in mid.inner[evicted[n].0];
      Safety.EvictKeepsDistinct(before, mid, evicted[..n]);
    }
  }

  /** The new item's file is not among the files of the evicted items. */
  lemma {:induction false} NewFileStays(w: World, mem: Mem, p: Put, mem': Mem, evicted: seq<(Key, Item)>)
    requires Commits(w, mem, p, mem', evicted) && Match(mem, p.key, p.start, p.end).None?
    ensures (p.key, ItemOf(w, p)) !in evicted
  {
    hide Evicts, FileContent, Match;
    var mid: Mem :| Evicts(mem, mid, evicted);
    if (p.key, ItemOf(w, p)) in evicted {
      var i :| 0 <= i < |evicted| && evicted[i] == (p.key, ItemOf(w, p));
      EvictedHeld(mem, mid, evicted, i);
    }
  }

  lemma {:induction false} CommitHolds(w: World, mem: Mem, p: Put, mem': Mem, evicted: seq<(Key, Item)>)
    requires Commits(w, mem, p, mem', evicted)
    ensures ItemOf(w, p) in Held(mem', p.key)
  {
    hide Evicts, FileContent, ItemOf;
  }

  /** With the mark settled, the item is usable exactly when its content is served. */
  lemma {:induction false} UsableMarked(disk: Disk, marks: set<(Key, Item)>, crc: Bytes -> nat, key: Key, start: nat,
      end: nat, item: Item)
    requires (key, item) in disk && (crc(disk[(key, item)]) == item.checksum ==> (key, item) in marks)
    ensures var t := Serve(key, start, end, item, disk[(key, item)]);
            && (Usable(disk, marks, crc, key, item) <==> (key, item) in marks && t.GetDone?)
            && (t.GetDone? ==> t == GetDone(key, start, end, t.got))
  {
    hide ReadHeader, GetRange;
  }

  lemma {:induction false} NoFile(disk: Disk, marks: set<(Key, Item)>, crc: Bytes -> nat, key: Key, item: Item)
    requires (key, item) !in disk
    ensures !Usable(disk, marks, crc, key, item)
  {
  }

  lemma {:induction false} ForgetsOnly(mem: Mem, key: Key, item: Item)
    requires WellCounted(mem)
    ensures forall k, x :: x in Held(Forget(mem, key, item), k) ==> x in Held(mem, k)
  {
    hide *;
    forall k, x | x in Held(Forget(mem, key, item), k) ensures x in Held(mem, k) {
      ForgetWithin(mem, key, item, k, x);
    }
  }

  lemma {:induction false} TrueServe(w: World, disk: Disk, key: Key, start: nat, end: nat, item: Item)
    requires start < end && Covers(item, start, end) && (key, item) in disk
    ensures TrueDisk(w, disk) ==>
              && w.crc(disk[(key, item)]) == item.checksum
              && var t := Serve(key, start, end, item, disk[(key, item)]);
                 t.GetDone? && t.got.Hit? && TrueHit(w, key, start, end, t.got.range)
  {
    hide TrueHit, Serve;
    if TrueDisk(w, disk) {
      assert TrueFile(w, key, item, disk[(key, item)]);
      ServeIsTrue(w, key, start, end, item, disk[(key, item)]);
    }
  }

  lemma {:induction false} ServeIsGet(key: Key, start: nat, end: nat, item: Item, disk: Disk)
    ensures (key, item) in disk && Serve(key, start, end, item, disk[(key, item)]).GetDone? ==>
              var got := Serve(key, start, end, item, disk[(key, item)]).got; got.Hit? || got.GetFailed?
    ensures (key, item) !in disk ==> disk - {(key, item)} == disk
  {
  }
}
