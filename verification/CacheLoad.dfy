/** Loading the index from the cache directory: prefix directories hold key directories, which
hold item files. Directory entries that vanish are skipped, unreadable ones end the load, and so does,
with a panic, a key directory whose name decodes to too few bytes. */
module CacheLoad {
  import opened HashText
  import opened CacheState
  import opened Wrappers

  datatype ReadDir<T> = Listing(entries: seq<T>) | Vanished | Unreadable

  /** A file as listed: `item` is what its name decodes to, if it does. */
  datatype FileEntry = NoFile | BadFile | NotAFile | File(size: nat, item: Option<Item>, removable: bool)

  /** What a directory name says: it does not decode, it decodes to fewer bytes than a hash has, or it
  names a key. */
  datatype KeyName = Undecodable | TooShort | Names(key: Key)

  datatype KeyEntry = NoKeyDir | BadKeyDir | KeyDir(name: KeyName, files: ReadDir<FileEntry>)
  datatype PrefixEntry = NoPrefixDir | BadPrefixDir | PrefixDir(nameLength: nat, keys: ReadDir<KeyEntry>)

  const PREFIX_DIR_NAME_LEN := 2

  /** `capacity` is this cache's, `sizeBytes` the configured limit for any cache file. */
  datatype Limits = Limits(capacity: nat, sizeBytes: nat)

  datatype Parsed = Fails | Skips | Loads(item: Item)
  datatype Loaded = LoadFailed | LoadPanics | LoadedMem(mem: Mem)

  /** A file is tracked when its name decodes and gives its true, small enough, length; a file whose
  name does not decode or lies about its length is deleted. */
  function ParseFile(l: Limits, f: FileEntry): (r: Parsed)
    ensures r.Loads? <==> f.File? && f.item.Some? && f.item.value.len == f.size
                          && f.size <= l.capacity && f.size <= l.sizeBytes
    ensures r.Loads? ==> f.item == Some(r.item)
    ensures r.Fails? <==>
              || f.BadFile?
              || (f.File? && (f.size > l.sizeBytes
                              || (f.size <= l.capacity && !f.removable
                                  && (f.item.None? || f.item.value.len != f.size))))
  {
    match f
    case NoFile => Skips
    case BadFile => Fails
    case NotAFile => Skips
    case File(size, item, removable) =>
      if size > l.sizeBytes then Fails
      else if size > l.capacity then Skips
      else if item.None? then if removable then Skips else Fails
      else if item.value.len != size then if removable then Skips else Fails
      else Loads(item.value)
  }

  // ---------------------------------------------------------------- what loading means

  /** A key directory to load, an entry that cannot be read, or a name too short for a key, in the order
  they are met. */
  datatype Visit = Broken | Short | Files(key: Key, files: seq<FileEntry>)

  function VisitKey(e: KeyEntry): seq<Visit> {
    match e
    case NoKeyDir => []
    case BadKeyDir => [Broken]
    case KeyDir(name, files) =>
      match name
      case Undecodable => []
      case TooShort => [Short]
      case Names(key) =>
        if files.Vanished? then []
        else if files.Unreadable? then [Broken]
        else [Files(key, files.entries)]
  }

  function VisitKeys(es: seq<KeyEntry>): seq<Visit>
    decreases |es|
  {
    if es == [] then [] else VisitKey(es[0]) + VisitKeys(es[1..])
  }

  function VisitPrefix(e: PrefixEntry): seq<Visit> {
    match e
    case NoPrefixDir => []
    case BadPrefixDir => [Broken]
    case PrefixDir(n, keys) =>
      if n != PREFIX_DIR_NAME_LEN || keys.Vanished? then []
      else if keys.Unreadable? then [Broken]
      else VisitKeys(keys.entries)
  }

  function VisitPrefixes(es: seq<PrefixEntry>): seq<Visit>
    decreases |es|
  {
    if es == [] then [] else VisitPrefix(es[0]) + VisitPrefixes(es[1..])
  }

  /** The items of one key directory, cut off by the first that brings the total to twice the capacity. */
  datatype Taken = TakeFailed | Taken(items: seq<Item>, total: nat, full: bool)

  function Take(l: Limits, fs: seq<FileEntry>, items: seq<Item>, total: nat): (r: Taken)
    decreases |fs|
  {
    if fs == [] then Taken(items, total, false)
    else
      match ParseFile(l, fs[0])
      case Fails => TakeFailed
      case Skips => Take(l, fs[1..], items, total)
      case Loads(item) =>
        if total + item.len >= 2 * l.capacity then Taken(items + [item], total + item.len, true)
        else Take(l, fs[1..], items + [item], total + item.len)
  }

  function Store(m: Mem, key: Key, t: Taken): Mem
    requires t.Taken?
  {
    Mem(if t.items == [] then m.inner else m.inner[key := t.items], m.numItems + |t.items|, t.total)
  }

  function Load(l: Limits, vs: seq<Visit>, m: Mem): Loaded
    decreases |vs|
  {
    if vs == [] then LoadedMem(m)
    else if vs[0].Broken? then LoadFailed
    else if vs[0].Short? then LoadPanics
    else
      var t := Take(l, vs[0].files, [], m.totalBytes);
      if t.TakeFailed? then LoadFailed
      else if t.full then LoadedMem(Store(m, vs[0].key, t))
      else Load(l, vs[1..], Store(m, vs[0].key, t))
  }

  function Initialized(l: Limits, root: ReadDir<PrefixEntry>): Loaded {
    if l.capacity == 0 then LoadFailed
    else
      match root
      case Vanished => LoadedMem(EMPTY_MEM)
      case Unreadable => LoadFailed
      case Listing(es) => Load(l, VisitPrefixes(es), EMPTY_MEM)
  }

  // ---------------------------------------------------------------- the loading loops

  /** The loop over the files of one key directory. */
  method TakeFiles(l: Limits, fs: seq<FileEntry>, start: nat) returns (r: Taken)
    ensures r == Take(l, fs, [], start)
  {
    var items, total: nat := [], start;
    for i := 0 to |fs|
      invariant Take(l, fs, [], start) == Take(l, fs[i..], items, total)
    {
      assert fs[i..][1..] == fs[i + 1..];
      match ParseFile(l, fs[i])
      case Fails => return TakeFailed;
      case Skips =>
      case Loads(item) =>
        total := total + item.len;
        items := items + [item];
        if total >= 2 * l.capacity {
          return Taken(items, total, true);
        }
    }
    r := Taken(items, total, false);
  }

  /** The loop over the key directories of one prefix directory; `stop` ends the whole load. */
  method LoadKeys(l: Limits, keys: seq<KeyEntry>, start: Mem, ghost rest: seq<Visit>)
      returns (stop: bool, r: Loaded)
    ensures stop ==> r == Load(l, VisitKeys(keys) + rest, start)
    ensures !stop ==> r.LoadedMem? && Load(l, VisitKeys(keys) + rest, start) == Load(l, rest, r.mem)
  {
    var m := start;
    for j := 0 to |keys|
      invariant Load(l, VisitKeys(keys) + rest, start) == Load(l, VisitKeys(keys[j..]) + rest, m)
    {
      VisitKeysNext(keys, j, rest);
      match keys[j]
      case NoKeyDir =>
      case BadKeyDir => return true, LoadFailed;
      case KeyDir(name, files) =>
        if name.TooShort? {
          return true, LoadPanics;
        }
        if name.Undecodable? || files.Vanished? {
          continue;
        }
        if files.Unreadable? {
          return true, LoadFailed;
        }
        var t := TakeFiles(l, files.entries, m.totalBytes);
        if t.TakeFailed? {
          return true, LoadFailed;
        }
        m := Store(m, name.key, t);
        if t.full {
          return true, LoadedMem(m);
        }
    }
    assert VisitKeys(keys[|keys|..]) + rest == rest;
    stop, r := false, LoadedMem(m);
  }

  method Initialize(l: Limits, root: ReadDir<PrefixEntry>) returns (r: Loaded)
    ensures r == Initialized(l, root)
    ensures l.capacity == 0 || root.Unreadable? ==> r == LoadFailed
    ensures l.capacity > 0 && root.Vanished? ==> r == LoadedMem(Mem(map[], 0, 0))
  {
    if l.capacity == 0 || root.Unreadable? {
      return LoadFailed;
    }
    if root.Vanished? {
      return LoadedMem(EMPTY_MEM);
    }
    var es := root.entries;
    var m := EMPTY_MEM;
    for i := 0 to |es|
      invariant Load(l, VisitPrefixes(es), EMPTY_MEM) == Load(l, VisitPrefixes(es[i..]), m)
    {
      assert es[i..][1..] == es[i + 1..];
      ghost var rest := VisitPrefixes(es[i + 1..]);
      assert [] + rest == rest;
      match es[i]
      case NoPrefixDir =>
      case BadPrefixDir => return LoadFailed;
      case PrefixDir(n, keys) =>
        if n != PREFIX_DIR_NAME_LEN || keys.Vanished? {
          continue;
        }
        if keys.Unreadable? {
          return LoadFailed;
        }
        var stop, s := LoadKeys(l, keys.entries, m, rest);
        if stop {
          return s;
        }
        m := s.mem;
    }
    r := LoadedMem(m);
  }

  lemma {:induction false} VisitKeysNext(keys: seq<KeyEntry>, j: nat, rest: seq<Visit>)
    requires j < |keys|
    ensures VisitKeys(keys[j..]) + rest == VisitKey(keys[j]) + (VisitKeys(keys[j + 1..]) + rest)
    ensures VisitKey(keys[j]) == [] ==> VisitKeys(keys[j..]) + rest == VisitKeys(keys[j + 1..]) + rest
    ensures |VisitKey(keys[j])| == 1
            ==> (VisitKeys(keys[j..]) + rest)[1..] == VisitKeys(keys[j + 1..]) + rest
  {
    assert keys[j..][1..] == keys[j + 1..];
  }

  // ---------------------------------------------------------------- how much is loaded

  lemma {:induction false} TakeBound(l: Limits, fs: seq<FileEntry>, items: seq<Item>, total: nat)
    requires total < 2 * l.capacity && Take(l, fs, items, total).Taken?
    ensures var t := Take(l, fs, items, total);
            t.total < 3 * l.capacity && (t.full <==> t.total >= 2 * l.capacity)
    decreases |fs|
  {
    if fs != [] {
      match ParseFile(l, fs[0])
      case Fails =>
      case Skips => TakeBound(l, fs[1..], items, total);
      case Loads(item) =>
        if total + item.len < 2 * l.capacity {
          TakeBound(l, fs[1..], items + [item], total + item.len);
        }
    }
  }

  lemma {:induction false} LoadBound(l: Limits, vs: seq<Visit>, m: Mem)
    requires m.totalBytes < 2 * l.capacity && Load(l, vs, m).LoadedMem?
    ensures Load(l, vs, m).mem.totalBytes < 3 * l.capacity
    decreases |vs|
  {
    if vs != [] {
      var t := Take(l, vs[0].files, [], m.totalBytes);
      TakeBound(l, vs[0].files, [], m.totalBytes);
      if !t.full {
        LoadBound(l, vs[1..], Store(m, vs[0].key, t));
      }
    }
  }

  /** Whatever the directory holds, less than three times the capacity is loaded. */
  lemma {:induction false} InitializedBound(l: Limits, root: ReadDir<PrefixEntry>)
    requires Initialized(l, root).LoadedMem?
    ensures Initialized(l, root).mem.totalBytes < 3 * l.capacity
  {
    if root.Listing? {
      LoadBound(l, VisitPrefixes(root.entries), EMPTY_MEM);
    }
  }

  // ---------------------------------------------------------------- when the counters are true

  /** The keys whose items are loaded, in order. */
  function LoadedKeys(l: Limits, vs: seq<Visit>, total: nat): seq<Key>
    decreases |vs|
  {
    if vs == [] || !vs[0].Files? then []
    else
      var t := Take(l, vs[0].files, [], total);
      if t.TakeFailed? then []
      else
        (if t.items == [] then [] else [vs[0].key]) + if t.full then [] else LoadedKeys(l, vs[1..], t.total)
  }

  predicate Fresh(ks: seq<Key>, seen: set<Key>)
    decreases |ks|
  {
    ks == [] || (ks[0] !in seen && Fresh(ks[1..], seen + {ks[0]}))
  }

  /** The counters are at least what is really held. */
  ghost predicate NotUnder(m: Mem) {
    && Count(m.inner) <= m.numItems
    && Total(m.inner) <= m.totalBytes
    && forall k :: k in m.inner ==> m.inner[k] != []
  }

  ghost function ExtraItems(m: Mem): int { m.numItems - Count(m.inner) }
  ghost function ExtraBytes(m: Mem): int { m.totalBytes - Total(m.inner) }

  lemma {:induction false} BytesSnoc(items: seq<Item>, item: Item)
    ensures ItemBytes(items + [item]) == ItemBytes(items) + item.len
  {
    assert (items + [item])[..|items|] == items;
  }

  lemma {:induction false} TakeTotal(l: Limits, fs: seq<FileEntry>, items: seq<Item>, total: nat)
    requires Take(l, fs, items, total).Taken?
    ensures var t := Take(l, fs, items, total); t.total - ItemBytes(t.items) == total - ItemBytes(items)
    decreases |fs|
  {
    if fs != [] {
      match ParseFile(l, fs[0])
      case Fails =>
      case Skips => TakeTotal(l, fs[1..], items, total);
      case Loads(item) =>
        BytesSnoc(items, item);
        if total + item.len < 2 * l.capacity {
          TakeTotal(l, fs[1..], items + [item], total + item.len);
        }
    }
  }

  /** Storing a group counts it once; a second group for a key replaces the first but stays counted. */
  lemma {:induction false} StoreExtra(m: Mem, key: Key, t: Taken)
    requires NotUnder(m) && t.Taken? && t.total == m.totalBytes + ItemBytes(t.items)
    ensures var r := Store(m, key, t);
            && NotUnder(r) && ExtraItems(r) >= ExtraItems(m)
            && (t.items != [] && key in m.inner ==> ExtraItems(r) > ExtraItems(m))
            && (t.items == [] || key !in m.inner ==> ExtraItems(r) == ExtraItems(m) && ExtraBytes(r) == ExtraBytes(m))
  {
    if t.items != [] {
      if key in m.inner {
        CountUpdate(m.inner, key, t.items);
      } else {
        CountInsert(m.inner, key, t.items);
      }
    }
  }

  lemma {:induction false} LoadExtra(l: Limits, vs: seq<Visit>, m: Mem)
    requires NotUnder(m) && Load(l, vs, m).LoadedMem?
    ensures var r := Load(l, vs, m).mem;
            && NotUnder(r) && ExtraItems(r) >= ExtraItems(m)
            && (Fresh(LoadedKeys(l, vs, m.totalBytes), m.inner.Keys)
                ==> ExtraItems(r) == ExtraItems(m) && ExtraBytes(r) == ExtraBytes(m))
            && (!Fresh(LoadedKeys(l, vs, m.totalBytes), m.inner.Keys) ==> ExtraItems(r) > ExtraItems(m))
    decreases |vs|
  {
    if vs != [] {
      var key := vs[0].key;
      var t := Take(l, vs[0].files, [], m.totalBytes);
      TakeTotal(l, vs[0].files, [], m.totalBytes);
      StoreExtra(m, key, t);
      var n := Store(m, key, t);
      var ks := LoadedKeys(l, vs, m.totalBytes);
      var tail := if t.full then [] else LoadedKeys(l, vs[1..], t.total);
      assert t.items != [] ==> ks == [key] + tail && ks[1..] == tail && n.inner.Keys == m.inner.Keys + {key};
      assert t.items == [] ==> ks == tail && n.inner.Keys == m.inner.Keys;
      assert t.items != [] ==> (Fresh(ks, m.inner.Keys) <==> key !in m.inner && Fresh(tail, n.inner.Keys));
      if !t.full {
        LoadExtra(l, vs[1..], n);
      }
    }
  }

  /** The counters of a loaded index are true if and only if no key is loaded from two directories. */
  lemma {:induction false} LoadedCountersTrue(l: Limits, es: seq<PrefixEntry>)
    requires Initialized(l, Listing(es)).LoadedMem?
    ensures WellCounted(Initialized(l, Listing(es)).mem)
            <==> Fresh(LoadedKeys(l, VisitPrefixes(es), 0), {})
  {
    assert NotUnder(EMPTY_MEM) && EMPTY_MEM.inner.Keys == {};
    LoadExtra(l, VisitPrefixes(es), EMPTY_MEM);
  }

  /** No two visited key directories decode to the same key. */
  predicate DistinctKeys(vs: seq<Visit>) {
    forall i, j :: 0 <= i < j < |vs| && vs[i].Files? && vs[j].Files? ==> vs[i].key != vs[j].key
  }

  lemma {:induction false} DistinctKeysFresh(l: Limits, vs: seq<Visit>, total: nat, seen: set<Key>)
    requires DistinctKeys(vs) && forall i :: 0 <= i < |vs| && vs[i].Files? ==> vs[i].key !in seen
    ensures Fresh(LoadedKeys(l, vs, total), seen)
    decreases |vs|
  {
    if vs != [] && vs[0].Files? {
      var t := Take(l, vs[0].files, [], total);
      if t.Taken? {
        var tail := if t.full then [] else LoadedKeys(l, vs[1..], t.total);
        var seen' := if t.items == [] then seen else seen + {vs[0].key};
        assert t.items != [] ==> LoadedKeys(l, vs, total)[1..] == tail;
        assert t.items == [] ==> LoadedKeys(l, vs, total) == tail;
        if !t.full {
          DistinctKeysFresh(l, vs[1..], t.total, seen');
        }
      }
    }
  }

  // ---------------------------------------------------------------- nothing loadable is lost

  /** Every item of a key directory that may be tracked. */
  function Loadable(l: Limits, fs: seq<FileEntry>): seq<Item>
    decreases |fs|
  {
    if fs == [] then []
    else (if ParseFile(l, fs[0]).Loads? then [ParseFile(l, fs[0]).item] else []) + Loadable(l, fs[1..])
  }

  // ---------------------------------------------------------------- when loading panics

  predicate NoFailure(l: Limits, fs: seq<FileEntry>) {
    forall i :: 0 <= i < |fs| ==> !ParseFile(l, fs[i]).Fails?
  }

  /** The bytes of everything trackable in the first `i` visits. */
  function LoadableBytes(l: Limits, vs: seq<Visit>, i: nat): nat
    requires i <= |vs|
  {
    if i == 0 then 0
    else LoadableBytes(l, vs, i - 1) + if vs[i - 1].Files? then ItemBytes(Loadable(l, vs[i - 1].files)) else 0
  }

  /** Nothing before visit `i` fails, panics or fills the index. */
  predicate Reached(l: Limits, vs: seq<Visit>, total: nat, i: nat)
    requires i <= |vs|
  {
    && (forall j :: 0 <= j < i ==> vs[j].Files? && NoFailure(l, vs[j].files))
    && total + LoadableBytes(l, vs, i) < 2 * l.capacity
  }

  lemma {:induction false} BytesCons(item: Item, items: seq<Item>)
    ensures ItemBytes([item] + items) == item.len + ItemBytes(items)
    decreases |items|
  {
    if items == [] {
      assert [item] + items == [item] && [item][..0] == [];
    } else {
      var n := |items| - 1;
      BytesCons(item, items[..n]);
      assert ([item] + items)[..|items|] == [item] + items[..n];
    }
  }

  lemma {:induction false} FirstFile(l: Limits, fs: seq<FileEntry>)
    ensures fs == [] ==> NoFailure(l, fs) && ItemBytes(Loadable(l, fs)) == 0
    ensures fs != [] ==>
              var f, rest := ParseFile(l, fs[0]), fs[1..];
              && (NoFailure(l, fs) <==> !f.Fails? && NoFailure(l, rest))
              && ItemBytes(Loadable(l, fs)) == (if f.Loads? then f.item.len else 0) + ItemBytes(Loadable(l, rest))
  {
    hide ParseFile, ItemBytes;
    if fs == [] {
      NoBytes();
    } else {
      var f, rest := ParseFile(l, fs[0]), fs[1..];
      if f.Loads? {
        BytesCons(f.item, Loadable(l, rest));
      } else {
        assert [] + Loadable(l, rest) == Loadable(l, rest);
      }
    }
  }

  lemma {:induction false} NoBytes()
    ensures ItemBytes([]) == 0
  {
  }

  /** One directory is passed exactly when no file fails and everything trackable stays below the limit. */
  lemma {:induction false} TakePasses(l: Limits, fs: seq<FileEntry>, items: seq<Item>, total: nat)
    requires total < 2 * l.capacity
    ensures var t := Take(l, fs, items, total);
            && (t.Taken? && !t.full <==> NoFailure(l, fs) && total + ItemBytes(Loadable(l, fs)) < 2 * l.capacity)
            && (t.Taken? && !t.full ==> t.total == total + ItemBytes(Loadable(l, fs)))
    decreases |fs|
  {
    hide Loadable, ItemBytes, NoFailure;
    FirstFile(l, fs);
    if fs != [] {
      var rest := fs[1..];
      match ParseFile(l, fs[0])
      case Fails =>
      case Skips => TakePasses(l, rest, items, total);
      case Loads(item) =>
        if total + item.len < 2 * l.capacity {
          TakePasses(l, rest, items + [item], total + item.len);
        }
    }
  }

  lemma {:induction false} LoadableShift(l: Limits, vs: seq<Visit>, i: nat)
    requires vs != [] && vs[0].Files? && i < |vs|
    ensures LoadableBytes(l, vs, i + 1) == ItemBytes(Loadable(l, vs[0].files)) + LoadableBytes(l, vs[1..], i)
  {
    if i > 0 {
      LoadableShift(l, vs, i - 1);
    }
  }

  lemma {:induction false} ReachedShift(l: Limits, vs: seq<Visit>, total: nat, i: nat)
    requires vs != [] && vs[0].Files? && i < |vs| && total < 2 * l.capacity
    ensures var first := ItemBytes(Loadable(l, vs[0].files));
            Reached(l, vs, total, i + 1)
            <==> NoFailure(l, vs[0].files) && total + first < 2 * l.capacity && Reached(l, vs[1..], total + first, i)
  {
    hide NoFailure, Loadable;
    LoadableShift(l, vs, i);
    var ws := vs[1..];
    assert forall j :: 0 <= j < i ==> ws[j] == vs[j + 1];
    if NoFailure(l, vs[0].files) && forall j :: 0 <= j < i ==> ws[j].Files? && NoFailure(l, ws[j].files) {
      forall j | 0 <= j < i + 1 ensures vs[j].Files? && NoFailure(l, vs[j].files) {
        if j > 0 {
          assert vs[j] == ws[j - 1];
        }
      }
    }
  }

  /** Some name too short for a key is reached. */
  ghost predicate ShortReached(l: Limits, vs: seq<Visit>, total: nat) {
    exists i :: 0 <= i < |vs| && vs[i].Short? && Reached(l, vs, total, i)
  }

  lemma {:induction false} LoadPanicsWhen(l: Limits, vs: seq<Visit>, m: Mem)
    requires m.totalBytes < 2 * l.capacity
    ensures Load(l, vs, m).LoadPanics? <==> ShortReached(l, vs, m.totalBytes)
    decreases |vs|
  {
    hide Reached, Take, Loadable, NoFailure;
    if vs != [] {
      NotPast(l, vs, m.totalBytes);
      if vs[0].Files? {
        var t := Take(l, vs[0].files, [], m.totalBytes);
        TakePasses(l, vs[0].files, [], m.totalBytes);
        var first := ItemBytes(Loadable(l, vs[0].files));
        if ShortReached(l, vs, m.totalBytes) {
          var i :| 0 <= i < |vs| && vs[i].Short? && Reached(l, vs, m.totalBytes, i);
          ReachedShift(l, vs, m.totalBytes, i - 1);
          assert vs[1..][i - 1] == vs[i];
        }
        if t.Taken? && !t.full {
          LoadPanicsWhen(l, vs[1..], Store(m, vs[0].key, t));
          if ShortReached(l, vs[1..], m.totalBytes + first) {
            var i :| 0 <= i < |vs| - 1 && vs[1..][i].Short? && Reached(l, vs[1..], m.totalBytes + first, i);
            ReachedShift(l, vs, m.totalBytes, i);
            assert vs[i + 1] == vs[1..][i];
          }
        }
      }
    }
  }

  /** The first visit is always reached; beyond a first visit that is not a directory nothing is. */
  lemma {:induction false} NotPast(l: Limits, vs: seq<Visit>, total: nat)
    requires vs != [] && total < 2 * l.capacity
    ensures Reached(l, vs, total, 0)
    ensures !vs[0].Files? ==> forall i :: 0 < i <= |vs| ==> !Reached(l, vs, total, i)
  {
  }

  /** Loading panics if and only if a directory whose name decodes to too few bytes is met before any
  failure and before the index is full. */
  lemma {:induction false} InitializePanicsIff(l: Limits, es: seq<PrefixEntry>)
    ensures Initialized(l, Listing(es)).LoadPanics?
            <==> l.capacity > 0 && ShortReached(l, VisitPrefixes(es), 0)
  {
    if l.capacity > 0 {
      LoadPanicsWhen(l, VisitPrefixes(es), EMPTY_MEM);
    }
  }
}
