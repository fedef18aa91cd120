/** Loading a cache directory, in terms of what the directory lists: which directories are read, in which
order, what ends the load, and what the index holds afterwards. */
module CacheListing {
  import opened HashText
  import opened CacheState
  import opened CacheLoad
  import opened Wrappers

  // ---------------------------------------------------------------- which directories are read

  /** What the load meets in a key directory entry. */
  ghost predicate KeyShows(e: KeyEntry, v: Visit) {
    match v
    case Broken => e.BadKeyDir? || (e.KeyDir? && e.name.Names? && e.files.Unreadable?)
    case Short => e.KeyDir? && e.name.TooShort?
    case Files(key, files) => e == KeyDir(Names(key), Listing(files))
  }

  /** What the load meets at entry `j` of prefix directory `p`. Only prefix directories whose names have two
  characters count; one that cannot be listed is met as a whole. */
  ghost predicate Shows(es: seq<PrefixEntry>, p: nat, j: nat, v: Visit) {
    && p < |es|
    && match es[p]
       case NoPrefixDir => false
       case BadPrefixDir => v.Broken? && j == 0
       case PrefixDir(n, keys) =>
         && n == 2
         && match keys
            case Vanished => false
            case Unreadable => v.Broken? && j == 0
            case Listing(ks) => j < |ks| && KeyShows(ks[j], v)
  }

  type Place = (nat, nat)

  predicate Before(a: Place, b: Place) {
    a.0 < b.0 || (a.0 == b.0 && a.1 < b.1)
  }

  predicate Rising(at: seq<Place>) {
    forall i, k :: 0 <= i < k < |at| ==> Before(at[i], at[k])
  }

  /** `vs` is what the entries from `j` on show, at the places `at`. */
  ghost predicate KeysRead(ks: seq<KeyEntry>, p: nat, j: nat, vs: seq<Visit>, at: seq<Place>) {
    && |at| == |vs| && Rising(at)
    && (forall i :: 0 <= i < |at| ==> at[i].0 == p && j <= at[i].1 < |ks| && KeyShows(ks[at[i].1], vs[i]))
    && forall y, v :: j <= y < |ks| && KeyShows(ks[y], v) ==> At(vs, at, p, y, v)
  }

  ghost predicate At(vs: seq<Visit>, at: seq<Place>, p: nat, j: nat, v: Visit) {
    exists i :: 0 <= i < |at| && i < |vs| && at[i] == (p, j) && vs[i] == v
  }

  lemma {:induction false} VisitKeyShows(e: KeyEntry, v: Visit)
    ensures KeyShows(e, v) <==> VisitKey(e) == [v]
    ensures |VisitKey(e)| <= 1
  {
  }

  lemma {:induction false} ReadKeys(ks: seq<KeyEntry>, p: nat, j: nat) returns (at: seq<Place>)
    requires j <= |ks|
    ensures KeysRead(ks, p, j, VisitKeys(ks[j..]), at)
    decreases |ks| - j
  {
    hide KeyShows, VisitKey;
    if j == |ks| {
      at := [];
    } else {
      var rest := VisitKeys(ks[j + 1..]);
      var more := ReadKeys(ks, p, j + 1);
      assert ks[j..][1..] == ks[j + 1..];
      forall v ensures KeyShows(ks[j], v) <==> VisitKey(ks[j]) == [v] { VisitKeyShows(ks[j], v); }
      VisitKeyShows(ks[j], Broken);
      if VisitKey(ks[j]) == [] {
        at := more;
        assert [] + rest == rest;
      } else {
        at := ReadOne(ks, p, j, VisitKey(ks[j])[0], rest, more);
        assert [VisitKey(ks[j])[0]] == VisitKey(ks[j]);
      }
    }
  }

  lemma {:induction false} ReadOne(ks: seq<KeyEntry>, p: nat, j: nat, v: Visit, rest: seq<Visit>, more: seq<Place>)
      returns (at: seq<Place>)
    requires j < |ks| && KeyShows(ks[j], v) && (forall u :: KeyShows(ks[j], u) ==> u == v)
    requires KeysRead(ks, p, j + 1, rest, more)
    ensures KeysRead(ks, p, j, [v] + rest, at)
  {
    hide KeyShows, At;
    at := [(p, j)] + more;
    var vs := [v] + rest;
    forall y, u | j <= y < |ks| && KeyShows(ks[y], u) ensures At(vs, at, p, y, u) {
      if y == j {
        AtFirst(v, rest, (p, j), more);
      } else {
        AtMore(v, rest, (p, j), more, p, y, u);
      }
    }
  }

  lemma {:induction false} AtFirst(v: Visit, rest: seq<Visit>, place: Place, more: seq<Place>)
    ensures At([v] + rest, [place] + more, place.0, place.1, v)
  {
    assert ([v] + rest)[0] == v && ([place] + more)[0] == place;
  }

  lemma {:induction false} AtMore(v: Visit, rest: seq<Visit>, place: Place, more: seq<Place>, p: nat, j: nat, u: Visit)
    requires At(rest, more, p, j, u)
    ensures At([v] + rest, [place] + more, p, j, u)
  {
    var i :| 0 <= i < |more| && i < |rest| && more[i] == (p, j) && rest[i] == u;
    assert ([v] + rest)[i + 1] == u && ([place] + more)[i + 1] == (p, j);
  }

  /** `vs` is what the listing shows from prefix directory `p` on, in order and completely. */
  ghost predicate ListingRead(es: seq<PrefixEntry>, p: nat, vs: seq<Visit>, at: seq<Place>) {
    && |at| == |vs| && Rising(at)
    && (forall i :: 0 <= i < |at| ==> p <= at[i].0 < |es| && Shows(es, at[i].0, at[i].1, vs[i]))
    && forall q, j, v :: p <= q < |es| && Shows(es, q, j, v) ==> At(vs, at, q, j, v)
  }

  lemma {:induction false} AtAppend(a: seq<Visit>, b: seq<Visit>, x: seq<Place>, y: seq<Place>, p: nat, j: nat,
      v: Visit)
    requires |a| == |x| && |b| == |y| && (At(a, x, p, j, v) || At(b, y, p, j, v))
    ensures At(a + b, x + y, p, j, v)
  {
    if At(a, x, p, j, v) {
      var i :| 0 <= i < |x| && i < |a| && x[i] == (p, j) && a[i] == v;
      assert (a + b)[i] == v && (x + y)[i] == (p, j);
    } else {
      var i :| 0 <= i < |y| && i < |b| && y[i] == (p, j) && b[i] == v;
      assert (a + b)[|a| + i] == v && (x + y)[|x| + i] == (p, j);
    }
  }

  /** The visits of one prefix directory. */
  ghost predicate PrefixRead(es: seq<PrefixEntry>, p: nat, vs: seq<Visit>, at: seq<Place>) {
    && p < |es| && |at| == |vs| && Rising(at)
    && (forall i :: 0 <= i < |at| ==> at[i].0 == p && Shows(es, p, at[i].1, vs[i]))
    && forall j, v :: Shows(es, p, j, v) ==> At(vs, at, p, j, v)
  }

  lemma {:induction false} ReadPrefix(es: seq<PrefixEntry>, p: nat) returns (at: seq<Place>)
    requires p < |es|
    ensures PrefixRead(es, p, VisitPrefix(es[p]), at)
  {
    hide KeyShows, VisitKey, VisitKeys, At;
    var e := es[p];
    at := [];
    if e.PrefixDir? && e.nameLength == 2 && e.keys.Listing? {
      var ks := e.keys.entries;
      at := ReadKeys(ks, p, 0);
      assert ks[0..] == ks;
    } else if VisitPrefix(e) != [] {
      at := [(p, 0)];
      AtFirst(Broken, [], (p, 0), []);
      assert [Broken] + [] == [Broken] && [(p, 0)] + [] == [(p, 0)];
    }
  }

  /** The load reads exactly what the listing shows, from the front to the back. */
  lemma {:induction false} ReadListing(es: seq<PrefixEntry>, p: nat) returns (at: seq<Place>)
    requires p <= |es|
    ensures ListingRead(es, p, VisitPrefixes(es[p..]), at)
    decreases |es| - p
  {
    hide Shows, VisitPrefix, At;
    at := [];
    if p < |es| {
      assert es[p..][1..] == es[p + 1..];
      var one := ReadPrefix(es, p);
      var more := ReadListing(es, p + 1);
      at := one + more;
      var a, b := VisitPrefix(es[p]), VisitPrefixes(es[p + 1..]);
      forall q, j, v | p <= q < |es| && Shows(es, q, j, v) ensures At(a + b, at, q, j, v) {
        AtAppend(a, b, one, more, q, j, v);
      }
    }
  }

  // ---------------------------------------------------------------- what ends the load

  /** Some file of the directory fails before the index is full. */
  ghost predicate FailsIn(l: Limits, fs: seq<FileEntry>, total: nat) {
    exists f :: 0 <= f < |fs| && FailsAt(l, fs, total, f)
  }

  ghost predicate FailsAt(l: Limits, fs: seq<FileEntry>, total: nat, f: nat)
    requires f < |fs|
  {
    && ParseFile(l, fs[f]).Fails? && NoFailure(l, fs[..f])
    && total + ItemBytes(Loadable(l, fs[..f])) < 2 * l.capacity
  }

  lemma {:induction false} FailsShift(l: Limits, fs: seq<FileEntry>, total: nat, f: nat)
    requires f + 1 < |fs|
    ensures var first := ParseFile(l, fs[0]);
            FailsAt(l, fs, total, f + 1) <==>
              !first.Fails? && FailsAt(l, fs[1..], total + if first.Loads? then first.item.len else 0, f)
  {
    hide ParseFile, NoFailure, Loadable, ItemBytes;
    var front := fs[..f + 1];
    FirstFile(l, front);
    assert front[0] == fs[0] && front[1..] == fs[1..][..f];
  }

  lemma {:induction false} FailsFirst(l: Limits, fs: seq<FileEntry>, total: nat)
    requires fs != [] && total < 2 * l.capacity
    ensures FailsAt(l, fs, total, 0) <==> ParseFile(l, fs[0]).Fails?
  {
    hide ParseFile;
    FirstFile(l, fs[..0]);
  }

  lemma {:induction false} FailsNext(l: Limits, fs: seq<FileEntry>, total: nat)
    requires fs != [] && total < 2 * l.capacity
    ensures var first := ParseFile(l, fs[0]);
            FailsIn(l, fs, total) <==>
              || first.Fails?
              || FailsIn(l, fs[1..], total + if first.Loads? then first.item.len else 0)
  {
    hide ParseFile, FailsAt;
    var first := ParseFile(l, fs[0]);
    var next := total + if first.Loads? then first.item.len else 0;
    FailsFirst(l, fs, total);
    if FailsIn(l, fs, total) && !first.Fails? {
      var f :| 0 <= f < |fs| && FailsAt(l, fs, total, f);
      FailsShift(l, fs, total, f - 1);
    }
    if FailsIn(l, fs[1..], next) && !first.Fails? {
      var f :| 0 <= f < |fs[1..]| && FailsAt(l, fs[1..], next, f);
      FailsShift(l, fs, total, f);
    }
  }

  /** Nothing fails in a directory that is entered with a full index. */
  lemma {:induction false} NoneFailsFull(l: Limits, fs: seq<FileEntry>, total: nat)
    requires total >= 2 * l.capacity
    ensures !FailsIn(l, fs, total)
  {
  }

  lemma {:induction false} TakeFailsWhen(l: Limits, fs: seq<FileEntry>, items: seq<Item>, total: nat)
    requires total < 2 * l.capacity
    ensures Take(l, fs, items, total).TakeFailed? <==> FailsIn(l, fs, total)
    decreases |fs|
  {
    hide FailsIn;
    if fs == [] {
      NoneFails(l, total);
    } else {
      FailsNext(l, fs, total);
      match ParseFile(l, fs[0])
      case Fails =>
      case Skips => TakeFailsWhen(l, fs[1..], items, total);
      case Loads(item) =>
        if total + item.len < 2 * l.capacity {
          TakeFailsWhen(l, fs[1..], items + [item], total + item.len);
        } else {
          NoneFailsFull(l, fs[1..], total + item.len);
        }
    }
  }

  lemma {:induction false} NoneFails(l: Limits, total: nat)
    ensures !FailsIn(l, [], total)
  {
  }

  /** Visit `i` is reached and fails: it cannot be read, or one of its files fails. */
  ghost predicate FailsVisit(l: Limits, vs: seq<Visit>, total: nat, i: nat)
    requires i < |vs|
  {
    && Reached(l, vs, total, i)
    && (vs[i].Broken? || (vs[i].Files? && FailsIn(l, vs[i].files, total + LoadableBytes(l, vs, i))))
  }

  ghost predicate FailureReached(l: Limits, vs: seq<Visit>, total: nat) {
    exists i :: 0 <= i < |vs| && FailsVisit(l, vs, total, i)
  }

  lemma {:induction false} FailsVisitShift(l: Limits, vs: seq<Visit>, total: nat, i: nat)
    requires i + 1 < |vs| && vs[0].Files? && total < 2 * l.capacity
    ensures var first := ItemBytes(Loadable(l, vs[0].files));
            FailsVisit(l, vs, total, i + 1) <==>
              && NoFailure(l, vs[0].files) && total + first < 2 * l.capacity
              && FailsVisit(l, vs[1..], total + first, i)
  {
    hide Reached, LoadableBytes, Loadable, FailsIn, NoFailure;
    ReachedShift(l, vs, total, i);
    LoadableShift(l, vs, i);
  }

  lemma {:induction false} FailsVisitFirst(l: Limits, vs: seq<Visit>, total: nat)
    requires vs != [] && total < 2 * l.capacity
    ensures FailsVisit(l, vs, total, 0) <==>
              vs[0].Broken? || (vs[0].Files? && FailsIn(l, vs[0].files, total))
    ensures !vs[0].Files? ==> forall i :: 0 < i < |vs| ==> !FailsVisit(l, vs, total, i)
  {
    hide FailsIn;
    NotPast(l, vs, total);
  }

  lemma {:induction false} LoadFailsWhen(l: Limits, vs: seq<Visit>, m: Mem)
    requires m.totalBytes < 2 * l.capacity
    ensures Load(l, vs, m).LoadFailed? <==> FailureReached(l, vs, m.totalBytes)
    decreases |vs|
  {
    hide FailsVisit, Take, Loadable, NoFailure, FailsIn;
    if vs != [] {
      var total := m.totalBytes;
      FailsVisitFirst(l, vs, total);
      if vs[0].Files? {
        var t := Take(l, vs[0].files, [], total);
        TakeFailsWhen(l, vs[0].files, [], total);
        TakePasses(l, vs[0].files, [], total);
        var first := ItemBytes(Loadable(l, vs[0].files));
        if FailureReached(l, vs, total) && !FailsIn(l, vs[0].files, total) {
          var i :| 0 <= i < |vs| && FailsVisit(l, vs, total, i);
          FailsVisitShift(l, vs, total, i - 1);
        }
        if t.Taken? && !t.full {
          LoadFailsWhen(l, vs[1..], Store(m, vs[0].key, t));
          if FailureReached(l, vs[1..], total + first) {
            var i :| 0 <= i < |vs[1..]| && FailsVisit(l, vs[1..], total + first, i);
            FailsVisitShift(l, vs, total, i);
          }
        }
      }
    }
  }

  // ---------------------------------------------------------------- what the index holds

  /** Everything trackable, with its key, in the order it is met. */
  function Trackable(l: Limits, vs: seq<Visit>): seq<(Key, Item)>
    decreases |vs|
  {
    if vs == [] then []
    else (if vs[0].Files? then Keyed(vs[0].key, Loadable(l, vs[0].files)) else []) + Trackable(l, vs[1..])
  }

  function Keyed(key: Key, items: seq<Item>): (r: seq<(Key, Item)>)
    ensures |r| == |items| && forall i :: 0 <= i < |r| ==> r[i] == (key, items[i])
  {
    seq(|items|, i requires 0 <= i < |items| => (key, items[i]))
  }

  function PairBytes(ps: seq<(Key, Item)>): nat {
    if ps == [] then 0 else PairBytes(ps[..|ps| - 1]) + ps[|ps| - 1].1.len
  }

  /** The items kept for a key, in order. */
  function ItemsFor(ps: seq<(Key, Item)>, key: Key): seq<Item> {
    if ps == [] then []
    else
      var last := ps[|ps| - 1];
      ItemsFor(ps[..|ps| - 1], key) + if last.0 == key then [last.1] else []
  }

  lemma {:induction false} PairsAppend(a: seq<(Key, Item)>, b: seq<(Key, Item)>, key: Key)
    ensures PairBytes(a + b) == PairBytes(a) + PairBytes(b)
    ensures ItemsFor(a + b, key) == ItemsFor(a, key) + ItemsFor(b, key)
    decreases |b|
  {
    if b == [] {
      assert a + b == a;
    } else {
      assert (a + b)[..|a + b| - 1] == a + b[..|b| - 1];
      PairsAppend(a, b[..|b| - 1], key);
    }
  }

  lemma {:induction false} PairsKeyed(k: Key, items: seq<Item>, key: Key)
    ensures PairBytes(Keyed(k, items)) == ItemBytes(items)
    ensures ItemsFor(Keyed(k, items), key) == if k == key then items else []
    decreases |items|
  {
    if items != [] {
      var n := |items| - 1;
      assert Keyed(k, items)[..n] == Keyed(k, items[..n]);
      PairsKeyed(k, items[..n], key);
      assert items[..n] + [items[n]] == items;
    }
  }

  /** One directory gives a prefix of its trackable items: all of them, or up to the first that fills. */
  lemma {:induction false} TakePrefix(l: Limits, fs: seq<FileEntry>, items: seq<Item>, total: nat) returns (n: nat)
    requires total < 2 * l.capacity && Take(l, fs, items, total).Taken?
    ensures var t, all := Take(l, fs, items, total), Loadable(l, fs);
            && n <= |all| && t.items == items + all[..n]
            && t.total == total + ItemBytes(all[..n])
            && (!t.full ==> n == |all| && t.total < 2 * l.capacity)
            && (t.full ==> n > 0 && t.total >= 2 * l.capacity && total + ItemBytes(all[..n - 1]) < 2 * l.capacity)
    decreases |fs|
  {
    hide ItemBytes;
    var all := Loadable(l, fs);
    NoBytes();
    n := 0;
    if fs != [] {
      var rest := Loadable(l, fs[1..]);
      match ParseFile(l, fs[0])
      case Fails =>
      case Skips =>
        n := TakePrefix(l, fs[1..], items, total);
        assert all == rest;
      case Loads(item) =>
        assert all == [item] + rest;
        if total + item.len >= 2 * l.capacity {
          n := 1;
          assert all[..1] == [item] + [] && all[..0] == [];
          BytesCons(item, []);
        } else {
          var k := TakePrefix(l, fs[1..], items + [item], total + item.len);
          n := k + 1;
          TakeFirst(all, item, rest, items, k);
          if k > 0 {
            TakeFirst(all, item, rest, items, k - 1);
          } else {
            assert all[..0] == [];
          }
        }
    } else {
      assert items + [] == items;
    }
  }

  lemma {:induction false} TakeFirst(all: seq<Item>, item: Item, rest: seq<Item>, items: seq<Item>, k: nat)
    requires all == [item] + rest && k <= |rest|
    ensures ItemBytes(all[..k + 1]) == item.len + ItemBytes(rest[..k])
    ensures items + [item] + rest[..k] == items + all[..k + 1]
  {
    assert all[..k + 1] == [item] + rest[..k];
    BytesCons(item, rest[..k]);
  }

  /** An index loaded from directories with distinct keys holds, key by key and in order, the shortest run
  of trackable files that reaches twice the capacity, or all of them. */
  lemma {:induction false} LoadPrefix(l: Limits, vs: seq<Visit>, m: Mem) returns (n: nat)
    requires m.totalBytes < 2 * l.capacity && Load(l, vs, m).LoadedMem?
    requires DistinctKeys(vs) && forall i :: 0 <= i < |vs| && vs[i].Files? ==> vs[i].key !in m.inner
    ensures var r, all := Load(l, vs, m).mem, Trackable(l, vs);
            && n <= |all|
            && r.totalBytes == m.totalBytes + PairBytes(all[..n]) && r.numItems == m.numItems + n
            && (r.totalBytes < 2 * l.capacity ==> n == |all|)
            && (r.totalBytes >= 2 * l.capacity ==> n > 0 && m.totalBytes + PairBytes(all[..n - 1]) < 2 * l.capacity)
            && forall k :: Held(r, k) == Held(m, k) + ItemsFor(all[..n], k)
    decreases |vs|
  {
    hide Take, Loadable, PairBytes, ItemsFor, ItemBytes, Keyed, Trackable, Held;
    var all := Trackable(l, vs);
    n := 0;
    PairsNone();
    if vs == [] {
      TrackableNone(l, m);
      assert all[..0] == [];
    } else {
      var key, fs := vs[0].key, vs[0].files;
      var t, own, rest := Take(l, fs, [], m.totalBytes), Loadable(l, fs), Trackable(l, vs[1..]);
      var k := TakePrefix(l, fs, [], m.totalBytes);
      var s, r := Store(m, key, t), Load(l, vs, m).mem;
      TrackableNext(l, vs);
      assert [] + own[..k] == own[..k];
      StoreHolds(m, key, t, own[..k]);
      if t.full {
        n := k;
        FullAfter(m, s, key, own, rest, all, n);
      } else {
        var j := LoadPrefix(l, vs[1..], s);
        n := k + j;
        assert own[..k] == own;
        AfterOwn(key, own, rest, j);
        if j > 0 {
          AfterOwn(key, own, rest, j - 1);
        }
        Joined(m, s, r, key, own, rest[..j], all[..n]);
      }
    }
  }

  lemma {:induction false} TrackableNone(l: Limits, m: Mem)
    ensures Trackable(l, []) == [] && forall k :: Held(m, k) == Held(m, k) + ItemsFor([], k)
  {
  }

  lemma {:induction false} TrackableNext(l: Limits, vs: seq<Visit>)
    requires vs != [] && vs[0].Files?
    ensures Trackable(l, vs) == Keyed(vs[0].key, Loadable(l, vs[0].files)) + Trackable(l, vs[1..])
  {
    hide Loadable, Keyed;
  }

  /** The directory that fills the index gives the first `n` of its items. */
  lemma {:induction false} FullAfter(m: Mem, s: Mem, key: Key, own: seq<Item>, rest: seq<(Key, Item)>,
      all: seq<(Key, Item)>, n: nat)
    requires 0 < n <= |own| && all == Keyed(key, own) + rest
    requires forall k :: Held(s, k) == Held(m, k) + if k == key then own[..n] else []
    ensures n <= |all| && PairBytes(all[..n]) == ItemBytes(own[..n])
    ensures PairBytes(all[..n - 1]) == ItemBytes(own[..n - 1])
    ensures forall k :: Held(s, k) == Held(m, k) + ItemsFor(all[..n], k)
  {
    hide PairBytes, ItemsFor, ItemBytes, Held;
    KeyedPrefix(key, own, n); KeyedPrefix(key, own, n - 1);
    assert all[..n] == Keyed(key, own)[..n] && all[..n - 1] == Keyed(key, own)[..n - 1];
  }

  lemma {:induction false} PairsNone()
    ensures PairBytes([]) == 0 && forall k :: ItemsFor([], k) == []
  {
  }

  lemma {:induction false} KeyedPrefix(key: Key, items: seq<Item>, n: nat)
    requires n <= |items|
    ensures Keyed(key, items)[..n] == Keyed(key, items[..n])
    ensures PairBytes(Keyed(key, items)[..n]) == ItemBytes(items[..n])
    ensures forall k :: ItemsFor(Keyed(key, items)[..n], k) == if k == key then items[..n] else []
  {
    hide PairBytes, ItemsFor, ItemBytes;
    assert Keyed(key, items)[..n] == Keyed(key, items[..n]);
    forall k ensures ItemsFor(Keyed(key, items)[..n], k) == if k == key then items[..n] else [] {
      PairsKeyed(key, items[..n], k);
    }
    PairsKeyed(key, items[..n], key);
  }

  lemma {:induction false} AfterOwn(key: Key, own: seq<Item>, rest: seq<(Key, Item)>, j: nat)
    requires j <= |rest|
    ensures var all := Keyed(key, own) + rest;
            && all[..|own| + j] == Keyed(key, own) + rest[..j]
            && PairBytes(all[..|own| + j]) == ItemBytes(own) + PairBytes(rest[..j])
  {
    hide PairBytes, ItemsFor, ItemBytes;
    var all := Keyed(key, own) + rest;
    assert all[..|own| + j] == Keyed(key, own) + rest[..j];
    PairsAppend(Keyed(key, own), rest[..j], key);
    PairsKeyed(key, own, key);
  }

  lemma {:induction false} StoreHolds(m: Mem, key: Key, t: Taken, items: seq<Item>)
    requires t.Taken? && t.items == items && key !in m.inner
    ensures forall k :: Held(Store(m, key, t), k) == Held(m, k) + if k == key then items else []
  {
  }

  lemma {:induction false} Joined(m: Mem, s: Mem, r: Mem, key: Key, own: seq<Item>, rest: seq<(Key, Item)>,
      all: seq<(Key, Item)>)
    requires all == Keyed(key, own) + rest
    requires forall k :: Held(s, k) == Held(m, k) + if k == key then own else []
    requires forall k :: Held(r, k) == Held(s, k) + ItemsFor(rest, k)
    ensures forall k :: Held(r, k) == Held(m, k) + ItemsFor(all, k)
  {
    hide PairBytes, ItemsFor, Held, Keyed;
    forall k ensures Held(r, k) == Held(m, k) + ItemsFor(all, k) {
      PairsAppend(Keyed(key, own), rest, k);
      PairsKeyed(key, own, k);
      var mine := if k == key then own else [];
      assert Held(m, k) + mine + ItemsFor(rest, k) == Held(m, k) + (mine + ItemsFor(rest, k));
    }
  }

  lemma {:induction false} LoadedBelowWhen(l: Limits, vs: seq<Visit>, m: Mem)
    requires m.totalBytes < 2 * l.capacity
    ensures Load(l, vs, m).LoadedMem? && Load(l, vs, m).mem.totalBytes < 2 * l.capacity
            <==> Reached(l, vs, m.totalBytes, |vs|)
    decreases |vs|
  {
    hide Take, Loadable, NoFailure;
    if vs != [] {
      NotPast(l, vs, m.totalBytes);
      if vs[0].Files? {
        var t := Take(l, vs[0].files, [], m.totalBytes);
        TakePasses(l, vs[0].files, [], m.totalBytes);
        if t.Taken? {
          TakeBound(l, vs[0].files, [], m.totalBytes);
        }
        ReachedShift(l, vs, m.totalBytes, |vs| - 1);
        if t.Taken? && !t.full {
          LoadedBelowWhen(l, vs[1..], Store(m, vs[0].key, t));
        }
      }
    }
  }

  // ---------------------------------------------------------------- the load, by the listing

  /** Loading a directory: `vs` is everything its listing shows, in order. The load panics on a short name
  that is reached, fails on an unreadable entry or a failing file that is reached, and otherwise holds the
  trackable files, all of them or as many as it takes to reach twice the capacity. */
  lemma {:induction false} LoadByListing(l: Limits, es: seq<PrefixEntry>)
      returns (vs: seq<Visit>, at: seq<Place>, n: nat)
    requires l.capacity > 0
    ensures ListingRead(es, 0, vs, at)
    ensures var r := Initialized(l, Listing(es));
            && (r.LoadPanics? <==> ShortReached(l, vs, 0))
            && (r.LoadFailed? <==> FailureReached(l, vs, 0))
            && (r.LoadedMem? && r.mem.totalBytes < 2 * l.capacity <==> Reached(l, vs, 0, |vs|))
    ensures var r, all := Initialized(l, Listing(es)), Trackable(l, vs);
            r.LoadedMem? && DistinctKeys(vs) ==>
              && n <= |all| && r.mem.totalBytes == PairBytes(all[..n]) && r.mem.numItems == n
              && (r.mem.totalBytes < 2 * l.capacity ==> n == |all|)
              && (r.mem.totalBytes >= 2 * l.capacity ==> n > 0 && PairBytes(all[..n - 1]) < 2 * l.capacity)
              && forall k :: Held(r.mem, k) == ItemsFor(all[..n], k)
  {
    hide *;
    vs, n := VisitPrefixes(es), 0;
    at := ReadListing(es, 0);
    assert es[0..] == es;
    InitializedIs(l, es);
    LoadPanicsWhen(l, vs, EMPTY_MEM);
    LoadFailsWhen(l, vs, EMPTY_MEM);
    LoadedBelowWhen(l, vs, EMPTY_MEM);
    if Load(l, vs, EMPTY_MEM).LoadedMem? && DistinctKeys(vs) {
      n := LoadPrefix(l, vs, EMPTY_MEM);
      var r, all := Load(l, vs, EMPTY_MEM).mem, Trackable(l, vs);
      forall k ensures Held(r, k) == ItemsFor(all[..n], k) {
        assert [] + ItemsFor(all[..n], k) == ItemsFor(all[..n], k);
      }
    }
  }

  lemma {:induction false} InitializedIs(l: Limits, es: seq<PrefixEntry>)
    requires l.capacity > 0
    ensures Initialized(l, Listing(es)) == Load(l, VisitPrefixes(es), EMPTY_MEM)
    ensures EMPTY_MEM.totalBytes == EMPTY_MEM.numItems == 0 && forall k :: Held(EMPTY_MEM, k) == []
    ensures forall k :: k !in EMPTY_MEM.inner
  {
  }

  lemma {:induction false} ShowsListed(es: seq<PrefixEntry>, p: nat, j: nat, v: Visit)
    requires Shows(es, p, j, v)
    ensures p < |es|
  {
  }

  /** No two readable directories that count name the same key. */
  ghost predicate NamesOnce(es: seq<PrefixEntry>) {
    forall p, j, q, k, key, fs, gs :: Shows(es, p, j, Files(key, fs)) && Shows(es, q, k, Files(key, gs)) ==>
      p == q && j == k
  }

  lemma {:induction false} NamesAreDistinct(es: seq<PrefixEntry>, vs: seq<Visit>, at: seq<Place>)
    requires NamesOnce(es) && ListingRead(es, 0, vs, at)
    ensures DistinctKeys(vs)
  {
    hide Shows, At;
    forall i, j | 0 <= i < j < |vs| && vs[i].Files? && vs[j].Files? ensures vs[i].key != vs[j].key {
      assert Before(at[i], at[j]);
      assert Files(vs[i].key, vs[i].files) == vs[i] && Files(vs[j].key, vs[j].files) == vs[j];
    }
  }

  lemma {:induction false} TrackableFor(l: Limits, vs: seq<Visit>, key: Key)
    requires DistinctKeys(vs)
    ensures forall i :: 0 <= i < |vs| && vs[i].Files? && vs[i].key == key ==>
              ItemsFor(Trackable(l, vs), key) == Loadable(l, vs[i].files)
    ensures (forall i :: 0 <= i < |vs| && vs[i].Files? ==> vs[i].key != key) ==> ItemsFor(Trackable(l, vs), key) == []
    decreases |vs|
  {
    hide Loadable, ItemsFor, Keyed;
    if vs == [] {
      PairsNone();
    } else {
      var ws := vs[1..];
      TrackableFor(l, ws, key);
      assert forall i :: 0 < i < |vs| ==> vs[i] == ws[i - 1];
      var first := if vs[0].Files? then Keyed(vs[0].key, Loadable(l, vs[0].files)) else [];
      PairsAppend(first, Trackable(l, ws), key);
      PairsNone();
      if vs[0].Files? {
        PairsKeyed(vs[0].key, Loadable(l, vs[0].files), key);
        if vs[0].key == key {
          assert forall i :: 0 <= i < |ws| && ws[i].Files? ==> ws[i].key == vs[i + 1].key != key;
          assert Loadable(l, vs[0].files) + [] == Loadable(l, vs[0].files);
        } else {
          assert [] + ItemsFor(Trackable(l, ws), key) == ItemsFor(Trackable(l, ws), key);
        }
      } else {
        assert [] + ItemsFor(Trackable(l, ws), key) == ItemsFor(Trackable(l, ws), key);
      }
    }
  }

  /** A load that ends below twice the capacity holds for each key exactly the trackable files of the
  directory that names it, and nothing for a key that no directory names. */
  lemma {:induction false} LoadedHolds(l: Limits, es: seq<PrefixEntry>, key: Key)
    requires l.capacity > 0 && Initialized(l, Listing(es)).LoadedMem? && NamesOnce(es)
    requires Initialized(l, Listing(es)).mem.totalBytes < 2 * l.capacity
    ensures forall p, j, fs :: Shows(es, p, j, Files(key, fs)) ==>
              Held(Initialized(l, Listing(es)).mem, key) == Loadable(l, fs)
    ensures (forall p, j, fs :: !Shows(es, p, j, Files(key, fs))) ==>
              Held(Initialized(l, Listing(es)).mem, key) == []
  {
    hide Shows, Trackable, ItemsFor, Loadable, Held, Initialized, Reached, NamesOnce, DistinctKeys;
    var vs, at, n := LoadByListing(l, es);
    NamesAreDistinct(es, vs, at);
    TrackableFor(l, vs, key);
    var all, mem := Trackable(l, vs), Initialized(l, Listing(es)).mem;
    assert all[..n] == all;
    forall p, j, fs | Shows(es, p, j, Files(key, fs)) ensures Held(mem, key) == Loadable(l, fs) {
      ShowsListed(es, p, j, Files(key, fs));
      assert At(vs, at, p, j, Files(key, fs));
    }
    if forall p, j, fs :: !Shows(es, p, j, Files(key, fs)) {
      forall i | 0 <= i < |vs| && vs[i].Files? ensures vs[i].key != key {
        assert Shows(es, at[i].0, at[i].1, Files(vs[i].key, vs[i].files));
      }
    }
  }

  /** The trackable files of a directory: their names decode and give their lengths, and they are small
  enough. */
  lemma {:induction false} LoadableAre(l: Limits, fs: seq<FileEntry>, x: Item)
    ensures x in Loadable(l, fs) <==>
              exists f :: f in fs && f.File? && f.item == Some(x) && f.size == x.len
                          && x.len <= l.capacity && x.len <= l.sizeBytes
    decreases |fs|
  {
    if fs != [] {
      LoadableAre(l, fs[1..], x);
      var first := ParseFile(l, fs[0]);
      assert fs == [fs[0]] + fs[1..];
      if first.Loads? && first.item == x {
        assert fs[0] in fs;
      }
    }
  }
}
