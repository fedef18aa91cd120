/** The in-memory index of the chunk cache: items per key, with an item count and a byte count
kept beside them, and random eviction. */
module CacheState {
  import opened HashText
  import opened Wrappers

  /** One cached range of chunks `[start, end)`, the length of its file and its checksum. */
  datatype Item = Item(start: nat, end: nat, len: nat, checksum: nat)

  type Index = map<Key, seq<Item>>

  /** The index and its two counters. */
  datatype Mem = Mem(inner: Index, numItems: nat, totalBytes: nat)

  const EMPTY_MEM := Mem(map[], 0, 0)

  predicate Covers(item: Item, start: nat, end: nat) {
    item.start <= start && end <= item.end
  }

  /** The items held for a key. */
  function Held(m: Mem, key: Key): seq<Item> {
    if key in m.inner then m.inner[key] else []
  }

  // ---------------------------------------------------------------- true counts

  function ItemBytes(items: seq<Item>): nat {
    if items == [] then 0 else ItemBytes(items[..|items| - 1]) + items[|items| - 1].len
  }

  ghost function Count(m: Index): nat
    decreases |m|
  {
    if m == map[] then 0
    else
      var k :| k in m;
      |m[k]| + Count(m - {k})
  }

  ghost function Total(m: Index): nat
    decreases |m|
  {
    if m == map[] then 0
    else
      var k :| k in m;
      ItemBytes(m[k]) + Total(m - {k})
  }

  /** The sums do not depend on the order in which keys are visited. */
  lemma {:induction false} CountWithout(m: Index, k: Key)
    requires k in m
    ensures Count(m) == |m[k]| + Count(m - {k})
    ensures Total(m) == ItemBytes(m[k]) + Total(m - {k})
    decreases |m|
  {
    CountOnly(m, k);
    TotalOnly(m, k);
  }

  lemma {:induction false} CountOnly(m: Index, k: Key)
    requires k in m
    ensures Count(m) == |m[k]| + Count(m - {k})
    decreases |m|
  {
    var c :| c in m && Count(m) == |m[c]| + Count(m - {c});
    if c != k {
      CountOnly(m - {c}, k);
      CountOnly(m - {k}, c);
      assert m - {c} - {k} == m - {k} - {c};
    }
  }

  lemma {:induction false} TotalOnly(m: Index, k: Key)
    requires k in m
    ensures Total(m) == ItemBytes(m[k]) + Total(m - {k})
    decreases |m|
  {
    var c :| c in m && Total(m) == ItemBytes(m[c]) + Total(m - {c});
    if c != k {
      TotalOnly(m - {c}, k);
      TotalOnly(m - {k}, c);
      assert m - {c} - {k} == m - {k} - {c};
    }
  }

  lemma {:induction false} CountUpdate(m: Index, k: Key, items: seq<Item>)
    requires k in m
    ensures Count(m[k := items]) == Count(m) - |m[k]| + |items|
    ensures Total(m[k := items]) == Total(m) - ItemBytes(m[k]) + ItemBytes(items)
  {
    CountWithout(m, k); CountWithout(m[k := items], k);
    assert m[k := items] - {k} == m - {k};
  }

  lemma {:induction false} CountInsert(m: Index, k: Key, items: seq<Item>)
    requires k !in m
    ensures Count(m[k := items]) == Count(m) + |items|
    ensures Total(m[k := items]) == Total(m) + ItemBytes(items)
  {
    CountWithout(m[k := items], k);
    assert m[k := items] - {k} == m;
  }

  /** The counters are true and no key is kept without items. */
  ghost predicate WellCounted(s: Mem) {
    && s.numItems == Count(s.inner)
    && s.totalBytes == Total(s.inner)
    && forall k :: k in s.inner ==> s.inner[k] != []
  }

  // ---------------------------------------------------------------- one item in, one item out

  function SwapRemove(items: seq<Item>, i: nat): (r: seq<Item>)
    requires i < |items|
    ensures |r| == |items| - 1
  {
    items[i := items[|items| - 1]][..|items| - 1]
  }

  function Insert(s: Mem, k: Key, item: Item): Mem {
    Mem(s.inner[k := Held(s, k) + [item]], s.numItems + 1, s.totalBytes + item.len)
  }

  predicate Holds(s: Mem, k: Key, i: nat) {
    k in s.inner && i < |s.inner[k]|
  }

  ghost function RemoveAt(s: Mem, k: Key, i: nat): Mem
    requires WellCounted(s) && Holds(s, k, i)
  {
    RemoveNeverUnderflows(s, k, i);
    var rest := SwapRemove(s.inner[k], i);
    Mem(if rest == [] then s.inner - {k} else s.inner[k := rest],
        s.numItems - 1, s.totalBytes - s.inner[k][i].len)
  }

  lemma {:induction false} BytesAt(items: seq<Item>, i: nat)
    requires i < |items|
    ensures ItemBytes(items) == ItemBytes(SwapRemove(items, i)) + items[i].len
  {
    var n := |items| - 1;
    var last := items[n];
    if i == n {
      assert SwapRemove(items, i) == items[..n];
    } else {
      BytesUpdate(items[..n], i, last);
      assert SwapRemove(items, i) == items[..n][i := last];
    }
  }

  lemma {:induction false} BytesUpdate(items: seq<Item>, i: nat, x: Item)
    requires i < |items|
    ensures ItemBytes(items[i := x]) == ItemBytes(items) - items[i].len + x.len
  {
    var n := |items| - 1;
    if i == n {
      assert items[i := x][..n] == items[..n];
    } else {
      BytesUpdate(items[..n], i, x);
      assert items[i := x][..n] == items[..n][i := x];
    }
  }

  lemma {:induction false} RemoveNeverUnderflows(s: Mem, k: Key, i: nat)
    requires WellCounted(s) && Holds(s, k, i)
    ensures s.numItems >= 1 && s.totalBytes >= s.inner[k][i].len
  {
    CountWithout(s.inner, k);
    BytesAt(s.inner[k], i);
  }

  lemma {:induction false} InsertKeepsCounts(s: Mem, k: Key, item: Item)
    requires WellCounted(s)
    ensures WellCounted(Insert(s, k, item))
  {
    if k in s.inner {
      CountUpdate(s.inner, k, s.inner[k] + [item]);
      assert (s.inner[k] + [item])[..|s.inner[k]|] == s.inner[k];
    } else {
      CountInsert(s.inner, k, [] + [item]);
      assert ItemBytes([item]) == item.len;
      assert [] + [item] == [item];
    }
  }

  lemma {:induction false} RemoveKeepsCounts(s: Mem, k: Key, i: nat)
    requires WellCounted(s) && Holds(s, k, i)
    ensures WellCounted(RemoveAt(s, k, i))
  {
    var rest := SwapRemove(s.inner[k], i);
    BytesAt(s.inner[k], i);
    CountWithout(s.inner, k);
    if rest != [] {
      CountUpdate(s.inner, k, rest);
    }
  }

  /** A positive byte count means there is something to evict. */
  lemma {:induction false} BytesNeedItems(m: Index)
    ensures Count(m) == 0 ==> Total(m) == 0
    decreases |m|
  {
    if m != map[] {
      var k :| k in m;
      CountWithout(m, k);
      BytesNeedItems(m - {k});
    }
  }

  // ---------------------------------------------------------------- the mutable state

  class CacheState {
    var inner: Index
    var numItems: nat
    var totalBytes: nat

    ghost function Value(): Mem
      reads this
    {
      Mem(inner, numItems, totalBytes)
    }

    constructor (inner: Index, numItems: nat, totalBytes: nat)
      ensures Value() == Mem(inner, numItems, totalBytes)
    {
      this.inner, this.numItems, this.totalBytes := inner, numItems, totalBytes;
    }

    /** The first held item that covers the range. */
    method FindMatch(key: Key, start: nat, end: nat) returns (r: Option<Item>)
      ensures r == Match(Value(), key, start, end)
    {
      if key !in inner {
        return None;
      }
      var items := inner[key];
      for i := 0 to |items|
        invariant forall j :: 0 <= j < i ==> !Covers(items[j], start, end)
        invariant FirstCover(items, start, end, i) == FirstCover(items, start, end, 0)
      {
        if Covers(items[i], start, end) {
          return Some(items[i]);
        }
      }
      r := None;
    }

    /** Turns a random number into the held item at that place, visiting the keys in any order;
    `rest` is what is left to visit from the item's key on. */
    method RandomItem(random: nat) returns (r: Option<(Key, nat)>, ghost rest: Index)
      requires WellCounted(Value())
      ensures r.None? <==> numItems == 0
      ensures r.Some? ==> Holds(Value(), r.value.0, r.value.1)
      ensures r.Some? ==> r.value.0 in rest && rest.Items <= inner.Items
      ensures r.Some? ==> numItems - Count(rest) + r.value.1 == random % numItems
    {
      rest := inner;
      if numItems == 0 {
        return None, rest;
      }
      var target, count: nat := random % numItems, 0;
      var left := inner;
      while left != map[]
        invariant left.Keys <= inner.Keys && forall k :: k in left ==> left[k] == inner[k]
        invariant count <= target && count + Count(left) == numItems
        decreases |left|
      {
        var key :| key in left.Keys;
        CountWithout(left, key);
        if target < count + |left[key]| {
          return Some((key, target - count)), left;
        }
        count := count + |left[key]|;
        left := left - {key};
      }
      assert false;
    }

    /** Takes the item at an index out of its key's list, and the key out of the map with its last item. */
    method SwapOut(key: Key, idx: nat) returns (item: Item)
      requires WellCounted(Value()) && Holds(Value(), key, idx)
      modifies this
      ensures item == old(inner)[key][idx]
      ensures Value() == RemoveAt(old(Value()), key, idx)
      ensures Drops(old(Value()), Value(), key, item)
    {
      RemoveNeverUnderflows(Value(), key, idx);
      var items := inner[key];
      item := items[idx];
      items := SwapRemove(items, idx);
      inner := if items == [] then inner - {key} else inner[key := items];
      totalBytes := totalBytes - item.len;
      numItems := numItems - 1;
    }

    /** Evicts random items until the byte count fits, and returns what must be deleted. */
    method EvictToCapacity(maxBytes: nat) returns (evicted: seq<(Key, Item)>)
      requires WellCounted(Value())
      modifies this
      ensures WellCounted(Value()) && totalBytes <= maxBytes
      ensures Evicts(old(Value()), Value(), evicted)
      ensures evicted != [] ==> totalBytes + evicted[|evicted| - 1].1.len > maxBytes
    {
      evicted := [];
      while totalBytes > maxBytes
        invariant WellCounted(Value())
        invariant Evicts(old(Value()), Value(), evicted)
        invariant evicted != [] ==> totalBytes + evicted[|evicted| - 1].1.len > maxBytes
        decreases numItems
      {
        BytesNeedItems(inner);
        var random: nat := *;
        var pick, _ := RandomItem(random);
        var (key, idx) := pick.value;
        ghost var before := Value();
        var item := SwapOut(key, idx);
        DropLess(before, Value(), key, item);
        EvictsSnoc(old(Value()), before, Value(), evicted, key, item);
        evicted := evicted + [(key, item)];
      }
    }

    /** Forgets an item, if it is still held. */
    method RemoveItem(key: Key, item: Item) returns (removed: bool)
      requires WellCounted(Value())
      modifies this
      ensures Value() == Forget(old(Value()), key, item)
      ensures removed <==> key !in old(inner) || item in old(inner)[key]
    {
      if key !in inner {
        return true;
      }
      var items := inner[key];
      var i := 0;
      while i < |items| && items[i] != item
        invariant 0 <= i <= |items|
        invariant item !in items[..i]
        invariant IndexOf(items, item, i) == IndexOf(items, item, 0)
      {
        i := i + 1;
      }
      if i == |items| {
        assert items[..i] == items;
        return false;
      }
      var _ := SwapOut(key, i);
      removed := true;
    }
  }

  // ---------------------------------------------------------------- what the methods compute

  ghost function FirstCover(items: seq<Item>, start: nat, end: nat, i: nat): (r: Option<Item>)
    requires i <= |items|
    ensures r.Some? ==> r.value in items && Covers(r.value, start, end)
    ensures r.None? ==> forall j :: i <= j < |items| ==> !Covers(items[j], start, end)
    decreases |items| - i
  {
    if i == |items| then None
    else if Covers(items[i], start, end) then Some(items[i])
    else FirstCover(items, start, end, i + 1)
  }

  ghost function Match(s: Mem, key: Key, start: nat, end: nat): (r: Option<Item>)
    ensures r.Some? ==> key in s.inner && r.value in s.inner[key] && Covers(r.value, start, end)
    ensures r.None? && key in s.inner ==> forall x :: x in s.inner[key] ==> !Covers(x, start, end)
  {
    if key in s.inner then FirstCover(s.inner[key], start, end, 0) else None
  }

  ghost function IndexOf(items: seq<Item>, item: Item, i: nat): (r: nat)
    requires i <= |items|
    ensures i <= r <= |items|
    ensures r < |items| ==> items[r] == item
    ensures r == |items| ==> item !in items[i..]
    decreases |items| - i
  {
    if i == |items| || items[i] == item then i else IndexOf(items, item, i + 1)
  }

  ghost function Forget(s: Mem, key: Key, item: Item): (r: Mem)
    requires WellCounted(s)
    ensures WellCounted(r) && r.totalBytes <= s.totalBytes
  {
    if key !in s.inner then s
    else
      var i := IndexOf(s.inner[key], item, 0);
      if i == |s.inner[key]| then s
      else
        RemoveKeepsCounts(s, key, i);
        RemoveAt(s, key, i)
  }

  /** `after` is `before` less one held copy of the item. */
  ghost predicate Drops(before: Mem, after: Mem, k: Key, item: Item) {
    && WellCounted(before)
    && exists i: nat :: Holds(before, k, i) && before.inner[k][i] == item && after == RemoveAt(before, k, i)
  }

  /** `after` is `before` less the listed items, removed one at a time. */
  ghost predicate Evicts(before: Mem, after: Mem, evicted: seq<(Key, Item)>)
    decreases |evicted|
  {
    if evicted == [] then after == before
    else
      var n := |evicted| - 1;
      exists mid: Mem :: Drops(mid, after, evicted[n].0, evicted[n].1) && Evicts(before, mid, evicted[..n])
  }

  lemma {:induction false} EvictsSnoc(before: Mem, mid: Mem, after: Mem, evicted: seq<(Key, Item)>, k: Key, item: Item)
    requires Evicts(before, mid, evicted) && Drops(mid, after, k, item)
    ensures Evicts(before, after, evicted + [(k, item)])
  {
    var e := evicted + [(k, item)];
    assert e[..|evicted|] == evicted && e[|evicted|] == (k, item);
  }

  lemma {:induction false} DropLess(before: Mem, after: Mem, k: Key, item: Item)
    requires Drops(before, after, k, item)
    ensures WellCounted(after) && before.numItems == after.numItems + 1
    ensures before.totalBytes == after.totalBytes + item.len
  {
    var i: nat :| Holds(before, k, i) && before.inner[k][i] == item && after == RemoveAt(before, k, i);
    RemoveKeepsCounts(before, k, i);
    RemoveNeverUnderflows(before, k, i);
  }

  function BytesOf(evicted: seq<(Key, Item)>): nat {
    if evicted == [] then 0 else BytesOf(evicted[..|evicted| - 1]) + evicted[|evicted| - 1].1.len
  }

  /** Eviction conserves items and bytes: what is gone from the index is what is listed. */
  lemma {:induction false} EvictionConserves(before: Mem, after: Mem, evicted: seq<(Key, Item)>)
    requires Evicts(before, after, evicted)
    ensures before.numItems == after.numItems + |evicted|
    ensures before.totalBytes == after.totalBytes + BytesOf(evicted)
    ensures WellCounted(before) ==> WellCounted(after)
    decreases |evicted|
  {
    if evicted != [] {
      var n := |evicted| - 1;
      var mid: Mem :| Drops(mid, after, evicted[n].0, evicted[n].1) && Evicts(before, mid, evicted[..n]);
      EvictionConserves(before, mid, evicted[..n]);
      DropLess(mid, after, evicted[n].0, evicted[n].1);
    }
  }
}
