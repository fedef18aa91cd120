/** Altered files: whatever happens to the files from outside, no get serves the content of an item that
was neither put nor found intact before, unless its checksum is right. */
module CacheChecks {
  import opened HashText
  import opened CacheFile
  import opened CacheState
  import opened CacheProtocol
  import opened Wrappers

  /** The call is about to earn the item its mark: it has read content with the right checksum, or it adds
  the item itself. */
  ghost predicate Earns(w: World, t: Task, path: (Key, Item)) {
    || (t.GetRead? && (t.key, t.item) == path && w.crc(t.content) == t.item.checksum)
    || (t.PutHold? && (t.put.key, ItemOf(w, t.put)) == path)
  }

  ghost predicate SomeEarns(w: World, s: State, path: (Key, Item)) {
    exists j :: 0 <= j < |s.tasks| && Earns(w, s.tasks[j], path)
  }

  /** Some call earned the mark before state `i`. */
  ghost predicate Earned(w: World, ss: seq<State>, i: nat, path: (Key, Item))
    requires i <= |ss|
  {
    exists m :: 0 <= m < i && SomeEarns(w, ss[m], path)
  }

  lemma {:induction false} MarkStep(w: World, s: State, s': State, path: (Key, Item))
    requires Next(w, s, s') && path in s'.marks && path !in s.marks
    ensures SomeEarns(w, s, path)
  {
    hide TaskNext, TaskFails, ItemOf;
    var step: Step :| Does(w, s, step, s');
    if step.Work? {
      assert Earns(w, s.tasks[step.i], path);
    }
  }

  /** No item is marked in a run unless the run put it or found its file intact. */
  lemma {:induction false} MarksEarned(w: World, ss: seq<State>, i: nat, path: (Key, Item))
    requires Run(w, ss) && i < |ss| && path in ss[i].marks
    ensures Earned(w, ss, i, path)
  {
    hide Next, SomeEarns;
    if i > 0 {
      if path in ss[i - 1].marks {
        MarksEarned(w, ss, i - 1, path);
      } else {
        MarkStep(w, ss[i - 1], ss[i], path);
      }
    }
  }

  // ---------------------------------------------------------------- where a hit comes from

  ghost predicate WasHeld(ss: seq<State>, i: nat, key: Key, item: Item)
    requires i < |ss|
  {
    exists o :: 0 <= o <= i && item in Held(ss[o].mem, key)
  }

  ghost predicate WasStored(ss: seq<State>, i: nat, key: Key, item: Item, content: Bytes)
    requires i < |ss|
  {
    exists o :: 0 <= o <= i && FileAt(ss[o].disk, key, item) == Some(content)
  }

  /** An item that is opened or read was held and covers the request, and what is read was its file. */
  ghost predicate Origin(ss: seq<State>, i: nat, t: Task)
    requires i < |ss|
  {
    && (t.GetOpen? || t.GetRead? ==> Covers(t.item, t.start, t.end) && WasHeld(ss, i, t.key, t.item))
    && (t.GetRead? ==> WasStored(ss, i, t.key, t.item, t.content))
  }

  lemma {:induction false} OriginLater(ss: seq<State>, i: nat, t: Task)
    requires i + 1 < |ss| && Origin(ss, i, t)
    ensures Origin(ss, i + 1, t)
  {
  }

  lemma {:induction false} MatchIsHeld(mem: Mem, key: Key, start: nat, end: nat)
    ensures var m := Match(mem, key, start, end);
            m.Some? ==> m.value in Held(mem, key) && Covers(m.value, start, end)
  {
    hide FirstCover;
  }

  lemma {:induction false} OriginWork(w: World, ss: seq<State>, i: nat, t: Task, t': Task)
    requires i + 1 < |ss| && Origin(ss, i, t)
    requires || TaskNext(w, ss[i].mem, ss[i].disk, t, ss[i + 1].mem, ss[i + 1].disk, t')
             || TaskFails(w, ss[i].mem, ss[i].disk, t, ss[i + 1].mem, ss[i + 1].disk, t')
    ensures Origin(ss, i + 1, t')
  {
    hide Match, Forget, Commits, WellCounted, Judge, ReadHeader, GetRange, FileContent, Held, WasHeld, WasStored;
    if t.GetLook? {
      MatchIsHeld(ss[i].mem, t.key, t.start, t.end);
      if t'.GetOpen? {
        HeldHere(ss, i, t.key, t'.item);
      }
    } else if t.GetOpen? {
      OriginLater(ss, i, t);
      if t'.GetRead? {
        StoredHere(ss, i, t.key, t.item, t'.content);
      }
    }
  }

  lemma {:induction false} HeldHere(ss: seq<State>, i: nat, key: Key, item: Item)
    requires i + 1 < |ss| && item in Held(ss[i].mem, key)
    ensures WasHeld(ss, i + 1, key, item)
  {
  }

  lemma {:induction false} StoredHere(ss: seq<State>, i: nat, key: Key, item: Item, content: Bytes)
    requires i + 1 < |ss| && FileAt(ss[i].disk, key, item) == Some(content)
    ensures WasStored(ss, i + 1, key, item, content)
  {
  }

  lemma {:induction false} OriginRun(w: World, ss: seq<State>, i: nat, call: nat)
    requires Run(w, ss) && i < |ss| && call < |ss[i].tasks|
    ensures Origin(ss, i, ss[i].tasks[call])
  {
    hide TaskNext, TaskFails, Origin, Marks, Acceptable;
    if i > 0 {
      var s, s' := ss[i - 1], ss[i];
      assert Next(w, s, s');
      var step: Step :| Does(w, s, step, s');
      if call < |s.tasks| {
        OriginRun(w, ss, i - 1, call);
        OriginLater(ss, i - 1, s.tasks[call]);
        if step.Work? && step.i == call {
          OriginWork(w, ss, i - 1, s.tasks[call], s'.tasks[call]);
        }
      } else {
        OriginBegins(ss, i, s'.tasks[call]);
      }
    }
  }

  lemma {:induction false} OriginBegins(ss: seq<State>, i: nat, t: Task)
    requires i < |ss| && !t.GetOpen? && !t.GetRead?
    ensures Origin(ss, i, t)
  {
  }

  /** At state `m` the call had the content of a covering item in hand, which had been held and stored; its
  checksum was right or the item had earned its mark; and the answer is what that content gives. */
  ghost predicate ServedAt(w: World, ss: seq<State>, m: nat, call: nat, done: Task) {
    && m < |ss| && call < |ss[m].tasks| && ss[m].tasks[call].GetRead?
    && var t := ss[m].tasks[call];
       && Covers(t.item, t.start, t.end) && WasHeld(ss, m, t.key, t.item)
       && WasStored(ss, m, t.key, t.item, t.content)
       && (w.crc(t.content) == t.item.checksum || Earned(w, ss, m, (t.key, t.item)))
       && done == Serve(t.key, t.start, t.end, t.item, t.content)
  }

  /** In every run, with any deletions and replacements of files from outside, every hit is checked. */
  lemma {:induction false} HitsAreChecked(w: World, ss: seq<State>, i: nat, call: nat)
    requires Run(w, ss) && i < |ss| && call < |ss[i].tasks|
    requires ss[i].tasks[call].GetDone? && ss[i].tasks[call].got.Hit?
    ensures exists m: nat :: m < i && ServedAt(w, ss, m, call, ss[i].tasks[call])
  {
    hide TaskNext, TaskFails, Origin, Serve, Marks, ServedAt;
    var s, s' := ss[i - 1], ss[i];
    assert Next(w, s, s');
    var step: Step :| Does(w, s, step, s');
    if call < |s.tasks| && s.tasks[call] == s'.tasks[call] {
      HitsAreChecked(w, ss, i - 1, call);
    } else {
      HitBegins(w, s, step, s', call);
      OriginRun(w, ss, i - 1, call);
      var t := s.tasks[call];
      if w.crc(t.content) != t.item.checksum {
        MarksEarned(w, ss, i - 1, (t.key, t.item));
      }
      ServedNow(w, ss, i - 1, call, s'.tasks[call]);
    }
  }

  lemma {:induction false} ServedNow(w: World, ss: seq<State>, m: nat, call: nat, done: Task)
    requires m < |ss| && call < |ss[m].tasks| && ss[m].tasks[call].GetRead? && Origin(ss, m, ss[m].tasks[call])
    requires var t := ss[m].tasks[call];
             && (w.crc(t.content) == t.item.checksum || Earned(w, ss, m, (t.key, t.item)))
             && done == Serve(t.key, t.start, t.end, t.item, t.content)
    ensures ServedAt(w, ss, m, call, done)
  {
    hide Serve, Earned, WasHeld, WasStored;
  }

  /** A hit comes about in one step only: from a read of a marked or matching item. */
  lemma {:induction false} HitBegins(w: World, s: State, step: Step, s': State, call: nat)
    requires Does(w, s, step, s') && call < |s'.tasks| && s'.tasks[call].GetDone? && s'.tasks[call].got.Hit?
    requires !(call < |s.tasks| && s.tasks[call] == s'.tasks[call])
    ensures call < |s.tasks| && s.tasks[call].GetRead?
    ensures var t := s.tasks[call];
            && (w.crc(t.content) == t.item.checksum || (t.key, t.item) in s.marks)
            && s'.tasks[call] == Serve(t.key, t.start, t.end, t.item, t.content)
  {
    hide Match, Forget, Commits, WellCounted, Judge, Serve, FileContent, Acceptable;
  }
}
