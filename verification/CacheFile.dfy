/** The content of a cache file: a header of chunk offsets followed by the chunk bytes. */
module CacheFile {
  import opened HashText
  import opened Lists
  import opened Digits
  import opened Wrappers

  const TWO_32 := 0x1_0000_0000

  type Bytes = seq<byte>

  // ---------------------------------------------------------------- little-endian words

  function PutU32(n: nat): (b: Bytes)
    ensures |b| == 4
  {
    Reverse(Expand(Byte, n, 4))
  }

  function GetU32(b: Bytes): (n: nat)
    requires |b| == 4
  {
    Value(Byte, Reverse<nat>(b))
  }

  lemma {:induction false} GetPutU32(n: nat)
    requires n < TWO_32
    ensures GetU32(PutU32(n)) == n
  {
    var ds := Expand(Byte, n, 4);
    assert Reverse(Reverse(ds)) == ds;
    assert Pow(Byte, 4) == TWO_32;
    ValueOfExpand(Byte, n, 4);
  }

  // ---------------------------------------------------------------- the header

  predicate Increasing(s: seq<nat>) {
    forall i, j :: 0 <= i < j < |s| ==> s[i] < s[j]
  }

  /** What a header may hold: offsets from 0, strictly increasing, all in 32 bits. */
  predicate Offsets(s: seq<nat>) {
    && 0 < |s| < TWO_32
    && s[0] == 0
    && Increasing(s)
    && forall i :: 0 <= i < |s| ==> s[i] < TWO_32
  }

  function Words(s: seq<nat>): (b: Bytes)
    ensures |b| == 4 * |s|
  {
    if s == [] then [] else Words(s[..|s| - 1]) + PutU32(s[|s| - 1])
  }

  function Header(offsets: seq<nat>): (b: Bytes)
    ensures |b| == HeaderLen(offsets)
  {
    PutU32(|offsets|) + Words(offsets)
  }

  function HeaderLen(offsets: seq<nat>): nat {
    4 * (|offsets| + 1)
  }

  function FileContent(offsets: seq<nat>, data: Bytes): Bytes {
    Header(offsets) + data
  }

  /** Reads `n` words after the first, refusing a non-zero start and any step that does not increase. */
  function ReadOffsets(content: Bytes, n: nat, acc: seq<nat>): (r: Option<seq<nat>>)
    requires |acc| <= n && Increasing(acc)
    ensures r.Some? ==> |r.value| == n && Increasing(r.value)
    decreases n - |acc|
  {
    if |acc| == n then Some(acc)
    else if |content| < 4 * (|acc| + 2) then None
    else
      var idx := GetU32(content[4 * (|acc| + 1)..4 * (|acc| + 2)]);
      if acc == [] && idx != 0 then None
      else if acc != [] && acc[|acc| - 1] >= idx then None
      else ReadOffsets(content, n, acc + [idx])
  }

  function ReadHeader(content: Bytes): (r: Option<seq<nat>>)
    ensures r.Some? ==> Increasing(r.value)
  {
    if |content| < 4 then None else ReadOffsets(content, GetU32(content[..4]), [])
  }

  lemma {:induction false} WordAt(s: seq<nat>, i: nat)
    requires i < |s|
    ensures Words(s)[4 * i..4 * i + 4] == PutU32(s[i])
  {
    var n := |s| - 1;
    if i < n {
      WordAt(s[..n], i);
      assert Words(s)[4 * i..4 * i + 4] == Words(s[..n])[4 * i..4 * i + 4];
    }
  }

  lemma {:induction false} ReadOffsetsBack(offsets: seq<nat>, data: Bytes, i: nat)
    requires Offsets(offsets) && i <= |offsets|
    ensures ReadOffsets(FileContent(offsets, data), |offsets|, offsets[..i]) == Some(offsets)
    decreases |offsets| - i
  {
    hide Words, PutU32, GetU32;
    if i == |offsets| {
      assert offsets[..i] == offsets;
    } else {
      var content := FileContent(offsets, data);
      WordAt(offsets, i);
      assert content[4 * (i + 1)..4 * (i + 2)] == Words(offsets)[4 * i..4 * i + 4];
      GetPutU32(offsets[i]);
      assert offsets[..i] + [offsets[i]] == offsets[..i + 1];
      ReadOffsetsBack(offsets, data, i + 1);
    }
  }

  /** Decoding a written file gives the offsets back. */
  lemma {:induction false} ReadHeaderBack(offsets: seq<nat>, data: Bytes)
    requires Offsets(offsets)
    ensures ReadHeader(FileContent(offsets, data)) == Some(offsets)
  {
    hide Words, PutU32, GetU32;
    GetPutU32(|offsets|);
    assert FileContent(offsets, data)[..4] == PutU32(|offsets|);
    assert offsets[..0] == [];
    ReadOffsetsBack(offsets, data, 0);
  }

  lemma {:induction false} PutGetU32(b: Bytes)
    requires |b| == 4
    ensures GetU32(b) < TWO_32 && PutU32(GetU32(b)) == b
  {
    var ds := Reverse<nat>(b);
    ExpandOfValue(Byte, ds);
    ValueBound(Byte, ds);
    assert Pow(Byte, 4) == TWO_32;
    assert Reverse(ds) == b;
  }

  lemma {:induction false} ReadOffsetsIs(content: Bytes, n: nat, acc: seq<nat>)
    requires |acc| <= n && Increasing(acc) && 4 * (|acc| + 1) <= |content|
    requires content[4..4 * (|acc| + 1)] == Words(acc) && (acc != [] ==> acc[0] == 0)
    requires forall i :: 0 <= i < |acc| ==> acc[i] < TWO_32
    ensures var r := ReadOffsets(content, n, acc);
            r.Some? ==>
              && 4 * (n + 1) <= |content| && content[4..4 * (n + 1)] == Words(r.value)
              && (n > 0 ==> r.value[0] == 0) && forall i :: 0 <= i < n ==> r.value[i] < TWO_32
    decreases n - |acc|
  {
    hide PutU32, GetU32;
    if |acc| < n && |content| >= 4 * (|acc| + 2) {
      var k := 4 * (|acc| + 1);
      var word := content[k..4 * (|acc| + 2)];
      PutGetU32(word);
      var idx := GetU32(word);
      var next := acc + [idx];
      assert next[..|acc|] == acc;
      assert content[4..k + 4] == content[4..k] + content[k..k + 4];
      if !(acc == [] && idx != 0) && !(acc != [] && acc[|acc| - 1] >= idx) {
        ReadOffsetsIs(content, n, next);
      }
    }
  }

  /** A header is read exactly from content that begins with one: no offsets at all, or offsets from 0 that
  increase. */
  lemma {:induction false} ReadHeaderIff(content: Bytes, offsets: seq<nat>)
    ensures ReadHeader(content) == Some(offsets) <==>
              && (offsets == [] || Offsets(offsets))
              && exists data: Bytes :: content == FileContent(offsets, data)
  {
    hide PutU32, GetU32, Words, ReadOffsets;
    if ReadHeader(content) == Some(offsets) {
      var n := GetU32(content[..4]);
      PutGetU32(content[..4]);
      assert content[4..4] == [];
      NoWords();
      ReadOffsetsIs(content, n, []);
      assert content == content[..4] + content[4..4 * (n + 1)] + content[4 * (n + 1)..];
      assert content == FileContent(offsets, content[4 * (n + 1)..]);
    }
    if data: Bytes :| (offsets == [] || Offsets(offsets)) && content == FileContent(offsets, data) {
      if offsets == [] {
        NoWords();
        GetPutU32(0);
        assert content[..4] == PutU32(0);
        NoOffsets(content);
      } else {
        ReadHeaderBack(offsets, data);
      }
    }
  }

  lemma {:induction false} NoWords()
    ensures Words([]) == []
  {
  }

  lemma {:induction false} NoOffsets(content: Bytes)
    ensures ReadOffsets(content, 0, []) == Some([])
  {
  }

  // ---------------------------------------------------------------- chunks

  /** Running lengths, from 0 to the total. */
  function Running(chunks: seq<Bytes>): (r: seq<nat>)
    ensures |r| == |chunks| + 1
    ensures r[|chunks|] == |Concat(chunks)|
  {
    if chunks == [] then [0]
    else Running(chunks[..|chunks| - 1]) + [|Concat(chunks)|]
  }

  predicate NonEmpty(chunks: seq<Bytes>) {
    forall i :: 0 <= i < |chunks| ==> chunks[i] != []
  }

  lemma {:induction false} RunningAt(chunks: seq<Bytes>, i: nat)
    requires i <= |chunks|
    ensures Running(chunks)[i] == |Concat(chunks[..i])|
  {
    if i == |chunks| {
      assert chunks[..i] == chunks;
    } else {
      RunningAt(chunks[..|chunks| - 1], i);
      assert chunks[..|chunks| - 1][..i] == chunks[..i];
    }
  }

  /** A slice of the data between two chunk edges is the concatenation of those chunks. */
  lemma {:induction false} ConcatSlice(chunks: seq<Bytes>, i: nat, j: nat)
    requires i <= j <= |chunks|
    ensures Running(chunks)[i] <= Running(chunks)[j] <= |Concat(chunks)|
    ensures Concat(chunks)[Running(chunks)[i]..Running(chunks)[j]] == Concat(chunks[i..j])
    ensures Running(chunks)[j] - Running(chunks)[i] == |Concat(chunks[i..j])|
  {
    RunningAt(chunks, i); RunningAt(chunks, j);
    var a, b, c := chunks[..i], chunks[i..j], chunks[j..];
    assert chunks[..j] == a + b && chunks == a + b + c;
    ConcatAppend(a, b); ConcatAppend(a + b, c);
  }

  lemma {:induction false} RunningOffsets(chunks: seq<Bytes>)
    requires NonEmpty(chunks) && |Concat(chunks)| < TWO_32 && |chunks| + 1 < TWO_32
    ensures Offsets(Running(chunks))
  {
    var r := Running(chunks);
    RunningAt(chunks, 0);
    assert chunks[..0] == [];
    forall i, j | 0 <= i < j < |r| ensures r[i] < r[j] {
      ConcatSlice(chunks, i, j - 1); ConcatSlice(chunks, j - 1, j);
      assert chunks[j - 1..j] == [chunks[j - 1]];
      assert Concat([chunks[j - 1]]) == chunks[j - 1];
    }
    forall i | 0 <= i < |r| ensures r[i] < TWO_32 {
      ConcatSlice(chunks, i, |chunks|);
    }
  }

  // ---------------------------------------------------------------- reading a range

  /** What a lookup returns. */
  datatype CacheRange = CacheRange(offsets: seq<nat>, data: Bytes)

  /** The part of a cache file for chunks `[from, to)`, counted from the file's first chunk;
      nothing when the header or the data is too short. */
  function GetRange(offsets: seq<nat>, content: Bytes, from: nat, to: nat): (r: Option<CacheRange>)
    requires Increasing(offsets) && from <= to
  {
    if to >= |offsets| then None
    else
      var base := HeaderLen(offsets);
      var first, last := offsets[from], offsets[to];
      assert first <= last;
      if |content| < base + last then None
      else Some(CacheRange(seq(to - from + 1, i requires 0 <= i <= to - from =>
                             assert offsets[from] <= offsets[from + i]; offsets[from + i] - first),
                           content[base + first..base + last]))
  }

  /** Whatever follows the header, a range is read exactly when the header has both its offsets and the bytes
  reach far enough; it gives the bytes between the two and the offsets counted from the first. */
  lemma {:induction false} GetRangeIs(offsets: seq<nat>, data: Bytes, from: nat, to: nat)
    requires Increasing(offsets) && from <= to
    ensures var r := GetRange(offsets, FileContent(offsets, data), from, to);
            && (r.Some? <==> to < |offsets| && offsets[to] <= |data|)
            && (r.Some? ==>
                  && offsets[from] <= offsets[to] && r.value.data == data[offsets[from]..offsets[to]]
                  && |r.value.offsets| == to - from + 1
                  && forall i :: 0 <= i <= to - from ==> r.value.offsets[i] + offsets[from] == offsets[from + i])
  {
    hide Header;
    var content, base := FileContent(offsets, data), HeaderLen(offsets);
    if to < |offsets| && offsets[to] <= |data| {
      var first, last := offsets[from], offsets[to];
      assert first <= last;
      assert content[base + first..base + last] == data[first..last];
    }
  }

  /** The file of a chunk list answers every range with exactly those chunks and their running lengths. */
  lemma {:induction false} GetRangeOfChunks(chunks: seq<Bytes>, from: nat, to: nat)
    requires Offsets(Running(chunks)) && from <= to <= |chunks|
    ensures GetRange(Running(chunks), FileContent(Running(chunks), Concat(chunks)), from, to)
         == Some(CacheRange(Running(chunks[from..to]), Concat(chunks[from..to])))
  {
    hide Running, Concat, Header;
    var r, d := Running(chunks), Concat(chunks);
    var content := FileContent(r, d);
    ConcatSlice(chunks, from, to);
    ConcatSlice(chunks, to, |chunks|);
    var base := HeaderLen(r);
    assert content[base + r[from]..base + r[to]] == d[r[from]..r[to]];
    assert r[to] <= |d|;
    assert GetRange(r, content, from, to).Some?;
    var got := GetRange(r, content, from, to).value;
    forall i | 0 <= i <= to - from ensures got.offsets[i] == Running(chunks[from..to])[i] {
      ConcatSlice(chunks, from, from + i);
      RunningAt(chunks[from..to], i);
      assert chunks[from..to][..i] == chunks[from..from + i];
    }
    assert got.offsets == Running(chunks[from..to]);
  }

  // ---------------------------------------------------------------- comparing a put with stored data

  /** The file a chunk list is stored in. */
  function FileOf(chunks: seq<Bytes>): Bytes {
    FileContent(Running(chunks), Concat(chunks))
  }

  /** Chunk lists small enough for 32-bit offsets. */
  predicate Storable(chunks: seq<Bytes>) {
    NonEmpty(chunks) && |Concat(chunks)| < TWO_32 && |chunks| + 1 < TWO_32
  }

  /** The arguments of a put that pass its checks. */
  predicate WellFormed(offsets: seq<nat>, data: Bytes) {
    Offsets(offsets) && offsets[|offsets| - 1] == |data|
  }

  /** The chunks that offsets cut out of data. */
  ghost function Slices(offsets: seq<nat>, data: Bytes): (r: seq<Bytes>)
    requires offsets != [] && Increasing(offsets) && offsets[|offsets| - 1] <= |data|
    ensures |r| == |offsets| - 1
    decreases |offsets|
  {
    var n := |offsets| - 1;
    if n == 0 then []
    else
      assert offsets[n - 1] < offsets[n];
      Slices(offsets[..n], data) + [data[offsets[n - 1]..offsets[n]]]
  }

  /** Well-formed arguments are exactly the running lengths and bytes of some non-empty chunks. */
  lemma {:induction false} SlicesAreChunks(offsets: seq<nat>, data: Bytes)
    requires offsets != [] && Increasing(offsets) && offsets[0] == 0 && offsets[|offsets| - 1] <= |data|
    ensures Running(Slices(offsets, data)) == offsets
    ensures Concat(Slices(offsets, data)) == data[..offsets[|offsets| - 1]]
    ensures NonEmpty(Slices(offsets, data))
    decreases |offsets|
  {
    var n := |offsets| - 1;
    if n > 0 {
      assert offsets[n - 1] < offsets[n];
      SlicesAreChunks(offsets[..n], data);
      var s := Slices(offsets, data);
      assert s[..n - 1] == Slices(offsets[..n], data);
      assert data[..offsets[n - 1]] + data[offsets[n - 1]..offsets[n]] == data[..offsets[n]];
      assert offsets[..n] + [offsets[n]] == offsets;
    }
  }

  lemma {:induction false} StepIsLength(chunks: seq<Bytes>, i: nat)
    requires i < |chunks|
    ensures Running(chunks)[i + 1] == Running(chunks)[i] + |chunks[i]|
  {
    RunningAt(chunks, i); RunningAt(chunks, i + 1);
    assert chunks[..i + 1][..i] == chunks[..i];
  }

  /** Two ways to cut the same bytes at the same distance from the end are one. */
  lemma {:induction false} SameCut(x: Bytes, u: Bytes, y: Bytes, v: Bytes)
    requires x + u == y + v && |u| == |v|
    ensures x == y && u == v
  {
    assert x == (x + u)[..|x|] && y == (y + v)[..|y|];
    assert u == (x + u)[|x|..] && v == (y + v)[|y|..];
  }

  lemma {:induction false} ConcatLast(chunks: seq<Bytes>)
    requires chunks != []
    ensures Concat(chunks) == Concat(chunks[..|chunks| - 1]) + chunks[|chunks| - 1]
    ensures chunks == chunks[..|chunks| - 1] + [chunks[|chunks| - 1]]
  {
  }

  /** Equal lengths and equal bytes is the same as equal chunks. */
  lemma {:induction false} SameChunks(a: seq<Bytes>, b: seq<Bytes>)
    requires |a| == |b|
    ensures a == b <==> (forall i :: 0 <= i < |a| ==> |a[i]| == |b[i]|) && Concat(a) == Concat(b)
  {
    hide Concat;
    if a != [] && (forall i :: 0 <= i < |a| ==> |a[i]| == |b[i]|) && Concat(a) == Concat(b) {
      var n := |a| - 1;
      ConcatLast(a); ConcatLast(b);
      SameCut(Concat(a[..n]), a[n], Concat(b[..n]), b[n]);
      SameChunks(a[..n], b[..n]);
    }
  }

  /** Outcome of comparing a put with a stored item: accepted, refused, the stored file is
      unusable and its item must go, its data ends early, or its header has too few offsets for the
      comparison or for the message about a difference. */
  datatype Verdict = Same | Different | Unusable | ReadError | OutOfRange

  /** A file that cannot be the one the item was stored with. */
  predicate Bad(file: Option<Bytes>, len: nat, checksum: nat, crc: Bytes -> nat) {
    file.None? || |file.value| != len || crc(file.value) != checksum || ReadHeader(file.value).None?
  }

  /** The chunk steps that both sides have. */
  function Comparable(given: seq<nat>, stored: seq<nat>, from: nat): nat
    requires given != []
  {
    if from + |given| <= |stored| then |given| - 1
    else if from < |stored| then |stored| - 1 - from
    else 0
  }

  predicate AllStepsAgree(given: seq<nat>, stored: seq<nat>, from: nat)
    requires given != [] && Increasing(given) && Increasing(stored)
  {
    forall j :: 0 <= j < Comparable(given, stored, from) ==> StepsAgree(given, stored, from, j)
  }

  /** What comparing chunks with the file of an item, from chunk `from` of the file on, decides. When
      debug messages are `logged`, one that quotes the stored offsets comes with the first difference. */
  function Judge(file: Option<Bytes>, len: nat, checksum: nat, crc: Bytes -> nat, from: nat,
                 offsets: seq<nat>, data: Bytes, logged: bool): Verdict
    requires offsets != [] && Increasing(offsets)
  {
    if Bad(file, len, checksum, crc) then Unusable
    else
      var h := ReadHeader(file.value).value;
      if !AllStepsAgree(offsets, h, from) then
        if logged && from + |offsets| > |h| then OutOfRange else Different
      else if from + |offsets| > |h| then OutOfRange
      else
        var got := GetRange(h, file.value, from, from + |offsets| - 1);
        if got.None? then ReadError else if data != got.value.data then Different else Same
  }

  /** Compares given chunks with the stored file of an item, at chunk position `from` of the file. */
  method ValidateMatch(file: Option<Bytes>, len: nat, checksum: nat, crc: Bytes -> nat, from: nat,
                       offsets: seq<nat>, data: Bytes, logged: bool) returns (v: Verdict)
    requires offsets != [] && Increasing(offsets)
    ensures v == Judge(file, len, checksum, crc, from, offsets, data, logged)
  {
    hide ReadHeader, GetRange;
    if file.None? || |file.value| != len || crc(file.value) != checksum {
      return Unusable;
    }
    var header := ReadHeader(file.value);
    if header.None? {
      return Unusable;
    }
    var h, n := header.value, |offsets| - 1;
    for i := 0 to n
      invariant i <= Comparable(offsets, h, from)
      invariant forall j :: 0 <= j < i ==> StepsAgree(offsets, h, from, j)
    {
      if from + i + 1 >= |h| {
        return OutOfRange;
      }
      if !StepsAgree(offsets, h, from, i) {
        if logged && from + |offsets| > |h| {
          return OutOfRange;
        }
        return Different;
      }
    }
    if from + n >= |h| {
      return OutOfRange;
    }
    var got := GetRange(h, file.value, from, from + n);
    if got.None? {
      return ReadError;
    }
    v := if data != got.value.data then Different else Same;
  }

  /** Against an intact file, a put is accepted exactly when each of its chunks equals the stored
      chunk, and refused otherwise. */
  lemma {:induction false} JudgeIntact(stored: seq<Bytes>, crc: Bytes -> nat, from: nat,
                                       offsets: seq<nat>, data: Bytes, logged: bool)
    requires WellFormed(offsets, data) && Storable(stored) && from + |offsets| - 1 <= |stored|
    ensures var file := FileOf(stored);
            Judge(Some(file), |file|, crc(file), crc, from, offsets, data, logged)
            == if Slices(offsets, data) == stored[from..from + |offsets| - 1] then Same else Different
  {
    hide Slices, ReadHeader, FileOf, GetRange, Running;
    CompareStored(offsets, data, stored, from);
  }

  /** The difference of two neighbouring offsets is the same on both sides. */
  predicate StepsAgree(given: seq<nat>, stored: seq<nat>, from: nat, j: nat)
    requires Increasing(given) && Increasing(stored) && j + 1 < |given| && from + j + 1 < |stored|
  {
    assert given[j] < given[j + 1] && stored[from + j] < stored[from + j + 1];
    stored[from + j + 1] - stored[from + j] == given[j + 1] - given[j]
  }

  lemma {:induction false} CompareStored(offsets: seq<nat>, data: Bytes, stored: seq<Bytes>, from: nat)
    requires WellFormed(offsets, data) && Storable(stored) && from + |offsets| - 1 <= |stored|
    ensures ReadHeader(FileOf(stored)) == Some(Running(stored)) && Increasing(Running(stored))
    ensures GetRange(Running(stored), FileOf(stored), from, from + |offsets| - 1).Some?
    ensures Slices(offsets, data) == stored[from..from + |offsets| - 1] <==>
              (forall j :: 0 <= j < |offsets| - 1 ==> StepsAgree(offsets, Running(stored), from, j)) &&
              data == GetRange(Running(stored), FileOf(stored), from, from + |offsets| - 1).value.data
  {
    hide Slices, Concat, ReadHeader, Running, FileContent, GetRange;
    var n := |offsets| - 1;
    var a, b := Slices(offsets, data), stored[from..from + n];
    RunningOffsets(stored);
    ReadHeaderBack(Running(stored), Concat(stored));
    GetRangeOfChunks(stored, from, from + n);
    SlicesAreChunks(offsets, data);
    assert data[..|data|] == data;
    SameChunks(a, b);
    forall j | 0 <= j < n ensures StepsAgree(offsets, Running(stored), from, j) <==> |a[j]| == |b[j]| {
      StepIsLength(a, j); StepIsLength(stored, from + j);
    }
  }
}
