/** Parsing a multipart/byteranges body (section 4.1 and Appendix A of RFC 7233). */
module Multipart {
  import opened Text
  import opened ContentRange
  import opened Wrappers

  datatype Part = Part(range: HttpRange, data: string)

  const BLANK := "\r\n\r\n"

  function FirstDelimiter(b: string): string {
    "--" + b
  }

  function Delimiter(b: string): (d: string)
    ensures |d| == |b| + 4
  {
    CRLF + FirstDelimiter(b)
  }

  // ---------------------------------------------------------------- stable sorting

  predicate Sorted(ps: seq<Part>) {
    forall i, j :: 0 <= i < j < |ps| ==> ps[i].range.start <= ps[j].range.start
  }

  function Place(p: Part, ps: seq<Part>): (r: seq<Part>)
    decreases |ps|
  {
    if ps == [] || p.range.start <= ps[0].range.start then [p] + ps else [ps[0]] + Place(p, ps[1..])
  }

  function SortByStart(ps: seq<Part>): (r: seq<Part>)
    decreases |ps|
  {
    if ps == [] then [] else Place(ps[0], SortByStart(ps[1..]))
  }

  /** The parts that start at `v`, in order. */
  function StartingAt(ps: seq<Part>, v: nat): seq<Part>
    decreases |ps|
  {
    if ps == [] then []
    else (if ps[0].range.start == v then [ps[0]] else []) + StartingAt(ps[1..], v)
  }

  lemma {:induction false} PlaceSorts(p: Part, ps: seq<Part>)
    requires Sorted(ps)
    ensures Sorted(Place(p, ps)) && |Place(p, ps)| == |ps| + 1
    decreases |ps|
  {
    if ps != [] && p.range.start > ps[0].range.start {
      PlaceSorts(p, ps[1..]);
      PlaceMin(p, ps[1..], ps[0].range.start);
    }
  }

  lemma {:induction false} StartingAtCons(p: Part, ps: seq<Part>, v: nat)
    ensures StartingAt([p] + ps, v) == if p.range.start == v then [p] + StartingAt(ps, v) else StartingAt(ps, v)
  {
    assert ([p] + ps)[1..] == ps;
  }

  lemma {:induction false} PlaceKeepsOrder(p: Part, ps: seq<Part>, v: nat)
    ensures StartingAt(Place(p, ps), v) == if p.range.start == v then [p] + StartingAt(ps, v) else StartingAt(ps, v)
    decreases |ps|
  {
    hide StartingAt;
    StartingAtCons(p, ps, v);
    if ps != [] && p.range.start > ps[0].range.start {
      PlaceKeepsOrder(p, ps[1..], v);
      StartingAtCons(ps[0], Place(p, ps[1..]), v);
      StartingAtCons(ps[0], ps[1..], v);
      assert [ps[0]] + ps[1..] == ps;
    }
  }

  lemma {:induction false} PlaceMin(p: Part, ps: seq<Part>, low: nat)
    requires p.range.start >= low && forall i :: 0 <= i < |ps| ==> ps[i].range.start >= low
    ensures forall i :: 0 <= i < |Place(p, ps)| ==> Place(p, ps)[i].range.start >= low
    decreases |ps|
  {
    if ps != [] && p.range.start > ps[0].range.start {
      PlaceMin(p, ps[1..], low);
    }
  }

  /** The result is sorted by start and keeps, for every start, the same parts in the same order. */
  lemma {:induction false} SortIsStable(ps: seq<Part>, v: nat)
    ensures Sorted(SortByStart(ps)) && |SortByStart(ps)| == |ps|
    ensures StartingAt(SortByStart(ps), v) == StartingAt(ps, v)
    decreases |ps|
  {
    if ps != [] {
      SortIsStable(ps[1..], v);
      PlaceSorts(ps[0], SortByStart(ps[1..]));
      PlaceKeepsOrder(ps[0], SortByStart(ps[1..]), v);
      StartingAtCons(ps[0], ps[1..], v);
      assert [ps[0]] + ps[1..] == ps;
    }
  }

  // ---------------------------------------------------------------- parsing

  /** What follows a delimiter's line break: a malformed part, one that runs to the end of the text,
  or one that ends at the next delimiter. */
  datatype Next = Malformed | Last(part: Part) | More(part: Part, after: nat)

  function NextPart(decode: string -> Option<string>, b: string, rest: string): (r: Next)
    ensures r.More? ==> r.after <= |rest|
    ensures !r.Malformed? ==> (r.Last? <==> Find(rest, Delimiter(b)).None?)
  {
    var next := Find(rest, Delimiter(b));
    var text := if next.None? then rest else rest[..next.value];
    var blank := Find(text, BLANK);
    if blank.None? then Malformed
    else
      var range := ParseContentRange(decode, text[..blank.value]);
      if range.None? then Malformed
      else
        var part := Part(range.value, text[blank.value + 4..]);
        if next.None? then Last(part) else More(part, next.value + |Delimiter(b)|)
  }

  /** The parts after a delimiter. */
  function ParseParts(decode: string -> Option<string>, b: string, text: string): (r: Option<seq<Part>>)
    decreases |text|
  {
    if !StartsWith(text, CRLF) then Some([])
    else
      match NextPart(decode, b, text[2..])
      case Malformed => None
      case Last(part) => Some([part])
      case More(part, after) => Prepend([part], ParseParts(decode, b, text[2..][after..]))
  }

  /** The texts at which parts begin: behind every delimiter that is followed by a line break, whatever the
  parts hold, up to one that is followed by something else. */
  function Starts(b: string, text: string): seq<string>
    decreases |text|
  {
    if !StartsWith(text, CRLF) then []
    else
      var rest := text[2..];
      var next := Find(rest, Delimiter(b));
      [rest] + if next.None? then [] else Starts(b, rest[next.value + |Delimiter(b)|..])
  }

  /** The part begun at `rest`: its text ends at the next delimiter or, without one, at the end of the body;
  a blank line ends its headers, which have to give a range. */
  ghost predicate IsPart(decode: string -> Option<string>, b: string, rest: string, part: Part) {
    var next := Find(rest, "\r\n--" + b);
    var text := if next.None? then rest else rest[..next.value];
    var blank := Find(text, "\r\n\r\n");
    && blank.Some?
    && ParseContentRange(decode, text[..blank.value]) == Some(part.range)
    && part.data == text[blank.value + 4..]
  }

  lemma {:induction false} NextIsPart(decode: string -> Option<string>, b: string, rest: string, part: Part)
    ensures IsPart(decode, b, rest, part) <==>
              var r := NextPart(decode, b, rest); !r.Malformed? && r.part == part
  {
    hide Find, ParseContentRange;
    assert Delimiter(b) == "\r\n--" + b;
  }

  ghost predicate Well(decode: string -> Option<string>, b: string, rest: string) {
    exists part: Part :: IsPart(decode, b, rest, part)
  }

  /** Every text begins a well-formed part. */
  ghost predicate AllWell(decode: string -> Option<string>, b: string, starts: seq<string>) {
    forall i :: 0 <= i < |starts| ==> Well(decode, b, starts[i])
  }

  lemma {:induction false} WellIs(decode: string -> Option<string>, b: string, rest: string)
    ensures Well(decode, b, rest) <==> !NextPart(decode, b, rest).Malformed?
  {
    hide IsPart, NextPart;
    var next := NextPart(decode, b, rest);
    if Well(decode, b, rest) {
      var part: Part :| IsPart(decode, b, rest, part);
      NextIsPart(decode, b, rest, part);
    }
    if !next.Malformed? {
      NextIsPart(decode, b, rest, next.part);
    }
  }

  lemma {:induction false} WellFirst(decode: string -> Option<string>, b: string, rest: string, more: seq<string>)
    ensures AllWell(decode, b, [rest] + more) <==>
              !NextPart(decode, b, rest).Malformed? && AllWell(decode, b, more)
  {
    hide Well, NextPart;
    var all := [rest] + more;
    WellIs(decode, b, rest);
    assert all[0] == rest && forall i :: 0 <= i < |more| ==> more[i] == all[i + 1];
  }

  /** Parsing succeeds exactly when every begun part is well formed, the last one without a closing
  delimiter included, and then gives all of them in order. */
  lemma {:induction false} PartsAreStarts(decode: string -> Option<string>, b: string, text: string)
    ensures var r, starts := ParseParts(decode, b, text), Starts(b, text);
            && (r.Some? <==> AllWell(decode, b, starts))
            && (r.Some? ==>
                  && |r.value| == |starts|
                  && forall i :: 0 <= i < |starts| ==> IsPart(decode, b, starts[i], r.value[i]))
    decreases |text|
  {
    hide Find, NextPart, IsPart, Delimiter, AllWell;
    NoneBegun(decode, b);
    if StartsWith(text, CRLF) {
      var rest, starts := text[2..], Starts(b, text);
      var next := NextPart(decode, b, rest);
      if !next.Malformed? {
        NextIsPart(decode, b, rest, next.part);
        NextEnds(decode, b, rest);
      }
      if Find(rest, Delimiter(b)).Some? {
        FindWithin(rest, Delimiter(b));
        var more := rest[Find(rest, Delimiter(b)).value + |Delimiter(b)|..];
        PartsAreStarts(decode, b, more);
        WellFirst(decode, b, rest, Starts(b, more));
        assert starts == [rest] + Starts(b, more);
      } else {
        WellFirst(decode, b, rest, []);
        assert starts == [rest] + [];
      }
    }
  }

  lemma {:induction false} NoneBegun(decode: string -> Option<string>, b: string)
    ensures AllWell(decode, b, [])
  {
  }

  /** The whole parser fails exactly when the type names no boundary, the body has no delimiter, or a begun
  part is malformed; otherwise it gives the begun parts sorted by start. */
  lemma {:induction false} ParseFailsIff(decode: string -> Option<string>, contentType: string, body: string)
    ensures var b := ExtractBoundary(contentType);
            && (b.None? ==> Parse(decode, contentType, body).None?)
            && (b.Some? ==>
                  var first := Find(body, "--" + b.value);
                  && (first.None? ==> Parse(decode, contentType, body).None?)
                  && (first.Some? ==>
                        && first.value + |"--" + b.value| <= |body|
                        && var text := body[first.value + |"--" + b.value|..];
                           var r := Parse(decode, contentType, body);
                           && (r.Some? <==> AllWell(decode, b.value, Starts(b.value, text)))
                           && (r.Some? ==> ParseParts(decode, b.value, text).Some?
                                           && r.value == SortByStart(ParseParts(decode, b.value, text).value))))
  {
    hide Find, ParseParts, Starts, AllWell, SortByStart, ExtractBoundary;
    var b := ExtractBoundary(contentType);
    if b.Some? {
      FindWithin(body, "--" + b.value);
      var first := Find(body, "--" + b.value);
      if first.Some? {
        PartsAreStarts(decode, b.value, body[first.value + |"--" + b.value|..]);
      }
    }
  }

  lemma {:induction false} NextEnds(decode: string -> Option<string>, b: string, rest: string)
    ensures var r, next := NextPart(decode, b, rest), Find(rest, Delimiter(b));
            !r.Malformed? ==>
              if next.None? then r.Last? else r.More? && r.after == next.value + |Delimiter(b)| <= |rest|
  {
    hide Find, ParseContentRange;
  }

  lemma {:induction false} FindWithin(s: string, t: string)
    ensures Find(s, t).Some? ==> Find(s, t).value + |t| <= |s|
  {
  }

  function Prepend(ps: seq<Part>, r: Option<seq<Part>>): Option<seq<Part>> {
    if r.None? then None else Some(ps + r.value)
  }

  function Parse(decode: string -> Option<string>, contentType: string, body: string): (r: Option<seq<Part>>) {
    var b := ExtractBoundary(contentType);
    if b.None? then None
    else
      var first := Find(body, FirstDelimiter(b.value));
      if first.None? then None
      else
        var parts := ParseParts(decode, b.value, body[first.value + |FirstDelimiter(b.value)|..]);
        if parts.None? then None else Some(SortByStart(parts.value))
  }

  /** Reads the part at an offset of the body, cutting its data out of the body. */
  method ReadPart(decode: string -> Option<string>, b: string, body: string, at: nat) returns (r: Next)
    requires at <= |body|
    ensures r == NextPart(decode, b, body[at..])
  {
    hide Find, ParseContentRange;
    var next := Find(body[at..], Delimiter(b));
    var end := if next.None? then |body| else at + next.value;
    assert body[at..end] == if next.None? then body[at..] else body[at..][..next.value];
    var blank := Find(body[at..end], BLANK);
    if blank.None? {
      return Malformed;
    }
    var range := ParseContentRange(decode, body[at..at + blank.value]);
    assert body[at..at + blank.value] == body[at..end][..blank.value];
    if range.None? {
      return Malformed;
    }
    var offset := at + blank.value + 4;
    assert body[offset..end] == body[at..end][blank.value + 4..];
    var part := Part(range.value, body[offset..end]);
    r := if next.None? then Last(part) else More(part, next.value + |Delimiter(b)|);
  }

  /** The parsing loop. */
  method ParseMultipartByteranges(decode: string -> Option<string>, contentType: string, body: string)
      returns (r: Option<seq<Part>>)
    ensures r == Parse(decode, contentType, body)
  {
    hide Find, Split, NextPart, SortByStart, Delimiter;
    var boundary := ExtractBoundary(contentType);
    if boundary.None? {
      return None;
    }
    var b := boundary.value;
    var start := Find(body, FirstDelimiter(b));
    if start.None? {
      return None;
    }
    var parts: seq<Part> := [];
    var at := start.value + |FirstDelimiter(b)|;
    ghost var all := ParseParts(decode, b, body[at..]);
    assert all.Some? ==> [] + all.value == all.value;
    while StartsWith(body[at..], CRLF)
      invariant at <= |body|
      invariant all == Prepend(parts, ParseParts(decode, b, body[at..]))
      decreases |body| - at
    {
      assert body[at + 2..] == body[at..][2..];
      var next := ReadPart(decode, b, body, at + 2);
      match next
      case Malformed => return None;
      case Last(part) => return Some(SortByStart(parts + [part]));
      case More(part, after) =>
        assert body[at + 2 + after..] == body[at + 2..][after..];
        PrependStep(parts, part, ParseParts(decode, b, body[at + 2 + after..]));
        parts := parts + [part];
        at := at + 2 + after;
    }
    assert parts + [] == parts;
    r := Some(SortByStart(parts));
  }

  lemma {:induction false} PrependStep(ps: seq<Part>, p: Part, r: Option<seq<Part>>)
    ensures Prepend(ps, Prepend([p], r)) == Prepend(ps + [p], r)
  {
    if r.Some? {
      assert ps + ([p] + r.value) == ps + [p] + r.value;
    }
  }

  // ---------------------------------------------------------------- printing

  /** A part to print: its range line between other header lines, and its bytes. */
  datatype Section = Section(before: seq<string>, range: HttpRange, total: string, after: seq<string>, data: string)

  predicate Ascii(s: string) {
    forall i :: 0 <= i < |s| ==> s[i] < '\U{80}'
  }

  predicate HeaderLine(b: string, line: string) {
    line != "" && Ascii(line) && Lacks(line, '\r') && !StartsWith(line, FirstDelimiter(b))
  }

  function Lines(s: Section): seq<string> {
    s.before + [PrintLine(s.range, s.total)] + s.after
  }

  /** Header lines are plain, no earlier line is a byte range, and the data, put after a line break,
  does not hold the delimiter. */
  predicate Printable(b: string, s: Section) {
    && (forall i :: 0 <= i < |Lines(s)| ==> HeaderLine(b, Lines(s)[i]))
    && (forall i :: 0 <= i < |s.before| ==> ParseLine(s.before[i]).Other?)
    && Find(CRLF + s.data, Delimiter(b)).None?
  }

  function PrintLines(lines: seq<string>, data: string): string
    decreases |lines|
  {
    if lines == [] then CRLF + data else lines[0] + CRLF + PrintLines(lines[1..], data)
  }

  function PrintSections(b: string, ss: seq<Section>): string
    decreases |ss|
  {
    if ss == [] then ""
    else CRLF + PrintLines(Lines(ss[0]), ss[0].data) + Delimiter(b) + PrintSections(b, ss[1..])
  }

  /** Text before the first delimiter: none, or lines that do not hold the delimiter. */
  predicate Preamble(b: string, s: string) {
    s == "" || (|s| >= 2 && s[|s| - 2..] == CRLF && Find(s, FirstDelimiter(b)).None?)
  }

  /** The body: a preamble, the sections between delimiters, then the closing delimiter and anything
  after it. */
  function Print(b: string, preamble: string, ss: seq<Section>, epilogue: string): string {
    preamble + (FirstDelimiter(b) + (PrintSections(b, ss) + "--" + epilogue))
  }

  function PartsOf(ss: seq<Section>): seq<Part>
    decreases |ss|
  {
    if ss == [] then [] else [Part(ss[0].range, ss[0].data)] + PartsOf(ss[1..])
  }

  // ---------------------------------------------------------------- the round trip

  /** A delimiter whose first character is not repeated inside is found right after text without it. */
  lemma {:induction false} FindDelimiter(text: string, d: string, rest: string)
    requires d != "" && Lacks(d[1..], d[0]) && Find(text, d).None?
    ensures Find(text + d + rest, d) == Some(|text|)
  {
    hide Find;
    var s := text + d + rest;
    forall j: nat | j < |text| ensures !Occurs(s, d, j) {
      if j + |d| <= |text| {
        assert s[j..j + |d|] == text[j..j + |d|];
        assert !Occurs(text, d, j);
      } else {
        var k := |text| - j;
        assert d[1..][k - 1] == d[k] && s[j + k] == d[0];
        NotHere(s, d, j, k);
      }
    }
    assert s[|text|..|text| + |d|] == d;
    FindIs(s, d, |text|);
  }

  /** Searching past a line that cannot hold the first character of the needle. */
  lemma {:induction false} SkipLine(line: string, rest: string, needle: string, j: nat)
    requires Lacks(line, '\r') && needle != "" && needle[0] == '\r'
    ensures j < |line| ==> !Occurs(line + CRLF + rest, needle, j)
    ensures !Occurs(line + CRLF + rest, needle, |line| + 1)
    ensures Occurs(line + CRLF + rest, needle, |line| + 2 + j) <==> Occurs(rest, needle, j)
  {
    var s := line + CRLF + rest;
    if j < |line| {
      NotHere(s, needle, j, 0);
    }
    NotHere(s, needle, |line| + 1, 0);
    if j + |needle| <= |rest| {
      assert s[|line| + 2 + j..|line| + 2 + j + |needle|] == rest[j..j + |needle|];
    }
  }

  /** What follows a header line neither is blank nor starts with the delimiter. */
  lemma {:induction false} NotAfterLine(b: string, line: string, lines: seq<string>, data: string)
    requires Token(b) && (forall i :: 0 <= i < |lines| ==> HeaderLine(b, lines[i]))
    ensures !Occurs(line + CRLF + PrintLines(lines, data), Delimiter(b), |line|)
    ensures lines != [] ==> !Occurs(line + CRLF + PrintLines(lines, data), BLANK, |line|)
  {
    hide Token, Occurs;
    var d, s := Delimiter(b), line + CRLF + PrintLines(lines, data);
    if lines == [] {
      NotHere(s, d, |line|, 2);
    } else {
      var l, p := lines[0], FirstDelimiter(b);
      assert s[|line| + 2] == l[0];
      NotHere(s, BLANK, |line|, 2);
      var k := Differs(l, p, b);
      assert s[|line| + 2 + k] == (l + CRLF)[k];
      NotHere(s, d, |line|, 2 + k);
    }
  }

  lemma {:induction false} Differs(l: string, p: string, b: string) returns (k: nat)
    requires Token(b) && p == FirstDelimiter(b) && HeaderLine(b, l)
    ensures k < |p| && k <= |l| && (l + CRLF)[k] != p[k]
  {
    hide Token;
    TokenLacks(b);
    if |l| < |p| {
      k := |l|;
    } else {
      assert l[..|p|] != p;
      k :| 0 <= k < |p| && l[k] != p[k];
    }
  }

  lemma {:induction false} NoDelimiterInside(b: string, lines: seq<string>, data: string, j: nat)
    requires Token(b) && (forall i :: 0 <= i < |lines| ==> HeaderLine(b, lines[i]))
    requires Find(CRLF + data, Delimiter(b)).None?
    ensures !Occurs(PrintLines(lines, data), Delimiter(b), j)
    decreases |lines|
  {
    hide Token, Occurs, HeaderLine, Find;
    if lines != [] {
      var l, rest := lines[0], PrintLines(lines[1..], data);
      LineLacks(b, l);
      if j > |l| + 1 {
        NoDelimiterInside(b, lines[1..], data, j - |l| - 2);
        SkipLine(l, rest, Delimiter(b), j - |l| - 2);
      } else {
        SkipLine(l, rest, Delimiter(b), j);
        NotAfterLine(b, l, lines[1..], data);
      }
    }
  }

  lemma {:induction false} LineLacks(b: string, l: string)
    requires HeaderLine(b, l)
    ensures Lacks(l, '\r') && l != "" && Ascii(l)
  {
  }

  lemma {:induction false} PrintLinesIs(lines: seq<string>, data: string)
    requires lines != []
    ensures PrintLines(lines, data) == Join(lines, CRLF) + BLANK + data
    decreases |lines|
  {
    if |lines| == 1 {
      assert lines[1..] == [];
      assert PrintLines(lines, data) == lines[0] + CRLF + (CRLF + data);
    } else {
      PrintLinesIs(lines[1..], data);
      var j := Join(lines[1..], CRLF);
      assert lines[0] + CRLF + (j + BLANK + data) == lines[0] + CRLF + j + BLANK + data;
    }
  }

  lemma {:induction false} NoBlankBefore(b: string, lines: seq<string>, data: string, j: nat)
    requires Token(b) && lines != [] && (forall i :: 0 <= i < |lines| ==> HeaderLine(b, lines[i]))
    requires j < |Join(lines, CRLF)|
    ensures !Occurs(PrintLines(lines, data), BLANK, j)
    decreases |lines|
  {
    hide Token, Occurs, HeaderLine;
    var l, rest := lines[0], PrintLines(lines[1..], data);
    LineLacks(b, l);
    if j > |l| + 1 {
      NoBlankBefore(b, lines[1..], data, j - |l| - 2);
      SkipLine(l, rest, BLANK, j - |l| - 2);
    } else {
      SkipLine(l, rest, BLANK, j);
      NotAfterLine(b, l, lines[1..], data);
    }
  }

  lemma {:induction false} JoinAscii(b: string, lines: seq<string>)
    requires lines != [] && (forall i :: 0 <= i < |lines| ==> HeaderLine(b, lines[i]))
    ensures Ascii(Join(lines, CRLF))
    decreases |lines|
  {
    hide HeaderLine;
    LineLacks(b, lines[0]);
    if |lines| > 1 {
      JoinAscii(b, lines[1..]);
    }
  }

  lemma {:induction false} FirstRangeAfter(before: seq<string>, line: string, after: seq<string>, r: HttpRange)
    requires ParseLine(line) == Range(r) && forall i :: 0 <= i < |before| ==> ParseLine(before[i]).Other?
    ensures FirstRange(before + [line] + after) == Some(r)
    decreases |before|
  {
    hide ParseLine;
    var all := before + [line] + after;
    if before != [] {
      assert all[1..] == before[1..] + [line] + after;
      FirstRangeAfter(before[1..], line, after, r);
    }
  }

  lemma {:induction false} HeadersRoundTrip(decode: string -> Option<string>, b: string, s: Section)
    requires DecodesAscii(decode) && Printable(b, s)
    ensures ParseContentRange(decode, Join(Lines(s), CRLF)) == Some(s.range)
  {
    hide HeaderLine, ParseLine, PrintLine, FirstRange, Split, Join;
    var lines := Lines(s);
    forall i | 0 <= i < |lines| ensures Lacks(lines[i], '\r') { LineLacks(b, lines[i]); }
    JoinAscii(b, lines);
    SplitJoin(lines, CRLF);
    LineRoundTrip(s.range, s.total);
    FirstRangeAfter(s.before, PrintLine(s.range, s.total), s.after, s.range);
  }

  lemma {:induction false} DelimiterShape(b: string)
    requires Token(b)
    ensures Delimiter(b)[0] == '\r' && Lacks(Delimiter(b)[1..], '\r')
  {
    hide Token;
    TokenLacks(b);
  }

  lemma {:induction false} FindNone(hay: string, needle: string)
    requires forall j: nat :: !Occurs(hay, needle, j)
    ensures Find(hay, needle).None?
  {
  }

  /** A printed section is read back whole. */
  lemma {:induction false} SectionRoundTrip(decode: string -> Option<string>, b: string, s: Section, rest: string)
    requires DecodesAscii(decode) && Token(b) && Printable(b, s)
    ensures var text := PrintLines(Lines(s), s.data);
            NextPart(decode, b, text + Delimiter(b) + rest)
            == More(Part(s.range, s.data), |text| + |Delimiter(b)|)
  {
    hide Token, Find, Occurs, HeaderLine, ParseContentRange, PrintLines, Delimiter, Join, Lines, DecodesAscii,
        ParseLine;
    var lines := Lines(s);
    LinesNotEmpty(s);
    var text, d := PrintLines(lines, s.data), Delimiter(b);
    DelimiterShape(b);
    forall j: nat ensures !Occurs(text, d, j) { NoDelimiterInside(b, lines, s.data, j); }
    FindNone(text, d);
    FindDelimiter(text, d, rest);
    var whole := text + d + rest;
    assert whole[..|text|] == text;
    PrintLinesIs(lines, s.data);
    var h := Join(lines, CRLF);
    forall j: nat | j < |h| ensures !Occurs(text, BLANK, j) { NoBlankBefore(b, lines, s.data, j); }
    OccursAfter(h, BLANK, s.data);
    FindIs(text, BLANK, |h|);
    assert text[..|h|] == h && text[|h| + 4..] == s.data;
    HeadersRoundTrip(decode, b, s);
  }

  lemma {:induction false} LinesNotEmpty(s: Section)
    ensures Lines(s) != []
  {
  }

  lemma {:induction false} OccursAfter(a: string, n: string, c: string)
    ensures Occurs(a + n + c, n, |a|)
  {
    assert (a + n + c)[|a|..|a| + |n|] == n;
  }

  lemma {:induction false} SectionsRoundTrip(decode: string -> Option<string>, b: string, ss: seq<Section>,
      epilogue: string)
    requires DecodesAscii(decode) && Token(b) && forall i :: 0 <= i < |ss| ==> Printable(b, ss[i])
    ensures ParseParts(decode, b, PrintSections(b, ss) + "--" + epilogue) == Some(PartsOf(ss))
    decreases |ss|
  {
    hide Token, Printable, NextPart, PrintLines, Lines, DecodesAscii, Delimiter;
    if ss == [] {
      var t := PrintSections(b, ss) + "--" + epilogue;
      assert t[0] == '-';
      NotHere(t, CRLF, 0, 0);
    } else {
      var text := PrintLines(Lines(ss[0]), ss[0].data);
      var rest := PrintSections(b, ss[1..]) + "--" + epilogue;
      SectionRoundTrip(decode, b, ss[0], rest);
      SectionsRoundTrip(decode, b, ss[1..], epilogue);
      SectionParts(text, Delimiter(b), PrintSections(b, ss[1..]), epilogue);
    }
  }

  lemma {:induction false} SectionParts(text: string, d: string, more: string, epilogue: string)
    ensures var t, rest := CRLF + text + d + more + "--" + epilogue, more + "--" + epilogue;
            StartsWith(t, CRLF) && t[2..] == text + d + rest && t[2..][|text| + |d|..] == rest
  {
    var t, rest := CRLF + text + d + more + "--" + epilogue, more + "--" + epilogue;
    assert t == CRLF + (text + d + rest);
    assert t[0..2] == CRLF;
  }

  /** A needle is found right behind text without it that ends in a character the needle lacks. */
  lemma {:induction false} FindBehind(p: string, d: string, rest: string, j: nat)
    requires p != "" && d != "" && Lacks(d, p[|p| - 1]) && Find(p, d).None? && j < |p|
    ensures !Occurs(p + (d + rest), d, j)
  {
    hide Find;
    var s := p + (d + rest);
    if j + |d| <= |p| {
      assert s[j..j + |d|] == p[j..j + |d|];
      assert !Occurs(p, d, j);
    } else {
      var k := |p| - 1 - j;
      assert s[j + k] == p[|p| - 1];
      NotHere(s, d, j, k);
    }
  }

  /** The first delimiter is found behind the preamble. */
  lemma {:induction false} SkipPreamble(b: string, preamble: string, rest: string)
    requires Token(b) && Preamble(b, preamble)
    ensures Find(preamble + (FirstDelimiter(b) + rest), FirstDelimiter(b)) == Some(|preamble|)
  {
    hide Token, Find, Occurs;
    TokenLacks(b);
    var d := FirstDelimiter(b);
    if preamble != "" {
      assert preamble[|preamble| - 2..][1] == preamble[|preamble| - 1];
      forall j: nat | j < |preamble| ensures !Occurs(preamble + (d + rest), d, j) {
        FindBehind(preamble, d, rest, j);
      }
    }
    OccursAfter(preamble, d, rest);
    assert preamble + d + rest == preamble + (d + rest);
    FindIs(preamble + (d + rest), d, |preamble|);
  }

  /** Printing a body and parsing it gives back the ranges and data, stably sorted by start. */
  lemma {:induction false} ParseUndoesPrintBody(decode: string -> Option<string>, media: string, b: string,
      quoted: bool, preamble: string, ss: seq<Section>, epilogue: string)
    requires DecodesAscii(decode) && MediaType(media) && Token(b) && Preamble(b, preamble)
    requires forall i :: 0 <= i < |ss| ==> Printable(b, ss[i])
    ensures Parse(decode, media + "; boundary=" + (if quoted then "\"" + b + "\"" else b),
                  Print(b, preamble, ss, epilogue))
         == Some(SortByStart(PartsOf(ss)))
  {
    hide Token, Printable, PrintSections, DecodesAscii, ExtractBoundary, ParseParts, SortByStart, MediaType, Find,
        Preamble;
    BoundaryRoundTrip(media, b, quoted);
    var first, rest := FirstDelimiter(b), PrintSections(b, ss) + "--" + epilogue;
    var body := Print(b, preamble, ss, epilogue);
    SkipPreamble(b, preamble, rest);
    assert body[|preamble| + |first|..] == rest;
    SectionsRoundTrip(decode, b, ss, epilogue);
  }
}
