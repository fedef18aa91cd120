/** The two headers a multipart/byteranges response is read by: the boundary in Content-Type and
the Content-Range of each part (section 4.1 and Appendix A of RFC 7233). Bodies are sequences of
byte-valued characters; `decode` stands for reading bytes as UTF-8. */
module ContentRange {
  import opened HashText
  import opened Text
  import opened Wrappers

  const CRLF := "\r\n"

  // ---------------------------------------------------------------- the boundary

  function BoundaryIn(parts: seq<string>): (r: Option<string>)
    decreases |parts|
  {
    if parts == [] then None
    else
      var part := Trim(parts[0]);
      if StartsWith(part, "boundary=") then Some(TrimMatches(part[9..], '"'))
      else BoundaryIn(parts[1..])
  }

  function ExtractBoundary(contentType: string): (r: Option<string>) {
    BoundaryIn(Split(contentType, ";"))
  }

  /** The first parameter that starts with the name gives the boundary, and there is none without one. */
  lemma {:induction false} BoundaryIs(parts: seq<string>)
    ensures BoundaryIn(parts).None? <==> forall i :: 0 <= i < |parts| ==> !StartsWith(Trim(parts[i]), "boundary=")
    ensures forall i :: 0 <= i < |parts| && StartsWith(Trim(parts[i]), "boundary=")
              && (forall j :: 0 <= j < i ==> !StartsWith(Trim(parts[j]), "boundary="))
              ==> BoundaryIn(parts) == Some(TrimMatches(Trim(parts[i])[9..], '"'))
    decreases |parts|
  {
    hide Trim, TrimMatches, StartsWith;
    if parts != [] {
      var rest := parts[1..];
      BoundaryIs(rest);
      assert forall i :: 0 <= i < |rest| ==> rest[i] == parts[i + 1];
    }
  }

  /** Characters of a token, section 3.2.6 of RFC 7230. */
  predicate TokenChar(c: char) {
    '!' <= c <= '~' && c !in "\"(),/:;<=>?@[\\]{}"
  }

  predicate Token(b: string) {
    b != "" && forall i :: 0 <= i < |b| ==> TokenChar(b[i])
  }

  /** A media type without parameters. */
  predicate MediaType(m: string) {
    Lacks(m, ';') && !StartsWith(Trim(m), "boundary=")
  }

  lemma {:induction false} TokenLacks(b: string)
    requires Token(b)
    ensures b != "" && Lacks(b, ';') && Lacks(b, '"') && Lacks(b, '\r') && Lacks(b, '\n')
    ensures !IsSpace(b[0]) && !IsSpace(b[|b| - 1])
  {
  }

  lemma {:induction false} TrimWhole(s: string)
    requires s != "" && !IsSpace(s[0]) && !IsSpace(s[|s| - 1])
    ensures Trim(" " + s) == s
  {
    TrimKeeps(s, |s| - 1);
  }

  lemma {:induction false} Unquote(b: string)
    requires Lacks(b, '"')
    ensures TrimMatches(b, '"') == b && TrimMatches("\"" + b + "\"", '"') == b
  {
    var q := "\"" + b + "\"";
    var r := b + "\"";
    assert q[1..] == r;
    assert r[..|r| - 1] == b;
    assert b == "" ==> TrimMatches(r[1..], '"') == b;
    assert TrimMatches(r, '"') == b;
  }

  lemma {:induction false} SplitParameter(media: string, p: string)
    requires Lacks(media, ';') && Lacks(p, ';')
    ensures Split(media + "; " + p, ";") == [media, " " + p]
  {
    var last := " " + p;
    var ct := media + "; " + p;
    assert ct == media + ";" + last;
    FindAfter(media, ";", last);
    FindNowhere(last, ";");
    assert ct[..|media|] == media && ct[|media| + 1..] == last;
    assert Split(last, ";") == [last];
  }

  /** The boundary comes back, quoted or not. */
  lemma {:induction false} BoundaryRoundTrip(media: string, b: string, quoted: bool)
    requires MediaType(media) && Token(b)
    ensures ExtractBoundary(media + "; boundary=" + (if quoted then "\"" + b + "\"" else b)) == Some(b)
  {
    hide Trim, Token, TrimMatches, IsSpace, Split, BoundaryIn;
    TokenLacks(b);
    NotSpaces();
    var v := if quoted then "\"" + b + "\"" else b;
    var p := "boundary=" + v;
    assert media + "; boundary=" + v == media + "; " + p;
    assert p[0] == 'b' && p[|p| - 1] == if quoted then '"' else b[|b| - 1];
    SplitParameter(media, p);
    TrimWhole(p);
    assert p[..9] == "boundary=" && p[9..] == v;
    Unquote(b);
    BoundaryInTwo(media, " " + p);
  }

  lemma {:induction false} BoundaryInTwo(media: string, last: string)
    requires !StartsWith(Trim(media), "boundary=") && StartsWith(Trim(last), "boundary=")
    ensures BoundaryIn([media, last]) == Some(TrimMatches(Trim(last)[9..], '"'))
  {
    hide Trim, TrimMatches;
    assert [media, last][1..] == [last];
  }

  lemma {:induction false} NotSpaces()
    ensures !IsSpace('b') && !IsSpace('"') && !IsSpace('/') && !IsSpace('0')
    ensures forall c :: IsDigit(c) ==> !IsSpace(c)
    ensures IsSpace(' ')
  {
  }

  // ---------------------------------------------------------------- the range of a part

  datatype HttpRange = HttpRange(start: u64, end: u64)

  /** What one header line says about the range. */
  datatype Line = Other | Invalid | Range(range: HttpRange)

  const RANGE_NAME := "content-range:"
  const BYTES_UNIT := "bytes "

  function ParseSpec(spec: string): (r: Line) {
    var slash := Find(spec, "/");
    if slash.None? then Invalid
    else
      var range := spec[..slash.value];
      var dash := Find(range, "-");
      if dash.None? then Invalid
      else
        var start, end := ParseU64(range[..dash.value]), ParseU64(range[dash.value + 1..]);
        if start.None? || end.None? then Invalid else Range(HttpRange(start.value, end.value))
  }

  function ParseLine(line: string): (r: Line) {
    var lower := Lower(line);
    if !StartsWith(lower, RANGE_NAME) then Other
    else
      var value := Trim(lower[|RANGE_NAME|..]);
      if !StartsWith(value, BYTES_UNIT) then Other else ParseSpec(Trim(value[|BYTES_UNIT|..]))
  }

  function FirstRange(lines: seq<string>): (r: Option<HttpRange>)
    decreases |lines|
  {
    if lines == [] then None
    else
      match ParseLine(lines[0])
      case Other => FirstRange(lines[1..])
      case Invalid => None
      case Range(range) => Some(range)
  }

  function ParseContentRange(decode: string -> Option<string>, headers: string): (r: Option<HttpRange>) {
    var text := decode(headers);
    if text.None? then None else FirstRange(Split(text.value, CRLF))
  }

  /** A range is read exactly from two numbers with a dash between them and a slash behind. */
  lemma {:induction false} SpecIs(spec: string, r: HttpRange)
    ensures ParseSpec(spec) == Range(r) <==>
              exists x: string, y: string, z: string ::
                && spec == x + "-" + y + "/" + z && Lacks(x, '-') && Lacks(x, '/') && Lacks(y, '/')
                && ParseU64(x) == Some(r.start) && ParseU64(y) == Some(r.end)
  {
    hide ParseU64, Find;
    if ParseSpec(spec) == Range(r) {
      var slash := Find(spec, "/").value;
      var range := spec[..slash];
      var dash := Find(range, "-").value;
      var x, y, z := range[..dash], range[dash + 1..], spec[slash + 1..];
      FirstLacks(spec, '/', slash); FirstLacks(range, '-', dash);
      assert spec == range + "/" + z && range == x + "-" + y;
    }
    if x: string, y: string, z: string :|
      && spec == x + "-" + y + "/" + z && Lacks(x, '-') && Lacks(x, '/') && Lacks(y, '/')
      && ParseU64(x) == Some(r.start) && ParseU64(y) == Some(r.end)
    {
      FindAfter(x + "-" + y, "/", z);
      assert spec[..|x + "-" + y|] == x + "-" + y;
      FindAfter(x, "-", y);
      assert (x + "-" + y)[..|x|] == x && (x + "-" + y)[|x| + 1..] == y;
    }
  }

  lemma {:induction false} FirstLacks(s: string, c: char, i: nat)
    requires Find(s, [c]) == Some(i)
    ensures i < |s| && s[i] == c && Lacks(s[..i], c)
  {
    forall j | 0 <= j < i ensures s[j] != c {
      if s[j] == c {
        assert Occurs(s, [c], j);
      }
    }
  }

  /** The headers give the range of their first byte-range line, if that is valid; lines before it do not
  matter, and an invalid one is not passed over. */
  lemma {:induction false} FirstRangeIs(lines: seq<string>, r: HttpRange)
    ensures FirstRange(lines) == Some(r) <==>
              exists i :: 0 <= i < |lines| && ParseLine(lines[i]) == Range(r) && OthersBefore(lines, i)
    decreases |lines|
  {
    hide ParseLine;
    if lines != [] {
      var rest := lines[1..];
      FirstRangeIs(rest, r);
      if i :| 0 <= i < |lines| && ParseLine(lines[i]) == Range(r) && OthersBefore(lines, i) {
        if i > 0 {
          assert rest[i - 1] == lines[i] && OthersBefore(rest, i - 1);
        }
      }
      if ParseLine(lines[0]).Other? && FirstRange(rest) == Some(r) {
        var i :| 0 <= i < |rest| && ParseLine(rest[i]) == Range(r) && OthersBefore(rest, i);
        assert lines[i + 1] == rest[i] && OthersBefore(lines, i + 1);
      }
      if ParseLine(lines[0]) == Range(r) {
        assert OthersBefore(lines, 0);
      }
    }
  }

  predicate OthersBefore(lines: seq<string>, i: nat)
    requires i <= |lines|
  {
    forall j :: 0 <= j < i ==> ParseLine(lines[j]).Other?
  }

  // ---------------------------------------------------------------- its round trip

  function PrintSpec(r: HttpRange): string {
    PrintDec(r.start) + "-" + PrintDec(r.end)
  }

  /** A Content-Range line; `total` is the part after the slash, a length or a star. */
  function PrintLine(r: HttpRange, total: string): string {
    "Content-Range: bytes " + PrintSpec(r) + "/" + total
  }

  lemma {:induction false} SpecRoundTrip(r: HttpRange, tail: string)
    ensures ParseSpec(PrintSpec(r) + "/" + tail) == Range(r)
  {
    hide ParseU64, PrintDec, IsDigit;
    var a, b := PrintDec(r.start), PrintDec(r.end);
    DigitsLack(a); DigitsLack(b);
    var spec := PrintSpec(r);
    FindAfter(spec, "/", tail);
    var s := spec + "/" + tail;
    assert s[..|spec|] == spec;
    FindAfter(a, "-", b);
    assert spec[..|a|] == a && spec[|a| + 1..] == b;
    ParseUndoesPrint(r.start); ParseUndoesPrint(r.end);
  }

  lemma {:induction false} DigitsLack(s: string)
    requires AllDigits(s)
    ensures Lacks(s, '/') && Lacks(s, '-') && Lacks(s, '\r') && Lower(s) == s
  {
  }

  lemma {:induction false} LowerAppend(a: string, b: string)
    ensures Lower(a + b) == Lower(a) + Lower(b)
  {
  }

  lemma {:induction false} LowerOfLine(r: HttpRange, total: string)
    ensures Lower(PrintLine(r, total)) == RANGE_NAME + (" " + (BYTES_UNIT + (PrintSpec(r) + ("/" + Lower(total)))))
  {
    hide PrintDec, Lower, IsDigit;
    var a, b := PrintDec(r.start), PrintDec(r.end);
    DigitsLack(a); DigitsLack(b);
    LowerAppend(a, "-"); LowerAppend(a + "-", b);
    LowerWords();
    var spec := PrintSpec(r);
    LowerAppend("Content-Range: bytes ", spec);
    LowerAppend("Content-Range: bytes " + spec, "/");
    LowerAppend("Content-Range: bytes " + spec + "/", total);
  }

  lemma {:induction false} LowerWords()
    ensures Lower("Content-Range: bytes ") == RANGE_NAME + " " + BYTES_UNIT && Lower("-") == "-" && Lower("/") == "/"
  {
    var s, r := "Content-Range: bytes ", RANGE_NAME + " " + BYTES_UNIT;
    assert forall i :: 0 <= i < |s| ==> ToLower(s[i]) == r[i];
  }

  /** The printed line is read back, whatever follows the slash. */
  lemma {:induction false} LineRoundTrip(r: HttpRange, total: string)
    ensures ParseLine(PrintLine(r, total)) == Range(r)
  {
    hide PrintDec, Lower, Trim, IsSpace, ParseSpec, PrintLine, IsDigit;
    NotSpaces();
    LowerOfLine(r, total);
    var spec := PrintSpec(r);
    assert IsDigit(spec[0]);
    var tail := "/" + Lower(total);
    var body := spec + tail;
    var value := BYTES_UNIT + body;
    var lower := RANGE_NAME + (" " + value);
    assert lower[|RANGE_NAME|..] == " " + value;
    assert lower[..|RANGE_NAME|] == RANGE_NAME;
    var k := |BYTES_UNIT| + |spec|;
    assert value[0] == 'b' && value[k] == '/';
    TrimKeeps(value, k);
    var n := |Trim(value)|;
    assert Trim(" " + value) == value[..n];
    assert value[..n][..|BYTES_UNIT|] == BYTES_UNIT;
    var body' := value[..n][|BYTES_UNIT|..];
    assert body' == body[..n - |BYTES_UNIT|];
    assert body'[0] == spec[0] && body'[|spec|] == '/';
    TrimKeeps(body', |spec|);
    var m := |Trim(body')|;
    assert Trim(body') == body'[..m] == body[..m];
    assert body[..m] == spec + "/" + body[|spec| + 1..m];
    SpecRoundTrip(r, body[|spec| + 1..m]);
  }

  /** ASCII text reads as itself. */
  ghost predicate DecodesAscii(decode: string -> Option<string>) {
    forall s :: (forall i :: 0 <= i < |s| ==> s[i] < '\U{80}') ==> decode(s) == Some(s)
  }
}
