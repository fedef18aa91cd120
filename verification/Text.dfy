/** Searching, splitting and trimming text, as the header parsers do it. */
module Text {
  import opened HashText
  import opened Digits
  import opened Wrappers

  predicate Occurs(hay: string, needle: string, i: nat) {
    i + |needle| <= |hay| && hay[i..i + |needle|] == needle
  }

  predicate StartsWith(s: string, prefix: string) {
    Occurs(s, prefix, 0)
  }

  /** The first position at or after `from` where the needle occurs. */
  function FindFrom(hay: string, needle: string, from: nat): (r: Option<nat>)
    requires from <= |hay|
    ensures r.Some? ==> from <= r.value && Occurs(hay, needle, r.value)
    ensures forall i: nat :: from <= i && Occurs(hay, needle, i) ==> r.Some? && r.value <= i
    decreases |hay| - from
  {
    if Occurs(hay, needle, from) then Some(from)
    else if from == |hay| then None
    else FindFrom(hay, needle, from + 1)
  }

  function Find(hay: string, needle: string): (r: Option<nat>)
    ensures r.Some? ==> Occurs(hay, needle, r.value)
    ensures forall i: nat :: Occurs(hay, needle, i) ==> r.Some? && r.value <= i
  {
    FindFrom(hay, needle, 0)
  }

  /** One character in the way is enough. */
  lemma {:induction false} NotHere(hay: string, needle: string, i: nat, k: nat)
    requires k < |needle| && (i + k >= |hay| || hay[i + k] != needle[k])
    ensures !Occurs(hay, needle, i)
  {
    if i + |needle| <= |hay| {
      assert hay[i + k] == hay[i..i + |needle|][k];
    }
  }

  lemma {:induction false} FindIs(hay: string, needle: string, i: nat)
    requires Occurs(hay, needle, i) && forall j: nat :: j < i ==> !Occurs(hay, needle, j)
    ensures Find(hay, needle) == Some(i)
  {
  }

  /** The pieces between separators. */
  function Split(s: string, sep: string): (r: seq<string>)
    requires sep != ""
    ensures r != []
    decreases |s|
  {
    var i := Find(s, sep);
    if i.None? then [s] else [s[..i.value]] + Split(s[i.value + |sep|..], sep)
  }

  function Join(parts: seq<string>, sep: string): string
    requires parts != []
    decreases |parts|
  {
    if |parts| == 1 then parts[0] else parts[0] + sep + Join(parts[1..], sep)
  }

  predicate Lacks(s: string, c: char) {
    forall i :: 0 <= i < |s| ==> s[i] != c
  }

  predicate AllLack(parts: seq<string>, c: char) {
    forall i :: 0 <= i < |parts| ==> Lacks(parts[i], c)
  }

  /** A separator is found right after text that lacks its first character. */
  lemma {:induction false} FindAfter(a: string, sep: string, rest: string)
    requires sep != "" && Lacks(a, sep[0])
    ensures Find(a + sep + rest, sep) == Some(|a|)
  {
    var s := a + sep + rest;
    forall j: nat | j < |a| ensures !Occurs(s, sep, j) {
      NotHere(s, sep, j, 0);
    }
    assert s[|a|..|a| + |sep|] == sep;
    FindIs(s, sep, |a|);
  }

  lemma {:induction false} FindNowhere(a: string, sep: string)
    requires sep != "" && Lacks(a, sep[0])
    ensures Find(a, sep) == None
  {
    forall j: nat ensures !Occurs(a, sep, j) {
      NotHere(a, sep, j, 0);
    }
  }

  /** Splitting undoes joining when no part holds the separator's first character. */
  lemma {:induction false} SplitJoin(parts: seq<string>, sep: string)
    requires parts != [] && sep != "" && AllLack(parts, sep[0])
    ensures Split(Join(parts, sep), sep) == parts
    decreases |parts|
  {
    hide Find, Occurs, Lacks;
    if |parts| == 1 {
      FindNowhere(parts[0], sep);
    } else {
      var rest := Join(parts[1..], sep);
      var s := parts[0] + sep + rest;
      FindAfter(parts[0], sep, rest);
      assert s[..|parts[0]|] == parts[0] && s[|parts[0]| + |sep|..] == rest;
      SplitJoin(parts[1..], sep);
    }
  }

  // ---------------------------------------------------------------- trimming

  /** The characters with Unicode property White_Space. */
  predicate IsSpace(c: char) {
    || '\t' <= c <= '\r' || c == ' ' || c == '\U{85}' || c == '\U{A0}' || c == '\U{1680}'
    || '\U{2000}' <= c <= '\U{200A}' || c == '\U{2028}' || c == '\U{2029}' || c == '\U{202F}'
    || c == '\U{205F}' || c == '\U{3000}'
  }

  function TrimLeft(s: string): string
    decreases |s|
  {
    if s != "" && IsSpace(s[0]) then TrimLeft(s[1..]) else s
  }

  function TrimRight(s: string): string
    decreases |s|
  {
    if s != "" && IsSpace(s[|s| - 1]) then TrimRight(s[..|s| - 1]) else s
  }

  function Trim(s: string): string {
    TrimRight(TrimLeft(s))
  }

  /** Trimming on the right keeps everything up to any character that is not a space. */
  lemma {:induction false} TrimRightKeeps(s: string, k: nat)
    requires k < |s| && !IsSpace(s[k])
    ensures k < |TrimRight(s)| <= |s| && TrimRight(s) == s[..|TrimRight(s)|]
    decreases |s|
  {
    if IsSpace(s[|s| - 1]) {
      TrimRightKeeps(s[..|s| - 1], k);
    }
  }

  /** Text that starts and ends with non-spaces is its own trim, behind any spaces. */
  lemma {:induction false} TrimKeeps(s: string, k: nat)
    requires k < |s| && !IsSpace(s[0]) && !IsSpace(s[k])
    ensures k < |Trim(s)| <= |s| && Trim(s) == s[..|Trim(s)|]
    ensures Trim(" " + s) == Trim(s)
  {
    TrimRightKeeps(s, k);
    assert (" " + s)[1..] == s;
  }

  /** Removes every leading and trailing `c`. */
  function TrimMatches(s: string, c: char): string
    decreases |s|
  {
    if s != "" && s[0] == c then TrimMatches(s[1..], c)
    else if s != "" && s[|s| - 1] == c then TrimMatches(s[..|s| - 1], c)
    else s
  }

  // ---------------------------------------------------------------- decimal numbers

  predicate IsDigit(c: char) {
    '0' <= c <= '9'
  }

  predicate AllDigits(s: string) {
    forall i :: 0 <= i < |s| ==> IsDigit(s[i])
  }

  function DigitsOf(s: string): (ds: seq<nat>)
    requires AllDigits(s)
    ensures |ds| == |s|
  {
    seq(|s|, i requires 0 <= i < |s| => (s[i] as int - '0' as int))
  }

  /** The shortest decimal text of a number. */
  function PrintDec(n: nat): (s: string)
    ensures s != "" && AllDigits(s)
  {
    if n < 10 then [(n + '0' as int) as char]
    else PrintDec(n / 10) + [(n % 10 + '0' as int) as char]
  }

  /** Reads an unsigned 64-bit number: an optional plus sign, then digits only. */
  function ParseU64(s: string): (r: Option<u64>) {
    var ds := if s != "" && s[0] == '+' then s[1..] else s;
    if ds == "" || !AllDigits(ds) || Value(Decimal, DigitsOf(ds)) >= TWO_64 then None
    else Some(Value(Decimal, DigitsOf(ds)))
  }

  /** Exactly the digit strings whose value fits are numbers, with or without a plus sign. */
  lemma {:induction false} ParseU64Is(s: string, v: u64)
    ensures ParseU64(s) == Some(v) <==>
              exists ds: string ::
                && (s == ds || s == "+" + ds) && ds != "" && AllDigits(ds)
                && Value(Decimal, DigitsOf(ds)) == v
  {
    hide Value;
    var rest := if s != "" && s[0] == '+' then s[1..] else s;
    if ParseU64(s) == Some(v) {
      assert s == rest || s == "+" + rest;
    }
    if ds: string :| (s == ds || s == "+" + ds) && ds != "" && AllDigits(ds) && Value(Decimal, DigitsOf(ds)) == v {
      assert IsDigit(ds[0]);
      assert s == "+" + ds ==> s[1..] == ds;
      assert rest == ds;
    }
  }

  lemma {:induction false} ValueOfPrint(n: nat)
    ensures Value(Decimal, DigitsOf(PrintDec(n))) == n
  {
    if n < 10 {
      assert DigitsOf(PrintDec(n)) == [n];
    } else {
      ValueOfPrint(n / 10);
      assert DigitsOf(PrintDec(n)) == DigitsOf(PrintDec(n / 10)) + [n % 10];
    }
  }

  lemma {:induction false} ParseUndoesPrint(n: u64)
    ensures ParseU64(PrintDec(n)) == Some(n)
  {
    ValueOfPrint(n);
    assert IsDigit(PrintDec(n)[0]);
  }
}
