/** The 256-bit hash, its hexadecimal text form, and the `prefix/hash` text form of a key. */
module HashText {
  import opened Digits
  import opened Wrappers

  const TWO_64 := 0x1_0000_0000_0000_0000
  type u64 = n: nat | n < TWO_64
  type byte = n: nat | n < 256

  /** Four words as they sit in memory. */
  datatype DataHash = DataHash(w0: u64, w1: u64, w2: u64, w3: u64)

  /** The byte order of the machine; `to_le` is the identity on one and a swap on the other. */
  datatype Host = LittleEndian | BigEndian

  lemma {:induction false} WordSizes()
    ensures Pow(Hex, 16) == TWO_64 && Pow(Byte, 8) == TWO_64
  {
    assert Pow(Hex, 4) == 0x1_0000;
    assert Pow(Hex, 8) == 0x1_0000_0000;
    assert Pow(Hex, 12) == 0x1_0000_0000_0000;
    assert Pow(Byte, 4) == 0x1_0000_0000;
  }

  function SwapBytes(w: u64): (r: u64) {
    var swapped := Reverse(Expand(Byte, w, 8));
    WordSizes(); ValueBound(Byte, swapped);
    Value(Byte, swapped)
  }

  lemma {:induction false} SwapBytesTwice(w: u64)
    ensures SwapBytes(SwapBytes(w)) == w
  {
    WordSizes();
    var ds := Expand(Byte, w, 8);
    ExpandOfValue(Byte, Reverse(ds));
    assert Reverse(Reverse(ds)) == ds;
    ValueOfExpand(Byte, w, 8);
  }

  function ToLe(host: Host, w: u64): (r: u64) {
    if host.BigEndian? then SwapBytes(w) else w
  }

  lemma {:induction false} ToLeTwice(host: Host, w: u64)
    ensures ToLe(host, ToLe(host, w)) == w
  {
    SwapBytesTwice(w);
  }

  // ---------------------------------------------------------------- hex digits

  const HEX_DIGITS: string := "0123456789abcdef"

  function DigitChar(d: nat): (c: char)
    requires d < 16
  {
    HEX_DIGITS[d]
  }

  predicate IsHexDigit(c: char) {
    '0' <= c <= '9' || 'a' <= c <= 'f' || 'A' <= c <= 'F'
  }

  function DigitValue(c: char): (d: nat)
    requires IsHexDigit(c)
    ensures d < 16
  {
    if '0' <= c <= '9' then (c - '0') as nat
    else if 'a' <= c <= 'f' then 10 + (c - 'a') as nat
    else 10 + (c - 'A') as nat
  }

  function ToLower(c: char): char {
    if 'A' <= c <= 'Z' then c - 'A' + 'a' else c
  }

  function Lower(s: string): (r: string)
    ensures |r| == |s|
    ensures forall i :: 0 <= i < |s| ==> r[i] == ToLower(s[i])
  {
    seq(|s|, i requires 0 <= i < |s| => ToLower(s[i]))
  }

  lemma {:induction false} DigitOfChar(d: nat)
    requires d < 16
    ensures IsHexDigit(DigitChar(d)) && DigitValue(DigitChar(d)) == d
  {
  }

  lemma {:induction false} CharOfDigit(c: char)
    requires IsHexDigit(c)
    ensures DigitChar(DigitValue(c)) == ToLower(c)
  {
  }

  predicate AllHex(s: string) {
    forall i :: 0 <= i < |s| ==> IsHexDigit(s[i])
  }

  function Chars(ds: seq<nat>): (s: string)
    requires AllBelow(Hex, ds)
    ensures |s| == |ds|
    ensures forall i :: 0 <= i < |ds| ==> s[i] == DigitChar(ds[i])
  {
    seq(|ds|, i requires 0 <= i < |ds| => DigitChar(ds[i]))
  }

  function Vals(s: string): (ds: seq<nat>)
    requires AllHex(s)
    ensures |ds| == |s| && AllBelow(Hex, ds)
    ensures forall i :: 0 <= i < |s| ==> ds[i] == DigitValue(s[i])
  {
    seq(|s|, i requires 0 <= i < |s| => DigitValue(s[i]))
  }

  lemma {:induction false} ValsOfChars(ds: seq<nat>)
    requires AllBelow(Hex, ds)
    ensures AllHex(Chars(ds)) && Vals(Chars(ds)) == ds
  {
    forall i | 0 <= i < |ds| ensures IsHexDigit(Chars(ds)[i]) && DigitValue(Chars(ds)[i]) == ds[i] {
      DigitOfChar(ds[i]);
    }
  }

  lemma {:induction false} CharsOfVals(s: string)
    requires AllHex(s)
    ensures Chars(Vals(s)) == Lower(s)
  {
    forall i | 0 <= i < |s| ensures Chars(Vals(s))[i] == Lower(s)[i] {
      CharOfDigit(s[i]);
    }
  }

  // ---------------------------------------------------------------- one word

  /** `{:016x}` of one stored word. */
  function WordHex(host: Host, w: u64): (s: string)
    ensures |s| == 16
  {
    Chars(Expand(Hex, ToLe(host, w), 16))
  }

  /** `u64::from_str_radix(_, 16)` followed by `to_le`; sixteen digits always fit. */
  function ParseWord(host: Host, s: string): (w: u64)
    requires |s| == 16 && AllHex(s)
  {
    WordSizes(); ValueBound(Hex, Vals(s));
    ToLe(host, Value(Hex, Vals(s)))
  }

  lemma {:induction false} ParseWordOfHex(host: Host, w: u64)
    ensures AllHex(WordHex(host, w)) && ParseWord(host, WordHex(host, w)) == w
  {
    var v := ToLe(host, w);
    WordSizes();
    ValsOfChars(Expand(Hex, v, 16));
    ValueOfExpand(Hex, v, 16);
    ToLeTwice(host, w);
  }

  lemma {:induction false} WordHexOfParse(host: Host, s: string)
    requires |s| == 16 && AllHex(s)
    ensures WordHex(host, ParseWord(host, s)) == Lower(s)
  {
    WordSizes(); ValueBound(Hex, Vals(s));
    ToLeTwice(host, Value(Hex, Vals(s)));
    ExpandOfValue(Hex, Vals(s));
    CharsOfVals(s);
  }

  // ---------------------------------------------------------------- the hash

  function ToHex(host: Host, h: DataHash): (s: string)
    ensures |s| == 64
  {
    WordHex(host, h.w0) + WordHex(host, h.w1) + WordHex(host, h.w2) + WordHex(host, h.w3)
  }

  function FromHex(host: Host, s: string): (r: Option<DataHash>) {
    if |s| != 64 || !AllHex(s) then None
    else Some(DataHash(ParseWord(host, s[..16]), ParseWord(host, s[16..32]),
                       ParseWord(host, s[32..48]), ParseWord(host, s[48..64])))
  }

  lemma {:induction false} HexAppend(a: string, b: string)
    requires AllHex(a) && AllHex(b)
    ensures AllHex(a + b)
  {
  }

  lemma {:induction false} ToHexIsHex(host: Host, h: DataHash)
    ensures AllHex(ToHex(host, h))
  {
    hide WordHex, ParseWord, AllHex;
    ParseWordOfHex(host, h.w0); ParseWordOfHex(host, h.w1);
    ParseWordOfHex(host, h.w2); ParseWordOfHex(host, h.w3);
    HexAppend(WordHex(host, h.w0), WordHex(host, h.w1));
    HexAppend(WordHex(host, h.w0) + WordHex(host, h.w1), WordHex(host, h.w2));
    HexAppend(WordHex(host, h.w0) + WordHex(host, h.w1) + WordHex(host, h.w2), WordHex(host, h.w3));
  }

  /** Parsing undoes printing, on either byte order. */
  lemma {:induction false} FromHexUndoesToHex(host: Host, h: DataHash)
    ensures FromHex(host, ToHex(host, h)) == Some(h)
  {
    hide WordHex, ParseWord;
    var s := ToHex(host, h);
    assert s[..16] == WordHex(host, h.w0) && s[16..32] == WordHex(host, h.w1);
    assert s[32..48] == WordHex(host, h.w2) && s[48..64] == WordHex(host, h.w3);
    ParseWordOfHex(host, h.w0); ParseWordOfHex(host, h.w1);
    ParseWordOfHex(host, h.w2); ParseWordOfHex(host, h.w3);
    ToHexIsHex(host, h);
  }

  /** Exactly the 64-digit strings parse, and printing the result restores the text in lower case. */
  lemma {:induction false} ToHexUndoesFromHex(host: Host, s: string)
    ensures FromHex(host, s).Some? <==> |s| == 64 && AllHex(s)
    ensures FromHex(host, s).Some? ==> ToHex(host, FromHex(host, s).value) == Lower(s)
  {
    hide WordHex, ParseWord;
    if |s| == 64 && AllHex(s) {
      WordHexOfParse(host, s[..16]); WordHexOfParse(host, s[16..32]);
      WordHexOfParse(host, s[32..48]); WordHexOfParse(host, s[48..64]);
      assert Lower(s) == Lower(s[..16]) + Lower(s[16..32]) + Lower(s[32..48]) + Lower(s[48..64]);
    }
  }

  // ---------------------------------------------------------------- from bytes

  /** Two hex digits per byte, in order: what the canonical text of a byte string is. */
  function BytesHex(bytes: seq<byte>): (s: string)
    ensures |s| == 2 * |bytes|
  {
    if bytes == [] then ""
    else BytesHex(bytes[..|bytes| - 1]) + Chars(Expand(Hex, bytes[|bytes| - 1], 2))
  }

  lemma {:induction false} BytesUnfold(bytes: seq<byte>)
    ensures bytes == [] ==> BytesHex(bytes) == Chars(Expand(Hex, Value(Byte, bytes), 0)) == ""
    ensures bytes != [] ==>
              var init, d := bytes[..|bytes| - 1], bytes[|bytes| - 1];
              && BytesHex(bytes) == BytesHex(init) + Chars(Expand(Hex, d, 2))
              && Value(Byte, bytes) == 256 * Value(Byte, init) + d
  {
    hide Expand, Chars;
  }

  lemma {:induction false} BytesHexAppend(a: seq<byte>, b: seq<byte>)
    ensures BytesHex(a + b) == BytesHex(a) + BytesHex(b)
  {
    hide *;
    BytesUnfold(b); BytesUnfold(a + b);
    if b == [] {
      assert a + b == a;
    } else {
      var c := b[..|b| - 1];
      assert (a + b)[..|a + b| - 1] == a + c;
      BytesHexAppend(a, c);
    }
  }

  /** One byte is two hex digits. */
  lemma {:induction false} ByteIsTwoDigits(v: nat, d: byte, n: nat)
    ensures Expand(Hex, 256 * v + d, n + 2) == Expand(Hex, v, n) + Expand(Hex, d, 2)
  {
    var m := 256 * v + d;
    assert m / 16 / 16 == v && m / 16 % 16 == d / 16 && m % 16 == d % 16;
    assert Expand(Hex, m, n + 2) == Expand(Hex, m / 16 / 16, n) + [m / 16 % 16] + [m % 16];
    assert Expand(Hex, d / 16, 1) == [d / 16 % 16];
    assert Expand(Hex, d, 2) == [d / 16 % 16, d % 16];
  }

  lemma {:induction false} CharsAppend(a: seq<nat>, b: seq<nat>)
    requires AllBelow(Hex, a) && AllBelow(Hex, b)
    ensures AllBelow(Hex, a + b) && Chars(a + b) == Chars(a) + Chars(b)
  {
  }

  lemma {:induction false} ExpandOfBytes(bytes: seq<byte>)
    ensures Chars(Expand(Hex, Value(Byte, bytes), 2 * |bytes|)) == BytesHex(bytes)
  {
    hide *;
    BytesUnfold(bytes);
    if bytes != [] {
      var n := |bytes| - 1;
      var v, d := Value(Byte, bytes[..n]), bytes[n];
      ExpandOfBytes(bytes[..n]);
      ByteIsTwoDigits(v, d, 2 * n);
      CharsAppend(Expand(Hex, v, 2 * n), Expand(Hex, d, 2));
    }
  }

  lemma {:induction false} WordOfBytes(host: Host, bytes: seq<byte>)
    requires |bytes| == 8
    ensures Value(Byte, bytes) < TWO_64
    ensures WordHex(host, ToLe(host, Value(Byte, bytes))) == BytesHex(bytes)
  {
    WordSizes();
    ExpandOfBytes(bytes);
    assert AllBelow(Byte, bytes);
    ValueBound(Byte, bytes);
    ToLeTwice(host, Value(Byte, bytes));
  }

  lemma {:induction false} FourWords(value: seq<byte>)
    requires |value| == 32
    ensures BytesHex(value)
            == BytesHex(value[0..8]) + BytesHex(value[8..16]) + BytesHex(value[16..24]) + BytesHex(value[24..32])
  {
    var a, b, c, d := value[0..8], value[8..16], value[16..24], value[24..32];
    BytesHexAppend(a, b); BytesHexAppend(a + b, c); BytesHexAppend(a + b + c, d);
    assert a + b + c + d == value;
  }

  /** The hash whose canonical text is the given bytes in order. */
  method FromBeBytes(host: Host, value: seq<byte>) returns (h: DataHash)
    requires |value| == 32
    ensures ToHex(host, h) == BytesHex(value)
  {
    hide WordHex, BytesHex, ToLe, Value;
    var words := new u64[4](_ => 0);
    var idx := 0;
    while idx < 4
      invariant 0 <= idx <= 4
      invariant forall j :: 0 <= j < idx ==> WordHex(host, words[j]) == BytesHex(value[8 * j..8 * j + 8])
    {
      var chunk := value[8 * idx..8 * idx + 8];
      WordOfBytes(host, chunk);
      words[idx] := ToLe(host, Value(Byte, chunk));
      idx := idx + 1;
    }
    h := DataHash(words[0], words[1], words[2], words[3]);
    FourWords(value);
  }

  // ---------------------------------------------------------------- keys

  datatype Key = Key(prefix: string, hash: DataHash)

  function PrintKey(host: Host, k: Key): (s: string) {
    k.prefix + "/" + ToHex(host, k.hash)
  }

  /** The position of the last slash, if any. */
  function LastSlash(s: string): (i: int)
    ensures -1 <= i < |s|
    ensures i >= 0 ==> s[i] == '/'
    ensures forall j :: i < j < |s| ==> s[j] != '/'
  {
    if s == "" then -1
    else if s[|s| - 1] == '/' then |s| - 1
    else LastSlash(s[..|s| - 1])
  }

  lemma {:induction false} LastSlashUnique(s: string, i: int)
    requires 0 <= i < |s| && s[i] == '/' && forall j :: i < j < |s| ==> s[j] != '/'
    ensures LastSlash(s) == i
  {
  }

  function ParseKey(host: Host, s: string): (r: Option<Key>) {
    var i := LastSlash(s);
    if i < 0 then None
    else
      match FromHex(host, s[i + 1..])
      case None => None
      case Some(h) => Some(Key(s[..i], h))
  }

  /** Every key comes back from its text, whatever slashes its prefix holds. */
  lemma {:induction false} ParseKeyUndoesPrintKey(host: Host, k: Key)
    ensures ParseKey(host, PrintKey(host, k)) == Some(k)
  {
    hide ToHex, FromHex;
    var t := ToHex(host, k.hash);
    var s := PrintKey(host, k);
    FromHexUndoesToHex(host, k.hash);
    ToHexIsHex(host, k.hash);
    assert forall j :: |k.prefix| < j < |s| ==> s[j] == t[j - |k.prefix| - 1];
    LastSlashUnique(s, |k.prefix|);
    assert s[|k.prefix| + 1..] == t && s[..|k.prefix|] == k.prefix;
  }

  predicate KeyShaped(s: string) {
    |s| >= 65 && s[|s| - 65] == '/' && AllHex(s[|s| - 64..])
  }

  lemma {:induction false} KeyShapedSlash(s: string)
    requires KeyShaped(s)
    ensures LastSlash(s) == |s| - 65
  {
    var t := s[|s| - 64..];
    assert forall j :: |s| - 65 < j < |s| ==> s[j] == t[j - |s| + 64];
    LastSlashUnique(s, |s| - 65);
  }

  /** Whatever parses prints back as itself, up to the case of the 64 hash digits. */
  lemma {:induction false} PrintKeyUndoesParseKey(host: Host, s: string)
    ensures ParseKey(host, s).Some? <==> KeyShaped(s)
    ensures ParseKey(host, s).Some? ==>
              PrintKey(host, ParseKey(host, s).value) == s[..|s| - 64] + Lower(s[|s| - 64..])
  {
    hide ToHex, FromHex;
    if KeyShaped(s) {
      KeyShapedSlash(s);
    }
    var i := LastSlash(s);
    if i >= 0 {
      var tail := s[i + 1..];
      ToHexUndoesFromHex(host, tail);
      if FromHex(host, tail).Some? {
        assert i == |s| - 65 && s[|s| - 64..] == tail;
        assert s[..i] + "/" == s[..i + 1];
      }
    }
  }
}
