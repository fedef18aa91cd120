/** Fixed-width positional notation, most significant digit first.

The hash printer (radix 16), the big-endian byte constructor and the cache file header
(radix 256) and the Content-Range numbers (radix 10) all rest on the two inverse laws
proved here. */
module Digits {

  /** Naming the radixes keeps every division a division by a constant. */
  datatype Radix = Decimal | Hex | Byte {
    function Base(): (b: nat)
      ensures b > 1
    {
      match this
      case Decimal => 10
      case Hex => 16
      case Byte => 256
    }

    function Times(n: nat): nat {
      match this
      case Decimal => 10 * n
      case Hex => 16 * n
      case Byte => 256 * n
    }

    function Quot(n: nat): (q: nat)
      ensures n > 0 ==> q < n
    {
      match this
      case Decimal => n / 10
      case Hex => n / 16
      case Byte => n / 256
    }

    function Rem(n: nat): (r: nat)
      ensures r < Base() && n == Times(Quot(n)) + r
    {
      match this
      case Decimal => n % 10
      case Hex => n % 16
      case Byte => n % 256
    }
  }

  function Pow(b: Radix, e: nat): (r: nat)
    ensures r > 0
  {
    if e == 0 then 1 else b.Times(Pow(b, e - 1))
  }

  predicate AllBelow(b: Radix, ds: seq<nat>) {
    forall i :: 0 <= i < |ds| ==> ds[i] < b.Base()
  }

  /** The value of a digit string. */
  function Value(b: Radix, ds: seq<nat>): (v: nat) {
    if ds == [] then 0 else b.Times(Value(b, ds[..|ds| - 1])) + ds[|ds| - 1]
  }

  /** The last `width` digits of `n`, most significant first. */
  function Expand(b: Radix, n: nat, width: nat): (ds: seq<nat>)
    ensures |ds| == width && AllBelow(b, ds)
  {
    if width == 0 then [] else Expand(b, b.Quot(n), width - 1) + [b.Rem(n)]
  }

  lemma {:induction false} ValueBound(b: Radix, ds: seq<nat>)
    requires AllBelow(b, ds)
    ensures Value(b, ds) < Pow(b, |ds|)
  {
    if ds != [] {
      ValueBound(b, ds[..|ds| - 1]);
    }
  }

  /** Reading back what was written gives the number, provided it fits. */
  lemma {:induction false} ValueOfExpand(b: Radix, n: nat, width: nat)
    requires n < Pow(b, width)
    ensures Value(b, Expand(b, n, width)) == n
  {
    if width > 0 {
      ValueOfExpand(b, b.Quot(n), width - 1);
      assert Expand(b, n, width)[..width - 1] == Expand(b, b.Quot(n), width - 1);
    }
  }

  lemma {:induction false} QuotRem(b: Radix, q: nat, r: nat)
    requires r < b.Base()
    ensures b.Quot(b.Times(q) + r) == q && b.Rem(b.Times(q) + r) == r
  {
    match b
    case Decimal =>
    case Hex =>
    case Byte =>
  }

  /** Writing what was read gives the digits back. */
  lemma {:induction false} ExpandOfValue(b: Radix, ds: seq<nat>)
    requires AllBelow(b, ds)
    ensures Expand(b, Value(b, ds), |ds|) == ds
  {
    if ds != [] {
      ExpandOfValue(b, ds[..|ds| - 1]);
      QuotRem(b, Value(b, ds[..|ds| - 1]), ds[|ds| - 1]);
      assert ds == ds[..|ds| - 1] + [ds[|ds| - 1]];
    }
  }

  function Reverse<T>(s: seq<T>): (r: seq<T>)
    ensures |r| == |s|
    ensures forall i :: 0 <= i < |s| ==> r[i] == s[|s| - 1 - i]
  {
    if s == [] then [] else Reverse(s[1..]) + [s[0]]
  }
}
