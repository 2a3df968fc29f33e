/** Small value types and string helpers shared by the modules of the model. */
module Common {

  /** The conventional optional value (Python's `None`, JavaScript's `null`). */
  datatype Option<+T> = None | Some(value: T) {
    function GetOr(default: T): T {
      match this
      case Some(v) => v
      case None => default
    }
  }

  /** A value or the error that was raised instead of returning it. */
  datatype Result<+T, +E> = Ok(value: T) | Err(error: E)

  /** The elements of `s` that satisfy `p`, in their order (a list comprehension with a condition). */
  function Filter<T(!new)>(s: seq<T>, p: T -> bool): (r: seq<T>)
    ensures |r| <= |s|
    ensures forall x :: x in r <==> x in s && p(x)
    ensures forall i :: 0 <= i < |r| ==> p(r[i])
  {
    if s == [] then []
    else
      assert forall x :: x in s <==> x == s[0] || x in s[1..];
      (if p(s[0]) then [s[0]] else []) + Filter(s[1..], p)
  }

  /** A condition that holds on every element filters nothing out. */
  lemma {:induction false} FilterKeepsAll<T(!new)>(s: seq<T>, p: T -> bool)
    requires forall x :: x in s ==> p(x)
    ensures Filter(s, p) == s
  {
    if s != [] {
      var tail := s[1..];
      assert forall x :: x in tail ==> x in s;
      FilterKeepsAll(tail, p);
      assert p(s[0]);
      assert s == [s[0]] + tail;
    }
  }

  /** Positions below `n`, strictly increasing: where a subsequence is taken from. */
  predicate Ascending(idx: seq<int>, n: int) {
    (forall k :: 0 <= k < |idx| ==> 0 <= idx[k] < n) && forall k, l :: 0 <= k < l < |idx| ==> idx[k] < idx[l]
  }

  /** Filtering keeps the chosen elements in their order: it picks them at ascending positions. */
  lemma {:induction false} FilterInOrder<T(!new)>(s: seq<T>, p: T -> bool) returns (idx: seq<int>)
    ensures Ascending(idx, |s|) && |idx| == |Filter(s, p)|
    ensures forall k :: 0 <= k < |idx| ==> Filter(s, p)[k] == s[idx[k]]
  {
    if s == [] {
      idx := [];
    } else {
      var t := FilterInOrder(s[1..], p);
      FilterUnfold(s, p);
      idx := PicksAfterHead(s, if p(s[0]) then [s[0]] else [], Filter(s[1..], p), t);
    }
  }

  /** Positions in the tail, moved one place on, with the head's position in front when it is kept. */
  lemma PicksAfterHead<T>(s: seq<T>, head: seq<T>, rest: seq<T>, t: seq<int>) returns (idx: seq<int>)
    requires s != [] && (head == [] || head == [s[0]])
    requires Ascending(t, |s| - 1) && |t| == |rest| && forall k :: 0 <= k < |t| ==> rest[k] == s[1..][t[k]]
    ensures Ascending(idx, |s|) && |idx| == |head + rest|
    ensures forall k :: 0 <= k < |idx| ==> (head + rest)[k] == s[idx[k]]
  {
    var shifted := Shifted(t, |s| - 1);
    forall k | 0 <= k < |t| ensures rest[k] == s[shifted[k]] {
      assert s[1..][t[k]] == s[t[k] + 1];
    }
    if head == [] {
      idx := shifted;
      assert head + rest == rest;
    } else {
      idx := [0] + shifted;
      PrependZero(shifted, |s|);
      forall k | 0 <= k < |idx| ensures (head + rest)[k] == s[idx[k]] {
        if k > 0 { assert (head + rest)[k] == rest[k - 1] && idx[k] == shifted[k - 1]; }
      }
    }
  }

  lemma FilterUnfold<T(!new)>(s: seq<T>, p: T -> bool)
    requires s != []
    ensures Filter(s, p) == (if p(s[0]) then [s[0]] else []) + Filter(s[1..], p)
  {
  }

  /** Every position moved one place on. */
  function Shifted(t: seq<int>, n: int): (r: seq<int>)
    requires Ascending(t, n)
    ensures |r| == |t| && Ascending(r, n + 1) && forall k :: 0 <= k < |t| ==> r[k] == t[k] + 1 && r[k] >= 1
  {
    seq(|t|, k requires 0 <= k < |t| => t[k] + 1)
  }

  lemma PrependZero(t: seq<int>, n: int)
    requires n >= 1 && Ascending(t, n) && forall k :: 0 <= k < |t| ==> t[k] >= 1
    ensures Ascending([0] + t, n)
  {
    var r := [0] + t;
    assert forall k :: 1 <= k < |r| ==> r[k] == t[k - 1];
  }

  /** `map(f, s)` */
  function Map<T, U>(s: seq<T>, f: T -> U): (r: seq<U>)
    ensures |r| == |s| && forall i :: 0 <= i < |s| ==> r[i] == f(s[i])
  {
    seq(|s|, i requires 0 <= i < |s| => f(s[i]))
  }

  /** ASCII upper-casing of one character; other characters are unchanged. */
  function UpperChar(c: char): char {
    if 'a' <= c <= 'z' then (c as int - 32) as char else c
  }

  predicate IsLowerAscii(c: char) {
    'a' <= c <= 'z'
  }

  /** `str.upper()` / `toUpperCase()` restricted to ASCII letters. */
  function Upper(s: string): (r: string)
    ensures |r| == |s|
    ensures forall i :: 0 <= i < |s| ==> r[i] == UpperChar(s[i])
  {
    if s == [] then [] else [UpperChar(s[0])] + Upper(s[1..])
  }

  lemma UpperIdempotent(s: string)
    ensures Upper(Upper(s)) == Upper(s)
  {
    assert forall i :: 0 <= i < |s| ==> UpperChar(UpperChar(s[i])) == UpperChar(s[i]);
  }

  predicate StartsWith(s: string, prefix: string) {
    |prefix| <= |s| && s[..|prefix|] == prefix
  }

  /** `sep.join(parts)` */
  function Join(parts: seq<string>, sep: string): string {
    if parts == [] then ""
    else if |parts| == 1 then parts[0]
    else parts[0] + sep + Join(parts[1..], sep)
  }

  function DigitChar(d: nat): char
    requires d < 10
  {
    ('0' as int + d) as char
  }

  predicate IsDigit(c: char) {
    '0' <= c <= '9'
  }

  /** Decimal rendering of a natural number, without leading zeros. */
  function NatToString(n: nat): (s: string)
    ensures |s| >= 1
    ensures forall i :: 0 <= i < |s| ==> IsDigit(s[i])
    decreases n
  {
    if n < 10 then [DigitChar(n)] else NatToString(n / 10) + [DigitChar(n % 10)]
  }

  predicate AllDigits(s: string) {
    forall i :: 0 <= i < |s| ==> IsDigit(s[i])
  }

  /** The number a string of decimal digits spells, leading zeros allowed. */
  function DigitsValue(s: string): nat
    requires AllDigits(s)
  {
    if s == [] then 0 else DigitsValue(s[..|s| - 1]) * 10 + (s[|s| - 1] as int - '0' as int)
  }

  /** Reading back the decimal rendering of a number gives the number. */
  lemma {:induction false} DigitsOfNatToString(n: nat)
    ensures AllDigits(NatToString(n)) && DigitsValue(NatToString(n)) == n
    decreases n
  {
    var s := NatToString(n);
    if n >= 10 {
      DigitsOfNatToString(n / 10);
      assert s[..|s| - 1] == NatToString(n / 10);
    }
  }

  /** `str(i)` / template-literal rendering of an integer. */
  function IntToString(i: int): string {
    if i < 0 then "-" + NatToString(-i) else NatToString(i)
  }

  /** Lexicographic order by code unit (byte-wise collation). */
  predicate StrLt(a: string, b: string) {
    if a == [] then b != []
    else if b == [] then false
    else if a[0] != b[0] then a[0] < b[0]
    else StrLt(a[1..], b[1..])
  }

  lemma {:induction false} StrLtIrreflexive(a: string)
    ensures !StrLt(a, a)
  {
    if a != [] { StrLtIrreflexive(a[1..]); }
  }

  lemma {:induction false} StrLtTransitive(a: string, b: string, c: string)
    requires StrLt(a, b) && StrLt(b, c)
    ensures StrLt(a, c)
  {
    if a != [] && b != [] && c != [] && a[0] == b[0] && b[0] == c[0] {
      StrLtTransitive(a[1..], b[1..], c[1..]);
    }
  }

  lemma {:induction false} StrLtTotal(a: string, b: string)
    requires a != b
    ensures StrLt(a, b) || StrLt(b, a)
  {
    if a != [] && b != [] && a[0] == b[0] {
      assert a == [a[0]] + a[1..] && b == [b[0]] + b[1..];
      StrLtTotal(a[1..], b[1..]);
    }
  }

  lemma StrLtAsymmetric(a: string, b: string)
    requires StrLt(a, b)
    ensures !StrLt(b, a)
  {
    if StrLt(b, a) {
      StrLtTransitive(a, b, a);
      StrLtIrreflexive(a);
    }
  }
}
