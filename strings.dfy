/** The few operations on Python strings that the client and the reconciler rely on:
    `str.startswith`, `str.split(sep, 1)` and `str(int)`. */
module Strings {
  import opened Wrappers

  /** `s.startswith(prefix)`. */
  predicate StartsWith(s: string, prefix: string) {
    |prefix| <= |s| && s[..|prefix|] == prefix
  }

  /** `sep` occurs in `s` starting at index `i`. */
  predicate OccursAt(s: string, sep: string, i: nat) {
    i + |sep| <= |s| && s[i..i + |sep|] == sep
  }

  /** The leftmost index at or after `from` where `sep` occurs, as `str.find` computes it. */
  function Find(s: string, sep: string, from: nat): (r: Option<nat>)
    requires from <= |s|
    ensures r.Some? ==> from <= r.value <= |s| && OccursAt(s, sep, r.value)
    ensures r.Some? ==> forall j: nat :: from <= j < r.value ==> !OccursAt(s, sep, j)
    ensures r.None? ==> forall j: nat :: from <= j <= |s| ==> !OccursAt(s, sep, j)
    decreases |s| - from
  {
    if OccursAt(s, sep, from) then Some(from)
    else if from == |s| then None
    else Find(s, sep, from + 1)
  }

  /** `s.split(sep, 1)`: one part when `sep` does not occur, otherwise the text before its
      leftmost occurrence and the text after it. Python refuses an empty separator. */
  function SplitOnce(s: string, sep: string): (parts: seq<string>)
    requires sep != ""
    ensures 1 <= |parts| <= 2
    ensures |parts| == 1 <==> forall j: nat :: j <= |s| ==> !OccursAt(s, sep, j)
    ensures |parts| == 1 ==> parts[0] == s
    ensures |parts| == 2 ==> parts[0] + sep + parts[1] == s
    ensures |parts| == 2 ==> forall j: nat :: j < |parts[0]| ==> !OccursAt(s, sep, j)
  {
    match Find(s, sep, 0)
    case None => [s]
    case Some(i) =>
      assert s == s[..i] + sep + s[i + |sep|..] by {
        assert s[i..i + |sep|] == sep;
        assert s == s[..i] + s[i..i + |sep|] + s[i + |sep|..];
      }
      [s[..i], s[i + |sep|..]]
  }

  /** When `s` starts with `sep`, splitting once at `sep` yields an empty head and the rest
      of `s`: the reconciler's `assert not ign` can never fail. */
  lemma SplitAtPrefix(s: string, sep: string)
    requires sep != "" && StartsWith(s, sep)
    ensures SplitOnce(s, sep) == ["", s[|sep|..]]
  {
    assert OccursAt(s, sep, 0);
  }

  predicate IsDigit(c: char) {
    '0' <= c <= '9'
  }

  function DigitChar(d: nat): (c: char)
    requires d < 10
    ensures IsDigit(c)
  {
    (('0' as int) + d) as char
  }

  /** `str(n)` for a natural number: its decimal digits, most significant first. */
  function DecimalNat(n: nat): (r: string)
    ensures |r| >= 1
    ensures forall i :: 0 <= i < |r| ==> IsDigit(r[i])
    ensures n >= 10 <==> |r| >= 2
    ensures r[0] == '0' ==> n == 0
    decreases n
  {
    if n < 10 then [DigitChar(n)] else DecimalNat(n / 10) + [DigitChar(n % 10)]
  }

  /** The number a string of decimal digits denotes. */
  function DigitsValue(s: string): nat
    requires forall i :: 0 <= i < |s| ==> IsDigit(s[i])
    decreases |s|
  {
    if s == [] then 0
    else
      assert IsDigit(s[|s| - 1]);
      DigitsValue(s[..|s| - 1]) * 10 + ((s[|s| - 1] as int) - ('0' as int))
  }

  /** Reading back the digits `str(n)` writes gives `n`. */
  lemma {:induction false} DecimalRoundTrip(n: nat)
    ensures DigitsValue(DecimalNat(n)) == n
  {
    var r := DecimalNat(n);
    if n >= 10 {
      DecimalRoundTrip(n / 10);
      assert r[..|r| - 1] == DecimalNat(n / 10);
    }
  }

  /** `str(i)` for any integer: a minus sign before the digits of a negative number. */
  function DecimalInt(i: int): (r: string)
    ensures r != []
    ensures i < 0 <==> r[0] == '-'
  {
    if i < 0 then "-" + DecimalNat(-i) else DecimalNat(i)
  }

  /** The digits of `str(i)` after the optional sign read back as the magnitude of `i`, with
      no leading zero unless `i` is 0. */
  lemma DecimalIntRoundTrip(i: int)
    ensures i >= 0 ==> DigitsValue(DecimalInt(i)) == i
    ensures i < 0 ==> DecimalInt(i)[1..] == DecimalNat(-i) && DigitsValue(DecimalInt(i)[1..]) == -i
    ensures i < 0 ==> DecimalInt(i)[1] != '0'
    ensures i > 0 ==> DecimalInt(i)[0] != '0'
  {
    if i < 0 {
      DecimalRoundTrip(-i);
      assert DecimalInt(i)[1..] == DecimalNat(-i);
    } else {
      DecimalRoundTrip(i);
    }
  }
}
