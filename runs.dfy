/**
  The two counting loops of the parser: `getValues`, which lists the decimal strings of a
  half-open interval, and the loop of the step form, which keeps every n-th of them.
  Each loop is a method proved equal to a specification function (`Values`, `Strided`);
  the parser's functions use those specifications.
*/
module Runs {
  import opened Wrappers
  import opened Text
  import opened Decimal

  /** The decimal strings of lo, lo+1, ..., hi-1, ascending; empty when lo >= hi. */
  function Values(lo: int, hi: int): seq<string>
  {
    seq(if lo < hi then hi - lo else 0, k => FormatInt(lo + k))
  }

  /** getValues: appends FormatInt(i) for i from min up to max - 1. */
  method GetValues(min: int, max: int) returns (values: seq<string>)
    ensures values == Values(min, max)
  {
    values := [];
    var i := min;
    while i < max
      invariant min <= i && (i <= max || i == min)
      invariant values == Values(min, i)
    {
      values := values + [FormatInt(i)];
      i := i + 1;
    }
  }

  /** The elements of `s` at positions start, start + step, start + 2*step, ... */
  function Strided<T>(s: seq<T>, start: nat, step: nat): seq<T>
    requires step >= 1
    decreases |s| - start
  {
    if start >= |s| then [] else [s[start]] + Strided(s, start + step, step)
  }

  /**
    The step loop: lists the domain, then appends the element at index 0, step, 2*step, ...
    while the index is inside it.
  */
  method StepValues(min: int, max: int, step: int) returns (picked: seq<string>)
    requires step >= 1
    ensures picked == Strided(Values(min, max), 0, step)
  {
    var all := GetValues(min, max);
    picked := [];
    var i := 0;
    while i < |all|
      invariant 0 <= i
      invariant picked + Strided(all, i, step) == Strided(all, 0, step)
      decreases |all| - i
    {
      assert Strided(all, i, step) == [all[i]] + Strided(all, i + step, step);
      picked := picked + [all[i]];
      i := i + step;
    }
  }

  /** Every element of Values(lo, hi) reads back as its position plus lo. */
  lemma ValuesDecode(lo: int, hi: int)
    ensures |Values(lo, hi)| == if lo < hi then hi - lo else 0
    ensures forall k | 0 <= k < |Values(lo, hi)| :: ParseInt(Values(lo, hi)[k]) == Some(lo + k)
  {
    forall k | 0 <= k < |Values(lo, hi)|
      ensures ParseInt(Values(lo, hi)[k]) == Some(lo + k)
    {
      ParseFormat(lo + k);
    }
  }

  /** Over non-negative numbers every token is a plain digit string with no leading zero. */
  lemma ValuesCanonical(lo: int, hi: int)
    requires 0 <= lo
    ensures forall t | t in Values(lo, hi) :: |t| >= 1 && AllDigits(t) && (t[0] == '0' ==> t == "0")
  {
    forall t | t in Values(lo, hi)
      ensures |t| >= 1 && AllDigits(t) && (t[0] == '0' ==> t == "0")
    {
      var k :| 0 <= k < |Values(lo, hi)| && Values(lo, hi)[k] == t;
      assert t == FormatInt(lo + k);
      assert lo + k >= 0;
    }
  }

  /** Index k is kept exactly when start + k*step is a position of s, and then it holds s[start + k*step]. */
  lemma {:induction false} StridedAt<T>(s: seq<T>, start: nat, step: nat, k: nat)
    requires step >= 1
    ensures k < |Strided(s, start, step)| <==> start + k * step < |s|
    ensures k < |Strided(s, start, step)| ==> Strided(s, start, step)[k] == s[start + k * step]
    decreases |s| - start
  {
    if start < |s| && k > 0 {
      StridedAt(s, start + step, step, k - 1);
      assert start + step + (k - 1) * step == start + k * step;
    }
  }
}
