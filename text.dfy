/**
  The string operations the parser takes from Go's `strings` and `regexp` packages:
  the character classes of its anchored patterns, `strings.TrimRight(s, ",")`,
  `strings.Split` and its inverse `strings.Join`.
  Every pattern the parser uses has the shape `^[class]*$` (no multi-line flag), so
  "the string matches" is "every character of the string is in the class".
*/
module Text {

  // ---------------------------------------------------------------------------
  // Character classes
  // ---------------------------------------------------------------------------

  predicate IsDigit(c: char) {
    '0' <= c <= '9'
  }

  predicate IsLetter(c: char) {
    'a' <= c <= 'z' || 'A' <= c <= 'Z'
  }

  /** `[0-9\,\*\-\/]`, the alphabet of a numeric time field. */
  predicate IsTimeChar(c: char) {
    IsDigit(c) || c == ',' || c == '*' || c == '-' || c == '/'
  }

  /** `[a-zA-Z0-9\,\*\-\/]`, the alphabet of the day-of-week field. */
  predicate IsDayFieldChar(c: char) {
    IsLetter(c) || IsTimeChar(c)
  }

  /** `[a-zA-Z\-]`, the alphabet of day names and day-name ranges. */
  predicate IsDayNameChar(c: char) {
    IsLetter(c) || c == '-'
  }

  /** `[a-zA-Z 0-9\,\-\/\.]`, the alphabet of the command. */
  predicate IsCommandChar(c: char) {
    IsLetter(c) || c == ' ' || IsDigit(c) || c == ',' || c == '-' || c == '/' || c == '.'
  }

  predicate AllDigits(s: string) {
    forall i | 0 <= i < |s| :: IsDigit(s[i])
  }

  predicate AllTimeChars(s: string) {
    forall i | 0 <= i < |s| :: IsTimeChar(s[i])
  }

  predicate AllDayFieldChars(s: string) {
    forall i | 0 <= i < |s| :: IsDayFieldChar(s[i])
  }

  predicate AllDayNameChars(s: string) {
    forall i | 0 <= i < |s| :: IsDayNameChar(s[i])
  }

  predicate AllCommandChars(s: string) {
    forall i | 0 <= i < |s| :: IsCommandChar(s[i])
  }

  /** Number of occurrences of `c` in `s`. */
  function CountChar(s: string, c: char): nat
  {
    if |s| == 0 then 0 else (if s[0] == c then 1 else 0) + CountChar(s[1..], c)
  }

  // ---------------------------------------------------------------------------
  // strings.TrimRight(s, ",")
  // ---------------------------------------------------------------------------

  /**
    Removes every trailing comma. The three postconditions determine the result:
    it is a prefix of `s`, it does not end in a comma, and what was cut off is all commas.
  */
  function TrimRightCommas(s: string): (r: string)
    ensures |r| <= |s| && r == s[..|r|]
    ensures |r| == 0 || r[|r| - 1] != ','
    ensures forall i | |r| <= i < |s| :: s[i] == ','
    decreases |s|
  {
    if |s| > 0 && s[|s| - 1] == ',' then TrimRightCommas(s[..|s| - 1]) else s
  }

  /** A string that does not end in a comma is left alone; in particular trimming is idempotent. */
  lemma TrimRightCommasKeeps(s: string)
    requires |s| == 0 || s[|s| - 1] != ','
    ensures TrimRightCommas(s) == s
  {
  }

  lemma TrimRightCommasIdempotent(s: string)
    ensures TrimRightCommas(TrimRightCommas(s)) == TrimRightCommas(s)
  {
    TrimRightCommasKeeps(TrimRightCommas(s));
  }

  // ---------------------------------------------------------------------------
  // strings.Split and strings.Join
  // ---------------------------------------------------------------------------

  /** strings.Join: the parts with `sep` between consecutive ones. */
  function Join(parts: seq<string>, sep: string): string
  {
    if |parts| == 0 then ""
    else if |parts| == 1 then parts[0]
    else parts[0] + sep + Join(parts[1..], sep)
  }

  /**
    strings.Split for a non-empty separator: scans left to right and cuts at each
    non-overlapping occurrence of `sep`. A string without `sep` (the empty string
    included) gives one part.
  */
  function Split(s: string, sep: string): (parts: seq<string>)
    requires |sep| > 0
    ensures |parts| >= 1
    decreases |s|
  {
    if |s| < |sep| then [s]
    else if s[..|sep|] == sep then [""] + Split(s[|sep|..], sep)
    else
      var rest := Split(s[1..], sep);
      [[s[0]] + rest[0]] + rest[1..]
  }

  /** Joining the parts of a split with the same separator gives back the string. */
  lemma {:induction false} JoinSplit(s: string, sep: string)
    requires |sep| > 0
    ensures Join(Split(s, sep), sep) == s
    decreases |s|
  {
    if |s| < |sep| {
    } else if s[..|sep|] == sep {
      JoinSplit(s[|sep|..], sep);
      JoinSplitAtSeparator(s, sep);
    } else {
      JoinSplit(s[1..], sep);
      JoinSplitPastChar(s, sep);
    }
  }

  /** The step of JoinSplit where `s` starts with the separator. */
  lemma JoinSplitAtSeparator(s: string, sep: string)
    requires |sep| > 0 && |s| >= |sep| && s[..|sep|] == sep
    requires Join(Split(s[|sep|..], sep), sep) == s[|sep|..]
    ensures Join(Split(s, sep), sep) == s
  {
    var rest := Split(s[|sep|..], sep);
    SplitAtSeparator(s, sep);
    JoinCons("", rest, sep);
    TakeDrop(s, |sep|);
    assert "" + sep == sep;
  }

  lemma TakeDrop(s: string, n: nat)
    requires n <= |s|
    ensures s[..n] + s[n..] == s
  {
  }

  lemma SplitAtSeparator(s: string, sep: string)
    requires |sep| > 0 && |s| >= |sep| && s[..|sep|] == sep
    ensures Split(s, sep) == [""] + Split(s[|sep|..], sep)
  {
  }

  /** A part in front of at least one more is followed by the separator. */
  lemma JoinCons(p: string, parts: seq<string>, sep: string)
    requires |parts| >= 1
    ensures Join([p] + parts, sep) == p + sep + Join(parts, sep)
  {
    assert ([p] + parts)[1..] == parts;
  }

  /** The step of JoinSplit where the first character of `s` joins the first part. */
  lemma JoinSplitPastChar(s: string, sep: string)
    requires |sep| > 0 && |s| >= |sep| && s[..|sep|] != sep
    requires Join(Split(s[1..], sep), sep) == s[1..]
    ensures Join(Split(s, sep), sep) == s
  {
    var rest := Split(s[1..], sep);
    SplitPastChar(s, sep);
    JoinPrepend(s[0], rest, sep);
    assert s == [s[0]] + s[1..];
  }

  lemma SplitPastChar(s: string, sep: string)
    requires |sep| > 0 && |s| >= |sep| && s[..|sep|] != sep
    ensures Split(s, sep) == [[s[0]] + Split(s[1..], sep)[0]] + Split(s[1..], sep)[1..]
  {
  }

  /** Putting a character in front of the first part puts it in front of the joined string. */
  lemma JoinPrepend(c: char, parts: seq<string>, sep: string)
    requires |parts| >= 1
    ensures Join([[c] + parts[0]] + parts[1..], sep) == [c] + Join(parts, sep)
  {
    var front := [[c] + parts[0]] + parts[1..];
    if |parts| > 1 {
      assert front[1..] == parts[1..];
    }
  }

  /** `sep` occurs in `s` at position `j`. */
  predicate OccursAt(s: string, sep: string, j: int) {
    0 <= j && j + |sep| <= |s| && s[j..j + |sep|] == sep
  }

  /** No occurrence of `sep` starts inside `p`, even one that runs on into a following `sep`. */
  predicate Clean(p: string, sep: string) {
    forall j | 0 <= j < |p| :: !OccursAt(p + sep, sep, j)
  }

  /** Dropping the first character keeps a string clean. */
  lemma CleanTail(p: string, sep: string)
    requires |p| > 0 && Clean(p, sep)
    ensures Clean(p[1..], sep)
  {
    assert p[1..] + sep == (p + sep)[1..];
    forall j | 0 <= j < |p[1..]|
      ensures !OccursAt(p[1..] + sep, sep, j)
    {
      assert !OccursAt(p + sep, sep, j + 1);
      assert (p[1..] + sep)[j..j + |sep|] == (p + sep)[j + 1..j + 1 + |sep|];
    }
  }

  /** A part that is clean is cut off intact, together with the separator after it. */
  lemma {:induction false} SplitClean(a: string, sep: string, rest: string)
    requires |sep| > 0 && Clean(a, sep)
    ensures Split(a + sep + rest, sep) == [a] + Split(rest, sep)
    decreases |a|
  {
    var s := a + sep + rest;
    if |a| == 0 {
      assert s == sep + rest;
      assert s[..|sep|] == sep;
      assert s[|sep|..] == rest;
    } else {
      assert s[..|sep|] == (a + sep)[0..|sep|];
      assert !OccursAt(a + sep, sep, 0);
      CleanTail(a, sep);
      SplitClean(a[1..], sep, rest);
      assert s[1..] == a[1..] + sep + rest;
      assert [a[0]] + a[1..] == a;
    }
  }

  /** A clean string is not cut at all. */
  lemma {:induction false} SplitWhole(p: string, sep: string)
    requires |sep| > 0 && Clean(p, sep)
    ensures Split(p, sep) == [p]
    decreases |p|
  {
    if |p| >= |sep| {
      assert p[..|sep|] == (p + sep)[0..|sep|];
      assert !OccursAt(p + sep, sep, 0);
      CleanTail(p, sep);
      SplitWhole(p[1..], sep);
      assert [p[0]] + p[1..] == p;
    }
  }

  /** Splitting undoes joining, as long as no part contains (or runs into) the separator. */
  lemma {:induction false} SplitJoin(parts: seq<string>, sep: string)
    requires |sep| > 0 && |parts| >= 1
    requires forall i | 0 <= i < |parts| :: Clean(parts[i], sep)
    ensures Split(Join(parts, sep), sep) == parts
    decreases |parts|
  {
    if |parts| == 1 {
      SplitWhole(parts[0], sep);
    } else {
      SplitJoin(parts[1..], sep);
      SplitClean(parts[0], sep, Join(parts[1..], sep));
      assert [parts[0]] + parts[1..] == parts;
    }
  }

  /** For a one-character separator, being clean is not containing it. */
  lemma CleanChar(p: string, c: char)
    requires c !in p
    ensures Clean(p, [c])
  {
    forall j | 0 <= j < |p|
      ensures !OccursAt(p + [c], [c], j)
    {
      assert (p + [c])[j..j + 1] == [p[j]];
    }
  }

  /** Splitting on one character: one more part than there are occurrences, none of them containing it. */
  lemma {:induction false} SplitCharParts(s: string, c: char)
    ensures |Split(s, [c])| == CountChar(s, c) + 1
    ensures forall p | p in Split(s, [c]) :: c !in p
    ensures c in s <==> CountChar(s, c) >= 1
    decreases |s|
  {
    if |s| >= 1 {
      SplitCharParts(s[1..], c);
      assert s == [s[0]] + s[1..];
      if s[..1] == [c] {
        assert s[0] == c;
      } else {
        assert s[0] != c;
        var rest := Split(s[1..], [c]);
        assert rest[0] in rest;
        forall p | p in Split(s, [c])
          ensures c !in p
        {
          if p != [s[0]] + rest[0] {
            assert p in rest[1..];
          }
        }
      }
    }
  }

  /** The first two parts of `x + [c] + y`, when neither contains `c`, are `x` and the front of `y`. */
  lemma SplitCharAt(x: string, c: char, y: string)
    requires c !in x
    ensures Split(x + [c] + y, [c]) == [x] + Split(y, [c])
  {
    CleanChar(x, c);
    SplitClean(x, [c], y);
  }

  lemma SplitCharNone(x: string, c: char)
    requires c !in x
    ensures Split(x, [c]) == [x]
  {
    CleanChar(x, c);
    SplitWhole(x, [c]);
  }
}
