/**
  What the parser promises, stated over the shapes of its input: each grammar form of a
  time field, the day-name forms, and the order in which ParseString reports errors.
*/
module CronProperties {
  import opened Wrappers
  import opened Text
  import opened Decimal
  import opened Runs
  import opened Cron

  // ---------------------------------------------------------------------------
  // Small facts about the strings the lemmas build
  // ---------------------------------------------------------------------------

  lemma DigitsOnly(s: string)
    requires AllDigits(s)
    ensures AllTimeChars(s) && '-' !in s && '/' !in s && ',' !in s
  {
  }

  lemma TimeCharsConcat(a: string, b: string)
    requires AllTimeChars(a) && AllTimeChars(b)
    ensures AllTimeChars(a + b)
  {
    forall i | 0 <= i < |a + b|
      ensures IsTimeChar((a + b)[i])
    {
      if i >= |a| {
        assert (a + b)[i] == b[i - |a|];
      }
    }
  }

  lemma DayNameCharsConcat(a: string, b: string)
    requires AllDayNameChars(a) && AllDayNameChars(b)
    ensures AllDayNameChars(a + b)
  {
    forall i | 0 <= i < |a + b|
      ensures IsDayNameChar((a + b)[i])
    {
      if i >= |a| {
        assert (a + b)[i] == b[i - |a|];
      }
    }
  }

  /** `x + [c] + y` splits on `c` into `x` and `y` when neither contains `c`. */
  lemma SplitTwo(x: string, c: char, y: string)
    requires c !in x && c !in y
    ensures Split(x + [c] + y, [c]) == [x, y]
  {
    SplitCharAt(x, c, y);
    SplitCharNone(y, c);
  }

  /** Every element of a strided selection is an element of the sequence. */
  lemma {:induction false} StridedSubset<T>(s: seq<T>, start: nat, step: nat)
    requires step >= 1
    ensures forall t | t in Strided(s, start, step) :: t in s
    decreases |s| - start
  {
    if start < |s| {
      StridedSubset(s, start + step, step);
    }
  }

  /** The tokens of a run inside [min, max) read back as numbers inside [min, max). */
  lemma ValuesWithin(lo: int, hi: int, min: int, max: int)
    requires min <= lo && hi <= max
    ensures forall t | t in Values(lo, hi) :: ParseInt(t).Some? && min <= ParseInt(t).value < max
  {
    ValuesDecode(lo, hi);
    forall t | t in Values(lo, hi)
      ensures ParseInt(t).Some? && min <= ParseInt(t).value < max
    {
      var k :| 0 <= k < |Values(lo, hi)| && Values(lo, hi)[k] == t;
    }
  }

  /** A field with no trailing comma, a `/` and only allowed characters is in step form. */
  lemma DispatchStep(v: string, e: ParseError, min: int, max: int)
    requires |v| > 0 && v[|v| - 1] != ',' && AllTimeChars(v) && '/' in v
    ensures ParseTime(v, e, min, max) == ParseStep(v, e, min, max)
  {
    TrimRightCommasKeeps(v);
    assert v != "*";
  }

  /** A field with no trailing comma, a `-`, no `/` and only allowed characters is in range form. */
  lemma DispatchRange(v: string, e: ParseError, min: int, max: int)
    requires |v| > 0 && v[|v| - 1] != ',' && AllTimeChars(v) && '/' !in v && '-' in v
    ensures ParseTime(v, e, min, max) == ParseRange(v, e, min, max)
  {
    TrimRightCommasKeeps(v);
    assert v != "*";
  }

  // ---------------------------------------------------------------------------
  // parseTime: the wildcard
  // ---------------------------------------------------------------------------

  /** `*` (after trailing commas are dropped) lists the whole domain: max - min tokens, the k-th reading as min + k. */
  lemma WildcardExpandsDomain(raw: string, e: ParseError, min: int, max: int)
    requires TrimRightCommas(raw) == "*"
    ensures ParseTime(raw, e, min, max) == Ok(Values(min, max))
    ensures var r := ParseTime(raw, e, min, max).value;
      && |r| == (if min < max then max - min else 0)
      && forall k | 0 <= k < |r| :: ParseInt(r[k]) == Some(min + k)
  {
    assert AllTimeChars("*");
    ValuesDecode(min, max);
  }

  /** An empty field, or one with a character outside `0-9 , * - /`, fails with the field's error. */
  lemma RejectsEmptyOrForeign(raw: string, e: ParseError, min: int, max: int)
    ensures ParseTime(raw, e, min, max).Ok? ==>
      |TrimRightCommas(raw)| > 0 && AllTimeChars(TrimRightCommas(raw))
  {
  }

  // ---------------------------------------------------------------------------
  // parseTime: the step form
  // ---------------------------------------------------------------------------

  /**
    `x/y` with one slash: the left side `x` is ignored; a divisor that is not an integer
    fails; a divisor of at least 1 keeps every y-th value of the domain.
  */
  lemma StepForm(x: string, y: string, e: ParseError, min: int, max: int)
    requires AllTimeChars(x) && AllTimeChars(y) && '/' !in x && '/' !in y
    requires |y| == 0 || y[|y| - 1] != ','
    ensures ParseTime(x + "/" + y, e, min, max) ==
      match ParseInt(y)
      case None => Err(e)
      case Some(n) =>
        if n >= 1 then Ok(Strided(Values(min, max), 0, n))
        else if min < max then Err(e)
        else Ok([])
  {
    var v := x + "/" + y;
    assert v[|v| - 1] != ',';
    TimeCharsConcat(x, "/");
    TimeCharsConcat(x + "/", y);
    assert v[|x|] == '/';
    DispatchStep(v, e, min, max);
    SplitTwo(x, '/', y);
  }

  /**
    `x/N` with N >= 1 over [min, max): the k-th token is min + k*N, and there is one for
    each k with min + k*N < max. So a step of 15 over [0, 60) gives 0, 15, 30, 45.
  */
  lemma StepEveryNth(x: string, n: nat, e: ParseError, min: int, max: int)
    requires AllTimeChars(x) && '/' !in x && n >= 1
    ensures ParseTime(x + "/" + FormatNat(n), e, min, max).Ok?
    ensures var r := ParseTime(x + "/" + FormatNat(n), e, min, max).value;
      && (forall k: nat :: k < |r| <==> min + k * n < max)
      && (forall k: nat | k < |r| :: r[k] == FormatInt(min + k * n))
  {
    var y := FormatNat(n);
    DigitsOnly(y);
    StepForm(x, y, e, min, max);
    ParseFormat(n);
    assert ParseInt(y) == Some(n);
    var r := Strided(Values(min, max), 0, n);
    assert ParseTime(x + "/" + y, e, min, max) == Ok(r);
    StridedValues(min, max, n);
  }

  /** The k-th element of the strided domain is min + k*n, for each k with min + k*n < max. */
  lemma StridedValues(min: int, max: int, n: nat)
    requires n >= 1
    ensures var r := Strided(Values(min, max), 0, n);
      && (forall k: nat :: k < |r| <==> min + k * n < max)
      && (forall k: nat | k < |r| :: r[k] == FormatInt(min + k * n))
  {
    forall k: nat
      ensures k < |Strided(Values(min, max), 0, n)| <==> min + k * n < max
      ensures k < |Strided(Values(min, max), 0, n)| ==>
        Strided(Values(min, max), 0, n)[k] == FormatInt(min + k * n)
    {
      StridedValueAt(min, max, n, k);
    }
  }

  lemma StridedValueAt(min: int, max: int, n: nat, k: nat)
    requires n >= 1
    ensures k < |Strided(Values(min, max), 0, n)| <==> min + k * n < max
    ensures k < |Strided(Values(min, max), 0, n)| ==>
      Strided(Values(min, max), 0, n)[k] == FormatInt(min + k * n)
  {
    var all := Values(min, max);
    var i := k * n;
    StridedAt(all, 0, n, k);
    assert 0 + k * n == i;
    assert i < |all| <==> min + i < max;
    if i < |all| {
      assert all[i] == FormatInt(min + i);
    }
  }

  /** More than one `/` fails with the field's error, whatever surrounds them. */
  lemma TooManySlashes(raw: string, e: ParseError, min: int, max: int)
    requires CountChar(TrimRightCommas(raw), '/') >= 2
    ensures ParseTime(raw, e, min, max) == Err(e)
  {
    SplitCharParts(TrimRightCommas(raw), '/');
  }

  // ---------------------------------------------------------------------------
  // parseTime: the range form
  // ---------------------------------------------------------------------------

  /**
    `x-y` with digit strings x and y (leading zeros allowed, as strconv.ParseInt allows
    them), A and B their values: fails unless A >= min and B + 1 <= max. Then A <= B gives
    A..B ascending, and A > B wraps round: A..max-1 followed by min..B (with no check that
    A < max).
  */
  lemma RangeExpansion(x: string, y: string, e: ParseError, min: int, max: int)
    requires |x| > 0 && |y| > 0 && AllDigits(x) && AllDigits(y)
    ensures ParseInt(x).Some? && ParseInt(y).Some?
    ensures var a, b := ParseInt(x).value, ParseInt(y).value;
      ParseTime(x + "-" + y, e, min, max) ==
        if a < min || b + 1 > max then Err(e)
        else if a <= b then Ok(Values(a, b + 1))
        else Ok(Values(a, max) + Values(min, b + 1))
  {
    var v := x + "-" + y;
    DigitsOnly(x);
    DigitsOnly(y);
    assert v[|v| - 1] == y[|y| - 1];
    TimeCharsConcat(x, "-");
    TimeCharsConcat(x + "-", y);
    assert v[|x|] == '-';
    DispatchRange(v, e, min, max);
    SplitTwo(x, '-', y);
    ParseDigits(x);
    ParseDigits(y);
  }

  /** The range form for operands written as FormatInt writes them. */
  lemma NumericRange(a: nat, b: nat, e: ParseError, min: int, max: int)
    ensures ParseTime(FormatNat(a) + "-" + FormatNat(b), e, min, max) ==
      if a < min || b + 1 > max then Err(e)
      else if a <= b then Ok(Values(a, b + 1))
      else Ok(Values(a, max) + Values(min, b + 1))
  {
    RangeExpansion(FormatNat(a), FormatNat(b), e, min, max);
    ParseFormat(a);
    ParseFormat(b);
  }

  /**
    A range `x-y` of digit strings whose values A and B satisfy min <= A <= B < max lists
    exactly B - A + 1 tokens, the k-th reading as A + k.
  */
  lemma RangeLength(x: string, y: string, a: int, b: int, e: ParseError, min: int, max: int)
    requires AllDigits(x) && AllDigits(y) && ParseInt(x) == Some(a) && ParseInt(y) == Some(b)
    requires min <= a <= b < max
    ensures var r := Values(a, b + 1);
      && ParseTime(x + "-" + y, e, min, max) == Ok(r)
      && |r| == b - a + 1
      && forall k | 0 <= k < |r| :: ParseInt(r[k]) == Some(a + k)
  {
    RangeAscending(x, y, a, b, e, min, max);
    ValuesDecode(a, b + 1);
  }

  lemma RangeAscending(x: string, y: string, a: int, b: int, e: ParseError, min: int, max: int)
    requires AllDigits(x) && AllDigits(y)
    requires ParseInt(x) == Some(a) && ParseInt(y) == Some(b) && min <= a <= b < max
    ensures ParseTime(x + "-" + y, e, min, max) == Ok(Values(a, b + 1))
  {
    DigitsOnly(x);
    DigitsOnly(y);
    assert |y| > 0 && y[|y| - 1] in y;
    RangeOfTwo(x, y, e, min, max);
    AscendingRange(x + "-" + y, a, b, e, min, max);
  }

  lemma AscendingRange(v: string, a: int, b: int, e: ParseError, min: int, max: int)
    requires '-' in v && |Split(v, "-")| >= 2
    requires ParseInt(Split(v, "-")[0]) == Some(a) && ParseInt(Split(v, "-")[1]) == Some(b)
    requires min <= a <= b < max
    ensures ParseRange(v, e, min, max) == Ok(Values(a, b + 1))
  {
  }

  /** The wrapped range is the domain read circularly from A, for A inside the domain. */
  lemma WrapIsCircular(a: int, b: int, min: int, max: int)
    requires min <= b < a < max
    ensures Values(a, max) + Values(min, b + 1) ==
      seq(max - a + b + 1 - min, k => FormatInt(min + (a - min + k) % (max - min)))
  {
    var w := Values(a, max) + Values(min, b + 1);
    var c := seq(max - a + b + 1 - min, k => FormatInt(min + (a - min + k) % (max - min)));
    forall k | 0 <= k < |w|
      ensures w[k] == c[k]
    {
      WrapAt(a, b, min, max, k);
    }
  }

  /** The k-th token of the wrapped range A-B is min + (A - min + k) mod (max - min). */
  lemma WrapAt(a: int, b: int, min: int, max: int, k: int)
    requires min <= b < a < max && 0 <= k < max - a + b + 1 - min
    ensures |Values(a, max) + Values(min, b + 1)| == max - a + b + 1 - min
    ensures (Values(a, max) + Values(min, b + 1))[k] == FormatInt(min + (a - min + k) % (max - min))
  {
    var head, tail := Values(a, max), Values(min, b + 1);
    assert |head| == max - a && |tail| == b + 1 - min;
    if k < max - a {
      assert (head + tail)[k] == head[k];
      WrapHead(a, min, max, k);
    } else {
      assert (head + tail)[k] == tail[k - (max - a)];
      WrapTail(a, b, min, max, k);
    }
  }

  lemma WrapHead(a: int, min: int, max: int, k: int)
    requires min < a < max && 0 <= k < max - a
    ensures Values(a, max)[k] == FormatInt(min + (a - min + k) % (max - min))
  {
    ModNoWrap(a - min + k, max - min);
    assert min + (a - min + k) % (max - min) == a + k;
  }

  lemma WrapTail(a: int, b: int, min: int, max: int, k: int)
    requires min <= b < a < max && max - a <= k < max - a + b + 1 - min
    ensures Values(min, b + 1)[k - (max - a)] == FormatInt(min + (a - min + k) % (max - min))
  {
    ModOneWrap(a - min + k, max - min);
    assert min + (a - min + k) % (max - min) == min + (k - (max - a));
  }

  lemma ModNoWrap(x: int, n: int)
    requires 0 <= x < n
    ensures x % n == x
  {
  }

  lemma ModOneWrap(x: int, n: int)
    requires 0 < n <= x < 2 * n
    ensures x % n == x - n
  {
    assert (x - n) % n == x - n;
  }

  /**
    A left operand that is not a number (`1,2-5`, `-5`) silently reads as 0, whatever the
    right operand is: the second ParseInt overwrites the error of the first.
  */
  lemma BadLeftOperandReadsAsZero(x: string, y: string, e: ParseError, min: int, max: int)
    requires AllTimeChars(x) && AllTimeChars(y)
    requires '-' !in x && '/' !in x && '-' !in y && '/' !in y
    requires |y| == 0 || y[|y| - 1] != ','
    requires ParseInt(x).None?
    ensures ParseTime(x + "-" + y, e, min, max) == ParseTime("0" + "-" + y, e, min, max)
  {
    assert AllTimeChars("0");
    RangeOfTwo(x, y, e, min, max);
    RangeOfTwo("0", y, e, min, max);
    LeftOperandZero(x, y, e, min, max);
  }

  lemma LeftOperandZero(x: string, y: string, e: ParseError, min: int, max: int)
    requires '-' !in x && '-' !in y && ParseInt(x).None?
    requires Split(x + "-" + y, "-") == [x, y] && Split("0" + "-" + y, "-") == ["0", y]
    ensures ParseRange(x + "-" + y, e, min, max) == ParseRange("0" + "-" + y, e, min, max)
  {
    var v, w := x + "-" + y, "0" + "-" + y;
    assert v[|x|] == '-' && w[1] == '-';
    ParseDigits("0");
    assert DigitsValue("0") == 0;
    RangeReadsLeftAsZero(v, w, e, min, max);
  }

  /** A range whose left operand does not parse computes what the left operand 0 computes. */
  lemma RangeReadsLeftAsZero(v: string, w: string, e: ParseError, min: int, max: int)
    requires '-' in v && '-' in w && |Split(v, "-")| >= 2 && |Split(w, "-")| >= 2
    requires ParseInt(Split(v, "-")[0]).None? && ParseInt(Split(w, "-")[0]) == Some(0)
    requires Split(v, "-")[1] == Split(w, "-")[1]
    ensures ParseRange(v, e, min, max) == ParseRange(w, e, min, max)
  {
  }

  /** `x-y` with plain operands is in range form and splits into exactly x and y. */
  lemma RangeOfTwo(x: string, y: string, e: ParseError, min: int, max: int)
    requires AllTimeChars(x) && AllTimeChars(y)
    requires '-' !in x && '/' !in x && '-' !in y && '/' !in y
    requires |y| == 0 || y[|y| - 1] != ','
    ensures ParseTime(x + "-" + y, e, min, max) == ParseRange(x + "-" + y, e, min, max)
    ensures Split(x + "-" + y, "-") == [x, y]
  {
    var v := x + "-" + y;
    TimeCharsAround(x, '-', y);
    assert v[|v| - 1] != ',';
    assert v[|x|] == '-';
    DispatchRange(v, e, min, max);
    SplitTwo(x, '-', y);
  }

  /** A right operand that is not a number (`5-`, `5-*`) fails with the field's error. */
  lemma BadRightOperandFails(x: string, y: string, e: ParseError, min: int, max: int)
    requires AllTimeChars(x) && AllTimeChars(y)
    requires '-' !in x && '/' !in x && '-' !in y && '/' !in y
    requires |y| == 0 || y[|y| - 1] != ','
    requires ParseInt(y).None?
    ensures ParseTime(x + "-" + y, e, min, max) == Err(e)
  {
    var v := x + "-" + y;
    assert v[|v| - 1] != ',';
    TimeCharsConcat(x, "-");
    TimeCharsConcat(x + "-", y);
    assert v[|x|] == '-';
    DispatchRange(v, e, min, max);
    SplitTwo(x, '-', y);
  }

  /** The range form reads only the first two operands. */
  lemma RangeReadsTwoOperands(v: string, w: string, e: ParseError, min: int, max: int)
    requires '-' in v && '-' in w && |Split(v, "-")| >= 2 && |Split(w, "-")| >= 2
    requires Split(v, "-")[0] == Split(w, "-")[0] && Split(v, "-")[1] == Split(w, "-")[1]
    ensures ParseRange(v, e, min, max) == ParseRange(w, e, min, max)
  {
  }

  /** Only the first two operands of a range count: `x-y-z` is `x-y`. */
  lemma RangeIgnoresExtraOperands(x: string, y: string, z: string, e: ParseError, min: int, max: int)
    requires AllTimeChars(x) && AllTimeChars(y) && AllTimeChars(z)
    requires '-' !in x && '-' !in y && '/' !in x && '/' !in y && '/' !in z
    requires |y| == 0 || y[|y| - 1] != ','
    requires |z| == 0 || z[|z| - 1] != ','
    ensures ParseTime(x + "-" + y + "-" + z, e, min, max) == ParseTime(x + "-" + y, e, min, max)
  {
    var w := x + "-" + y;
    var v := w + "-" + z;
    TimeCharsAround(x, '-', y);
    TimeCharsAround(w, '-', z);
    assert v[|v| - 1] != ',' && w[|w| - 1] != ',';
    assert v[|x|] == '-' && w[|x|] == '-';
    DispatchRange(v, e, min, max);
    DispatchRange(w, e, min, max);
    SplitThree(x, y, z, '-');
    SplitTwo(x, '-', y);
    RangeReadsTwoOperands(v, w, e, min, max);
  }

  /**
    A middle operand that is not a number (`5--3`, `5-1,-3`) fails with the field's error,
    even where a trailing comma on it would have been trimmed in `x-y`.
  */
  lemma BadMiddleOperandFails(x: string, y: string, z: string, e: ParseError, min: int, max: int)
    requires AllTimeChars(x) && AllTimeChars(y) && AllTimeChars(z)
    requires '-' !in x && '-' !in y && '/' !in x && '/' !in y && '/' !in z
    requires |z| == 0 || z[|z| - 1] != ','
    requires ParseInt(y).None?
    ensures ParseTime(x + "-" + y + "-" + z, e, min, max) == Err(e)
  {
    var w := x + "-" + y;
    var v := w + "-" + z;
    TimeCharsAround(x, '-', y);
    TimeCharsAround(w, '-', z);
    assert v[|v| - 1] != ',';
    assert v[|x|] == '-';
    DispatchRange(v, e, min, max);
    SplitThree(x, y, z, '-');
  }

  lemma TimeCharsAround(x: string, c: char, y: string)
    requires AllTimeChars(x) && IsTimeChar(c) && AllTimeChars(y)
    ensures AllTimeChars(x + [c] + y)
  {
    TimeCharsConcat(x, [c]);
    TimeCharsConcat(x + [c], y);
  }

  lemma SplitThree(x: string, y: string, z: string, c: char)
    requires c !in x && c !in y
    ensures var parts := Split(x + [c] + y + [c] + z, [c]);
      |parts| >= 2 && parts[0] == x && parts[1] == y
  {
    var yz := y + [c] + z;
    assert x + [c] + y + [c] + z == x + [c] + yz;
    SplitCharAt(x, c, yz);
    SplitCharAt(y, c, z);
    var parts := [x] + ([y] + Split(z, [c]));
    assert parts[0] == x && parts[1] == y;
  }

  // ---------------------------------------------------------------------------
  // parseTime: lists and single values
  // ---------------------------------------------------------------------------

  /**
    A field with a comma and neither `/` nor `-` is returned as its comma-separated pieces,
    unchanged: they join back to the field, none holds a comma, and nothing is checked
    against the domain.
  */
  lemma ListVerbatim(raw: string, e: ParseError, min: int, max: int)
    requires var v := TrimRightCommas(raw);
      AllTimeChars(v) && ',' in v && '/' !in v && '-' !in v
    ensures ParseTime(raw, e, min, max).Ok?
    ensures var v := TrimRightCommas(raw); var r := ParseTime(raw, e, min, max).value;
      && Join(r, ",") == v
      && |r| == CountChar(v, ',') + 1
      && forall p | p in r :: ',' !in p
  {
    SplitCharParts(TrimRightCommas(raw), ',');
    JoinSplit(TrimRightCommas(raw), ",");
  }

  /** Any other field is returned as the single token it is, with no numeric or domain check. */
  lemma SingleVerbatim(raw: string, e: ParseError, min: int, max: int)
    requires var v := TrimRightCommas(raw);
      AllTimeChars(v) && |v| > 0 && v != "*" && '/' !in v && '-' !in v && ',' !in v
    ensures ParseTime(raw, e, min, max) == Ok([TrimRightCommas(raw)])
  {
  }

  /**
    The forms that expand (`*`, step, range) only ever produce tokens that read back as
    numbers of the domain: a wrapped range with A >= max contributes nothing from A.
  */
  lemma ExpandedTokensInDomain(raw: string, e: ParseError, min: int, max: int)
    requires var v := TrimRightCommas(raw); v == "*" || '/' in v || '-' in v
    requires ParseTime(raw, e, min, max).Ok?
    ensures forall t | t in ParseTime(raw, e, min, max).value ::
      ParseInt(t).Some? && min <= ParseInt(t).value < max
  {
    var v := TrimRightCommas(raw);
    if v == "*" {
      ValuesWithin(min, max, min, max);
    } else if '/' in v {
      assert ParseTime(raw, e, min, max) == ParseStep(v, e, min, max);
      StepInDomain(v, e, min, max);
    } else {
      assert ParseTime(raw, e, min, max) == ParseRange(v, e, min, max);
      RangeInDomain(v, e, min, max);
    }
  }

  lemma StepInDomain(v: string, e: ParseError, min: int, max: int)
    requires '/' in v && ParseStep(v, e, min, max).Ok?
    ensures forall t | t in ParseStep(v, e, min, max).value ::
      ParseInt(t).Some? && min <= ParseInt(t).value < max
  {
    var parts := Split(v, "/");
    SplitCharParts(v, '/');
    if ParseInt(parts[1]).Some? && ParseInt(parts[1]).value >= 1 {
      StridedSubset(Values(min, max), 0, ParseInt(parts[1]).value);
      ValuesWithin(min, max, min, max);
    }
  }

  lemma RangeInDomain(v: string, e: ParseError, min: int, max: int)
    requires '-' in v && ParseRange(v, e, min, max).Ok?
    ensures forall t | t in ParseRange(v, e, min, max).value ::
      ParseInt(t).Some? && min <= ParseInt(t).value < max
  {
    var parts := Split(v, "-");
    SplitCharParts(v, '-');
    var left := match ParseInt(parts[0]) case Some(n) => n case None => 0;
    var right := ParseInt(parts[1]).value;
    if left > right {
      ValuesWithin(left, max, min, max);
      ValuesWithin(min, right + 1, min, max);
    } else {
      ValuesWithin(left, right + 1, min, max);
    }
  }

  // ---------------------------------------------------------------------------
  // parseDayOfWeek and convertStringToNumber
  // ---------------------------------------------------------------------------

  lemma DayNameShape(i: nat)
    requires i < |DayNames|
    ensures |DayNames[i]| == 3 && AllDayNameChars(DayNames[i]) && '-' !in DayNames[i]
    ensures forall k | 0 <= k < 3 :: IsLetter(DayNames[i][k])
  {
  }

  /** A single day name becomes the one-token expansion of its number (`WED` is `2`). */
  lemma DayNameSingle(i: nat, e: ParseError, min: int, max: int)
    requires i < |DayNames|
    ensures ParseDayOfWeek(DayNames[i], e, min, max) == Ok([FormatNat(i)])
  {
    DayNameShape(i);
    TrimRightCommasKeeps(DayNames[i]);
  }

  /**
    `X-Y` made of letters: both must be day names, else the day-name error (not the
    field's); if they are, it is the numeric range of their numbers.
  */
  lemma DayNameRangeForm(x: string, y: string, e: ParseError, min: int, max: int)
    requires AllDayNameChars(x) && AllDayNameChars(y) && '-' !in x && '-' !in y
    ensures ParseDayOfWeek(x + "-" + y, e, min, max) ==
      if x in DayNames && y in DayNames
      then ParseTime(DayNumber(x).value + "-" + DayNumber(y).value, e, min, max)
      else Err(InvalidDayString)
  {
    var v := x + "-" + y;
    assert v[|x|] == '-';
    assert AllDayNameChars("-");
    DayNameCharsConcat(x, "-");
    DayNameCharsConcat(x + "-", y);
    assert v[|v| - 1] != ',';
    TrimRightCommasKeeps(v);
    SplitTwo(x, '-', y);
  }

  /** For day names the range is the numeric range of their positions (`MON-FRI` is 0..4). */
  lemma DayNameRange(i: nat, j: nat, e: ParseError, min: int, max: int)
    requires i < |DayNames| && j < |DayNames|
    ensures ParseDayOfWeek(DayNames[i] + "-" + DayNames[j], e, min, max) ==
      if i < min || j + 1 > max then Err(e)
      else if i <= j then Ok(Values(i, j + 1))
      else Ok(Values(i, max) + Values(min, j + 1))
  {
    DayNameShape(i);
    DayNameShape(j);
    DayNameRangeForm(DayNames[i], DayNames[j], e, min, max);
    NumericRange(i, j, e, min, max);
  }

  /** Only the first two names of a day range count: `X-Y-Z` is `X-Y`. */
  lemma DayNameRangeIgnoresExtraOperands(x: string, y: string, z: string, e: ParseError, min: int, max: int)
    requires AllDayNameChars(x) && AllDayNameChars(y) && AllDayNameChars(z)
    requires '-' !in x && '-' !in y
    ensures ParseDayOfWeek(x + "-" + y + "-" + z, e, min, max) == ParseDayOfWeek(x + "-" + y, e, min, max)
  {
    var w := x + "-" + y;
    var v := w + "-" + z;
    DayNameCharsAround(x, y);
    DayNameCharsAround(w, z);
    assert v[|x|] == '-' && w[|x|] == '-';
    assert v[|v| - 1] != ',' && w[|w| - 1] != ',';
    SplitThree(x, y, z, '-');
    SplitTwo(x, '-', y);
    DayRangeReadsTwoNames(v, w, e, min, max);
  }

  lemma DayNameCharsAround(x: string, y: string)
    requires AllDayNameChars(x) && AllDayNameChars(y)
    ensures AllDayNameChars(x + "-" + y)
  {
    assert AllDayNameChars("-");
    DayNameCharsConcat(x, "-");
    DayNameCharsConcat(x + "-", y);
  }

  lemma DayRangeReadsTwoNames(v: string, w: string, e: ParseError, min: int, max: int)
    requires AllDayNameChars(v) && AllDayNameChars(w) && '-' in v && '-' in w
    requires v[|v| - 1] != ',' && w[|w| - 1] != ','
    requires |Split(v, "-")| >= 2 && |Split(w, "-")| >= 2
    requires Split(v, "-")[0] == Split(w, "-")[0] && Split(v, "-")[1] == Split(w, "-")[1]
    ensures ParseDayOfWeek(v, e, min, max) == ParseDayOfWeek(w, e, min, max)
  {
    TrimRightCommasKeeps(v);
    TrimRightCommasKeeps(w);
  }

  /** A lone word that is not a day name fails with the day-name error. */
  lemma UnknownDayName(x: string, e: ParseError, min: int, max: int)
    requires |x| > 0 && AllDayNameChars(x) && '-' !in x && x !in DayNames
    ensures ParseDayOfWeek(x, e, min, max) == Err(InvalidDayString)
  {
    assert x[|x| - 1] != ',';
    TrimRightCommasKeeps(x);
  }

  /**
    Trailing commas never matter: a field is parsed as if they were not there, by both
    parseTime and parseDayOfWeek.
  */
  lemma TrailingCommasIgnored(raw: string, e: ParseError, min: int, max: int)
    ensures ParseTime(raw, e, min, max) == ParseTime(TrimRightCommas(raw), e, min, max)
    ensures ParseDayOfWeek(raw, e, min, max) == ParseDayOfWeek(TrimRightCommas(raw), e, min, max)
  {
    TrimRightCommasIdempotent(raw);
  }

  /**
    The day-of-week field is rejected with the field's own error (not the day-name error)
    when, after trailing commas are dropped, it is empty or holds a character outside
    `[a-zA-Z0-9,*-/]`. Otherwise it is never rejected with the field's error before
    reaching a day name or ParseTime.
  */
  lemma DayOfWeekRejectsEmptyOrForeign(raw: string, e: ParseError, min: int, max: int)
    ensures var v := TrimRightCommas(raw);
      (|v| == 0 || !AllDayFieldChars(v)) ==> ParseDayOfWeek(raw, e, min, max) == Err(e)
    ensures var v := TrimRightCommas(raw);
      ParseDayOfWeek(raw, e, min, max).Ok? ==> |v| > 0 && AllDayFieldChars(v)
  {
  }

  /** Anything that is not letters and hyphens only is a numeric field over the same domain. */
  lemma DayOfWeekNumericFallback(raw: string, e: ParseError, min: int, max: int)
    requires !AllDayNameChars(TrimRightCommas(raw))
    ensures ParseDayOfWeek(raw, e, min, max) == ParseTime(raw, e, min, max)
  {
    TrimRightCommasIdempotent(raw);
  }

  // ---------------------------------------------------------------------------
  // ParseString
  // ---------------------------------------------------------------------------

  /** The count error is returned exactly when there is not one argument of six `", "`-separated fields. */
  lemma CountError(args: seq<string>)
    ensures ParseString(args) == Err(Count) <==>
      |args| != 1 || |Split(args[0], ", ")| != 6
  {
  }

  /**
    With six fields, the result is the error of the first failing field, in the order
    minute, hour, day of month, month, day of week, command; success needs all six.
  */
  lemma FirstError(args: seq<string>)
    requires |args| == 1 && |Split(args[0], ", ")| == 6
    ensures var f := Split(args[0], ", ");
      && (ParseString(args) == Err(Minute) <==> ParseTime(f[0], Minute, 0, 60).Err?)
      && (ParseString(args) == Err(Hour) <==>
            ParseTime(f[0], Minute, 0, 60).Ok? && ParseTime(f[1], Hour, 0, 24).Err?)
      && (ParseString(args) == Err(DayOfMonth) <==>
            ParseTime(f[0], Minute, 0, 60).Ok? && ParseTime(f[1], Hour, 0, 24).Ok? &&
            ParseTime(f[2], DayOfMonth, 1, 32).Err?)
      && (ParseString(args) == Err(Month) <==>
            ParseTime(f[0], Minute, 0, 60).Ok? && ParseTime(f[1], Hour, 0, 24).Ok? &&
            ParseTime(f[2], DayOfMonth, 1, 32).Ok? && ParseTime(f[3], Month, 1, 13).Err?)
      && ((ParseString(args) == Err(DayOfWeek) || ParseString(args) == Err(InvalidDayString)) <==>
            ParseTime(f[0], Minute, 0, 60).Ok? && ParseTime(f[1], Hour, 0, 24).Ok? &&
            ParseTime(f[2], DayOfMonth, 1, 32).Ok? && ParseTime(f[3], Month, 1, 13).Ok? &&
            ParseDayOfWeek(f[4], DayOfWeek, 0, 7).Err?)
      && (ParseTime(f[0], Minute, 0, 60).Ok? && ParseTime(f[1], Hour, 0, 24).Ok? &&
          ParseTime(f[2], DayOfMonth, 1, 32).Ok? && ParseTime(f[3], Month, 1, 13).Ok? &&
          ParseDayOfWeek(f[4], DayOfWeek, 0, 7).Err? ==>
            ParseString(args) == Err(ParseDayOfWeek(f[4], DayOfWeek, 0, 7).error))
      && (ParseString(args) == Err(Command) <==>
            ParseTime(f[0], Minute, 0, 60).Ok? && ParseTime(f[1], Hour, 0, 24).Ok? &&
            ParseTime(f[2], DayOfMonth, 1, 32).Ok? && ParseTime(f[3], Month, 1, 13).Ok? &&
            ParseDayOfWeek(f[4], DayOfWeek, 0, 7).Ok? && !AllCommandChars(f[5]))
  {
  }

  /**
    With six fields, the line parses exactly when each field does, and the schedule holds
    each field's expansion with the command unchanged.
  */
  lemma ParseSplitFields(args: seq<string>)
    requires |args| == 1 && |Split(args[0], ", ")| == 6
    ensures var f, r := Split(args[0], ", "), ParseString(args);
      && (r.Ok? <==>
            ParseTime(f[0], Minute, 0, 60).Ok? && ParseTime(f[1], Hour, 0, 24).Ok? &&
            ParseTime(f[2], DayOfMonth, 1, 32).Ok? && ParseTime(f[3], Month, 1, 13).Ok? &&
            ParseDayOfWeek(f[4], DayOfWeek, 0, 7).Ok? && AllCommandChars(f[5]))
      && (r.Ok? ==> r.value == CronSchedule(
            ParseTime(f[0], Minute, 0, 60).value,
            ParseTime(f[1], Hour, 0, 24).value,
            ParseTime(f[2], DayOfMonth, 1, 32).value,
            ParseTime(f[3], Month, 1, 13).value,
            ParseDayOfWeek(f[4], DayOfWeek, 0, 7).value,
            [f[5]]))
  {
    var f := Split(args[0], ", ");
    assert f[5..] == [f[5]];
  }

  /**
    Six fields joined with `", "`, none containing `", "` itself, are parsed field by field:
    each expansion is that field's own, and the command comes back unchanged.
  */
  lemma ParseJoinedFields(fields: seq<string>)
    requires |fields| == 6 && forall i | 0 <= i < 6 :: Clean(fields[i], ", ")
    ensures var r := ParseString([Join(fields, ", ")]);
      && (r.Ok? <==>
            ParseTime(fields[0], Minute, 0, 60).Ok? && ParseTime(fields[1], Hour, 0, 24).Ok? &&
            ParseTime(fields[2], DayOfMonth, 1, 32).Ok? && ParseTime(fields[3], Month, 1, 13).Ok? &&
            ParseDayOfWeek(fields[4], DayOfWeek, 0, 7).Ok? && AllCommandChars(fields[5]))
      && (r.Ok? ==> r.value == CronSchedule(
            ParseTime(fields[0], Minute, 0, 60).value,
            ParseTime(fields[1], Hour, 0, 24).value,
            ParseTime(fields[2], DayOfMonth, 1, 32).value,
            ParseTime(fields[3], Month, 1, 13).value,
            ParseDayOfWeek(fields[4], DayOfWeek, 0, 7).value,
            [fields[5]]))
  {
    SplitJoin(fields, ", ");
    assert fields[5..] == [fields[5]];
  }
}
